/**
 Merging an extracted tree into the normalized one (src/takeout/unpack.ts). Files are moved one by
 one; a file whose name is taken by the same content is dropped, by other content gets a free
 `__dupN` name; whatever fails is left where it is.
*/
module TreeMerge {
  import opened Naming
  import opened Wrappers

  // The file system is flat: a map from absolute paths to files and directories. Every call can fail
  // at any time. `hash` is the digest of the first 64 KiB, any function of those bytes.

  type Path = seq<string>
  type Content = seq<bv8>
  type Hash = Content -> string

  datatype Node = File(content: Content) | Dir

  type Nodes = map<Path, Node>

  const PARTIAL_HASH_BYTES := 64 * 1024

  datatype Fingerprint = Fingerprint(size: nat, hash: string)

  function FingerprintOf(hash: Hash, c: Content): Fingerprint {
    Fingerprint(|c|, hash(if |c| <= PARTIAL_HASH_BYTES then c else c[..PARTIAL_HASH_BYTES]))
  }

  predicate Under(p: Path, root: Path) {
    root <= p
  }

  predicate Apart(a: Path, b: Path) {
    !Under(a, b) && !Under(b, a)
  }

  lemma CommonPath(p: Path, a: Path, b: Path)
    requires Under(p, a) && Under(p, b)
    ensures Under(a, b) || Under(b, a)
  {
    if |a| <= |b| {
      assert b[..|a|] == p[..|a|];
    } else {
      assert a[..|b|] == p[..|b|];
    }
  }

  lemma ChildUnder(a: Path, b: Path, name: string)
    requires Under(a + [name], b + [name])
    ensures Under(a, b)
  {
    assert (a + [name])[..|b|] == a[..|b|] == b;
  }

  lemma ApartChildren(s: Path, t: Path, name: string)
    requires Apart(s, t)
    ensures Apart(s + [name], t + [name])
    ensures forall p :: Under(p, s + [name]) ==> Under(p, s)
    ensures forall p :: Under(p, t + [name]) ==> Under(p, t)
    ensures forall p :: !(Under(p, s) && Under(p, t))
  {
    forall p
      ensures !(Under(p, s) && Under(p, t))
    {
      if Under(p, s) && Under(p, t) {
        CommonPath(p, s, t);
      }
    }
    if Under(s + [name], t + [name]) {
      ChildUnder(s, t, name);
    }
    if Under(t + [name], s + [name]) {
      ChildUnder(t, s, name);
    }
  }

  // ----------------------------------------------------------- what a merge may do

  /** Whatever the calls answer: directories stay, and nothing outside the two trees changes. */
  ghost predicate Framed(pre: Nodes, post: Nodes, s: Path, t: Path) {
    && (forall p :: p in pre && (pre[p].Dir? || !(Under(p, s) || Under(p, t))) ==> p in post && post[p] == pre[p])
    && (forall p :: p in post && !Under(p, t) ==> p in pre && post[p] == pre[p])
  }

  ghost predicate CopyIn(post: Nodes, t: Path, hash: Hash, f: Fingerprint) {
    exists q :: q in post && Under(q, t) && post[q].File? && FingerprintOf(hash, post[q].content) == f
  }

  /** q is p's place in the target tree: the same relative path, with p's name or a `__dupN` of it. */
  ghost predicate Lands(p: Path, q: Path, s: Path, t: Path) {
    && Under(p, s) && Under(q, t) && |p| > |s| && |q| > |t|
    && Parent(q)[|t|..] == Parent(p)[|s|..]
    && (Name(q) == Name(p) || exists k: nat :: Name(q) == Alternative(Name(p), "__dup", k))
  }

  /** A node at q that came from the source tree, or the debris of a file that did. */
  ghost predicate FromSource(pre: Nodes, s: Path, t: Path, q: Path, node: Node, clean: bool) {
    exists p :: p in pre && Lands(p, q, s, t) && Becomes(pre[p], node, clean) && (node.Dir? ==> Name(q) == Name(p))
  }

  /** A node of the source tree is now this one; a file may be so by a copy that failed halfway. */
  predicate Becomes(source: Node, node: Node, clean: bool) {
    source == node || (!clean && source.File? && node.File?)
  }

  /** Nothing outside the source tree changes, so no target file is overwritten. A file of the source
      tree stays, or its fingerprint is in the target tree. What is new is in the target tree, at its
      place: a directory or file of the source tree, or debris of a failed copy of such a file. */
  ghost predicate Merged(pre: Nodes, post: Nodes, clean: bool, s: Path, t: Path, hash: Hash) {
    && (forall p :: p in pre && (pre[p].Dir? || !Under(p, s)) ==> p in post && post[p] == pre[p])
    && (forall p :: p in pre && pre[p].File? && Under(p, s) ==>
          (p in post && post[p] == pre[p]) || CopyIn(post, t, hash, FingerprintOf(hash, pre[p].content)))
    && (forall q :: q in post ==>
          (q in pre && post[q] == pre[q])
          || (q !in pre && Under(q, t) && FromSource(pre, s, t, q, post[q], clean)))
  }

  lemma FramedTrans(a: Nodes, b: Nodes, c: Nodes, s: Path, t: Path)
    requires Framed(a, b, s, t) && Framed(b, c, s, t)
    ensures Framed(a, c, s, t)
  {
  }

  lemma FramedChild(a: Nodes, b: Nodes, s: Path, t: Path, name: string)
    requires Apart(s, t) && Framed(a, b, s + [name], t + [name])
    ensures Framed(a, b, s, t)
  {
    ApartChildren(s, t, name);
  }

  lemma MergedTrans(a: Nodes, b: Nodes, c: Nodes, clean: bool, s: Path, t: Path, hash: Hash)
    requires Apart(s, t) && Merged(a, b, clean, s, t, hash) && Merged(b, c, clean, s, t, hash)
    ensures Merged(a, c, clean, s, t, hash)
  {
    ApartChildren(s, t, "");
    forall p | p in a && a[p].File? && Under(p, s)
      ensures (p in c && c[p] == a[p]) || CopyIn(c, t, hash, FingerprintOf(hash, a[p].content))
    {
      var f := FingerprintOf(hash, a[p].content);
      if !(p in b && b[p] == a[p]) {
        var q :| q in b && Under(q, t) && b[q].File? && FingerprintOf(hash, b[q].content) == f;
        assert q in c && c[q] == b[q];
      }
    }
    forall q | q in c && !(q in a && c[q] == a[q])
      ensures q !in a && Under(q, t) && FromSource(a, s, t, q, c[q], clean)
    {
      if q in b && c[q] == b[q] {
        var p :| p in a && Lands(p, q, s, t) && Becomes(a[p], b[q], clean) && (b[q].Dir? ==> Name(q) == Name(p));
      } else {
        assert q !in b && Under(q, t) && !Under(q, s);
        var p :| p in b && Lands(p, q, s, t) && Becomes(b[p], c[q], clean) && (c[q].Dir? ==> Name(q) == Name(p));
        assert p in a && a[p] == b[p];
      }
    }
  }

  lemma LandsChild(p: Path, q: Path, s: Path, t: Path, name: string)
    requires Lands(p, q, s + [name], t + [name])
    ensures Lands(p, q, s, t)
  {
    assert (s + [name])[|s|] == p[|s|] && (t + [name])[|t|] == q[|t|];
    assert Parent(p)[|s|..] == [name] + Parent(p)[|s| + 1..];
    assert Parent(q)[|t|..] == [name] + Parent(q)[|t| + 1..];
  }

  lemma MergedChild(a: Nodes, b: Nodes, clean: bool, s: Path, t: Path, name: string, hash: Hash)
    requires Apart(s, t) && Merged(a, b, clean, s + [name], t + [name], hash)
    ensures Merged(a, b, clean, s, t, hash)
  {
    ApartChildren(s, t, name);
    forall p | p in a && a[p].File? && Under(p, s)
      ensures (p in b && b[p] == a[p]) || CopyIn(b, t, hash, FingerprintOf(hash, a[p].content))
    {
    }
    forall q | q in b && !(q in a && b[q] == a[q])
      ensures q !in a && Under(q, t) && FromSource(a, s, t, q, b[q], clean)
    {
      assert Under(q, t + [name]);
      var p :| p in a && Lands(p, q, s + [name], t + [name]) && Becomes(a[p], b[q], clean)
               && (b[q].Dir? ==> Name(q) == Name(p));
      LandsChild(p, q, s, t, name);
    }
  }

  // ------------------------------------------------------------- main consequences

  /** Every fingerprint present before is present afterwards: anywhere, whatever moves failed. */
  lemma MergeKeepsFingerprints(pre: Nodes, post: Nodes, clean: bool, s: Path, t: Path, hash: Hash, p: Path)
    requires Merged(pre, post, clean, s, t, hash) && p in pre && pre[p].File?
    ensures exists q :: q in post && post[q].File?
              && FingerprintOf(hash, post[q].content) == FingerprintOf(hash, pre[p].content)
              && (q == p || (Under(p, s) && Under(q, t)))
  {
    var f := FingerprintOf(hash, pre[p].content);
    if !(p in post && post[p] == pre[p]) {
      var q :| q in post && Under(q, t) && post[q].File? && FingerprintOf(hash, post[q].content) == f;
    }
  }

  /** No two different contents share a fingerprint. */
  ghost predicate Separating(nodes: Nodes, hash: Hash) {
    forall p, q ::
      p in nodes && q in nodes && nodes[p].File? && nodes[q].File?
      && FingerprintOf(hash, nodes[p].content) == FingerprintOf(hash, nodes[q].content)
      ==> nodes[p] == nodes[q]
  }

  /** Where the fingerprint tells the files apart and no failed copy left debris, every content is kept. */
  lemma MergeKeepsContents(pre: Nodes, post: Nodes, clean: bool, s: Path, t: Path, hash: Hash, p: Path)
    requires Merged(pre, post, clean, s, t, hash) && p in pre && pre[p].File?
    requires Separating(pre, hash) && clean
    ensures exists q :: q in post && post[q] == pre[p]
  {
    MergeKeepsFingerprints(pre, post, clean, s, t, hash, p);
    var q :| q in post && post[q].File?
      && FingerprintOf(hash, post[q].content) == FingerprintOf(hash, pre[p].content);
    if !(q in pre && post[q] == pre[q]) {
      var origin :| origin in pre && Lands(origin, q, s, t) && pre[origin] == post[q];
    }
  }

  /** No two contents of up to 64 KiB have one digest. */
  ghost predicate InjectiveOnSmall(hash: Hash) {
    forall a: Content, b: Content :: |a| <= 65536 && |b| <= 65536 && hash(a) == hash(b) ==> a == b
  }

  /** With such a digest the fingerprint tells apart any two files of up to 64 KiB. */
  lemma SmallFilesToldApart(hash: Hash, a: Content, b: Content)
    requires InjectiveOnSmall(hash) && |a| <= 65536 && |b| <= 65536
    ensures FingerprintOf(hash, a) == FingerprintOf(hash, b) <==> a == b
  {
  }

  ghost predicate AllSmall(nodes: Nodes) {
    forall p :: p in nodes && nodes[p].File? ==> |nodes[p].content| <= 65536
  }

  /** So of files of up to 64 KiB a merge keeps every content. */
  lemma MergeKeepsSmallFiles(pre: Nodes, post: Nodes, s: Path, t: Path, hash: Hash, p: Path)
    requires Merged(pre, post, true, s, t, hash) && p in pre && pre[p].File?
    requires InjectiveOnSmall(hash) && AllSmall(pre)
    ensures exists q :: q in post && post[q] == pre[p]
  {
    forall a, b | a in pre && b in pre && pre[a].File? && pre[b].File?
                  && FingerprintOf(hash, pre[a].content) == FingerprintOf(hash, pre[b].content)
      ensures pre[a] == pre[b]
    {
      SmallFilesToldApart(hash, pre[a].content, pre[b].content);
    }
    MergeKeepsContents(pre, post, true, s, t, hash, p);
  }

  function Zeros(n: nat): Content {
    seq(n, i => 0)
  }

  /** Past its first 64 KiB the fingerprint sees the length only: for any hash, two files that
      differ there count as the same content, and the one in the source is deleted. */
  lemma LongFilesCollide(hash: Hash, n: nat)
    requires n > 65536
    ensures Zeros(n) != Zeros(n)[n - 1 := 1]
    ensures FingerprintOf(hash, Zeros(n)) == FingerprintOf(hash, Zeros(n)[n - 1 := 1])
  {
    var a, b := Zeros(n), Zeros(n)[n - 1 := 1];
    assert a[n - 1] != b[n - 1];
    assert a[..PARTIAL_HASH_BYTES] == b[..PARTIAL_HASH_BYTES];
  }

  /** When the target is there but its access check fails, a successful move lands on it: the file has
      the source's content, and its own is nowhere. */
  lemma MisreadOverwrites(pre: Nodes, post: Nodes, src: Path, dst: Path, hash: Hash, visible: (nat, Path) -> bool,
                          c: nat)
    requires src in pre && pre[src].File? && dst in pre && src != dst && dst != [] && !visible(c, dst)
    requires Placed(pre, post, src, dst, hash, visible, c)
    requires forall p :: p in pre && p != dst ==> pre[p] != pre[dst]
    ensures dst in post && post[dst] == pre[src] && forall q :: q in post ==> post[q] != pre[dst]
  {
    assert !Seen(pre, visible, c, dst);
  }

  // ------------------------------------------------------------------- single moves

  lemma MoveFrames(pre: Nodes, post: Nodes, clean: bool, src: Path, slot: Path, ok: bool, s: Path, t: Path)
    requires Apart(s, t) && Under(src, s) && Under(slot, t) && src in pre && pre[src].File?
    requires MoveEnds(pre, post, src, slot, ok, clean)
    requires slot in pre && pre[slot].Dir? ==> post == pre
    ensures Framed(pre, post, s, t)
    ensures forall p :: p in pre && Under(p, s) && p != src ==> p in post && post[p] == pre[p]
  {
    ApartChildren(s, t, "");
  }

  lemma MovedMerges(pre: Nodes, src: Path, slot: Path, clean: bool, s: Path, t: Path, hash: Hash)
    requires Apart(s, t) && Lands(src, slot, s, t) && src in pre && pre[src].File? && slot !in pre
    ensures Merged(pre, Moved(pre, src, slot), clean, s, t, hash)
    ensures Merged(pre, pre[slot := pre[src]], clean, s, t, hash)
  {
    ApartChildren(s, t, "");
    var moved := Moved(pre, src, slot);
    assert slot in moved && moved[slot] == pre[src];
  }

  lemma DebrisMerges(pre: Nodes, src: Path, slot: Path, c: Content, clean: bool, s: Path, t: Path, hash: Hash)
    requires Apart(s, t) && Lands(src, slot, s, t) && src in pre && pre[src].File? && slot !in pre && !clean
    ensures Merged(pre, pre[slot := File(c)], clean, s, t, hash)
  {
    assert FromSource(pre, s, t, slot, File(c), clean);
  }

  lemma MoveMerges(pre: Nodes, post: Nodes, clean: bool, src: Path, slot: Path, ok: bool,
                   s: Path, t: Path, hash: Hash)
    requires Apart(s, t) && Lands(src, slot, s, t) && src in pre && pre[src].File? && slot !in pre
    requires MoveEnds(pre, post, src, slot, ok, clean)
    ensures Merged(pre, post, clean, s, t, hash)
  {
    MovedMerges(pre, src, slot, clean, s, t, hash);
    if !ok && post != pre && post != pre[slot := pre[src]] {
      var c := post[slot].content;
      DebrisMerges(pre, src, slot, c, clean, s, t, hash);
    }
  }

  lemma DropMerges(nodes: Nodes, src: Path, dst: Path, clean: bool, s: Path, t: Path, hash: Hash)
    requires Apart(s, t) && Under(src, s) && Under(dst, t)
    requires src in nodes && nodes[src].File? && dst in nodes && nodes[dst].File?
    requires FingerprintOf(hash, nodes[src].content) == FingerprintOf(hash, nodes[dst].content)
    ensures Merged(nodes, nodes - {src}, clean, s, t, hash)
  {
    ApartChildren(s, t, "");
    assert dst in nodes - {src} && (nodes - {src})[dst] == nodes[dst];
  }

  lemma MakeDirMerges(pre: Nodes, src: Path, path: Path, clean: bool, s: Path, t: Path, hash: Hash)
    requires Apart(s, t) && Lands(src, path, s, t) && Name(path) == Name(src)
    requires src in pre && pre[src].Dir? && path !in pre
    ensures Merged(pre, pre[path := Dir], clean, s, t, hash)
    ensures Framed(pre, pre[path := Dir], s, t)
  {
    ApartChildren(s, t, "");
    assert FromSource(pre, s, t, path, Dir, clean);
  }

  lemma EntryLands(s: Path, t: Path, name: string, k: nat)
    ensures Lands(s + [name], t + [name], s, t)
    ensures Slot(t + [name], k) == t + [Alternative(name, "__dup", k)] && Lands(s + [name], Slot(t + [name], k), s, t)
  {
    assert Parent(s + [name]) == s && Parent(t + [name]) == t && Name(t + [name]) == name;
    assert s[|s|..] == t[|t|..] == [];
  }

  lemma UnderChild(p: Path, s: Path, name: string)
    requires Under(p, s + [name])
    ensures |p| > |s| && p[|s|] == name
  {
    assert p[..|s| + 1][|s|] == (s + [name])[|s|];
  }

  /** Other entries of the source directory are not touched by the merge of one. */
  lemma SiblingStays(pre: Nodes, post: Nodes, s: Path, t: Path, name: string, other: string)
    requires Apart(s, t) && Framed(pre, post, s + [name], t + [name]) && other != name && s + [other] in pre
    ensures Unmoved(pre, post, s + [other])
  {
    var p := s + [other];
    ApartChildren(s, t, name);
    assert Under(p, s);
    if Under(p, s + [name]) {
      UnderChild(p, s, name);
    }
  }

  lemma EntryPath(s: Path, name: string, other: string)
    ensures Under(s + [other], s)
    ensures other != name ==> s + [other] != s + [name]
  {
    assert (s + [other])[|s|] == other && (s + [name])[|s|] == name;
  }

  lemma MadeDir(pre: Nodes, post: Nodes, name: string, clean: bool, s: Path, t: Path, hash: Hash)
    requires Apart(s, t)
    requires s + [name] in pre && pre[s + [name]].Dir?
    requires post == pre || (t + [name] !in pre && post == pre[t + [name] := Dir])
    ensures Framed(pre, post, s, t) && Merged(pre, post, clean, s, t, hash)
    ensures forall p :: p in pre ==> Unmoved(pre, post, p)
  {
    if post != pre {
      EntryLands(s, t, name, 0);
      MakeDirMerges(pre, s + [name], t + [name], clean, s, t, hash);
    }
  }

  /** What the handling of one entry achieves. */
  ghost predicate EntryDone(pre: Nodes, post: Nodes, clean: bool, s: Path, t: Path, name: string, hash: Hash,
                            sound: bool, works: bool) {
    && Framed(pre, post, s, t)
    && (sound ==> Merged(pre, post, clean, s, t, hash))
    && (forall other :: other != name && s + [other] in pre ==> Unmoved(pre, post, s + [other]))
    && (works && Ready(pre, s, t) ==> NoFiles(post, s + [name]))
  }

  lemma ChildMerged(pre: Nodes, mid: Nodes, post: Nodes, clean: bool, s: Path, t: Path,
                    name: string, hash: Hash, sound: bool, works: bool)
    requires Apart(s, t) && s + [name] in pre && pre[s + [name]].Dir?
    requires Framed(pre, mid, s, t) && Framed(mid, post, s + [name], t + [name])
    requires Merged(pre, mid, clean, s, t, hash)
    requires sound ==> Merged(mid, post, clean, s + [name], t + [name], hash)
    requires forall p :: p in pre ==> Unmoved(pre, mid, p)
    requires works && Ready(mid, s + [name], t + [name]) ==> NoFiles(post, s + [name])
    ensures EntryDone(pre, post, clean, s, t, name, hash, sound, works)
  {
    FramedChild(mid, post, s, t, name);
    FramedTrans(pre, mid, post, s, t);
    if sound {
      MergedChild(mid, post, clean, s, t, name, hash);
      MergedTrans(pre, mid, post, clean, s, t, hash);
    }
    forall other | other != name && s + [other] in pre
      ensures Unmoved(pre, post, s + [other])
    {
      assert Unmoved(pre, mid, s + [other]);
      SiblingStays(mid, post, s, t, name, other);
    }
    if Ready(pre, s, t) {
      ReadyKept(pre, mid, clean, s, t, hash);
      ReadyChild(mid, s, t, name);
    }
  }

  lemma FileMerged(pre: Nodes, post: Nodes, clean: bool, s: Path, t: Path, name: string, hash: Hash,
                   sound: bool, works: bool)
    requires Apart(s, t) && Framed(pre, post, s, t) && s + [name] in pre && pre[s + [name]].File?
    requires sound ==> Merged(pre, post, clean, s, t, hash)
    requires forall p :: p in pre && Under(p, s) && p != s + [name] ==> p in post && post[p] == pre[p]
    requires works && (t + [name] in pre ==> pre[t + [name]].File?) ==> s + [name] !in post
    ensures EntryDone(pre, post, clean, s, t, name, hash, sound, works)
  {
    forall other | other != name && s + [other] in pre
      ensures Unmoved(pre, post, s + [other])
    {
      EntryPath(s, name, other);
    }
    if works && Ready(pre, s, t) {
      MirrorChild(pre, s, t, name);
      NothingUnderFile(pre, post, s, t, name);
    }
  }

  /** The state between two entries of the loop; `left` names those still to come. */
  ghost predicate Progress(pre: Nodes, now: Nodes, clean: bool, s: Path, t: Path, hash: Hash, left: set<string>,
                           sound: bool, works: bool) {
    && Framed(pre, now, s, t)
    && (sound ==> Merged(pre, now, clean, s, t, hash))
    && (forall name :: name in left ==> Unmoved(pre, now, s + [name]))
    && (works && Ready(pre, s, t) ==> forall name :: s + [name] in pre && name !in left ==> NoFiles(now, s + [name]))
  }

  lemma ProgressStep(pre: Nodes, before: Nodes, now: Nodes, clean: bool, s: Path, t: Path, name: string,
                     hash: Hash, left: set<string>, sound: bool, works: bool)
    requires Apart(s, t) && name !in left && (works ==> sound)
    requires Progress(pre, before, clean, s, t, hash, left + {name}, sound, works)
    requires EntryDone(before, now, clean, s, t, name, hash, sound, works)
    ensures Progress(pre, now, clean, s, t, hash, left, sound, works)
  {
    FramedTrans(pre, before, now, s, t);
    if sound {
      MergedTrans(pre, before, now, clean, s, t, hash);
    }
    forall other | other in left
      ensures Unmoved(pre, now, s + [other])
    {
      assert Unmoved(pre, before, s + [other]);
    }
    if works && Ready(pre, s, t) {
      ReadyKept(pre, before, clean, s, t, hash);
      forall done | s + [done] in pre && done !in left
        ensures NoFiles(now, s + [done])
      {
        if done != name {
          StaysEmptied(before, now, s, t, done);
        }
      }
    }
  }

  // ------------------------------------------------------- when every entry can be moved

  function Mirror(p: Path, s: Path, t: Path): Path
    requires Under(p, s)
  {
    t + p[|s|..]
  }

  /** A file and a directory whose name is a `__dupN` of the file's stand side by side. */
  ghost predicate DupNamed(nodes: Nodes, s: Path, p: Path, f: Path) {
    && f in nodes && nodes[f].File? && Under(f, s) && |f| > |s| && p != [] && Parent(f) == Parent(p)
    && exists k: nat :: Name(p) == Alternative(Name(f), "__dup", k)
  }

  /** No directory of the source tree has a file at its place in the target tree, nor the other way
      round; and none is named like a `__dupN` of a file beside it. */
  ghost predicate NoClash(nodes: Nodes, s: Path, t: Path) {
    forall p :: p in nodes && Under(p, s) && |p| > |s| ==>
      && (Mirror(p, s, t) in nodes ==> nodes[Mirror(p, s, t)].Dir? == nodes[p].Dir?)
      && (nodes[p].Dir? ==> forall f :: !DupNamed(nodes, s, p, f))
  }

  /** What it takes for a merge to empty the source tree, if no call fails. */
  ghost predicate Ready(nodes: Nodes, s: Path, t: Path) {
    TreeAt(nodes, s) && NoClash(nodes, s, t)
  }

  lemma MirrorChild(nodes: Nodes, s: Path, t: Path, name: string)
    requires NoClash(nodes, s, t) && s + [name] in nodes
    ensures t + [name] in nodes ==> nodes[t + [name]].Dir? == nodes[s + [name]].Dir?
  {
    assert Mirror(s + [name], s, t) == t + [name];
  }

  lemma MirrorDown(p: Path, s: Path, t: Path, name: string)
    requires Under(p, s + [name])
    ensures Under(p, s) && |p| > |s| && Mirror(p, s + [name], t + [name]) == Mirror(p, s, t)
  {
    UnderChild(p, s, name);
    assert p[|s|..] == [name] + p[|s| + 1..];
  }

  lemma ReadyChild(nodes: Nodes, s: Path, t: Path, name: string)
    requires Ready(nodes, s, t) && s + [name] in nodes
    ensures Ready(nodes, s + [name], t + [name])
  {
    forall p | Under(p, s + [name])
      ensures Under(p, s) && |p| > |s| && Mirror(p, s + [name], t + [name]) == Mirror(p, s, t)
    {
      MirrorDown(p, s, t, name);
    }
    forall p, f | p in nodes && Under(p, s + [name]) && |p| > |s| + 1 && nodes[p].Dir?
      ensures !DupNamed(nodes, s + [name], p, f)
    {
      assert DupNamed(nodes, s + [name], p, f) ==> DupNamed(nodes, s, p, f);
    }
  }

  /** A node that lands at p's place, and is not p, is no directory, nor can p be one. */
  lemma LandsElsewhere(nodes: Nodes, p: Path, origin: Path, s: Path, t: Path, node: Node, clean: bool)
    requires NoClash(nodes, s, t) && p in nodes && Under(p, s) && |p| > |s|
    requires origin in nodes && Lands(origin, Mirror(p, s, t), s, t) && Becomes(nodes[origin], node, clean)
    requires node.Dir? ==> Name(Mirror(p, s, t)) == Name(origin)
    ensures node.Dir? == nodes[p].Dir?
  {
    var q := Mirror(p, s, t);
    assert Name(q) == Name(p);
    assert Parent(q)[|t|..] == Parent(p)[|s|..];
    assert Parent(p) == s + Parent(p)[|s|..] && Parent(origin) == s + Parent(origin)[|s|..];
    if Name(origin) == Name(p) {
      assert origin == Parent(origin) + [Name(origin)] && p == Parent(p) + [Name(p)];
    } else if nodes[p].Dir? && node.File? {
      assert DupNamed(nodes, s, p, origin);
    }
  }

  lemma ReadyKept(pre: Nodes, now: Nodes, clean: bool, s: Path, t: Path, hash: Hash)
    requires Apart(s, t) && Framed(pre, now, s, t) && Merged(pre, now, clean, s, t, hash) && Ready(pre, s, t)
    ensures Ready(now, s, t)
  {
    ApartChildren(s, t, "");
    TreeAtKept(pre, now, s, t);
    forall p | p in now && Under(p, s) && |p| > |s|
      ensures Mirror(p, s, t) in now ==> now[Mirror(p, s, t)].Dir? == now[p].Dir?
      ensures now[p].Dir? ==> forall f :: !DupNamed(now, s, p, f)
    {
      assert p in pre && now[p] == pre[p];
      var q := Mirror(p, s, t);
      if q in now && !(q in pre && now[q] == pre[q]) {
        var origin :| origin in pre && Lands(origin, q, s, t) && Becomes(pre[origin], now[q], clean)
                      && (now[q].Dir? ==> Name(q) == Name(origin));
        LandsElsewhere(pre, p, origin, s, t, now[q], clean);
      }
      forall f
        ensures DupNamed(now, s, p, f) ==> DupNamed(pre, s, p, f)
      {
      }
    }
  }

  lemma {:induction false} AncestorsPresent(nodes: Nodes, root: Path, q: Path, p: Path)
    requires TreeAt(nodes, root) && p in nodes && Under(q, root) && Under(p, q)
    ensures q in nodes && (q != p ==> nodes[q].Dir?)
    decreases |p|
  {
    if q != p {
      assert Under(Parent(p), q);
      AncestorsPresent(nodes, root, q, Parent(p));
    }
  }

  lemma TreeAtKept(pre: Nodes, now: Nodes, s: Path, t: Path)
    requires Apart(s, t) && Framed(pre, now, s, t) && TreeAt(pre, s)
    ensures TreeAt(now, s)
  {
    ApartChildren(s, t, "");
    forall p | p in now && Under(p, s) && p != s
      ensures Parent(p) in now && now[Parent(p)].Dir?
    {
      assert p in pre && Under(Parent(p), s);
    }
  }

  lemma NothingUnderFile(pre: Nodes, now: Nodes, s: Path, t: Path, name: string)
    requires Apart(s, t) && TreeAt(pre, s) && Framed(pre, now, s, t)
    requires s + [name] in pre && pre[s + [name]].File? && s + [name] !in now
    ensures NoFiles(now, s + [name])
  {
    ApartChildren(s, t, name);
    forall p | p in now
      ensures !Under(p, s + [name])
    {
      if Under(p, s + [name]) {
        AncestorsPresent(pre, s, s + [name], p);
      }
    }
  }

  lemma StaysEmptied(before: Nodes, now: Nodes, s: Path, t: Path, name: string)
    requires Apart(s, t) && Framed(before, now, s, t)
    ensures NoFiles(before, s + [name]) ==> NoFiles(now, s + [name])
  {
    ApartChildren(s, t, name);
  }

  lemma AllEmptied(pre: Nodes, now: Nodes, s: Path, t: Path)
    requires Apart(s, t) && Framed(pre, now, s, t) && TreeAt(pre, s) && s in pre && pre[s].Dir?
    requires forall name :: s + [name] in pre ==> NoFiles(now, s + [name])
    ensures NoFiles(now, s)
  {
    ApartChildren(s, t, "");
    forall p | p in now && Under(p, s) && p != s
      ensures now[p].Dir?
    {
      var child := s + [p[|s|]];
      assert Under(p, child);
      AncestorsPresent(pre, s, child, p);
    }
  }

  lemma SameDirs(pre: Nodes, now: Nodes, s: Path, t: Path)
    requires Apart(s, t) && Framed(pre, now, s, t)
    ensures DirsUnder(now, s) == DirsUnder(pre, s)
  {
    ApartChildren(s, t, "");
  }

  lemma ChildHasFewerDirs(pre: Nodes, now: Nodes, s: Path, t: Path, name: string)
    requires Apart(s, t) && Framed(pre, now, s, t) && s in pre && pre[s].Dir?
    ensures DirsUnder(now, s + [name]) < DirsUnder(pre, s)
  {
    ApartChildren(s, t, name);
    assert s in DirsUnder(pre, s);
    assert s !in DirsUnder(now, s + [name]);
  }

  // ------------------------------------------------------------------ the file system

  datatype Outcome = Done | CrossDevice | Error

  class FileSystem {
    const hash: Hash
    /** Whether the n-th access check succeeds on a path that exists. */
    const visible: (nat, Path) -> bool
    /** Whether every call succeeds that can; and whether a failed copy leaves the destination alone. */
    const callsSucceed: bool
    const copiesClean: bool
    var nodes: Nodes
    /** How many access checks were made. */
    var checks: nat

    /** No access check fails for another reason than absence. */
    ghost predicate Sound() {
      forall n: nat, p: Path :: visible(n, p)
    }

    /** No copy leaves debris. */
    predicate Clean() {
      copiesClean || callsSucceed
    }

    constructor (hash: Hash, visible: (nat, Path) -> bool, callsSucceed: bool, copiesClean: bool, nodes: Nodes)
      ensures this.hash == hash && this.visible == visible && this.nodes == nodes && checks == 0
      ensures this.callsSucceed == callsSucceed && this.copiesClean == copiesClean
    {
      this.hash, this.visible, this.callsSucceed, this.copiesClean := hash, visible, callsSucceed, copiesClean;
      this.nodes, checks := nodes, 0;
    }

    method CallFails() returns (fails: bool)
      ensures callsSucceed ==> !fails
    {
      fails := *;
      fails := fails && !callsSucceed;
    }

    /** exists: any error of fs.access counts as absence. */
    method Exists(path: Path) returns (r: bool)
      modifies this`checks
      ensures r == Seen(nodes, visible, old(checks), path) && checks == old(checks) + 1
    {
      r := path in nodes && visible(checks, path);
      checks := checks + 1;
    }

    /** The names in a directory and which of them are directories, or nothing when it cannot be read. */
    method ReadDir(dir: Path) returns (r: Option<map<string, bool>>)
      ensures callsSucceed && dir in nodes && nodes[dir].Dir? ==> r.Some?
      ensures r.Some? ==> dir in nodes && nodes[dir].Dir?
      ensures r.Some? ==> forall name :: name in r.value <==> dir + [name] in nodes
      ensures r.Some? ==> forall name :: name in r.value ==> r.value[name] == nodes[dir + [name]].Dir?
    {
      var fails := CallFails();
      if fails || dir !in nodes || nodes[dir].File? {
        return None;
      }
      var names := set p | p in nodes && |p| == |dir| + 1 && p[..|dir|] == dir :: p[|dir|];
      forall name
        ensures name in names <==> dir + [name] in nodes
      {
        if dir + [name] in nodes {
          assert (dir + [name])[..|dir|] == dir && (dir + [name])[|dir|] == name;
        }
        if name in names {
          var p :| p in nodes && |p| == |dir| + 1 && p[..|dir|] == dir && p[|dir|] == name;
          assert p == dir + [name];
        }
      }
      r := Some(map name | name in names :: nodes[dir + [name]].Dir?);
    }

    /** fs.mkdir for a path whose parents exist. */
    method MakeDir(path: Path) returns (ok: bool)
      modifies this`nodes
      ensures callsSucceed && (path in old(nodes) ==> old(nodes)[path].Dir?) ==> ok
      ensures ok ==> path in nodes && nodes[path].Dir?
      ensures nodes == old(nodes) || (ok && path !in old(nodes) && nodes == old(nodes)[path := Dir])
    {
      if path in nodes {
        return nodes[path].Dir?;
      }
      var fails := CallFails();
      if !fails {
        nodes := nodes[path := Dir];
      }
      ok := !fails;
    }

    method Rename(src: Path, dst: Path) returns (r: Outcome)
      modifies this`nodes
      ensures r.Done? ==> src in old(nodes) && nodes == (old(nodes) - {src})[dst := old(nodes)[src]]
      ensures r.Done? ==> dst in old(nodes) ==> old(nodes)[dst].File?
      ensures !r.Done? ==> nodes == old(nodes)
      ensures callsSucceed && src in old(nodes) && (dst in old(nodes) ==> old(nodes)[dst].File?) ==> !r.Error?
    {
      var fails := CallFails();
      var sameDevice: bool := *;
      if fails || src !in nodes || (dst in nodes && nodes[dst].Dir?) {
        return Error;
      }
      if !sameDevice {
        return CrossDevice;
      }
      nodes := (nodes - {src})[dst := nodes[src]];
      r := Done;
    }

    /** fs.copyFile: a failed copy may leave anything at the destination. */
    method CopyFile(src: Path, dst: Path) returns (ok: bool)
      modifies this`nodes
      ensures ok ==> src in old(nodes) && nodes == old(nodes)[dst := old(nodes)[src]]
      ensures dst in old(nodes) && old(nodes)[dst].Dir? ==> !ok && nodes == old(nodes)
      ensures !ok ==> nodes == old(nodes) || (!Clean() && LeftAt(old(nodes), nodes, dst))
      ensures callsSucceed && src in old(nodes) && (dst in old(nodes) ==> old(nodes)[dst].File?) ==> ok
    {
      if src !in nodes || (dst in nodes && nodes[dst].Dir?) {
        return false;
      }
      var fails := CallFails();
      var touched: bool := *;
      if !fails {
        nodes := nodes[dst := nodes[src]];
      } else if touched && !copiesClean {
        var c: Content := *;
        nodes := nodes[dst := File(c)];
        assert LeftAt(old(nodes), nodes, dst);
      }
      ok := !fails;
    }

    method Unlink(path: Path) returns (ok: bool)
      modifies this`nodes
      ensures nodes == if ok then old(nodes) - {path} else old(nodes)
      ensures ok ==> path in old(nodes) && old(nodes)[path].File?
      ensures callsSucceed && path in old(nodes) && old(nodes)[path].File? ==> ok
    {
      var fails := CallFails();
      ok := !fails && path in nodes && nodes[path].File?;
      if ok {
        nodes := nodes - {path};
      }
    }

    /** isSameContent: nothing when a file cannot be read. */
    method IsSameContent(a: Path, b: Path) returns (r: Option<bool>)
      ensures r == Some(true) ==> a in nodes && b in nodes && nodes[a].File? && nodes[b].File?
      ensures a in nodes && b in nodes && nodes[a].File? && nodes[b].File? ==>
                && (r.Some? ==>
                    r.value == (FingerprintOf(hash, nodes[a].content) == FingerprintOf(hash, nodes[b].content)))
                && (callsSucceed ==> r.Some?)
    {
      var fails := CallFails();
      var sameSize: bool := *;
      if !fails && a in nodes && b in nodes {
        match (nodes[a], nodes[b]) {
          case (File(x), File(y)) =>
            return Some(FingerprintOf(hash, x) == FingerprintOf(hash, y));
          case (_, _) =>
            // A directory: its size may differ, but it cannot be hashed.
            if !sameSize {
              return Some(false);
            }
        }
      }
      r := None;
    }

    // ----------------------------------------------------------------- merging

    /** moveFile: rename, or copy and unlink across devices. */
    method MoveFile(src: Path, dst: Path) returns (ok: bool)
      requires src in nodes && nodes[src].File?
      requires src != dst
      modifies this`nodes
      ensures MoveEnds(old(nodes), nodes, src, dst, ok, Clean())
      ensures dst in old(nodes) && old(nodes)[dst].Dir? ==> nodes == old(nodes)
      ensures callsSucceed && (dst in old(nodes) ==> old(nodes)[dst].File?) ==> ok
    {
      var renamed := Rename(src, dst);
      match renamed {
        case Done =>
          return true;
        case Error =>
          return false;
        case CrossDevice =>
          ok := CopyFile(src, dst);
          if ok {
            ok := Unlink(src);
            assert ok ==> nodes == (old(nodes) - {src})[dst := old(nodes)[src]];
          }
      }
    }

    /** The do-while search for a free `__dupN` name next to dst. */
    method FreeSlot(dst: Path) returns (slot: Path)
      requires dst != []
      modifies this`checks
      ensures exists k :: FirstUnseen(nodes, dst, visible, old(checks), k) && slot == Slot(dst, k)
    {
      var suffix := 1;
      slot := Slot(dst, suffix);
      var taken := Exists(slot);
      TriedCount(NamesIn(nodes, Parent(dst)), Name(dst), "__dup", suffix);
      while taken
        invariant suffix >= 1 && slot == Slot(dst, suffix) && checks == old(checks) + suffix
        invariant taken == Seen(nodes, visible, old(checks) + suffix - 1, slot)
        invariant forall j :: 1 <= j < suffix ==> Seen(nodes, visible, old(checks) + j - 1, Slot(dst, j))
        invariant forall j :: 1 <= j < suffix ==> Alternative(Name(dst), "__dup", j) in NamesIn(nodes, Parent(dst))
        invariant suffix - 1 <= |NamesIn(nodes, Parent(dst))|
        decreases |NamesIn(nodes, Parent(dst))| + 1 - suffix, taken
      {
        suffix := suffix + 1;
        slot := Slot(dst, suffix);
        TriedCount(NamesIn(nodes, Parent(dst)), Name(dst), "__dup", suffix);
        taken := Exists(slot);
      }
      assert FirstUnseen(nodes, dst, visible, old(checks), suffix);
    }

    /** A move of a file of the source tree to a place for it in the target tree. */
    method MoveInto(src: Path, slot: Path, ghost s: Path, ghost t: Path) returns (ok: bool)
      requires Apart(s, t) && Lands(src, slot, s, t) && src in nodes && nodes[src].File?
      modifies this`nodes
      ensures Framed(old(nodes), nodes, s, t)
      ensures forall p :: p in old(nodes) && Under(p, s) && p != src ==> p in nodes && nodes[p] == old(nodes)[p]
      ensures slot !in old(nodes) ==> Merged(old(nodes), nodes, Clean(), s, t, hash)
      ensures ok ==> src !in nodes && nodes == Moved(old(nodes), src, slot)
      ensures callsSucceed && (slot in old(nodes) ==> old(nodes)[slot].File?) ==> ok
    {
      ApartChildren(s, t, "");
      ok := MoveFile(src, slot);
      MoveFrames(old(nodes), nodes, Clean(), src, slot, ok, s, t);
      if slot !in old(nodes) {
        MoveMerges(old(nodes), nodes, Clean(), src, slot, ok, s, t, hash);
      }
    }

    /** moveWithCollisionHandling. */
    method MoveWithCollisionHandling(src: Path, dst: Path, ghost s: Path, ghost t: Path, ghost name: string)
      returns (ok: bool)
      requires Apart(s, t) && src == s + [name] && dst == t + [name] && src in nodes && nodes[src].File?
      modifies this`nodes, this`checks
      ensures Framed(old(nodes), nodes, s, t)
      ensures forall p :: p in old(nodes) && Under(p, s) && p != src ==> p in nodes && nodes[p] == old(nodes)[p]
      ensures Sound() ==> Merged(old(nodes), nodes, Clean(), s, t, hash)
      ensures ok ==> src !in nodes && Placed(old(nodes), nodes, src, dst, hash, visible, old(checks))
      ensures && callsSucceed && (dst in old(nodes) ==> old(nodes)[dst].File?)
              && (Sound() || !Seen(old(nodes), visible, old(checks), dst))
              ==> ok
    {
      EntryLands(s, t, name, 0);
      var taken := Exists(dst);
      if !taken {
        ok := MoveInto(src, dst, s, t);
        return;
      }
      var same := IsSameContent(src, dst);
      match same {
        case None =>
          return false;
        case Some(true) =>
          ok := Unlink(src);
          ApartChildren(s, t, "");
          DropMerges(old(nodes), src, dst, Clean(), s, t, hash);
        case Some(false) =>
          var slot := FreeSlot(dst);
          ghost var k: nat :| FirstUnseen(nodes, dst, visible, old(checks) + 1, k) && slot == Slot(dst, k);
          EntryLands(s, t, name, k);
          ok := MoveInto(src, slot, s, t);
      }
    }

    /** The try block of mergeDirectory's loop: an error is logged and the next entry is taken. */
    method MergeEntry(sourceDir: Path, targetDir: Path, name: string, isDirectory: bool)
      requires Apart(sourceDir, targetDir) && sourceDir in nodes && nodes[sourceDir].Dir?
      requires sourceDir + [name] in nodes && nodes[sourceDir + [name]].Dir? == isDirectory
      modifies this`nodes, this`checks
      ensures EntryDone(old(nodes), nodes, Clean(), sourceDir, targetDir, name, hash, Sound(), Sound() && callsSucceed)
      decreases DirsUnder(nodes, sourceDir), 0
    {
      ghost var works := Sound() && callsSucceed;
      if isDirectory {
        var made := MakeDir(targetDir + [name]);
        ghost var mid := nodes;
        MadeDir(old(nodes), mid, name, Clean(), sourceDir, targetDir, hash);
        if made {
          ChildHasFewerDirs(old(nodes), mid, sourceDir, targetDir, name);
          ApartChildren(sourceDir, targetDir, name);
          MergeDirectory(sourceDir + [name], targetDir + [name]);
          ChildMerged(old(nodes), mid, nodes, Clean(), sourceDir, targetDir, name, hash, Sound(), works);
        } else if Ready(old(nodes), sourceDir, targetDir) {
          MirrorChild(old(nodes), sourceDir, targetDir, name);
        }
      } else {
        var ok := MoveWithCollisionHandling(sourceDir + [name], targetDir + [name], sourceDir, targetDir, name);
        FileMerged(old(nodes), nodes, Clean(), sourceDir, targetDir, name, hash, Sound(), works);
      }
    }

    /** mergeDirectory. */
    method MergeDirectory(sourceDir: Path, targetDir: Path)
      requires Apart(sourceDir, targetDir)
      modifies this`nodes, this`checks
      ensures Framed(old(nodes), nodes, sourceDir, targetDir)
      ensures Sound() ==> Merged(old(nodes), nodes, Clean(), sourceDir, targetDir, hash)
      ensures && Sound() && callsSucceed && Ready(old(nodes), sourceDir, targetDir)
              && (sourceDir in old(nodes) ==> old(nodes)[sourceDir].Dir?)
              ==> NoFiles(nodes, sourceDir)
      decreases DirsUnder(nodes, sourceDir), 1
    {
      ghost var works := Sound() && callsSucceed;
      var entries := ReadDir(sourceDir);
      if entries.None? {
        if sourceDir !in nodes {
          NothingUnderAbsent(nodes, sourceDir);
        }
        return;
      }
      var left := entries.value.Keys;
      while left != {}
        invariant left <= entries.value.Keys
        invariant Progress(old(nodes), nodes, Clean(), sourceDir, targetDir, hash, left, Sound(), works)
        decreases left
      {
        var name :| name in left;
        left := left - {name};
        ghost var before := nodes;
        SameDirs(old(nodes), before, sourceDir, targetDir);
        MergeEntry(sourceDir, targetDir, name, entries.value[name]);
        ProgressStep(old(nodes), before, nodes, Clean(), sourceDir, targetDir, name, hash, left, Sound(), works);
      }
      if works && Ready(old(nodes), sourceDir, targetDir) {
        AllEmptied(old(nodes), nodes, sourceDir, targetDir);
      }
    }
  }

  lemma NothingUnderAbsent(nodes: Nodes, root: Path)
    requires root !in nodes
    ensures TreeAt(nodes, root) ==> NoFiles(nodes, root)
  {
    if TreeAt(nodes, root) {
      forall p | p in nodes
        ensures !Under(p, root)
      {
        if Under(p, root) {
          AncestorsPresent(nodes, root, root, p);
        }
      }
    }
  }

  function Parent(p: Path): Path
    requires p != []
  {
    p[..|p| - 1]
  }

  function Name(p: Path): string
    requires p != []
  {
    p[|p| - 1]
  }

  function Slot(dst: Path, k: nat): Path
    requires dst != []
  {
    Parent(dst) + [Alternative(Name(dst), "__dup", k)]
  }

  ghost function NamesIn(nodes: Nodes, dir: Path): (names: set<string>)
    ensures forall name :: name in names <==> dir + [name] in nodes
  {
    var names := set p | p in nodes && p != [] && Parent(p) == dir :: Name(p);
    assert forall name :: dir + [name] in nodes ==> Parent(dir + [name]) == dir && Name(dir + [name]) == name;
    assert forall p :: p in nodes && p != [] && Parent(p) == dir ==> p == dir + [Name(p)];
    names
  }

  /** The n-th access check finds this path. */
  predicate Seen(nodes: Nodes, visible: (nat, Path) -> bool, n: nat, path: Path) {
    path in nodes && visible(n, path)
  }

  /** k is the first number whose name is not found taken, by checks of which the first has number c. */
  ghost predicate FirstUnseen(nodes: Nodes, dst: Path, visible: (nat, Path) -> bool, c: nat, k: nat)
    requires dst != []
  {
    && 1 <= k && !Seen(nodes, visible, c + k - 1, Slot(dst, k))
    && forall j :: 1 <= j < k ==> Seen(nodes, visible, c + j - 1, Slot(dst, j))
  }

  /** Where a successful move puts the file: under its own name when that is not found taken; nowhere
      when the name is taken by the same content; else under the first `__dupN` name not found taken. */
  ghost predicate Placed(pre: Nodes, post: Nodes, src: Path, dst: Path, hash: Hash, visible: (nat, Path) -> bool,
                         c: nat)
    requires src in pre && pre[src].File? && dst != []
  {
    if !Seen(pre, visible, c, dst) then post == Moved(pre, src, dst)
    else if pre[dst].File? && FingerprintOf(hash, pre[src].content) == FingerprintOf(hash, pre[dst].content)
    then post == pre - {src}
    else exists k :: FirstUnseen(pre, dst, visible, c + 1, k) && post == Moved(pre, src, Slot(dst, k))
  }

  /** With sound checks that is the first free name. */
  lemma SoundIsFree(nodes: Nodes, dst: Path, visible: (nat, Path) -> bool, c: nat, k: nat)
    requires dst != [] && FirstUnseen(nodes, dst, visible, c, k) && forall n: nat, p :: visible(n, p)
    ensures FirstFree(NamesIn(nodes, Parent(dst)), Name(dst), "__dup", k) && Slot(dst, k) !in nodes
  {
    forall j | 1 <= j < k
      ensures Alternative(Name(dst), "__dup", j) in NamesIn(nodes, Parent(dst))
    {
      assert Seen(nodes, visible, c + j - 1, Slot(dst, j));
    }
  }

  function Moved(pre: Nodes, src: Path, dst: Path): Nodes
    requires src in pre
  {
    (pre - {src})[dst := pre[src]]
  }

  /** Some file, of whatever content, was left at a path. */
  ghost predicate LeftAt(pre: Nodes, post: Nodes, path: Path) {
    path in post && post[path].File? && post == pre[path := post[path]]
  }

  /** A move is done, or leaves the source alone: then a copy may be complete but for the unlink, or debris. */
  ghost predicate MoveEnds(pre: Nodes, post: Nodes, src: Path, dst: Path, ok: bool, clean: bool)
    requires src in pre
  {
    if ok then post == Moved(pre, src, dst)
    else post == pre || post == pre[dst := pre[src]] || (!clean && LeftAt(pre, post, dst))
  }

  ghost function DirsUnder(nodes: Nodes, root: Path): set<Path> {
    set p | p in nodes && Under(p, root) && nodes[p].Dir?
  }

  /** Below root, every parent is a directory. */
  ghost predicate TreeAt(nodes: Nodes, root: Path) {
    forall p :: p in nodes && Under(p, root) && p != root ==> Parent(p) in nodes && nodes[Parent(p)].Dir?
  }

  ghost predicate NoFiles(nodes: Nodes, root: Path) {
    forall p :: p in nodes && Under(p, root) ==> nodes[p].Dir?
  }

  ghost predicate Unmoved(pre: Nodes, post: Nodes, p: Path) {
    p in pre && p in post && post[p] == pre[p]
  }
}
