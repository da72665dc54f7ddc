/**
 Content-based deduplication of a manifest (src/takeout/manifest.ts): group by size, hash only the
 entries whose size is shared, keep the best entry of every fingerprint.

 The partial hash of a file is a function of its path (None when the file cannot be read), and
 localeCompare is an arbitrary total preorder on strings.
*/
module ManifestDedup {
  import opened Grouping
  import opened KeyText
  import opened Wrappers

  datatype Entry = Entry(sourcePath: string, relativePath: string, size: nat, destinationKey: string)

  /** The string `${size}:${hash}` of the source; a size has no colon, so the parts are recoverable. */
  datatype Fingerprint = Fingerprint(size: nat, hash: string)

  type Hashes = string -> Option<string>
  type KeyOrder = (string, string) -> bool

  const IO_CONCURRENCY := 64

  // -------------------------------------------------------------------- scoring

  predicate HasDatePath(key: string) {
    DatePathAt(key, 0) || ("s3transfers/" <= key && DatePathAt(key, 12))
  }

  predicate DupMarkAt(s: string, i: nat) {
    i + 6 <= |s| && s[i..i + 5] == "__dup" && IsDigit(s[i + 5])
  }

  /** __dup followed by a digit, anywhere. */
  predicate HasDupMark(s: string) {
    exists i :: 0 <= i < |s| && DupMarkAt(s, i)
  }

  function ScoreEntryForKeep(e: Entry): int {
    (if HasDatePath(e.destinationKey) then 10 else 0)
    - Slashes(e.destinationKey)
    - (if HasDupMark(e.relativePath) then 20 else 0)
  }

  /** The comparator of the keep decision: score descending, then key. */
  function KeepOrder(keyLe: KeyOrder): (Entry, Entry) -> bool {
    (a: Entry, b: Entry) =>
      var sa, sb := ScoreEntryForKeep(a), ScoreEntryForKeep(b);
      sa > sb || (sa == sb && keyLe(a.destinationKey, b.destinationKey))
  }

  function PathOrder(keyLe: KeyOrder): (Entry, Entry) -> bool {
    (a: Entry, b: Entry) => keyLe(a.relativePath, b.relativePath)
  }

  lemma KeepOrderTotal(keyLe: KeyOrder)
    requires TotalPreorder(keyLe)
    ensures TotalPreorder(KeepOrder(keyLe)) && TotalPreorder(PathOrder(keyLe))
  {
    var keep, byPath := KeepOrder(keyLe), PathOrder(keyLe);
    forall x, y
      ensures (keep(x, y) || keep(y, x)) && (byPath(x, y) || byPath(y, x))
    {
      assert keyLe(x.destinationKey, y.destinationKey) || keyLe(y.destinationKey, x.destinationKey);
      assert keyLe(x.relativePath, y.relativePath) || keyLe(y.relativePath, x.relativePath);
    }
    forall x, y, z
      ensures (keep(x, y) && keep(y, z) ==> keep(x, z)) && (byPath(x, y) && byPath(y, z) ==> byPath(x, z))
    {
      assert keyLe(x.destinationKey, y.destinationKey) && keyLe(y.destinationKey, z.destinationKey)
             ==> keyLe(x.destinationKey, z.destinationKey);
      assert keyLe(x.relativePath, y.relativePath) && keyLe(y.relativePath, z.relativePath)
             ==> keyLe(x.relativePath, z.relativePath);
    }
  }

  // ------------------------------------------------------------------- reference

  function SizeOf(): Entry -> nat {
    (e: Entry) => e.size
  }

  function Bytes(): Entry -> int {
    (e: Entry) => e.size
  }

  function FingerprintOf(hashes: Hashes): Entry -> Fingerprint {
    (e: Entry) => Fingerprint(e.size, match hashes(e.sourcePath)
                                      case Some(h) => h
                                      case None => "unhashable:" + e.sourcePath)
  }

  function Heads(groups: seq<Group<Fingerprint, Entry>>, le: (Entry, Entry) -> bool): seq<Entry>
    requires forall i :: 0 <= i < |groups| ==> groups[i].members != []
  {
    seq(|groups|, i requires 0 <= i < |groups| => Best(groups[i].members, le))
  }

  /** One-phase deduplication: fingerprint every entry, keep the best of each fingerprint. */
  function OnePhase(entries: seq<Entry>, hashes: Hashes, keyLe: KeyOrder): seq<Entry> {
    GroupedPartition(entries, FingerprintOf(hashes));
    Heads(Grouped(entries, FingerprintOf(hashes)), KeepOrder(keyLe))
  }

  /** What deduplication should keep, said without groups: one entry per fingerprint of the input,
      and that entry is the best of those that share it. */
  ghost predicate IsDedup(entries: seq<Entry>, hashes: Hashes, keyLe: KeyOrder, kept: seq<Entry>) {
    var fp := FingerprintOf(hashes);
    && (forall i, j :: 0 <= i < j < |kept| ==> fp(kept[i]) != fp(kept[j]))
    && (forall x :: x in kept ==> Having(entries, fp, fp(x)) != []
                                  && x == Best(Having(entries, fp, fp(x)), KeepOrder(keyLe)))
    && (forall e :: e in entries ==> exists x :: x in kept && fp(x) == fp(e))
  }

  /** Such a selection is unique up to order. */
  lemma DedupUnique(entries: seq<Entry>, hashes: Hashes, keyLe: KeyOrder, a: seq<Entry>, b: seq<Entry>)
    requires TotalPreorder(keyLe)
    requires IsDedup(entries, hashes, keyLe, a) && IsDedup(entries, hashes, keyLe, b)
    ensures multiset(a) == multiset(b)
  {
    DedupSubset(entries, hashes, keyLe, a, b);
    DedupSubset(entries, hashes, keyLe, b, a);
    SameSetSameMultiset(a, b);
  }

  lemma DedupSubset(entries: seq<Entry>, hashes: Hashes, keyLe: KeyOrder, a: seq<Entry>, b: seq<Entry>)
    requires TotalPreorder(keyLe)
    requires IsDedup(entries, hashes, keyLe, a) && IsDedup(entries, hashes, keyLe, b)
    ensures forall x :: x in a ==> x in b
  {
    forall x | x in a
      ensures x in b
    {
      KeptIsInput(entries, hashes, keyLe, x);
      var y :| y in b && FingerprintOf(hashes)(y) == FingerprintOf(hashes)(x);
      assert y == x;
    }
  }

  lemma KeptIsInput(entries: seq<Entry>, hashes: Hashes, keyLe: KeyOrder, x: Entry)
    requires TotalPreorder(keyLe)
    requires Having(entries, FingerprintOf(hashes), FingerprintOf(hashes)(x)) != []
    requires x == Best(Having(entries, FingerprintOf(hashes), FingerprintOf(hashes)(x)), KeepOrder(keyLe))
    ensures x in entries
    ensures forall e :: e in entries && FingerprintOf(hashes)(e) == FingerprintOf(hashes)(x) ==> KeepOrder(keyLe)(x, e)
  {
    KeepOrderTotal(keyLe);
    HavingMembers(entries, FingerprintOf(hashes), FingerprintOf(hashes)(x));
    BestIsLeast(Having(entries, FingerprintOf(hashes), FingerprintOf(hashes)(x)), KeepOrder(keyLe));
  }

  /** The best entry of a fingerprint has that fingerprint. */
  lemma BestHasPrint(entries: seq<Entry>, hashes: Hashes, keyLe: KeyOrder, f: Fingerprint)
    requires TotalPreorder(keyLe) && Having(entries, FingerprintOf(hashes), f) != []
    ensures FingerprintOf(hashes)(Best(Having(entries, FingerprintOf(hashes), f), KeepOrder(keyLe))) == f
  {
    KeepOrderTotal(keyLe);
    HavingMembers(entries, FingerprintOf(hashes), f);
    BestIsLeast(Having(entries, FingerprintOf(hashes), f), KeepOrder(keyLe));
  }

  lemma HeadsAreDedup(entries: seq<Entry>, hashes: Hashes, keyLe: KeyOrder)
    requires TotalPreorder(keyLe)
    ensures IsDedup(entries, hashes, keyLe, OnePhase(entries, hashes, keyLe))
  {
    var fp, le := FingerprintOf(hashes), KeepOrder(keyLe);
    GroupedPartition(entries, fp);
    var groups := Grouped(entries, fp);
    var kept := OnePhase(entries, hashes, keyLe);
    forall i | 0 <= i < |groups|
      ensures fp(kept[i]) == groups[i].key
    {
      BestHasPrint(entries, hashes, keyLe, groups[i].key);
    }
    forall e | e in entries
      ensures exists x :: x in kept && fp(x) == fp(e)
    {
      var i := KeyIndex(groups, fp(e));
      assert kept[i] in kept;
    }
  }

  // ----------------------------------------------------------------- two phases

  /** Phase 1: groups of one size with one member, and with more. */
  function Singles(groups: seq<Group<nat, Entry>>): seq<Entry> {
    if groups == [] then []
    else
      var g := groups[|groups| - 1];
      Singles(groups[..|groups| - 1]) + if |g.members| == 1 then g.members else []
  }

  function Shared(groups: seq<Group<nat, Entry>>): seq<Entry> {
    if groups == [] then []
    else
      var g := groups[|groups| - 1];
      Shared(groups[..|groups| - 1]) + if |g.members| == 1 then [] else g.members
  }

  lemma {:induction false} PhaseOneSplits(groups: seq<Group<nat, Entry>>)
    ensures multiset(Singles(groups)) + multiset(Shared(groups)) == multiset(Flatten(groups))
  {
    if groups != [] {
      var front, g := groups[..|groups| - 1], groups[|groups| - 1];
      PhaseOneSplits(front);
      assert groups == front + [g];
      FlattenConcat(front, [g]);
      FlattenOne(g);
    }
  }

  lemma {:induction false} SinglesMembers(groups: seq<Group<nat, Entry>>)
    ensures forall x :: x in Singles(groups) ==> exists i :: 0 <= i < |groups| && groups[i].members == [x]
    ensures forall i :: 0 <= i < |groups| && |groups[i].members| == 1 ==> groups[i].members[0] in Singles(groups)
  {
    if groups != [] {
      var front, g := groups[..|groups| - 1], groups[|groups| - 1];
      SinglesMembers(front);
      forall x | x in Singles(groups)
        ensures exists i :: 0 <= i < |groups| && groups[i].members == [x]
      {
        if x in Singles(front) {
          var i :| 0 <= i < |front| && front[i].members == [x];
          assert groups[i].members == [x];
        } else {
          assert g.members == [x];
        }
      }
    }
  }

  lemma {:induction false} SinglesDistinctSizes(entries: seq<Entry>, groups: seq<Group<nat, Entry>>)
    requires DistinctKeys(groups) && GroupsHold(groups, entries, SizeOf())
    ensures forall i, j :: 0 <= i < j < |Singles(groups)| ==> Singles(groups)[i].size != Singles(groups)[j].size
  {
    if groups != [] {
      var front, g := groups[..|groups| - 1], groups[|groups| - 1];
      SinglesDistinctSizes(entries, front);
      if |g.members| == 1 {
        HavingMembers(entries, SizeOf(), g.key);
        assert g.members[0] in Having(entries, SizeOf(), g.key);
        SinglesMembers(front);
        forall x | x in Singles(front)
          ensures x.size != g.members[0].size
        {
          var i :| 0 <= i < |front| && front[i].members == [x];
          assert groups[i] == front[i];
          HavingMembers(entries, SizeOf(), front[i].key);
          assert x in Having(entries, SizeOf(), front[i].key);
        }
      }
    }
  }

  /** A fingerprint contains the size, so its entries can be picked from those of that size. */
  lemma {:induction false} PrintWithinSize(entries: seq<Entry>, hashes: Hashes, f: Fingerprint)
    ensures Having(Having(entries, SizeOf(), f.size), FingerprintOf(hashes), f)
            == Having(entries, FingerprintOf(hashes), f)
  {
    if entries != [] {
      var front, last := entries[..|entries| - 1], entries[|entries| - 1];
      PrintWithinSize(front, hashes, f);
      var sized := Having(front, SizeOf(), f.size);
      if last.size == f.size {
        assert (sized + [last])[..|sized|] == sized;
      } else {
        assert FingerprintOf(hashes)(last) != f;
        assert sized + [] == sized;
      }
    }
  }

  lemma {:induction false} OtherSizeHasNot(entries: seq<Entry>, hashes: Hashes, f: Fingerprint, size: nat)
    requires size != f.size
    ensures Having(Having(entries, SizeOf(), size), FingerprintOf(hashes), f) == []
  {
    HavingMembers(entries, SizeOf(), size);
    NoneHaving(Having(entries, SizeOf(), size), FingerprintOf(hashes), f);
  }

  predicate SharedSize(groups: seq<Group<nat, Entry>>, size: nat) {
    exists i :: 0 <= i < |groups| && groups[i].key == size && |groups[i].members| != 1
  }

  lemma SharedSizeSnoc(front: seq<Group<nat, Entry>>, g: Group<nat, Entry>, size: nat)
    ensures SharedSize(front + [g], size) <==> SharedSize(front, size) || (g.key == size && |g.members| != 1)
  {
    if SharedSize(front, size) {
      var i :| 0 <= i < |front| && front[i].key == size && |front[i].members| != 1;
      assert (front + [g])[i] == front[i];
    }
    if g.key == size && |g.members| != 1 {
      assert (front + [g])[|front|] == g;
    }
  }

  /** What one size group contributes to a fingerprint. */
  lemma SharedGroupPart(entries: seq<Entry>, g: Group<nat, Entry>, hashes: Hashes, f: Fingerprint)
    requires g.members == Having(entries, SizeOf(), g.key)
    ensures Having(g.members, FingerprintOf(hashes), f)
            == if g.key == f.size then Having(entries, FingerprintOf(hashes), f) else []
  {
    if g.key == f.size {
      PrintWithinSize(entries, hashes, f);
    } else {
      OtherSizeHasNot(entries, hashes, f, g.key);
    }
  }

  /** Hashing only the shared sizes sees every entry of a fingerprint whose size is shared, in order. */
  lemma {:induction false} SharedKeepsPrint(entries: seq<Entry>, groups: seq<Group<nat, Entry>>, hashes: Hashes,
                                            f: Fingerprint)
    requires DistinctKeys(groups) && GroupsHold(groups, entries, SizeOf())
    ensures Having(Shared(groups), FingerprintOf(hashes), f) ==
            if SharedSize(groups, f.size) then Having(entries, FingerprintOf(hashes), f) else []
  {
    if groups != [] {
      var front, g := groups[..|groups| - 1], groups[|groups| - 1];
      SharedKeepsPrint(entries, front, hashes, f);
      assert groups == front + [g];
      SharedSizeSnoc(front, g, f.size);
      SharedGroupPart(entries, g, hashes, f);
      HavingConcat(Shared(front), if |g.members| == 1 then [] else g.members, FingerprintOf(hashes), f);
      assert g.key == f.size ==> !SharedSize(front, f.size);
    }
  }

  /** An entry whose size nobody shares is the only one of its fingerprint. */
  lemma SingleIsAlone(entries: seq<Entry>, hashes: Hashes, keyLe: KeyOrder, x: Entry)
    requires Having(entries, SizeOf(), x.size) == [x]
    ensures Having(entries, FingerprintOf(hashes), FingerprintOf(hashes)(x)) == [x]
    ensures Best([x], KeepOrder(keyLe)) == x
  {
    PrintWithinSize(entries, hashes, FingerprintOf(hashes)(x));
    assert [x][..0] == [];
    assert Having([x], FingerprintOf(hashes), FingerprintOf(hashes)(x))
        == Having([], FingerprintOf(hashes), FingerprintOf(hashes)(x)) + [x];
    assert [x][1..] == [];
  }

  function TwoPhase(entries: seq<Entry>, hashes: Hashes, keyLe: KeyOrder): seq<Entry> {
    var groups := Grouped(entries, SizeOf());
    Singles(groups) + OnePhase(Shared(groups), hashes, keyLe)
  }

  lemma SinglesAreBest(entries: seq<Entry>, hashes: Hashes, keyLe: KeyOrder, x: Entry)
    requires x in Singles(Grouped(entries, SizeOf()))
    ensures Having(entries, FingerprintOf(hashes), FingerprintOf(hashes)(x)) == [x]
    ensures x == Best(Having(entries, FingerprintOf(hashes), FingerprintOf(hashes)(x)), KeepOrder(keyLe))
    ensures exists i :: 0 <= i < |Grouped(entries, SizeOf())| && Grouped(entries, SizeOf())[i] == Group(x.size, [x])
  {
    var groups := Grouped(entries, SizeOf());
    GroupedPartition(entries, SizeOf());
    SinglesMembers(groups);
    var i :| 0 <= i < |groups| && groups[i].members == [x];
    HavingMembers(entries, SizeOf(), groups[i].key);
    assert x in groups[i].members;
    SingleIsAlone(entries, hashes, keyLe, x);
  }

  /** An entry kept by phase 2 is the best of its fingerprint in the whole input, and its size is shared. */
  lemma SharedAreBest(entries: seq<Entry>, hashes: Hashes, keyLe: KeyOrder, x: Entry)
    requires TotalPreorder(keyLe)
    requires x in OnePhase(Shared(Grouped(entries, SizeOf())), hashes, keyLe)
    ensures Having(entries, FingerprintOf(hashes), FingerprintOf(hashes)(x)) != []
    ensures x == Best(Having(entries, FingerprintOf(hashes), FingerprintOf(hashes)(x)), KeepOrder(keyLe))
    ensures forall i :: 0 <= i < |Grouped(entries, SizeOf())| && Grouped(entries, SizeOf())[i].key == x.size ==>
              |Grouped(entries, SizeOf())[i].members| != 1
  {
    var groups := Grouped(entries, SizeOf());
    GroupedPartition(entries, SizeOf());
    HeadsAreDedup(Shared(groups), hashes, keyLe);
    SharedKeepsPrint(entries, groups, hashes, FingerprintOf(hashes)(x));
  }

  lemma EveryPrintKept(entries: seq<Entry>, hashes: Hashes, keyLe: KeyOrder, e: Entry)
    requires TotalPreorder(keyLe) && e in entries
    ensures exists x :: x in TwoPhase(entries, hashes, keyLe) && FingerprintOf(hashes)(x) == FingerprintOf(hashes)(e)
  {
    var groups := Grouped(entries, SizeOf());
    GroupedPartition(entries, SizeOf());
    var i := KeyIndex(groups, e.size);
    HavingMembers(entries, SizeOf(), e.size);
    assert e in groups[i].members;
    if |groups[i].members| == 1 {
      SinglesMembers(groups);
      assert e in Singles(groups);
      assert e in TwoPhase(entries, hashes, keyLe);
    } else {
      SharedKeepsPrint(entries, groups, hashes, FingerprintOf(hashes)(e));
      HavingMembers(entries, FingerprintOf(hashes), FingerprintOf(hashes)(e));
      HavingMembers(Shared(groups), FingerprintOf(hashes), FingerprintOf(hashes)(e));
      assert e in Having(Shared(groups), FingerprintOf(hashes), FingerprintOf(hashes)(e));
      HeadsAreDedup(Shared(groups), hashes, keyLe);
      var x :| x in OnePhase(Shared(groups), hashes, keyLe) && FingerprintOf(hashes)(x) == FingerprintOf(hashes)(e);
      assert x in TwoPhase(entries, hashes, keyLe);
    }
  }

  lemma TwoPhaseDistinct(entries: seq<Entry>, hashes: Hashes, keyLe: KeyOrder, i: nat, j: nat)
    requires TotalPreorder(keyLe) && i < j < |TwoPhase(entries, hashes, keyLe)|
    ensures var kept := TwoPhase(entries, hashes, keyLe);
            FingerprintOf(hashes)(kept[i]) != FingerprintOf(hashes)(kept[j])
  {
    var groups := Grouped(entries, SizeOf());
    var alone, best := Singles(groups), OnePhase(Shared(groups), hashes, keyLe);
    GroupedPartition(entries, SizeOf());
    if j < |alone| {
      SinglesDistinctSizes(entries, groups);
    } else if i < |alone| {
      SinglesAreBest(entries, hashes, keyLe, alone[i]);
      SharedAreBest(entries, hashes, keyLe, best[j - |alone|]);
    } else {
      HeadsAreDedup(Shared(groups), hashes, keyLe);
    }
  }

  lemma TwoPhaseIsDedup(entries: seq<Entry>, hashes: Hashes, keyLe: KeyOrder)
    requires TotalPreorder(keyLe)
    ensures IsDedup(entries, hashes, keyLe, TwoPhase(entries, hashes, keyLe))
  {
    var kept, fp := TwoPhase(entries, hashes, keyLe), FingerprintOf(hashes);
    forall x | x in kept
      ensures Having(entries, fp, fp(x)) != [] && x == Best(Having(entries, fp, fp(x)), KeepOrder(keyLe))
    {
      if x in Singles(Grouped(entries, SizeOf())) {
        SinglesAreBest(entries, hashes, keyLe, x);
      } else {
        SharedAreBest(entries, hashes, keyLe, x);
      }
    }
    forall i, j | 0 <= i < j < |kept|
      ensures fp(kept[i]) != fp(kept[j])
    {
      TwoPhaseDistinct(entries, hashes, keyLe, i, j);
    }
    forall e | e in entries
      ensures exists x :: x in kept && fp(x) == fp(e)
    {
      EveryPrintKept(entries, hashes, keyLe, e);
    }
  }

  /** Two-phase deduplication refines one-phase deduplication: hashing only the entries of equal size
      keeps the same multiset of entries as fingerprinting all of them. */
  lemma TwoPhaseRefinesOnePhase(entries: seq<Entry>, hashes: Hashes, keyLe: KeyOrder)
    requires TotalPreorder(keyLe)
    ensures multiset(TwoPhase(entries, hashes, keyLe)) == multiset(OnePhase(entries, hashes, keyLe))
  {
    TwoPhaseIsDedup(entries, hashes, keyLe);
    HeadsAreDedup(entries, hashes, keyLe);
    DedupUnique(entries, hashes, keyLe, TwoPhase(entries, hashes, keyLe), OnePhase(entries, hashes, keyLe));
  }

  // ---------------------------------------------------------------- the function

  /** deduplicateManifest. */
  method DeduplicateManifest(entries: seq<Entry>, hashes: Hashes, keyLe: KeyOrder)
    returns (kept: seq<Entry>, removedCount: int, removedBytes: int)
    requires TotalPreorder(keyLe)
    ensures Sorted(kept, PathOrder(keyLe))
    ensures multiset(kept) == multiset(OnePhase(entries, hashes, keyLe))
    ensures removedCount == |entries| - |kept|
    ensures removedBytes == Sum(entries, Bytes()) - Sum(kept, Bytes())
  {
    if |entries| == 0 {
      return [], 0, 0;
    }
    var sizeGroups := GroupBy(entries, SizeOf());
    GroupedPartition(entries, SizeOf());
    var needsHash: seq<Entry>;
    kept, needsHash := SplitBySize(sizeGroups);
    ghost var alone := kept;
    var fingerprintGroups := FingerprintGroups(needsHash, hashes);
    GroupedPartition(needsHash, FingerprintOf(hashes));
    var best;
    best, removedCount, removedBytes := KeepBest(fingerprintGroups, needsHash, hashes, keyLe);
    kept := kept + best;
    assert kept == TwoPhase(entries, hashes, keyLe);
    Accounts(entries, alone, needsHash, best);
    TwoPhaseRefinesOnePhase(entries, hashes, keyLe);
    KeepOrderTotal(keyLe);
    SortCorrect(kept, PathOrder(keyLe));
    SumOfPermutation(Sort(kept, PathOrder(keyLe)), kept, Bytes());
    kept := Sort(kept, PathOrder(keyLe));
  }

  lemma Accounts(entries: seq<Entry>, alone: seq<Entry>, shared: seq<Entry>, best: seq<Entry>)
    requires alone == Singles(Grouped(entries, SizeOf())) && shared == Shared(Grouped(entries, SizeOf()))
    ensures |shared| - |best| == |entries| - |alone + best|
    ensures Sum(shared, Bytes()) - Sum(best, Bytes()) == Sum(entries, Bytes()) - Sum(alone + best, Bytes())
  {
    GroupedFlatten(entries, SizeOf());
    PhaseOneSplits(Grouped(entries, SizeOf()));
    assert multiset(alone + shared) == multiset(entries);
    assert |alone + shared| == |multiset(alone + shared)| == |entries|;
    SumOfPermutation(alone + shared, entries, Bytes());
    SumConcat(alone, shared, Bytes());
    SumConcat(alone, best, Bytes());
  }

  method SplitBySize(groups: seq<Group<nat, Entry>>) returns (kept: seq<Entry>, needsHash: seq<Entry>)
    requires forall i :: 0 <= i < |groups| ==> groups[i].members != []
    ensures kept == Singles(groups) && needsHash == Shared(groups)
  {
    kept, needsHash := [], [];
    for i := 0 to |groups|
      invariant kept == Singles(groups[..i]) && needsHash == Shared(groups[..i])
    {
      assert groups[..i + 1][..i] == groups[..i];
      if |groups[i].members| == 1 {
        assert groups[i].members == [groups[i].members[0]];
        kept := kept + [groups[i].members[0]];
      } else {
        needsHash := needsHash + groups[i].members;
      }
    }
    assert groups[..|groups|] == groups;
  }

  /** Phase 2: hash in batches, group by fingerprint. */
  method FingerprintGroups(needsHash: seq<Entry>, hashes: Hashes) returns (groups: seq<Group<Fingerprint, Entry>>)
    ensures groups == Grouped(needsHash, FingerprintOf(hashes))
  {
    groups := [];
    var i := 0;
    while i < |needsHash|
      invariant i <= |needsHash| && groups == Grouped(needsHash[..i], FingerprintOf(hashes))
    {
      var end: nat := if i + IO_CONCURRENCY <= |needsHash| then i + IO_CONCURRENCY else |needsHash|;
      groups := AddBatch(groups, needsHash[..i], needsHash[i..end], hashes);
      assert needsHash[..i] + needsHash[i..end] == needsHash[..end];
      i := end;
    }
    assert needsHash[..|needsHash|] == needsHash;
  }

  method AddBatch(before: seq<Group<Fingerprint, Entry>>, ghost done: seq<Entry>, batch: seq<Entry>, hashes: Hashes)
    returns (groups: seq<Group<Fingerprint, Entry>>)
    requires before == Grouped(done, FingerprintOf(hashes))
    ensures groups == Grouped(done + batch, FingerprintOf(hashes))
  {
    groups := before;
    assert done + batch[..0] == done;
    for j := 0 to |batch|
      invariant groups == Grouped(done + batch[..j], FingerprintOf(hashes))
    {
      assert done + batch[..j + 1] == done + batch[..j] + [batch[j]];
      GroupedSnoc(done + batch[..j], batch[j], FingerprintOf(hashes));
      groups := AddTo(groups, FingerprintOf(hashes)(batch[j]), batch[j]);
    }
    assert batch[..|batch|] == batch;
  }

  method RestBytes(group: seq<Entry>) returns (bytes: int)
    requires group != []
    ensures bytes == Sum(group, Bytes()) - group[0].size
  {
    bytes := 0;
    assert group[..1] == [group[0]] && [group[0]][..0] == [];
    for j := 1 to |group|
      invariant bytes == Sum(group[..j], Bytes()) - group[0].size
    {
      assert group[..j + 1][..j] == group[..j];
      bytes := bytes + group[j].size;
    }
    assert group[..|group|] == group;
  }

  /** Sort one group, keep its head, count the rest. */
  method KeepOne(members: seq<Entry>, le: (Entry, Entry) -> bool) returns (best: Entry, count: int, bytes: int)
    requires TotalPreorder(le) && members != []
    ensures best == Best(members, le)
    ensures count == |members| - 1 && bytes == Sum(members, Bytes()) - best.size
  {
    var group := Sort(members, le);
    SortCorrect(members, le);
    SumOfPermutation(group, members, Bytes());
    best, count := group[0], |group| - 1;
    bytes := RestBytes(group);
  }

  lemma GroupTotals(groups: seq<Group<Fingerprint, Entry>>, items: seq<Entry>, hashes: Hashes)
    requires groups == Grouped(items, FingerprintOf(hashes))
    ensures |Flatten(groups)| == |items| && Sum(Flatten(groups), Bytes()) == Sum(items, Bytes())
  {
    GroupedFlatten(items, FingerprintOf(hashes));
    SumOfPermutation(Flatten(groups), items, Bytes());
    assert |Flatten(groups)| == |multiset(Flatten(groups))| == |items|;
  }

  /** Phase 3. */
  method KeepBest(groups: seq<Group<Fingerprint, Entry>>, needsHash: seq<Entry>, hashes: Hashes, keyLe: KeyOrder)
    returns (kept: seq<Entry>, removedCount: int, removedBytes: int)
    requires TotalPreorder(keyLe)
    requires groups == Grouped(needsHash, FingerprintOf(hashes))
    requires forall i :: 0 <= i < |groups| ==> groups[i].members != []
    ensures kept == OnePhase(needsHash, hashes, keyLe)
    ensures removedCount == |needsHash| - |kept|
    ensures removedBytes == Sum(needsHash, Bytes()) - Sum(kept, Bytes())
  {
    KeepOrderTotal(keyLe);
    kept, removedCount, removedBytes := KeepHeads(groups, KeepOrder(keyLe));
    GroupTotals(groups, needsHash, hashes);
  }

  method KeepHeads(groups: seq<Group<Fingerprint, Entry>>, le: (Entry, Entry) -> bool)
    returns (kept: seq<Entry>, removedCount: int, removedBytes: int)
    requires TotalPreorder(le)
    requires forall i :: 0 <= i < |groups| ==> groups[i].members != []
    ensures kept == Heads(groups, le)
    ensures removedCount == |Flatten(groups)| - |kept|
    ensures removedBytes == Sum(Flatten(groups), Bytes()) - Sum(kept, Bytes())
  {
    kept, removedCount, removedBytes := [], 0, 0;
    for i := 0 to |groups|
      invariant kept == Heads(groups, le)[..i]
      invariant removedCount == |Flatten(groups[..i])| - |kept|
      invariant removedBytes == Sum(Flatten(groups[..i]), Bytes()) - Sum(kept, Bytes())
    {
      var best, count, bytes := KeepOne(groups[i].members, le);
      FlattenSnoc(groups, i);
      SumConcat(Flatten(groups[..i]), groups[i].members, Bytes());
      SumSnoc(kept, best);
      kept := kept + [best];
      removedCount := removedCount + count;
      removedBytes := removedBytes + bytes;
    }
    assert groups[..|groups|] == groups;
  }

  lemma SumSnoc(s: seq<Entry>, x: Entry)
    ensures Sum(s + [x], Bytes()) == Sum(s, Bytes()) + x.size
  {
    assert (s + [x])[..|s|] == s;
  }

  /** What the caller gets, in its own terms: no two survivors share a fingerprint, every fingerprint
      survives, and each survivor is maximal by score, then by key, among the entries that share it. */
  lemma SurvivorsAreBest(entries: seq<Entry>, hashes: Hashes, keyLe: KeyOrder, kept: seq<Entry>)
    requires TotalPreorder(keyLe) && multiset(kept) == multiset(OnePhase(entries, hashes, keyLe))
    ensures forall x, y :: x in kept && y in kept && FingerprintOf(hashes)(x) == FingerprintOf(hashes)(y) ==> x == y
    ensures NoRepeats(kept)
    ensures forall e :: e in entries ==> exists x :: x in kept && FingerprintOf(hashes)(x) == FingerprintOf(hashes)(e)
    ensures forall x, e :: x in kept && e in entries && FingerprintOf(hashes)(x) == FingerprintOf(hashes)(e) ==>
              || ScoreEntryForKeep(x) > ScoreEntryForKeep(e)
              || (ScoreEntryForKeep(x) == ScoreEntryForKeep(e) && keyLe(x.destinationKey, e.destinationKey))
    ensures forall x :: x in kept ==> x in entries
  {
    var one := OnePhase(entries, hashes, keyLe);
    HeadsAreDedup(entries, hashes, keyLe);
    forall x
      ensures x in kept <==> x in one
    {
      assert x in multiset(kept) <==> x in multiset(one);
    }
    forall x | x in kept
      ensures x in entries
      ensures forall e :: e in entries && FingerprintOf(hashes)(e) == FingerprintOf(hashes)(x) ==>
                KeepOrder(keyLe)(x, e)
    {
      KeptIsInput(entries, hashes, keyLe, x);
    }
    PermutationNoRepeats(one, kept);
  }
}
