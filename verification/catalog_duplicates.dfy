/**
 Duplicate detection in the catalog (src/catalog/scaleway-catalog.ts): group objects by size and
 ETag, keep the best key of each group, list the others for deletion.
*/
module CatalogDuplicates {
  import opened Grouping
  import opened KeyText

  datatype Object = Object(key: string, size: nat, etag: string)

  /** The string `${size}:${etag}` of the source; a size has no colon, so the parts are recoverable. */
  datatype Fingerprint = Fingerprint(size: nat, etag: string)

  datatype DuplicateGroup = DuplicateGroup(
    fingerprint: Fingerprint,
    size: nat,
    keepKey: string,
    duplicateKeys: seq<string>,
    crossNamespace: bool,
    immichOnly: bool
  ) {
    function AllKeys(): seq<string> {
      [keepKey] + duplicateKeys
    }
  }

  type KeyOrder = (string, string) -> bool

  function FingerprintOf(): Object -> Fingerprint {
    (o: Object) => Fingerprint(o.size, o.etag)
  }

  // -------------------------------------------------------------------- scoring

  predicate IsImmich(key: string) {
    "immich/" <= key
  }

  predicate IsDated(key: string) {
    "s3transfers/" <= key && DatePathAt(key, 12)
  }

  function ScoreKeyForKeep(key: string): int {
    (if "immich/library/" <= key then 50
     else if "immich/upload/" <= key then 40
     else if "immich/" <= key then 30
     else if IsDated(key) then 8
     else 0) - Slashes(key)
  }

  /** Outside immich/ the four slashes of a dated path eat half its bonus. */
  lemma OtherScoresAtMostFour(key: string)
    requires !IsImmich(key)
    ensures ScoreKeyForKeep(key) <= 4
  {
    if IsDated(key) {
      DatedHasFourSlashes(key);
    }
  }

  const SHALLOW_DATED := "s3transfers/2020/03/15/a"

  lemma NotImmich(key: string)
    requires |key| > 0 && key[0] == 's'
    ensures !IsImmich(key) && !("immich/library/" <= key) && !("immich/upload/" <= key)
  {
    assert "immich/"[0] == "immich/library/"[0] == "immich/upload/"[0] == 'i';
  }

  lemma ShallowDatedScoresFour()
    ensures !IsImmich(SHALLOW_DATED) && ScoreKeyForKeep(SHALLOW_DATED) == 4
  {
    var key := SHALLOW_DATED;
    NotImmich(key);
    RunToSlash(key, 0, 11);
    RunToSlash(key, 12, 16);
    RunToSlash(key, 17, 19);
    RunToSlash(key, 20, 22);
    PlainRun(key, 23, 24);
    assert key[..0] == "" && key[..24] == key;
  }

  /** How deep an immich/ key outside library/ and upload/ may be and still outrank every other key:
      25 slashes. The source's comment promises it for unrealistically deep paths of 30 and more. */
  lemma ImmichOutranksExactlyTo25(key: string)
    requires IsImmich(key) && !("immich/library/" <= key) && !("immich/upload/" <= key)
    ensures (forall other :: !IsImmich(other) ==> ScoreKeyForKeep(key) > ScoreKeyForKeep(other)) <==> Slashes(key) <= 25
  {
    ShallowDatedScoresFour();
    if Slashes(key) <= 25 {
      forall other | !IsImmich(other)
        ensures ScoreKeyForKeep(key) > ScoreKeyForKeep(other)
      {
        OtherScoresAtMostFour(other);
      }
    }
  }

  // ------------------------------------------------------------------- grouping

  /** The comparator: score descending, then key. The cached scores are those of the function. */
  function KeepOrder(keyLe: KeyOrder): (Object, Object) -> bool {
    (a: Object, b: Object) =>
      var sa, sb := ScoreKeyForKeep(a.key), ScoreKeyForKeep(b.key);
      sa > sb || (sa == sb && keyLe(a.key, b.key))
  }

  lemma KeepOrderTotal(keyLe: KeyOrder)
    requires TotalPreorder(keyLe)
    ensures TotalPreorder(KeepOrder(keyLe))
  {
    var keep := KeepOrder(keyLe);
    forall x, y
      ensures keep(x, y) || keep(y, x)
    {
      assert keyLe(x.key, y.key) || keyLe(y.key, x.key);
    }
    forall x, y, z
      ensures keep(x, y) && keep(y, z) ==> keep(x, z)
    {
      assert keyLe(x.key, y.key) && keyLe(y.key, z.key) ==> keyLe(x.key, z.key);
    }
  }

  /** Bytes wasted, descending. */
  function WasteOrder(): (DuplicateGroup, DuplicateGroup) -> bool {
    (a: DuplicateGroup, b: DuplicateGroup) => |a.duplicateKeys| * a.size >= |b.duplicateKeys| * b.size
  }

  function KeysOf(objects: seq<Object>): seq<string> {
    seq(|objects|, i requires 0 <= i < |objects| => objects[i].key)
  }

  predicate AnyImmich(keys: seq<string>) {
    exists i :: 0 <= i < |keys| && "immich/" <= keys[i]
  }

  predicate AnyTransfers(keys: seq<string>) {
    exists i :: 0 <= i < |keys| && "s3transfers/" <= keys[i]
  }

  function GroupOf(fingerprint: Fingerprint, sorted: seq<Object>): DuplicateGroup
    requires sorted != []
  {
    var keys := KeysOf(sorted);
    var hasImmich, hasTransfers := AnyImmich(keys), AnyTransfers(keys);
    DuplicateGroup(fingerprint, sorted[0].size, keys[0], keys[1..], hasImmich && hasTransfers,
                   hasImmich && !hasTransfers)
  }

  function Groups(groups: seq<Group<Fingerprint, Object>>, keyLe: KeyOrder): seq<DuplicateGroup>
    requires NonEmpty(groups)
  {
    if groups == [] then []
    else
      var g := groups[|groups| - 1];
      Groups(groups[..|groups| - 1], keyLe)
      + if |g.members| < 2 then [] else [Made(g, keyLe)]
  }

  /** The second loop of buildDuplicateGroups. */
  method PickKeepers(groups: seq<Group<Fingerprint, Object>>, keyLe: KeyOrder) returns (result: seq<DuplicateGroup>)
    requires NonEmpty(groups)
    ensures result == Groups(groups, keyLe)
  {
    result := [];
    for i := 0 to |groups|
      invariant result == Groups(groups[..i], keyLe)
    {
      assert groups[..i + 1][..i] == groups[..i];
      if |groups[i].members| >= 2 {
        var sorted := Sort(groups[i].members, KeepOrder(keyLe));
        result := result + [GroupOf(groups[i].key, sorted)];
      }
    }
    assert groups[..|groups|] == groups;
  }

  /** buildDuplicateGroups. */
  method BuildDuplicateGroups(objects: seq<Object>, keyLe: KeyOrder) returns (result: seq<DuplicateGroup>)
    requires TotalPreorder(keyLe)
    ensures forall d :: d in result ==> IsGroupOf(objects, keyLe, d)
    ensures forall f :: |Having(objects, FingerprintOf(), f)| >= 2 ==> exists d :: d in result && d.fingerprint == f
    ensures forall i, j :: 0 <= i < j < |result| ==> result[i].fingerprint != result[j].fingerprint
    ensures Sorted(result, WasteOrder())
  {
    var groups := GroupBy(objects, FingerprintOf());
    GroupedPartition(objects, FingerprintOf());
    result := PickKeepers(groups, keyLe);
    GroupsCorrect(objects, groups, keyLe);
    EveryDuplicateGrouped(objects, keyLe);
    SortKeepsGroups(result);
    result := Sort(result, WasteOrder());
  }

  // ---------------------------------------------------------------- correctness

  /** A group lists exactly the keys of its fingerprint's objects, the best first, and says truly
      whether they mix namespaces. */
  ghost predicate IsGroupOf(objects: seq<Object>, keyLe: KeyOrder, d: DuplicateGroup) {
    var sharing := Having(objects, FingerprintOf(), d.fingerprint);
    && |sharing| >= 2
    && d.size == d.fingerprint.size
    && multiset(d.AllKeys()) == multiset(KeysOf(sharing))
    && (forall o :: o in sharing ==>
          ScoreKeyForKeep(d.keepKey) > ScoreKeyForKeep(o.key)
          || (ScoreKeyForKeep(d.keepKey) == ScoreKeyForKeep(o.key) && keyLe(d.keepKey, o.key)))
    && d.crossNamespace == (AnyImmich(KeysOf(sharing)) && AnyTransfers(KeysOf(sharing)))
    && d.immichOnly == (AnyImmich(KeysOf(sharing)) && !AnyTransfers(KeysOf(sharing)))
  }

  function KeyIs(key: string): Object -> int {
    (o: Object) => if o.key == key then 1 else 0
  }

  lemma {:induction false} KeyCount(s: seq<Object>, key: string)
    ensures multiset(KeysOf(s))[key] == Sum(s, KeyIs(key))
  {
    if s != [] {
      var front, last := s[..|s| - 1], s[|s| - 1];
      KeyCount(front, key);
      assert KeysOf(s) == KeysOf(front) + [last.key];
    }
  }

  lemma KeysOfPermutation(a: seq<Object>, b: seq<Object>)
    requires multiset(a) == multiset(b)
    ensures multiset(KeysOf(a)) == multiset(KeysOf(b))
  {
    forall key
      ensures multiset(KeysOf(a))[key] == multiset(KeysOf(b))[key]
    {
      KeyCount(a, key);
      KeyCount(b, key);
      SumOfPermutation(a, b, KeyIs(key));
    }
  }

  lemma SameKeysSameNamespaces(a: seq<string>, b: seq<string>)
    requires multiset(a) == multiset(b)
    ensures AnyImmich(a) ==> AnyImmich(b)
    ensures AnyTransfers(a) ==> AnyTransfers(b)
  {
    forall i | 0 <= i < |a|
      ensures exists j :: 0 <= j < |b| && b[j] == a[i]
    {
      assert a[i] in multiset(b);
    }
  }

  lemma KeysOfGroup(f: Fingerprint, sharing: seq<Object>, sorted: seq<Object>)
    requires multiset(sorted) == multiset(sharing) && sorted != []
    ensures multiset(GroupOf(f, sorted).AllKeys()) == multiset(KeysOf(sharing))
    ensures AnyImmich(KeysOf(sorted)) == AnyImmich(KeysOf(sharing))
    ensures AnyTransfers(KeysOf(sorted)) == AnyTransfers(KeysOf(sharing))
  {
    KeysOfPermutation(sorted, sharing);
    SameKeysSameNamespaces(KeysOf(sorted), KeysOf(sharing));
    SameKeysSameNamespaces(KeysOf(sharing), KeysOf(sorted));
    assert KeysOf(sorted) == GroupOf(f, sorted).AllKeys();
  }

  lemma GroupOfCorrect(objects: seq<Object>, keyLe: KeyOrder, f: Fingerprint)
    requires TotalPreorder(keyLe) && |Having(objects, FingerprintOf(), f)| >= 2
    ensures IsGroupOf(objects, keyLe, GroupOf(f, Sort(Having(objects, FingerprintOf(), f), KeepOrder(keyLe))))
  {
    var sharing := Having(objects, FingerprintOf(), f);
    var sorted := Sort(sharing, KeepOrder(keyLe));
    KeepOrderTotal(keyLe);
    SortCorrect(sharing, KeepOrder(keyLe));
    KeysOfGroup(f, sharing, sorted);
    BestIsLeast(sharing, KeepOrder(keyLe));
    assert sorted[0].size == f.size by {
      HavingMembers(objects, FingerprintOf(), f);
      assert sorted[0] in sharing;
    }
  }

  function Made(g: Group<Fingerprint, Object>, keyLe: KeyOrder): DuplicateGroup
    requires g.members != []
  {
    GroupOf(g.key, Sort(g.members, KeepOrder(keyLe)))
  }

  ghost predicate NonEmpty(groups: seq<Group<Fingerprint, Object>>) {
    forall i :: 0 <= i < |groups| ==> groups[i].members != []
  }

  ghost predicate MadeFrom(groups: seq<Group<Fingerprint, Object>>, keyLe: KeyOrder, d: DuplicateGroup)
    requires NonEmpty(groups)
  {
    exists i :: 0 <= i < |groups| && |groups[i].members| >= 2 && d == Made(groups[i], keyLe)
  }

  lemma {:induction false} GroupsAreMade(groups: seq<Group<Fingerprint, Object>>, keyLe: KeyOrder, d: DuplicateGroup)
    requires NonEmpty(groups) && d in Groups(groups, keyLe)
    ensures MadeFrom(groups, keyLe, d)
  {
    var front, g := groups[..|groups| - 1], groups[|groups| - 1];
    if d in Groups(front, keyLe) {
      GroupsAreMade(front, keyLe, d);
      var i :| 0 <= i < |front| && |front[i].members| >= 2 && d == Made(front[i], keyLe);
      assert groups[i] == front[i];
    } else {
      assert d == Made(g, keyLe);
    }
  }

  lemma {:induction false} MadeAreGroups(groups: seq<Group<Fingerprint, Object>>, keyLe: KeyOrder, i: nat)
    requires NonEmpty(groups) && i < |groups| && |groups[i].members| >= 2
    ensures Made(groups[i], keyLe) in Groups(groups, keyLe)
  {
    var front := groups[..|groups| - 1];
    if i < |front| {
      assert front[i] == groups[i];
      MadeAreGroups(front, keyLe, i);
    }
  }

  lemma {:induction false} GroupsDistinct(groups: seq<Group<Fingerprint, Object>>, keyLe: KeyOrder)
    requires NonEmpty(groups) && DistinctKeys(groups)
    ensures forall i, j :: 0 <= i < j < |Groups(groups, keyLe)| ==>
              Groups(groups, keyLe)[i].fingerprint != Groups(groups, keyLe)[j].fingerprint
  {
    if groups != [] {
      var front, g := groups[..|groups| - 1], groups[|groups| - 1];
      GroupsDistinct(front, keyLe);
      forall d | d in Groups(front, keyLe)
        ensures d.fingerprint != g.key
      {
        GroupsAreMade(front, keyLe, d);
      }
    }
  }

  lemma GroupsCorrect(objects: seq<Object>, groups: seq<Group<Fingerprint, Object>>, keyLe: KeyOrder)
    requires TotalPreorder(keyLe)
    requires DistinctKeys(groups) && GroupsHold(groups, objects, FingerprintOf())
    ensures forall d :: d in Groups(groups, keyLe) ==> IsGroupOf(objects, keyLe, d)
    ensures forall i, j :: 0 <= i < j < |Groups(groups, keyLe)| ==>
              Groups(groups, keyLe)[i].fingerprint != Groups(groups, keyLe)[j].fingerprint
  {
    GroupsDistinct(groups, keyLe);
    forall d | d in Groups(groups, keyLe)
      ensures IsGroupOf(objects, keyLe, d)
    {
      GroupsAreMade(groups, keyLe, d);
      GroupOfCorrect(objects, keyLe, d.fingerprint);
    }
  }

  lemma EveryDuplicateGrouped(objects: seq<Object>, keyLe: KeyOrder)
    requires NonEmpty(Grouped(objects, FingerprintOf()))
    ensures forall f :: |Having(objects, FingerprintOf(), f)| >= 2 ==>
              exists d :: d in Groups(Grouped(objects, FingerprintOf()), keyLe) && d.fingerprint == f
  {
    var groups := Grouped(objects, FingerprintOf());
    GroupedPartition(objects, FingerprintOf());
    forall f | |Having(objects, FingerprintOf(), f)| >= 2
      ensures exists d :: d in Groups(groups, keyLe) && d.fingerprint == f
    {
      HavingMembers(objects, FingerprintOf(), f);
      var o := Having(objects, FingerprintOf(), f)[0];
      assert o in Having(objects, FingerprintOf(), f);
      var i := KeyIndex(groups, FingerprintOf()(o));
      MadeAreGroups(groups, keyLe, i);
      assert Made(groups[i], keyLe).fingerprint == f;
    }
  }

  lemma SortKeepsGroups(groups: seq<DuplicateGroup>)
    requires forall i, j :: 0 <= i < j < |groups| ==> groups[i].fingerprint != groups[j].fingerprint
    ensures Sorted(Sort(groups, WasteOrder()), WasteOrder())
    ensures forall d :: d in Sort(groups, WasteOrder()) <==> d in groups
    ensures forall i, j :: 0 <= i < j < |groups| ==>
              Sort(groups, WasteOrder())[i].fingerprint != Sort(groups, WasteOrder())[j].fingerprint
  {
    var sorted := Sort(groups, WasteOrder());
    SortCorrect(groups, WasteOrder());
    forall d
      ensures d in sorted <==> d in groups
    {
      assert d in multiset(sorted) <==> d in multiset(groups);
    }
    PermutationNoRepeats(groups, sorted);
    forall i, j | 0 <= i < j < |groups|
      ensures sorted[i].fingerprint != sorted[j].fingerprint
    {
      assert sorted[i] in groups && sorted[j] in groups && sorted[i] != sorted[j];
    }
  }

  ghost predicate DistinctObjectKeys(objects: seq<Object>) {
    forall i, j :: 0 <= i < j < |objects| ==> objects[i].key != objects[j].key
  }

  ghost predicate IsResult(objects: seq<Object>, keyLe: KeyOrder, result: seq<DuplicateGroup>) {
    && (forall d :: d in result ==> IsGroupOf(objects, keyLe, d))
    && (forall f :: |Having(objects, FingerprintOf(), f)| >= 2 ==> exists d :: d in result && d.fingerprint == f)
    && (forall i, j :: 0 <= i < j < |result| ==> result[i].fingerprint != result[j].fingerprint)
  }

  lemma ListedMeansSharing(objects: seq<Object>, keyLe: KeyOrder, d: DuplicateGroup, o: Object)
    requires DistinctObjectKeys(objects) && o in objects && IsGroupOf(objects, keyLe, d)
    ensures o.key in d.AllKeys() <==> FingerprintOf()(o) == d.fingerprint
  {
    var sharing := Having(objects, FingerprintOf(), d.fingerprint);
    HavingMembers(objects, FingerprintOf(), d.fingerprint);
    if o.key in d.AllKeys() {
      assert o.key in multiset(KeysOf(sharing));
      var i :| 0 <= i < |sharing| && sharing[i].key == o.key;
      assert sharing[i] in objects;
    }
    if FingerprintOf()(o) == d.fingerprint {
      var i :| 0 <= i < |sharing| && sharing[i] == o;
      assert KeysOf(sharing)[i] == o.key;
      assert o.key in multiset(d.AllKeys());
    }
  }

  /** A true partition: with distinct keys, an object is listed in a group exactly when another object
      shares its fingerprint, and then in one group only, at one place only. */
  lemma GroupsPartition(objects: seq<Object>, keyLe: KeyOrder, result: seq<DuplicateGroup>, o: Object)
    requires DistinctObjectKeys(objects) && o in objects && IsResult(objects, keyLe, result)
    ensures |Having(objects, FingerprintOf(), FingerprintOf()(o))| >= 2
            <==> exists d :: d in result && o.key in d.AllKeys()
    ensures forall d, d' :: d in result && d' in result && o.key in d.AllKeys() && o.key in d'.AllKeys() ==> d == d'
    ensures forall d :: d in result ==> NoRepeats(d.AllKeys())
  {
    forall d | d in result
      ensures o.key in d.AllKeys() <==> FingerprintOf()(o) == d.fingerprint
      ensures NoRepeats(d.AllKeys())
    {
      ListedMeansSharing(objects, keyLe, d, o);
      HavingKeysDistinct(objects, d.fingerprint);
      PermutationNoRepeats(KeysOf(Having(objects, FingerprintOf(), d.fingerprint)), d.AllKeys());
    }
  }

  lemma {:induction false} HavingKeysDistinct(objects: seq<Object>, f: Fingerprint)
    requires DistinctObjectKeys(objects)
    ensures NoRepeats(KeysOf(Having(objects, FingerprintOf(), f)))
  {
    if objects != [] {
      var front, last := objects[..|objects| - 1], objects[|objects| - 1];
      HavingKeysDistinct(front, f);
      HavingMembers(front, FingerprintOf(), f);
      var before := Having(front, FingerprintOf(), f);
      if FingerprintOf()(last) == f {
        assert KeysOf(before + [last]) == KeysOf(before) + [last.key];
        forall i | 0 <= i < |before|
          ensures before[i].key != last.key
        {
          assert before[i] in front;
        }
      } else {
        assert before + [] == before;
      }
    }
  }

  predicate Deleted(result: seq<DuplicateGroup>, key: string) {
    exists d :: d in result && key in d.duplicateKeys
  }

  lemma SameKeySameObject(objects: seq<Object>, x: Object, k: Object)
    requires DistinctObjectKeys(objects) && x in objects && k in objects
    ensures x.key == k.key ==> x == k
  {
  }

  lemma HeadNotInTail(d: DuplicateGroup)
    requires NoRepeats(d.AllKeys())
    ensures d.keepKey in d.AllKeys() && d.keepKey !in d.duplicateKeys
  {
    assert d.AllKeys()[0] == d.keepKey;
    forall j | 0 <= j < |d.duplicateKeys|
      ensures d.duplicateKeys[j] != d.keepKey
    {
      assert d.AllKeys()[j + 1] == d.duplicateKeys[j];
    }
  }

  lemma ListedHere(d: DuplicateGroup, key: string)
    ensures key in d.duplicateKeys ==> key in d.AllKeys()
  {
  }

  lemma KeepKeyStays(objects: seq<Object>, keyLe: KeyOrder, result: seq<DuplicateGroup>, d: DuplicateGroup, k: Object)
    requires DistinctObjectKeys(objects) && k in objects && IsResult(objects, keyLe, result)
    requires d in result && k.key == d.keepKey
    ensures !Deleted(result, k.key)
  {
    GroupsPartition(objects, keyLe, result, k);
    HeadNotInTail(d);
    forall d' | d' in result
      ensures k.key !in d'.duplicateKeys
    {
      ListedHere(d', k.key);
    }
  }

  lemma KeptObject(objects: seq<Object>, keyLe: KeyOrder, d: DuplicateGroup) returns (k: Object)
    requires IsGroupOf(objects, keyLe, d)
    ensures k in objects && FingerprintOf()(k) == d.fingerprint && k.key == d.keepKey
  {
    var sharing := Having(objects, FingerprintOf(), d.fingerprint);
    HavingMembers(objects, FingerprintOf(), d.fingerprint);
    assert d.AllKeys()[0] == d.keepKey;
    assert d.keepKey in multiset(d.AllKeys());
    assert d.keepKey in multiset(KeysOf(sharing));
    var i :| 0 <= i < |sharing| && KeysOf(sharing)[i] == d.keepKey;
    k := sharing[i];
  }

  lemma OthersDeleted(objects: seq<Object>, keyLe: KeyOrder, result: seq<DuplicateGroup>, d: DuplicateGroup, k: Object,
                      x: Object)
    requires DistinctObjectKeys(objects) && IsResult(objects, keyLe, result) && d in result
    requires k in objects && x in objects && k.key == d.keepKey && FingerprintOf()(x) == d.fingerprint && x != k
    ensures Deleted(result, x.key)
  {
    ListedMeansSharing(objects, keyLe, d, x);
    SameKeySameObject(objects, x, k);
    var j :| 0 <= j < |d.AllKeys()| && d.AllKeys()[j] == x.key;
    assert d.duplicateKeys[j - 1] == x.key;
  }

  /** `k` is the one copy of o's content that survives the deletion. */
  ghost predicate OnlySurvivor(objects: seq<Object>, result: seq<DuplicateGroup>, o: Object, k: Object) {
    && k in objects && FingerprintOf()(k) == FingerprintOf()(o) && !Deleted(result, k.key)
    && forall x :: x in objects && FingerprintOf()(x) == FingerprintOf()(o) && x != k ==> Deleted(result, x.key)
  }

  /** Deleting all duplicateKeys leaves exactly one object of every fingerprint. */
  lemma DeletionLeavesOne(objects: seq<Object>, keyLe: KeyOrder, result: seq<DuplicateGroup>, o: Object)
    requires DistinctObjectKeys(objects) && o in objects && IsResult(objects, keyLe, result)
    ensures exists k :: OnlySurvivor(objects, result, o, k)
  {
    var f := FingerprintOf()(o);
    if |Having(objects, FingerprintOf(), f)| >= 2 {
      var d :| d in result && d.fingerprint == f;
      var k := KeptObject(objects, keyLe, d);
      KeepKeyStays(objects, keyLe, result, d, k);
      forall x | x in objects && FingerprintOf()(x) == f && x != k
        ensures Deleted(result, x.key)
      {
        OthersDeleted(objects, keyLe, result, d, k, x);
      }
      assert OnlySurvivor(objects, result, o, k);
    } else {
      LoneObjectStays(objects, keyLe, result, o);
    }
  }

  lemma OneMember(s: seq<Object>, o: Object, x: Object)
    requires |s| < 2 && o in s && x in s
    ensures x == o
  {
  }

  lemma NotListedNotDeleted(result: seq<DuplicateGroup>, key: string)
    requires forall d :: d in result ==> key !in d.AllKeys()
    ensures !Deleted(result, key)
  {
    forall d | d in result
      ensures key !in d.duplicateKeys
    {
      ListedHere(d, key);
    }
  }

  lemma LoneObjectStays(objects: seq<Object>, keyLe: KeyOrder, result: seq<DuplicateGroup>, o: Object)
    requires DistinctObjectKeys(objects) && o in objects && IsResult(objects, keyLe, result)
    requires |Having(objects, FingerprintOf(), FingerprintOf()(o))| < 2
    ensures OnlySurvivor(objects, result, o, o)
  {
    var f := FingerprintOf()(o);
    forall x | x in objects && FingerprintOf()(x) == f
      ensures x == o
    {
      HavingMembers(objects, FingerprintOf(), f);
      OneMember(Having(objects, FingerprintOf(), f), o, x);
    }
    assert !Deleted(result, o.key) by {
      GroupsPartition(objects, keyLe, result, o);
      NotListedNotDeleted(result, o.key);
    }
  }

  /** The kept key is an immich/ key whenever some immich/ copy has at most 25 slashes. */
  lemma ImmichCopyKept(objects: seq<Object>, keyLe: KeyOrder, d: DuplicateGroup, o: Object)
    requires IsGroupOf(objects, keyLe, d)
    requires o in objects && FingerprintOf()(o) == d.fingerprint && IsImmich(o.key) && Slashes(o.key) <= 25
    ensures IsImmich(d.keepKey)
  {
    HavingMembers(objects, FingerprintOf(), d.fingerprint);
    assert o in Having(objects, FingerprintOf(), d.fingerprint);
    if !IsImmich(d.keepKey) {
      OtherScoresAtMostFour(d.keepKey);
    }
  }
}
