/**
 Stable sorting and grouping as the TypeScript code does them: Array.prototype.sort is stable, and a
 Map keeps its keys in the order of their first insertion. A Map from keys to arrays is a sequence
 of groups here.
*/
module Grouping {

  // ---------------------------------------------------------------- stable sort

  ghost predicate TotalPreorder<T(!new)>(le: (T, T) -> bool) {
    && (forall x, y :: le(x, y) || le(y, x))
    && (forall x, y, z :: le(x, y) && le(y, z) ==> le(x, z))
  }

  /** x goes before the elements it ties with, which came after it. */
  function Insert<T>(x: T, sorted: seq<T>, le: (T, T) -> bool): (r: seq<T>)
    ensures |r| == |sorted| + 1
  {
    if sorted == [] || le(x, sorted[0]) then [x] + sorted
    else [sorted[0]] + Insert(x, sorted[1..], le)
  }

  function Sort<T>(s: seq<T>, le: (T, T) -> bool): (r: seq<T>)
    ensures |r| == |s|
  {
    if s == [] then [] else Insert(s[0], Sort(s[1..], le), le)
  }

  ghost predicate Sorted<T>(s: seq<T>, le: (T, T) -> bool) {
    forall i, j :: 0 <= i < j < |s| ==> le(s[i], s[j])
  }

  lemma {:induction false} InsertMultiset<T>(x: T, s: seq<T>, le: (T, T) -> bool)
    ensures multiset(Insert(x, s, le)) == multiset{x} + multiset(s)
  {
    if s == [] || le(x, s[0]) {
    } else {
      InsertMultiset(x, s[1..], le);
      assert s == [s[0]] + s[1..];
    }
  }

  lemma {:induction false} InsertSorted<T(!new)>(x: T, s: seq<T>, le: (T, T) -> bool)
    requires TotalPreorder(le) && Sorted(s, le)
    ensures Sorted(Insert(x, s, le), le)
  {
    if s == [] || le(x, s[0]) {
    } else {
      InsertSorted(x, s[1..], le);
      InsertMultiset(x, s[1..], le);
      var rest := Insert(x, s[1..], le);
      forall i | 0 <= i < |rest|
        ensures le(s[0], rest[i])
      {
        assert rest[i] in multiset(rest);
        assert rest[i] == x || rest[i] in s[1..];
      }
    }
  }

  lemma {:induction false} SortCorrect<T(!new)>(s: seq<T>, le: (T, T) -> bool)
    requires TotalPreorder(le)
    ensures Sorted(Sort(s, le), le)
    ensures multiset(Sort(s, le)) == multiset(s)
  {
    if s != [] {
      SortCorrect(s[1..], le);
      InsertSorted(s[0], Sort(s[1..], le), le);
      InsertMultiset(s[0], Sort(s[1..], le), le);
      assert s == [s[0]] + s[1..];
    }
  }

  /** The head of the sorted group: what `group.sort(...)[0]` keeps. */
  function Best<T>(group: seq<T>, le: (T, T) -> bool): T
    requires group != []
  {
    Sort(group, le)[0]
  }

  lemma BestIsLeast<T(!new)>(group: seq<T>, le: (T, T) -> bool)
    requires TotalPreorder(le) && group != []
    ensures Best(group, le) in group
    ensures forall x :: x in group ==> le(Best(group, le), x)
  {
    SortCorrect(group, le);
    var sorted := Sort(group, le);
    assert sorted[0] in multiset(group);
    forall x | x in group
      ensures le(sorted[0], x)
    {
      assert x in multiset(sorted);
      var i :| 0 <= i < |sorted| && sorted[i] == x;
      assert le(sorted[0], sorted[0]) || i > 0;
    }
  }

  /** The elements that tie with x, in order. */
  function Ties<T>(s: seq<T>, le: (T, T) -> bool, x: T): seq<T> {
    if s == [] then [] else (if le(x, s[0]) && le(s[0], x) then [s[0]] else []) + Ties(s[1..], le, x)
  }

  lemma {:induction false} InsertTies<T(!new)>(a: T, s: seq<T>, le: (T, T) -> bool, x: T)
    requires le(a, x) ==> forall y :: y in s && le(x, y) ==> le(a, y)
    ensures Ties(Insert(a, s, le), le, x) == (if le(x, a) && le(a, x) then [a] else []) + Ties(s, le, x)
  {
    var r := Insert(a, s, le);
    if s == [] || le(a, s[0]) {
      assert r[1..] == s;
    } else {
      InsertTies(a, s[1..], le, x);
      assert r[1..] == Insert(a, s[1..], le);
    }
  }

  /** Sorting is stable: elements that tie keep their order. */
  lemma {:induction false} SortStable<T(!new)>(s: seq<T>, le: (T, T) -> bool, x: T)
    requires TotalPreorder(le)
    ensures Ties(Sort(s, le), le, x) == Ties(s, le, x)
  {
    if s != [] {
      SortStable(s[1..], le, x);
      InsertTies(s[0], Sort(s[1..], le), le, x);
    }
  }

  /** So of equally good elements the first is kept. */
  lemma BestIsFirst<T(!new)>(group: seq<T>, le: (T, T) -> bool)
    requires TotalPreorder(le) && group != []
    ensures var ties := Ties(group, le, Best(group, le)); ties != [] && ties[0] == Best(group, le)
  {
    SortStable(group, le, Best(group, le));
    assert le(Best(group, le), Best(group, le));
  }

  // ------------------------------------------------------------------- grouping

  datatype Group<K, T> = Group(key: K, members: seq<T>)

  /** Where a key's group is, or the length when it has none. */
  function KeyIndex<K(==), T>(groups: seq<Group<K, T>>, key: K): (i: nat)
    ensures i <= |groups|
    ensures i < |groups| ==> groups[i].key == key
    ensures forall j :: 0 <= j < i ==> groups[j].key != key
  {
    if groups == [] || groups[0].key == key then 0 else 1 + KeyIndex(groups[1..], key)
  }

  /** map.get(key) and push, or map.set(key, [x]). */
  function AddTo<K(==), T>(groups: seq<Group<K, T>>, key: K, x: T): seq<Group<K, T>> {
    var i := KeyIndex(groups, key);
    if i < |groups| then groups[i := Group(key, groups[i].members + [x])] else groups + [Group(key, [x])]
  }

  function Grouped<K(==), T>(items: seq<T>, keyOf: T -> K): seq<Group<K, T>> {
    if items == [] then []
    else
      var last := items[|items| - 1];
      AddTo(Grouped(items[..|items| - 1], keyOf), keyOf(last), last)
  }

  lemma GroupedSnoc<K, T>(items: seq<T>, x: T, keyOf: T -> K)
    ensures Grouped(items + [x], keyOf) == AddTo(Grouped(items, keyOf), keyOf(x), x)
  {
    assert (items + [x])[..|items|] == items;
  }

  method GroupBy<K(==), T>(items: seq<T>, keyOf: T -> K) returns (groups: seq<Group<K, T>>)
    ensures groups == Grouped(items, keyOf)
  {
    groups := [];
    for i := 0 to |items|
      invariant groups == Grouped(items[..i], keyOf)
    {
      assert items[..i + 1] == items[..i] + [items[i]];
      GroupedSnoc(items[..i], items[i], keyOf);
      groups := AddTo(groups, keyOf(items[i]), items[i]);
    }
    assert items[..|items|] == items;
  }

  /** The items with a given key, in their order. */
  function Having<K(==), T>(items: seq<T>, keyOf: T -> K, key: K): seq<T> {
    if items == [] then []
    else
      var last := items[|items| - 1];
      Having(items[..|items| - 1], keyOf, key) + if keyOf(last) == key then [last] else []
  }

  function Flatten<K, T>(groups: seq<Group<K, T>>): seq<T> {
    if groups == [] then [] else groups[0].members + Flatten(groups[1..])
  }

  ghost predicate DistinctKeys<K, T>(groups: seq<Group<K, T>>) {
    forall i, j :: 0 <= i < j < |groups| ==> groups[i].key != groups[j].key
  }

  lemma {:induction false} FlattenConcat<K, T>(a: seq<Group<K, T>>, b: seq<Group<K, T>>)
    ensures Flatten(a + b) == Flatten(a) + Flatten(b)
  {
    if a == [] {
      assert a + b == b;
    } else {
      assert (a + b)[1..] == a[1..] + b;
      FlattenConcat(a[1..], b);
    }
  }

  lemma FlattenOne<K, T>(g: Group<K, T>)
    ensures Flatten([g]) == g.members
  {
    assert [g][1..] == [];
    assert g.members + [] == g.members;
  }

  lemma AddToFlatten<K, T>(groups: seq<Group<K, T>>, key: K, x: T)
    ensures multiset(Flatten(AddTo(groups, key, x))) == multiset(Flatten(groups)) + multiset{x}
  {
    var i := KeyIndex(groups, key);
    if i < |groups| {
      var g, grown := groups[i], Group(key, groups[i].members + [x]);
      var a, b := groups[..i], groups[i + 1..];
      assert groups == a + [g] + b && AddTo(groups, key, x) == a + [grown] + b;
      FlattenConcat(a + [g], b);
      FlattenConcat(a, [g]);
      FlattenConcat(a + [grown], b);
      FlattenConcat(a, [grown]);
      FlattenOne(g);
      FlattenOne(grown);
    } else {
      FlattenConcat(groups, [Group(key, [x])]);
      FlattenOne(Group(key, [x]));
    }
  }

  lemma FlattenSnoc<K, T>(groups: seq<Group<K, T>>, i: nat)
    requires i < |groups|
    ensures Flatten(groups[..i + 1]) == Flatten(groups[..i]) + groups[i].members
  {
    assert groups[..i + 1] == groups[..i] + [groups[i]];
    FlattenConcat(groups[..i], [groups[i]]);
    FlattenOne(groups[i]);
  }

  lemma {:induction false} GroupedFlatten<K, T>(items: seq<T>, keyOf: T -> K)
    ensures multiset(Flatten(Grouped(items, keyOf))) == multiset(items)
  {
    if items != [] {
      var front, last := items[..|items| - 1], items[|items| - 1];
      GroupedFlatten(front, keyOf);
      AddToFlatten(Grouped(front, keyOf), keyOf(last), last);
      assert items == front + [last];
    }
  }

  /** Each group holds exactly the items with its key, in order. */
  ghost predicate GroupsHold<K, T>(groups: seq<Group<K, T>>, items: seq<T>, keyOf: T -> K) {
    forall i :: 0 <= i < |groups| ==>
      groups[i].members == Having(items, keyOf, groups[i].key) && groups[i].members != []
  }

  ghost predicate AllKeyed<K, T>(groups: seq<Group<K, T>>, items: seq<T>, keyOf: T -> K) {
    forall x :: x in items ==> KeyIndex(groups, keyOf(x)) < |groups|
  }

  lemma KeyIndexAfter<K, T>(groups: seq<Group<K, T>>, key: K, x: T, other: K)
    ensures KeyIndex(AddTo(groups, key, x), other) < |AddTo(groups, key, x)|
            <==> other == key || KeyIndex(groups, other) < |groups|
  {
    var r, i, j := AddTo(groups, key, x), KeyIndex(groups, key), KeyIndex(AddTo(groups, key, x), other);
    if other == key || KeyIndex(groups, other) < |groups| {
      var k := if other == key then i else KeyIndex(groups, other);
      assert r[k].key == other;
    }
  }

  lemma AddToHolds<K, T>(groups: seq<Group<K, T>>, items: seq<T>, keyOf: T -> K, x: T)
    requires DistinctKeys(groups) && GroupsHold(groups, items, keyOf) && AllKeyed(groups, items, keyOf)
    ensures GroupsHold(AddTo(groups, keyOf(x), x), items + [x], keyOf)
  {
    assert (items + [x])[..|items|] == items;
    if KeyIndex(groups, keyOf(x)) == |groups| {
      NoneHaving(items, keyOf, keyOf(x));
    }
  }

  /** Grouping is a partition: distinct keys; each group is exactly the items with its key, in order,
      and not empty; every item is in one. With GroupedFlatten nothing is lost or doubled. */
  lemma {:induction false} GroupedPartition<K, T>(items: seq<T>, keyOf: T -> K)
    ensures DistinctKeys(Grouped(items, keyOf))
    ensures GroupsHold(Grouped(items, keyOf), items, keyOf)
    ensures AllKeyed(Grouped(items, keyOf), items, keyOf)
  {
    if items != [] {
      var front, last := items[..|items| - 1], items[|items| - 1];
      GroupedPartition(front, keyOf);
      assert items == front + [last];
      AddToHolds(Grouped(front, keyOf), front, keyOf, last);
      forall x | x in items
        ensures KeyIndex(Grouped(items, keyOf), keyOf(x)) < |Grouped(items, keyOf)|
      {
        KeyIndexAfter(Grouped(front, keyOf), keyOf(last), last, keyOf(x));
      }
    }
  }

  lemma {:induction false} NoneHaving<K, T>(items: seq<T>, keyOf: T -> K, key: K)
    requires forall x :: x in items ==> keyOf(x) != key
    ensures Having(items, keyOf, key) == []
  {
    if items != [] {
      NoneHaving(items[..|items| - 1], keyOf, key);
    }
  }

  lemma {:induction false} HavingMembers<K, T>(items: seq<T>, keyOf: T -> K, key: K)
    ensures forall x :: x in Having(items, keyOf, key) <==> x in items && keyOf(x) == key
  {
    if items != [] {
      var front, last := items[..|items| - 1], items[|items| - 1];
      HavingMembers(front, keyOf, key);
      assert items == front + [last];
    }
  }

  lemma {:induction false} HavingConcat<K, T>(a: seq<T>, b: seq<T>, keyOf: T -> K, key: K)
    ensures Having(a + b, keyOf, key) == Having(a, keyOf, key) + Having(b, keyOf, key)
  {
    if b == [] {
      assert a + b == a;
    } else {
      var front, last := b[..|b| - 1], b[|b| - 1];
      HavingConcat(a, front, keyOf, key);
      assert (a + b)[..|a + b| - 1] == a + front;
    }
  }

  // -------------------------------------------------- sequences without duplicates

  ghost predicate NoRepeats<T>(s: seq<T>) {
    forall i, j :: 0 <= i < j < |s| ==> s[i] != s[j]
  }

  lemma {:induction false} CountAtMostOnce<T>(s: seq<T>, x: T)
    requires NoRepeats(s)
    ensures multiset(s)[x] == if x in s then 1 else 0
  {
    if s != [] {
      var front, last := s[..|s| - 1], s[|s| - 1];
      CountAtMostOnce(front, x);
      assert s == front + [last];
    }
  }

  lemma SameSetSameMultiset<T>(a: seq<T>, b: seq<T>)
    requires NoRepeats(a) && NoRepeats(b)
    requires forall x :: x in a <==> x in b
    ensures multiset(a) == multiset(b)
  {
    forall x
      ensures multiset(a)[x] == multiset(b)[x]
    {
      CountAtMostOnce(a, x);
      CountAtMostOnce(b, x);
    }
  }

  lemma {:induction false} NoRepeatsFromCounts<T>(s: seq<T>)
    requires forall x :: multiset(s)[x] <= 1
    ensures NoRepeats(s)
  {
    if s != [] {
      var front, last := s[..|s| - 1], s[|s| - 1];
      assert s == front + [last];
      assert forall x :: multiset(s)[x] == multiset(front)[x] + multiset{last}[x];
      NoRepeatsFromCounts(front);
      assert last !in multiset(front);
    }
  }

  lemma PermutationNoRepeats<T>(a: seq<T>, b: seq<T>)
    requires NoRepeats(a) && multiset(a) == multiset(b)
    ensures NoRepeats(b)
  {
    forall x
      ensures multiset(b)[x] <= 1
    {
      CountAtMostOnce(a, x);
    }
    NoRepeatsFromCounts(b);
  }

  // ------------------------------------------------------------------------ sums

  function Sum<T>(s: seq<T>, value: T -> int): int {
    if s == [] then 0 else Sum(s[..|s| - 1], value) + value(s[|s| - 1])
  }

  lemma {:induction false} SumConcat<T>(a: seq<T>, b: seq<T>, value: T -> int)
    ensures Sum(a + b, value) == Sum(a, value) + Sum(b, value)
  {
    if b == [] {
      assert a + b == a;
    } else {
      SumConcat(a, b[..|b| - 1], value);
      assert (a + b)[..|a + b| - 1] == a + b[..|b| - 1];
    }
  }

  lemma SumOneMore<T>(s: seq<T>, x: T, value: T -> int)
    ensures Sum(s + [x], value) == Sum(s, value) + value(x)
  {
    assert (s + [x])[..|s|] == s;
  }

  lemma SumTakeOut<T>(before: seq<T>, x: T, after: seq<T>, value: T -> int)
    ensures Sum(before + [x] + after, value) == Sum(before + after, value) + value(x)
  {
    SumConcat(before + [x], after, value);
    SumOneMore(before, x, value);
    SumConcat(before, after, value);
  }

  lemma {:induction false} SumOfPermutation<T>(a: seq<T>, b: seq<T>, value: T -> int)
    requires multiset(a) == multiset(b)
    ensures Sum(a, value) == Sum(b, value)
  {
    if a == [] {
      assert |b| == |multiset(b)| == 0;
    } else {
      var front, last := a[..|a| - 1], a[|a| - 1];
      assert a == front + [last];
      assert last in multiset(b);
      var i :| 0 <= i < |b| && b[i] == last;
      assert b == b[..i] + [b[i]] + b[i + 1..];
      assert multiset(a) == multiset(front) + multiset{last};
      assert multiset(b) == multiset(b[..i] + b[i + 1..]) + multiset{last};
      assert multiset(front) == multiset(a) - multiset{last};
      SumOfPermutation(front, b[..i] + b[i + 1..], value);
      SumTakeOut(b[..i], b[i], b[i + 1..], value);
    }
  }
}
