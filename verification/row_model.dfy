/**
 The row model of the virtualized gallery (frontend/src/lib/virtual-row-model.ts): sections of
 items by date, flattened to dividers, headers and rows of up to `cols` items.

 parseInt is an arbitrary function from texts to numbers or NaN.
*/
module RowModel {
  import opened Wrappers

  datatype Item = Item(key: string, mediaType: string)

  datatype Section = Section(date: string, items: seq<Item>)

  datatype Row =
    | MonthDivider(monthKey: string, monthName: Option<string>, year: string, itemCount: nat, coverItem: Option<Item>)
    | SectionHeader(date: string, sectionItems: seq<Item>, isFirst: bool)
    | ItemsRow(items: seq<Item>, startIndex: nat)

  datatype Meta = Meta(itemCount: nat, coverItem: Option<Item>)

  type ParseInt = string -> Option<int>

  const FULL_MONTHS: seq<string> := [
    "January", "February", "March", "April", "May", "June",
    "July", "August", "September", "October", "November", "December"
  ]

  function Min(a: nat, b: nat): nat {
    if a < b then a else b
  }

  /** s.slice(from, to) for from <= to. */
  function Slice(s: string, from: nat, to: nat): string
    requires from <= to
  {
    s[Min(from, |s|)..Min(to, |s|)]
  }

  function MonthKey(date: string): string {
    Slice(date, 0, 7)
  }

  function Label(date: string, parseInt: ParseInt): Option<string> {
    var m := parseInt(Slice(date, 5, 7));
    if m.Some? && 1 <= m.value <= 12 then Some(FULL_MONTHS[m.value - 1]) else None
  }

  // -------------------------------------------------------------------- month meta

  function FirstImage(items: seq<Item>): Option<Item> {
    if items == [] then None
    else if items[0].mediaType == "image" then Some(items[0])
    else FirstImage(items[1..])
  }

  function Or<T>(a: Option<T>, b: Option<T>): Option<T> {
    if a.Some? then a else b
  }

  function First(items: seq<Item>): Option<Item> {
    if items == [] then None else Some(items[0])
  }

  /** The cover of a month: its first image, or else its first item. */
  function Cover(items: seq<Item>): Option<Item> {
    Or(FirstImage(items), First(items))
  }

  function WithSection(meta: map<string, Meta>, section: Section): map<string, Meta> {
    var mk := MonthKey(section.date);
    if mk in meta then
      var was := meta[mk];
      var cover :=
        if was.coverItem.None? || was.coverItem.value.mediaType != "image"
        then Or(FirstImage(section.items), Or(was.coverItem, First(section.items)))
        else was.coverItem;
      meta[mk := Meta(was.itemCount + |section.items|, cover)]
    else meta[mk := Meta(|section.items|, Or(FirstImage(section.items), First(section.items)))]
  }

  /** All items of a month, in order. */
  function MonthItems(sections: seq<Section>, mk: string): seq<Item> {
    if sections == [] then []
    else
      var last := sections[|sections| - 1];
      MonthItems(sections[..|sections| - 1], mk) + if MonthKey(last.date) == mk then last.items else []
  }

  predicate HasMonth(sections: seq<Section>, mk: string) {
    exists i :: 0 <= i < |sections| && MonthKey(sections[i].date) == mk
  }

  function MetaOf(sections: seq<Section>): map<string, Meta> {
    if sections == [] then map[]
    else WithSection(MetaOf(sections[..|sections| - 1]), sections[|sections| - 1])
  }

  lemma {:induction false} FirstImageConcat(a: seq<Item>, b: seq<Item>)
    ensures FirstImage(a + b) == Or(FirstImage(a), FirstImage(b))
    ensures FirstImage(a).Some? ==> FirstImage(a).value.mediaType == "image"
  {
    if a == [] {
      assert a + b == b;
    } else {
      assert (a + b)[1..] == a[1..] + b;
      FirstImageConcat(a[1..], b);
    }
  }

  lemma {:induction false} NoImage(items: seq<Item>)
    requires FirstImage(items).None?
    ensures forall i :: 0 <= i < |items| ==> items[i].mediaType != "image"
  {
    if items != [] {
      NoImage(items[1..]);
      forall i | 0 <= i < |items|
        ensures items[i].mediaType != "image"
      {
        assert i > 0 ==> items[1..][i - 1] == items[i];
      }
    }
  }

  lemma CoverConcat(a: seq<Item>, b: seq<Item>)
    ensures Cover(a + b)
            == if Cover(a).None? || Cover(a).value.mediaType != "image" then Or(FirstImage(b), Or(Cover(a), First(b)))
               else Cover(a)
  {
    FirstImageConcat(a, b);
    if FirstImage(a).None? {
      NoImage(a);
    }
  }

  lemma {:induction false} NoMonthNoItems(sections: seq<Section>, mk: string)
    requires !HasMonth(sections, mk)
    ensures MonthItems(sections, mk) == []
  {
    if sections != [] {
      var front, last := sections[..|sections| - 1], sections[|sections| - 1];
      assert MonthKey(sections[|sections| - 1].date) != mk;
      forall i | 0 <= i < |front|
        ensures MonthKey(front[i].date) != mk
      {
        assert front[i] == sections[i];
      }
      NoMonthNoItems(front, mk);
    }
  }

  lemma HasMonthSnoc(sections: seq<Section>, mk: string)
    requires sections != []
    ensures HasMonth(sections, mk)
            <==> HasMonth(sections[..|sections| - 1], mk) || MonthKey(sections[|sections| - 1].date) == mk
  {
    var front := sections[..|sections| - 1];
    if HasMonth(front, mk) {
      var i :| 0 <= i < |front| && MonthKey(front[i].date) == mk;
      assert sections[i] == front[i];
    }
    if HasMonth(sections, mk) {
      var i :| 0 <= i < |sections| && MonthKey(sections[i].date) == mk;
      assert i < |front| ==> front[i] == sections[i];
    }
  }

  /** The pre-scan: a month's count is the number of all its items, its cover the first image of them
      all or else the first item, whatever sections lie between. */
  lemma {:induction false} MetaCorrect(sections: seq<Section>, mk: string)
    ensures mk in MetaOf(sections) <==> HasMonth(sections, mk)
    ensures mk in MetaOf(sections) ==>
              MetaOf(sections)[mk] == Meta(|MonthItems(sections, mk)|, Cover(MonthItems(sections, mk)))
  {
    if sections != [] {
      var front, last := sections[..|sections| - 1], sections[|sections| - 1];
      MetaCorrect(front, mk);
      HasMonthSnoc(sections, mk);
      var before := MonthItems(front, mk);
      if MonthKey(last.date) == mk {
        if HasMonth(front, mk) {
          CoverConcat(before, last.items);
        } else {
          NoMonthNoItems(front, mk);
          assert before + last.items == last.items;
        }
      } else {
        assert before + [] == before;
      }
    }
  }

  // ------------------------------------------------------------------- the row model

  function ItemCount(sections: seq<Section>): nat {
    if sections == [] then 0 else ItemCount(sections[..|sections| - 1]) + |sections[|sections| - 1].items|
  }

  /** The rows of a section's items from the i-th on; its first item is number `start` of all. */
  function ItemRows(items: seq<Item>, cols: nat, start: nat, i: nat): seq<Row>
    requires cols >= 1
    decreases |items| - i
  {
    if i >= |items| then []
    else [ItemsRow(items[i..Min(i + cols, |items|)], start + i)] + ItemRows(items, cols, start, i + cols)
  }

  function Divider(meta: map<string, Meta>, date: string, parseInt: ParseInt): Row
    requires MonthKey(date) in meta
  {
    var m := meta[MonthKey(date)];
    MonthDivider(MonthKey(date), Label(date, parseInt), Slice(date, 0, 4), m.itemCount, m.coverItem)
  }

  /** The previous section's month, or none before the first. */
  function PrevMonth(sections: seq<Section>): Option<string> {
    if sections == [] then None else Some(MonthKey(sections[|sections| - 1].date))
  }

  ghost predicate Covers(meta: map<string, Meta>, sections: seq<Section>) {
    forall i :: 0 <= i < |sections| ==> MonthKey(sections[i].date) in meta
  }

  /** A section's rows after the sections before it. */
  function SectionRows(before: seq<Section>, section: Section, meta: map<string, Meta>, cols: nat,
                       parseInt: ParseInt): seq<Row>
    requires cols >= 1 && MonthKey(section.date) in meta
  {
    (if PrevMonth(before) == Some(MonthKey(section.date)) then [] else [Divider(meta, section.date, parseInt)])
    + [SectionHeader(section.date, section.items, before == [])]
    + ItemRows(section.items, cols, ItemCount(before), 0)
  }

  function Rows(sections: seq<Section>, meta: map<string, Meta>, cols: nat, parseInt: ParseInt): seq<Row>
    requires cols >= 1 && Covers(meta, sections)
  {
    if sections == [] then []
    else
      var front, last := sections[..|sections| - 1], sections[|sections| - 1];
      Rows(front, meta, cols, parseInt) + SectionRows(front, last, meta, cols, parseInt)
  }

  lemma AllMonths(sections: seq<Section>)
    ensures Covers(MetaOf(sections), sections)
  {
    forall i | 0 <= i < |sections|
      ensures MonthKey(sections[i].date) in MetaOf(sections)
    {
      MetaCorrect(sections, MonthKey(sections[i].date));
    }
  }

  /** The first loop of buildRowModel. */
  method ScanMonths(sections: seq<Section>) returns (meta: map<string, Meta>)
    ensures meta == MetaOf(sections)
  {
    meta := map[];
    for i := 0 to |sections|
      invariant meta == MetaOf(sections[..i])
    {
      assert sections[..i + 1][..i] == sections[..i];
      meta := WithSection(meta, sections[i]);
    }
    assert sections[..|sections|] == sections;
  }

  /** The inner loop of buildRowModel. */
  method PushItemRows(before: seq<Row>, items: seq<Item>, cols: nat, globalIndex: nat) returns (rows: seq<Row>)
    requires cols >= 1
    ensures rows == before + ItemRows(items, cols, globalIndex, 0)
  {
    rows := before;
    var i := 0;
    while i < |items|
      invariant before + ItemRows(items, cols, globalIndex, 0) == rows + ItemRows(items, cols, globalIndex, i)
      decreases |items| - i
    {
      rows := rows + [ItemsRow(items[i..Min(i + cols, |items|)], globalIndex + i)];
      i := i + cols;
    }
  }

  lemma Assoc(a: seq<Row>, b: seq<Row>, c: seq<Row>, d: seq<Row>)
    ensures a + b + c + d == a + (b + c + d)
  {
  }

  lemma RowsSnoc(sections: seq<Section>, meta: map<string, Meta>, cols: nat, parseInt: ParseInt, k: nat)
    requires cols >= 1 && Covers(meta, sections) && k < |sections|
    ensures Rows(sections[..k + 1], meta, cols, parseInt)
            == Rows(sections[..k], meta, cols, parseInt) + SectionRows(sections[..k], sections[k], meta, cols, parseInt)
    ensures ItemCount(sections[..k + 1]) == ItemCount(sections[..k]) + |sections[k].items|
    ensures PrevMonth(sections[..k + 1]) == Some(MonthKey(sections[k].date))
  {
    assert sections[..k + 1][..k] == sections[..k];
  }

  /** buildRowModel. */
  method BuildRowModel(sections: seq<Section>, cols: nat, parseInt: ParseInt) returns (rows: seq<Row>)
    requires cols >= 1
    ensures Covers(MetaOf(sections), sections) && rows == Rows(sections, MetaOf(sections), cols, parseInt)
  {
    var meta := ScanMonths(sections);
    AllMonths(sections);
    rows := [];
    var globalIndex, prevMonthKey, isFirstSection := 0, None, true;
    for k := 0 to |sections|
      invariant rows == Rows(sections[..k], meta, cols, parseInt)
      invariant globalIndex == ItemCount(sections[..k]) && prevMonthKey == PrevMonth(sections[..k])
      invariant isFirstSection == (k == 0)
    {
      var section := sections[k];
      var curMonthKey := MonthKey(section.date);
      RowsSnoc(sections, meta, cols, parseInt, k);
      ghost var before := rows;
      var divider: seq<Row> := [];
      if prevMonthKey != Some(curMonthKey) {
        divider := [Divider(meta, section.date, parseInt)];
        prevMonthKey := Some(curMonthKey);
      }
      rows := rows + divider + [SectionHeader(section.date, section.items, isFirstSection)];
      isFirstSection := false;
      rows := PushItemRows(rows, section.items, cols, globalIndex);
      globalIndex := globalIndex + |section.items|;
      Assoc(before, divider, [SectionHeader(section.date, section.items, k == 0)],
            ItemRows(section.items, cols, ItemCount(sections[..k]), 0));
    }
    assert sections[..|sections|] == sections;
  }

  // ------------------------------------------------------------------ faithfulness

  function AllItems(sections: seq<Section>): seq<Item> {
    if sections == [] then [] else AllItems(sections[..|sections| - 1]) + sections[|sections| - 1].items
  }

  /** The items of the item rows, in order. */
  function ItemsIn(rows: seq<Row>): seq<Item> {
    if rows == [] then [] else (if rows[0].ItemsRow? then rows[0].items else []) + ItemsIn(rows[1..])
  }

  /** The dates of the headers, in order. */
  function HeaderDates(rows: seq<Row>): seq<string> {
    if rows == [] then [] else (if rows[0].SectionHeader? then [rows[0].date] else []) + HeaderDates(rows[1..])
  }

  function Dates(sections: seq<Section>): seq<string> {
    seq(|sections|, i requires 0 <= i < |sections| => sections[i].date)
  }

  lemma {:induction false} RowsConcat(a: seq<Row>, b: seq<Row>)
    ensures ItemsIn(a + b) == ItemsIn(a) + ItemsIn(b)
    ensures HeaderDates(a + b) == HeaderDates(a) + HeaderDates(b)
  {
    if a == [] {
      assert a + b == b;
    } else {
      assert (a + b)[1..] == a[1..] + b;
      RowsConcat(a[1..], b);
    }
  }

  lemma OneRow(r: Row)
    ensures ItemsIn([r]) == if r.ItemsRow? then r.items else []
    ensures HeaderDates([r]) == if r.SectionHeader? then [r.date] else []
  {
    assert [r][1..] == [];
  }

  lemma {:induction false} ItemRowsItems(items: seq<Item>, cols: nat, start: nat, i: nat)
    requires cols >= 1
    ensures ItemsIn(ItemRows(items, cols, start, i)) == items[Min(i, |items|)..]
    ensures HeaderDates(ItemRows(items, cols, start, i)) == []
    decreases |items| - i
  {
    if i < |items| {
      ItemRowsItems(items, cols, start, i + cols);
      assert items[i..] == items[i..Min(i + cols, |items|)] + items[Min(i + cols, |items|)..];
    }
  }

  lemma SectionRowsHold(before: seq<Section>, section: Section, meta: map<string, Meta>, cols: nat, parseInt: ParseInt)
    requires cols >= 1 && MonthKey(section.date) in meta
    ensures var rows := SectionRows(before, section, meta, cols, parseInt);
            ItemsIn(rows) == section.items && HeaderDates(rows) == [section.date]
  {
    var divider := if PrevMonth(before) == Some(MonthKey(section.date)) then []
                   else [Divider(meta, section.date, parseInt)];
    var header := SectionHeader(section.date, section.items, before == []);
    var rest := ItemRows(section.items, cols, ItemCount(before), 0);
    RowsConcat(divider + [header], rest);
    RowsConcat(divider, [header]);
    OneRow(header);
    if divider != [] {
      OneRow(divider[0]);
    }
    ItemRowsItems(section.items, cols, ItemCount(before), 0);
  }

  /** Nothing is lost, doubled or moved: the item rows hold all items in order, the headers all dates. */
  lemma {:induction false} RowsFaithful(sections: seq<Section>, meta: map<string, Meta>, cols: nat, parseInt: ParseInt)
    requires cols >= 1 && Covers(meta, sections)
    ensures ItemsIn(Rows(sections, meta, cols, parseInt)) == AllItems(sections)
    ensures HeaderDates(Rows(sections, meta, cols, parseInt)) == Dates(sections)
  {
    if sections != [] {
      var front, last := sections[..|sections| - 1], sections[|sections| - 1];
      RowsFaithful(front, meta, cols, parseInt);
      SectionRowsHold(front, last, meta, cols, parseInt);
      RowsConcat(Rows(front, meta, cols, parseInt), SectionRows(front, last, meta, cols, parseInt));
      assert Dates(sections) == Dates(front) + [last.date];
    }
  }

  /** Item rows are of 1 to `cols` items and start where those before them, from `offset` on, end. */
  predicate Tiled(rows: seq<Row>, cols: nat, offset: nat) {
    rows == []
    || (match rows[0]
        case ItemsRow(items, startIndex) =>
          1 <= |items| <= cols && startIndex == offset && Tiled(rows[1..], cols, offset + |items|)
        case _ => Tiled(rows[1..], cols, offset))
  }

  lemma {:induction false} TiledConcat(a: seq<Row>, b: seq<Row>, cols: nat, offset: nat)
    requires Tiled(a, cols, offset) && Tiled(b, cols, offset + |ItemsIn(a)|)
    ensures Tiled(a + b, cols, offset)
  {
    if a == [] {
      assert a + b == b;
    } else {
      assert (a + b)[1..] == a[1..] + b;
      TiledConcat(a[1..], b, cols, offset + if a[0].ItemsRow? then |a[0].items| else 0);
    }
  }

  lemma {:induction false} ItemRowsTiled(items: seq<Item>, cols: nat, start: nat, i: nat)
    requires cols >= 1 && i <= |items|
    ensures Tiled(ItemRows(items, cols, start, i), cols, start + i)
    decreases |items| - i
  {
    if i + cols <= |items| {
      ItemRowsTiled(items, cols, start, i + cols);
    }
  }

  lemma SectionRowsTiled(before: seq<Section>, section: Section, meta: map<string, Meta>, cols: nat, parseInt: ParseInt)
    requires cols >= 1 && MonthKey(section.date) in meta
    ensures Tiled(SectionRows(before, section, meta, cols, parseInt), cols, ItemCount(before))
  {
    var divider := if PrevMonth(before) == Some(MonthKey(section.date)) then []
                   else [Divider(meta, section.date, parseInt)];
    var header := SectionHeader(section.date, section.items, before == []);
    var rest := ItemRows(section.items, cols, ItemCount(before), 0);
    ItemRowsTiled(section.items, cols, ItemCount(before), 0);
    assert ([header] + rest)[1..] == rest;
    assert divider != [] ==> (divider + ([header] + rest))[1..] == [header] + rest;
    assert divider + [header] + rest == divider + ([header] + rest);
  }

  lemma {:induction false} CountIsLength(sections: seq<Section>)
    ensures ItemCount(sections) == |AllItems(sections)|
  {
    if sections != [] {
      CountIsLength(sections[..|sections| - 1]);
    }
  }

  lemma {:induction false} RowsTiled(sections: seq<Section>, meta: map<string, Meta>, cols: nat, parseInt: ParseInt)
    requires cols >= 1 && Covers(meta, sections)
    ensures Tiled(Rows(sections, meta, cols, parseInt), cols, 0)
  {
    if sections != [] {
      var front, last := sections[..|sections| - 1], sections[|sections| - 1];
      RowsTiled(front, meta, cols, parseInt);
      SectionRowsTiled(front, last, meta, cols, parseInt);
      RowsFaithful(front, meta, cols, parseInt);
      CountIsLength(front);
      TiledConcat(Rows(front, meta, cols, parseInt), SectionRows(front, last, meta, cols, parseInt), cols, 0);
    }
  }

  lemma {:induction false} TiledAt(rows: seq<Row>, cols: nat, offset: nat, i: nat)
    requires Tiled(rows, cols, offset) && i < |rows| && rows[i].ItemsRow?
    ensures 1 <= |rows[i].items| <= cols
    ensures offset <= rows[i].startIndex && rows[i].startIndex - offset + |rows[i].items| <= |ItemsIn(rows)|
    ensures ItemsIn(rows)[rows[i].startIndex - offset..][..|rows[i].items|] == rows[i].items
    decreases |rows|
  {
    var here := if rows[0].ItemsRow? then rows[0].items else [];
    if i > 0 {
      TiledAt(rows[1..], cols, offset + |here|, i - 1);
      assert ItemsIn(rows) == here + ItemsIn(rows[1..]);
      DropHead(here, ItemsIn(rows[1..]), rows[i].startIndex - offset);
    }
  }

  lemma DropHead(a: seq<Item>, b: seq<Item>, k: nat)
    requires |a| <= k <= |a| + |b|
    ensures (a + b)[k..] == b[k - |a|..]
  {
  }

  /** An item row shows 1 to `cols` items: those that stand at its startIndex in the list of all items. */
  lemma ItemRowShows(sections: seq<Section>, meta: map<string, Meta>, cols: nat, parseInt: ParseInt, i: nat)
    requires cols >= 1 && Covers(meta, sections)
    requires i < |Rows(sections, meta, cols, parseInt)| && Rows(sections, meta, cols, parseInt)[i].ItemsRow?
    ensures var row := Rows(sections, meta, cols, parseInt)[i];
            && 1 <= |row.items| <= cols && row.startIndex + |row.items| <= |AllItems(sections)|
            && AllItems(sections)[row.startIndex..row.startIndex + |row.items|] == row.items
  {
    var rows := Rows(sections, meta, cols, parseInt);
    RowsTiled(sections, meta, cols, parseInt);
    RowsFaithful(sections, meta, cols, parseInt);
    TiledAt(rows, cols, 0, i);
    var all, row := AllItems(sections), rows[i];
    assert all[row.startIndex..][..|row.items|] == all[row.startIndex..row.startIndex + |row.items|];
  }

  lemma {:induction false} RowsFromMeta(sections: seq<Section>, meta: map<string, Meta>, cols: nat, parseInt: ParseInt,
                                        r: Row)
    requires cols >= 1 && Covers(meta, sections) && r in Rows(sections, meta, cols, parseInt) && r.MonthDivider?
    ensures r.monthKey in meta && meta[r.monthKey] == Meta(r.itemCount, r.coverItem)
  {
    var front, last := sections[..|sections| - 1], sections[|sections| - 1];
    if r in Rows(front, meta, cols, parseInt) {
      RowsFromMeta(front, meta, cols, parseInt, r);
    } else {
      var items := ItemRows(last.items, cols, ItemCount(front), 0);
      NoDividers(last.items, cols, ItemCount(front), 0);
      assert r in SectionRows(front, last, meta, cols, parseInt) && r !in items;
    }
  }

  lemma {:induction false} NoDividers(items: seq<Item>, cols: nat, start: nat, i: nat)
    requires cols >= 1
    ensures forall r :: r in ItemRows(items, cols, start, i) ==> r.ItemsRow?
    decreases |items| - i
  {
    if i < |items| {
      NoDividers(items, cols, start, i + cols);
    }
  }

  /** A divider's count is its month's total, its cover the month's, even when the month's sections are
      not adjacent. */
  lemma DividerTotals(sections: seq<Section>, cols: nat, parseInt: ParseInt, r: Row)
    requires cols >= 1 && Covers(MetaOf(sections), sections)
    requires r in Rows(sections, MetaOf(sections), cols, parseInt) && r.MonthDivider?
    ensures r.itemCount == |MonthItems(sections, r.monthKey)| && r.coverItem == Cover(MonthItems(sections, r.monthKey))
  {
    RowsFromMeta(sections, MetaOf(sections), cols, parseInt, r);
    MetaCorrect(sections, r.monthKey);
  }

  /** The month of the last divider. */
  function LastMonth(rows: seq<Row>): Option<string> {
    if rows == [] then None
    else if rows[|rows| - 1].MonthDivider? then Some(rows[|rows| - 1].monthKey)
    else LastMonth(rows[..|rows| - 1])
  }

  lemma {:induction false} LastMonthConcat(a: seq<Row>, b: seq<Row>)
    requires forall r :: r in b ==> !r.MonthDivider?
    ensures LastMonth(a + b) == LastMonth(a)
  {
    if b == [] {
      assert a + b == a;
    } else {
      assert (a + b)[..|a + b| - 1] == a + b[..|b| - 1];
      LastMonthConcat(a, b[..|b| - 1]);
    }
  }

  lemma LastMonthOf(rows: seq<Row>, divider: Row)
    requires divider.MonthDivider?
    ensures LastMonth(rows + [divider]) == Some(divider.monthKey)
  {
  }

  lemma SectionUnderOwnMonth(rows: seq<Row>, before: seq<Section>, section: Section, meta: map<string, Meta>, cols: nat,
                             parseInt: ParseInt)
    requires cols >= 1 && MonthKey(section.date) in meta && LastMonth(rows) == PrevMonth(before)
    ensures LastMonth(rows + SectionRows(before, section, meta, cols, parseInt)) == Some(MonthKey(section.date))
  {
    var header := SectionHeader(section.date, section.items, before == []);
    var items := ItemRows(section.items, cols, ItemCount(before), 0);
    NoDividers(section.items, cols, ItemCount(before), 0);
    if PrevMonth(before) == Some(MonthKey(section.date)) {
      LastMonthConcat(rows, [header] + items);
      assert [] + [header] + items == [header] + items;
    } else {
      var divider := Divider(meta, section.date, parseInt);
      LastMonthOf(rows, divider);
      LastMonthConcat(rows + [divider], [header] + items);
      assert rows + ([divider] + [header] + items) == rows + [divider] + ([header] + items);
    }
  }

  /** Each section stands under the divider of its own month. */
  lemma {:induction false} UnderOwnMonth(sections: seq<Section>, meta: map<string, Meta>, cols: nat, parseInt: ParseInt)
    requires cols >= 1 && Covers(meta, sections)
    ensures LastMonth(Rows(sections, meta, cols, parseInt)) == PrevMonth(sections)
  {
    if sections != [] {
      var front, last := sections[..|sections| - 1], sections[|sections| - 1];
      UnderOwnMonth(front, meta, cols, parseInt);
      SectionUnderOwnMonth(Rows(front, meta, cols, parseInt), front, last, meta, cols, parseInt);
    }
  }

  // ----------------------------------------------------------------- headers and dividers

  function HeaderRows(rows: seq<Row>): seq<Row> {
    if rows == [] then [] else (if rows[0].SectionHeader? then [rows[0]] else []) + HeaderRows(rows[1..])
  }

  function DividerRows(rows: seq<Row>): seq<Row> {
    if rows == [] then [] else (if rows[0].MonthDivider? then [rows[0]] else []) + DividerRows(rows[1..])
  }

  lemma {:induction false} MarkersConcat(a: seq<Row>, b: seq<Row>)
    ensures HeaderRows(a + b) == HeaderRows(a) + HeaderRows(b)
    ensures DividerRows(a + b) == DividerRows(a) + DividerRows(b)
  {
    if a == [] {
      assert a + b == b;
    } else {
      assert (a + b)[1..] == a[1..] + b;
      MarkersConcat(a[1..], b);
    }
  }

  lemma {:induction false} NoMarkers(rows: seq<Row>)
    requires forall r :: r in rows ==> r.ItemsRow?
    ensures HeaderRows(rows) == [] && DividerRows(rows) == []
  {
    if rows != [] {
      assert rows[0] in rows;
      NoMarkers(rows[1..]);
    }
  }

  lemma SectionMarkers(before: seq<Section>, section: Section, meta: map<string, Meta>, cols: nat, parseInt: ParseInt)
    requires cols >= 1 && MonthKey(section.date) in meta
    ensures var rows := SectionRows(before, section, meta, cols, parseInt);
            && HeaderRows(rows) == [SectionHeader(section.date, section.items, before == [])]
            && DividerRows(rows) == if PrevMonth(before) == Some(MonthKey(section.date)) then []
                                    else [Divider(meta, section.date, parseInt)]
  {
    var divider := if PrevMonth(before) == Some(MonthKey(section.date)) then []
                   else [Divider(meta, section.date, parseInt)];
    var header := [SectionHeader(section.date, section.items, before == [])];
    var rest := ItemRows(section.items, cols, ItemCount(before), 0);
    NoDividers(section.items, cols, ItemCount(before), 0);
    NoMarkers(rest);
    MarkersConcat(divider + header, rest);
    MarkersConcat(divider, header);
    assert header[1..] == [] && (divider != [] ==> divider[1..] == []);
  }

  /** The i-th header has the i-th section's date and all its items, and only the first is the first. */
  lemma {:induction false} HeadersExactly(
    sections: seq<Section>, meta: map<string, Meta>, cols: nat, parseInt: ParseInt)
    requires cols >= 1 && Covers(meta, sections)
    ensures |HeaderRows(Rows(sections, meta, cols, parseInt))| == |sections|
    ensures forall i :: 0 <= i < |sections| ==>
              HeaderRows(Rows(sections, meta, cols, parseInt))[i]
              == SectionHeader(sections[i].date, sections[i].items, i == 0)
  {
    if sections != [] {
      var front, last := sections[..|sections| - 1], sections[|sections| - 1];
      HeadersExactly(front, meta, cols, parseInt);
      SectionMarkers(front, last, meta, cols, parseInt);
      MarkersConcat(Rows(front, meta, cols, parseInt), SectionRows(front, last, meta, cols, parseInt));
    }
  }

  /** The dates at which a month begins that is not that of the section before. */
  function MonthStarts(sections: seq<Section>): seq<string> {
    if sections == [] then []
    else
      var last := |sections| - 1;
      MonthStarts(sections[..last])
      + if last > 0 && MonthKey(sections[last - 1].date) == MonthKey(sections[last].date) then []
        else [sections[last].date]
  }

  /** There is one divider for each of them, in order, and it names the month and the year of the date. */
  lemma {:induction false} DividersExactly(
    sections: seq<Section>, meta: map<string, Meta>, cols: nat, parseInt: ParseInt)
    requires cols >= 1 && Covers(meta, sections)
    ensures var dividers, starts := DividerRows(Rows(sections, meta, cols, parseInt)), MonthStarts(sections);
            && |dividers| == |starts|
            && forall i :: 0 <= i < |starts| ==>
                 && dividers[i].MonthDivider? && dividers[i].monthKey == MonthKey(starts[i])
                 && dividers[i].monthName == Label(starts[i], parseInt) && dividers[i].year == Slice(starts[i], 0, 4)
  {
    if sections != [] {
      var front, last := sections[..|sections| - 1], sections[|sections| - 1];
      DividersExactly(front, meta, cols, parseInt);
      SectionMarkers(front, last, meta, cols, parseInt);
      MarkersConcat(Rows(front, meta, cols, parseInt), SectionRows(front, last, meta, cols, parseInt));
    }
  }

  /** What they are of a date yyyy-mm-dd. */
  lemma DateReads(year: string, month: string, day: string, parseInt: ParseInt)
    requires |year| == 4 && |month| == 2
    ensures var date := year + "-" + month + "-" + day;
            && MonthKey(date) == year + "-" + month && Slice(date, 0, 4) == year
            && Label(date, parseInt)
               == match parseInt(month)
                  case Some(1) => Some("January")
                  case Some(2) => Some("February")
                  case Some(3) => Some("March")
                  case Some(4) => Some("April")
                  case Some(5) => Some("May")
                  case Some(6) => Some("June")
                  case Some(7) => Some("July")
                  case Some(8) => Some("August")
                  case Some(9) => Some("September")
                  case Some(10) => Some("October")
                  case Some(11) => Some("November")
                  case Some(12) => Some("December")
                  case _ => None
  {
    var date := year + "-" + month + "-" + day;
    assert date[0..7] == year + "-" + month && date[0..4] == year && date[5..7] == month;
  }

  // ------------------------------------------------------------------ the date index

  predicate IsHeader(r: Row, date: string) {
    r.SectionHeader? && r.date == date
  }

  /** sectionDateToRowIndex: the first header of a date. */
  function FirstHeader(rows: seq<Row>, date: string): (r: Option<nat>)
    ensures r.Some? ==> r.value < |rows| && IsHeader(rows[r.value], date)
    ensures r.Some? ==> forall i :: 0 <= i < r.value ==> !IsHeader(rows[i], date)
    ensures r.None? ==> forall i :: 0 <= i < |rows| ==> !IsHeader(rows[i], date)
  {
    if rows == [] then None
    else
      var earlier := FirstHeader(rows[..|rows| - 1], date);
      if earlier.Some? then earlier
      else if IsHeader(rows[|rows| - 1], date) then Some(|rows| - 1) else None
  }

  method SectionDateToRowIndex(rows: seq<Row>, date: string) returns (r: Option<nat>)
    ensures r == FirstHeader(rows, date)
  {
    for i := 0 to |rows|
      invariant forall j :: 0 <= j < i ==> !IsHeader(rows[j], date)
    {
      if IsHeader(rows[i], date) {
        return Some(i);
      }
    }
    r := None;
  }

  /** i is the last header of its date. */
  ghost predicate IsLastHeader(rows: seq<Row>, date: string, i: nat) {
    && i < |rows| && IsHeader(rows[i], date)
    && forall j :: i < j < |rows| ==> !IsHeader(rows[j], date)
  }

  method BuildSectionDateIndex(rows: seq<Row>) returns (index: map<string, nat>)
    ensures forall date :: date in index <==> FirstHeader(rows, date).Some?
    ensures forall date :: date in index ==> IsLastHeader(rows, date, index[date])
  {
    index := map[];
    for i := 0 to |rows|
      invariant forall date :: date in index <==> exists j :: 0 <= j < i && IsHeader(rows[j], date)
      invariant forall date :: date in index ==> IsLastHeader(rows[..i], date, index[date])
    {
      if rows[i].SectionHeader? {
        index := index[rows[i].date := i];
      }
    }
    assert rows[..|rows|] == rows;
  }

  /** The index and the linear search agree on a date exactly when it has at most one header. */
  lemma IndexAgreesExactly(rows: seq<Row>, date: string, last: nat)
    requires IsLastHeader(rows, date, last)
    ensures FirstHeader(rows, date) == Some(last)
            <==> forall i, j :: 0 <= i < j < |rows| ==> !(IsHeader(rows[i], date) && IsHeader(rows[j], date))
  {
    var first := FirstHeader(rows, date).value;
    if first < last {
      assert IsHeader(rows[first], date) && IsHeader(rows[last], date);
    }
  }

  lemma {:induction false} HeaderPosition(rows: seq<Row>, i: nat)
    requires i < |rows| && rows[i].SectionHeader?
    ensures |HeaderDates(rows[..i])| < |HeaderDates(rows)|
    ensures HeaderDates(rows)[|HeaderDates(rows[..i])|] == rows[i].date
  {
    assert rows == rows[..i] + ([rows[i]] + rows[i + 1..]);
    RowsConcat(rows[..i], [rows[i]] + rows[i + 1..]);
    RowsConcat([rows[i]], rows[i + 1..]);
    OneRow(rows[i]);
  }

  lemma HeaderPositionsGrow(rows: seq<Row>, i: nat, j: nat)
    requires i < j < |rows| && rows[i].SectionHeader?
    ensures |HeaderDates(rows[..i])| < |HeaderDates(rows[..j])|
  {
    HeaderPosition(rows[..j], i);
    assert rows[..j][..i] == rows[..i];
  }

  /** For sections with distinct dates the index is the linear search. */
  lemma DistinctDatesAgree(sections: seq<Section>, meta: map<string, Meta>, cols: nat, parseInt: ParseInt,
                           date: string, last: nat)
    requires cols >= 1 && Covers(meta, sections)
    requires forall i, j :: 0 <= i < j < |sections| ==> sections[i].date != sections[j].date
    requires IsLastHeader(Rows(sections, meta, cols, parseInt), date, last)
    ensures FirstHeader(Rows(sections, meta, cols, parseInt), date) == Some(last)
  {
    var rows := Rows(sections, meta, cols, parseInt);
    RowsFaithful(sections, meta, cols, parseInt);
    forall i, j | 0 <= i < j < |rows|
      ensures !(IsHeader(rows[i], date) && IsHeader(rows[j], date))
    {
      if IsHeader(rows[i], date) && IsHeader(rows[j], date) {
        HeaderPosition(rows, i);
        HeaderPosition(rows, j);
        HeaderPositionsGrow(rows, i, j);
      }
    }
    IndexAgreesExactly(rows, date, last);
  }
}
