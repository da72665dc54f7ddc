/**
 Refining the dates of manifest entries from the sidecars of all archives (src/takeout/manifest.ts,
 src/utils/date-repair.ts). An entry with an impossible or no date takes that of metadata with the
 same name, stem or album; its key moves under the new date path.
*/
module DateRefinement {
  import opened Grouping
  import opened Naming
  import opened Segments
  import opened Wrappers

  // The clock, the UTC calendar, the parsing of sidecar dates and Unicode normalization are arbitrary
  // functions. A JavaScript Date may be invalid.

  datatype Date = Invalid | At(ms: int)

  datatype Civil = Civil(year: int, month: nat, day: nat)

  datatype World = World(
    now: int,
    utc: int -> Civil,
    parse: string -> Option<Date>,
    nfc: string -> string
  )

  /** Missing texts are empty: the code treats the two alike. */
  datatype Item = Item(destinationKey: string, album: string, sizeBytes: nat, photoTakenTime: string)

  datatype Entry = Entry(relativePath: string, size: nat, capturedAt: Date, datePath: string, destinationKey: string)

  datatype Source = EditedToOriginal | BasenameMatch | StemCrossExtension | AlbumMedian

  const S3TRANSFERS_PREFIX := "s3transfers"
  const UNDATED_PREFIX := "unknown-date"
  const DAY_MS := 24 * 60 * 60 * 1000

  /** isWrongDate. Comparisons with an invalid date are all false. */
  predicate IsWrongDate(w: World, d: Date) {
    d.At? && (w.utc(d.ms).year < 1990 || d.ms > w.now + DAY_MS)
  }

  /** The date of an item's sidecar, when there is one and it is not wrong. */
  function GoodDate(w: World, item: Item): Option<Date> {
    var d := w.parse(item.photoTakenTime);
    if d.None? || IsWrongDate(w, d.value) then None else d
  }

  // ------------------------------------------------------------------------ names

  function Basename(key: string): string {
    var parts := Split(key, '/');
    parts[|parts| - 1]
  }

  /** The name without its last dot and what follows, if anything does. */
  function Stem(name: string): string {
    if 0 <= LastDot(name) < |name| - 1 then name[..LastDot(name)] else name
  }

  function BasenameOf(): Item -> string {
    (item: Item) => Basename(item.destinationKey)
  }

  function StemOf(): Item -> string {
    (item: Item) => Stem(Basename(item.destinationKey))
  }

  function AlbumOf(): Item -> string {
    (item: Item) => item.album
  }

  function SizeOf(): Item -> nat {
    (item: Item) => item.sizeBytes
  }

  const EDITED := "-edited"

  function IndexOf(s: string, pattern: string): (i: nat)
    ensures i <= |s|
    ensures i < |s| ==> pattern <= s[i..]
  {
    if s == "" || pattern <= s then 0 else 1 + IndexOf(s[1..], pattern)
  }

  predicate IsEdited(name: string) {
    IndexOf(name, EDITED) < |name|
  }

  function WithoutEdited(name: string): string
    requires IsEdited(name)
  {
    var i := IndexOf(name, EDITED);
    name[..i] + name[i..][|EDITED|..]
  }

  predicate SameLetter(c: char, lower: char)
    requires 'a' <= lower <= 'z'
  {
    c == lower || c == 'A' + (lower - 'a')
  }

  /** /^Photos from \d{4}$/i */
  predicate IsYearFolder(name: string) {
    var words := "photos from ";
    && |name| == |words| + 4
    && (forall i :: 0 <= i < |words| ==> if words[i] == ' ' then name[i] == ' ' else SameLetter(name[i], words[i]))
    && forall i :: |words| <= i < |name| ==> '0' <= name[i] <= '9'
  }

  /** deriveAlbumFromRelativePath; no album is the empty name. */
  function AlbumFromPath(relativePath: string): string {
    var parts := Split(relativePath, '/');
    if |parts| < 2 || IsYearFolder(parts[0]) then "" else parts[0]
  }

  // --------------------------------------------------------------------- indexes

  /** The items that enter the indexes, in order. */
  function Dated(w: World, items: seq<Item>): seq<Item> {
    if items == [] then []
    else
      var last := items[|items| - 1];
      Dated(w, items[..|items| - 1]) + if GoodDate(w, last).Some? then [last] else []
  }

  lemma {:induction false} DatedAreGood(w: World, items: seq<Item>)
    ensures forall item :: item in Dated(w, items) ==> item in items && GoodDate(w, item).Some?
  {
    if items != [] {
      DatedAreGood(w, items[..|items| - 1]);
    }
  }

  function DatesOf(w: World, items: seq<Item>): seq<Date> {
    if items == [] then []
    else
      var last := GoodDate(w, items[|items| - 1]);
      DatesOf(w, items[..|items| - 1]) + if last.Some? then [last.value] else []
  }

  lemma {:induction false} DatesOfGood(w: World, items: seq<Item>)
    ensures forall d :: d in DatesOf(w, items) <==> exists item :: item in items && GoodDate(w, item) == Some(d)
  {
    if items != [] {
      var front, last := items[..|items| - 1], items[|items| - 1];
      DatesOfGood(w, front);
      assert items == front + [last];
    }
  }

  /** a.getTime() - b.getTime() is not positive; it is NaN when a date is invalid, which counts as equal. */
  function NotLater(): (Date, Date) -> bool {
    (a: Date, b: Date) => a.Invalid? || b.Invalid? || a.ms <= b.ms
  }

  function Median(dates: seq<Date>): Date
    requires dates != []
  {
    Sort(dates, NotLater())[|dates| / 2]
  }

  lemma {:induction false} SortPermutes(dates: seq<Date>)
    ensures multiset(Sort(dates, NotLater())) == multiset(dates)
  {
    if dates != [] {
      SortPermutes(dates[1..]);
      InsertMultiset(dates[0], Sort(dates[1..], NotLater()), NotLater());
      assert dates == [dates[0]] + dates[1..];
    }
  }

  lemma MedianIsOne(dates: seq<Date>)
    requires dates != []
    ensures Median(dates) in dates
  {
    SortPermutes(dates);
    assert Median(dates) in multiset(Sort(dates, NotLater()));
  }

  function AlbumDates(w: World, items: seq<Item>, album: string): seq<Date> {
    DatesOf(w, Having(Dated(w, items), AlbumOf(), album))
  }

  function AlbumMedianOf(w: World, items: seq<Item>, album: string): Option<Date> {
    var dates := AlbumDates(w, items, album);
    if album == "" || |dates| < 2 then None else Some(Median(dates))
  }

  datatype Indexes = Indexes(
    itemsByBasename: map<string, seq<Item>>,
    itemsByStem: map<string, seq<Item>>,
    albumMedian: map<string, Date>
  )

  function Push<T>(m: map<string, seq<T>>, key: string, x: T): map<string, seq<T>> {
    m[key := (if key in m then m[key] else []) + [x]]
  }

  function Lookup<T>(m: map<string, seq<T>>, key: string): seq<T> {
    if key in m then m[key] else []
  }

  ghost predicate IndexedBy(m: map<string, seq<Item>>, items: seq<Item>, keyOf: Item -> string) {
    forall key :: Lookup(m, key) == Having(items, keyOf, key)
  }

  ghost predicate AlbumsIndexed(m: map<string, seq<Date>>, dates: string -> seq<Date>) {
    forall album :: Lookup(m, album) == dates(album)
  }

  ghost predicate Indexed(w: World, items: seq<Item>, indexes: Indexes) {
    && IndexedBy(indexes.itemsByBasename, Dated(w, items), BasenameOf())
    && IndexedBy(indexes.itemsByStem, Dated(w, items), StemOf())
    && forall album :: (if album in indexes.albumMedian then Some(indexes.albumMedian[album]) else None)
                       == AlbumMedianOf(w, items, album)
  }

  lemma HavingSnoc(items: seq<Item>, x: Item, keyOf: Item -> string, key: string)
    ensures Having(items + [x], keyOf, key) == Having(items, keyOf, key) + if keyOf(x) == key then [x] else []
  {
    assert (items + [x])[..|items|] == items;
  }

  lemma PushIndexed(m: map<string, seq<Item>>, items: seq<Item>, keyOf: Item -> string, x: Item)
    requires IndexedBy(m, items, keyOf)
    ensures IndexedBy(Push(m, keyOf(x), x), items + [x], keyOf)
  {
    forall key
      ensures Lookup(Push(m, keyOf(x), x), key) == Having(items + [x], keyOf, key)
    {
      HavingSnoc(items, x, keyOf, key);
      assert Lookup(m, key) == Having(items, keyOf, key);
    }
  }

  function AlbumDatesIn(w: World, dated: seq<Item>): string -> seq<Date> {
    (album: string) => if album == "" then [] else DatesOf(w, Having(dated, AlbumOf(), album))
  }

  lemma AlbumSnoc(w: World, dated: seq<Item>, x: Item, album: string)
    requires GoodDate(w, x).Some? && album != ""
    ensures AlbumDatesIn(w, dated + [x])(album)
            == AlbumDatesIn(w, dated)(album) + if x.album == album then [GoodDate(w, x).value] else []
  {
    HavingSnoc(dated, x, AlbumOf(), album);
    var before := Having(dated, AlbumOf(), album);
    assert (before + [x])[..|before|] == before && before + [] == before;
  }

  lemma PushLookup(m: map<string, seq<Date>>, key: string, x: Date, before: string -> seq<Date>,
                   after: string -> seq<Date>)
    requires forall k :: Lookup(m, k) == before(k)
    requires forall k :: after(k) == before(k) + if k == key then [x] else []
    ensures forall k :: Lookup(Push(m, key, x), k) == after(k)
  {
  }

  lemma PushAlbum(w: World, m: map<string, seq<Date>>, dated: seq<Item>, x: Item)
    requires AlbumsIndexed(m, AlbumDatesIn(w, dated)) && GoodDate(w, x).Some?
    ensures AlbumsIndexed(if x.album == "" then m else Push(m, x.album, GoodDate(w, x).value),
                          AlbumDatesIn(w, dated + [x]))
  {
    var before, after := AlbumDatesIn(w, dated), AlbumDatesIn(w, dated + [x]);
    forall k
      ensures after(k) == before(k) + if k == x.album && k != "" then [GoodDate(w, x).value] else []
    {
      if k != "" {
        AlbumSnoc(w, dated, x, k);
      }
    }
    if x.album != "" {
      PushLookup(m, x.album, GoodDate(w, x).value, before, after);
    }
  }

  datatype Collection = Collection(
    byBasename: map<string, seq<Item>>,
    byStem: map<string, seq<Item>>,
    albumDates: map<string, seq<Date>>
  )

  function WithItem(w: World, c: Collection, item: Item): Collection {
    var date := GoodDate(w, item);
    if date.None? then c
    else
      Collection(Push(c.byBasename, Basename(item.destinationKey), item),
                 Push(c.byStem, Stem(Basename(item.destinationKey)), item),
                 if item.album == "" then c.albumDates else Push(c.albumDates, item.album, date.value))
  }

  function CollectionOf(w: World, items: seq<Item>): Collection {
    if items == [] then Collection(map[], map[], map[])
    else WithItem(w, CollectionOf(w, items[..|items| - 1]), items[|items| - 1])
  }

  /** buildDateRefinementIndexes, over the items of all archives. */
  method BuildDateRefinementIndexes(w: World, items: seq<Item>) returns (indexes: Indexes)
    ensures Indexed(w, items, indexes)
  {
    var c := Collection(map[], map[], map[]);
    for i := 0 to |items|
      invariant c == CollectionOf(w, items[..i])
    {
      assert items[..i + 1][..i] == items[..i];
      c := WithItem(w, c, items[i]);
    }
    assert items[..|items|] == items;
    CollectionCorrect(w, items);
    var medians := Medians(c.albumDates);
    MediansIndexed(w, items, c.albumDates, medians);
    indexes := Indexes(c.byBasename, c.byStem, medians);
  }

  ghost predicate Collected(w: World, c: Collection, dated: seq<Item>) {
    && IndexedBy(c.byBasename, dated, BasenameOf())
    && IndexedBy(c.byStem, dated, StemOf())
    && AlbumsIndexed(c.albumDates, AlbumDatesIn(w, dated))
  }

  lemma {:induction false} CollectionCorrect(w: World, items: seq<Item>)
    ensures Collected(w, CollectionOf(w, items), Dated(w, items))
  {
    if items != [] {
      var front, last := items[..|items| - 1], items[|items| - 1];
      CollectionCorrect(w, front);
      if GoodDate(w, last).Some? {
        CollectOne(w, CollectionOf(w, front), Dated(w, front), last);
      } else {
        assert Dated(w, front) + [] == Dated(w, front);
      }
    }
  }

  lemma CollectOne(w: World, c: Collection, dated: seq<Item>, x: Item)
    requires Collected(w, c, dated) && GoodDate(w, x).Some?
    ensures Collected(w, WithItem(w, c, x), dated + [x])
  {
    PushIndexed(c.byBasename, dated, BasenameOf(), x);
    PushIndexed(c.byStem, dated, StemOf(), x);
    PushAlbum(w, c.albumDates, dated, x);
  }

  lemma MediansIndexed(w: World, items: seq<Item>, albumDates: map<string, seq<Date>>, medians: map<string, Date>)
    requires AlbumsIndexed(albumDates, AlbumDatesIn(w, Dated(w, items)))
    requires forall album :: album in medians <==> |Lookup(albumDates, album)| >= 2
    requires forall album :: album in medians ==> medians[album] == Median(Lookup(albumDates, album))
    ensures forall album :: (if album in medians then Some(medians[album]) else None) == AlbumMedianOf(w, items, album)
  {
    forall album
      ensures (if album in medians then Some(medians[album]) else None) == AlbumMedianOf(w, items, album)
    {
      assert Lookup(albumDates, album) == AlbumDatesIn(w, Dated(w, items))(album);
    }
  }

  method Medians(albumDates: map<string, seq<Date>>) returns (medians: map<string, Date>)
    ensures forall album :: album in medians <==> |Lookup(albumDates, album)| >= 2
    ensures forall album :: album in medians ==> medians[album] == Median(Lookup(albumDates, album))
  {
    medians := map[];
    var left := albumDates.Keys;
    while left != {}
      invariant left <= albumDates.Keys
      invariant forall album :: album in medians <==> album !in left && |Lookup(albumDates, album)| >= 2
      invariant forall album :: album in medians ==> medians[album] == Median(Lookup(albumDates, album))
      decreases left
    {
      var album :| album in left;
      left := left - {album};
      if |albumDates[album]| >= 2 {
        medians := medians[album := Median(albumDates[album])];
      }
    }
  }

  // ------------------------------------------------------------------ resolution

  ghost function DateSet(w: World, pool: seq<Item>): set<Date> {
    if pool == [] then {}
    else
      var last := GoodDate(w, pool[|pool| - 1]);
      DateSet(w, pool[..|pool| - 1]) + if last.Some? then {last.value} else {}
  }

  /** The one date all dated items of a pool agree on. */
  ghost predicate Agreed(w: World, pool: seq<Item>, d: Date) {
    && (exists item :: item in pool && GoodDate(w, item) == Some(d))
    && (forall item :: item in pool && GoodDate(w, item).Some? ==> GoodDate(w, item) == Some(d))
  }

  lemma {:induction false} DateSetMembers(w: World, pool: seq<Item>)
    ensures forall d :: d in DateSet(w, pool) <==> exists item :: item in pool && GoodDate(w, item) == Some(d)
  {
    if pool != [] {
      var front, last := pool[..|pool| - 1], pool[|pool| - 1];
      DateSetMembers(w, front);
      assert pool == front + [last];
    }
  }

  lemma OneDate(w: World, pool: seq<Item>)
    ensures forall d :: Agreed(w, pool, d) <==> DateSet(w, pool) == {d}
  {
    DateSetMembers(w, pool);
    forall d
      ensures Agreed(w, pool, d) <==> DateSet(w, pool) == {d}
    {
      var dates := DateSet(w, pool);
      if Agreed(w, pool, d) {
        assert d in dates && forall e :: e in dates ==> e == d;
      }
      if dates == {d} {
        assert d in dates;
        forall item | item in pool && GoodDate(w, item).Some?
          ensures GoodDate(w, item) == Some(d)
        {
          assert GoodDate(w, item).value in dates;
        }
      }
    }
  }

  ghost function Consistent(w: World, pool: seq<Item>): (r: Option<Date>)
    ensures r.Some? ==> Agreed(w, pool, r.value)
    ensures r.None? ==> forall d :: !Agreed(w, pool, d)
  {
    if d :| Agreed(w, pool, d) then Some(d) else None
  }

  ghost function Pool(candidates: seq<Item>, expectedSize: Option<nat>): seq<Item> {
    if expectedSize.None? then candidates
    else
      var sized := Having(candidates, SizeOf(), expectedSize.value);
      if sized == [] then candidates else sized
  }

  /** The loop of resolveConsistentMetadataDate. A Map holds an invalid date once, too. */
  method UniqueDates(w: World, pool: seq<Item>) returns (uniqueDates: set<Date>)
    ensures uniqueDates == DateSet(w, pool)
  {
    uniqueDates := {};
    for i := 0 to |pool|
      invariant uniqueDates == DateSet(w, pool[..i])
    {
      assert pool[..i + 1][..i] == pool[..i];
      var parsed := GoodDate(w, pool[i]);
      if parsed.Some? {
        uniqueDates := uniqueDates + {parsed.value};
      }
    }
    assert pool[..|pool|] == pool;
  }

  /** resolveConsistentMetadataDate. */
  method ResolveConsistentMetadataDate(w: World, candidates: seq<Item>, expectedSize: Option<nat>)
    returns (r: Option<Date>)
    ensures r == Consistent(w, Pool(candidates, expectedSize))
  {
    if candidates == [] {
      assert Pool(candidates, expectedSize) == [];
      return None;
    }
    var pool := candidates;
    if expectedSize.Some? {
      var sizeMatched := Having(candidates, SizeOf(), expectedSize.value);
      if |sizeMatched| > 0 {
        pool := sizeMatched;
      }
    }
    var uniqueDates := UniqueDates(w, pool);
    ConsistentBySet(w, pool);
    if |uniqueDates| != 1 {
      return None;
    }
    var d :| d in uniqueDates;
    r := Some(d);
  }

  lemma OnlyMember(s: set<Date>, d: Date)
    requires |s| == 1 && d in s
    ensures s == {d}
  {
    assert |s - {d}| == 0;
  }

  lemma ConsistentBySet(w: World, pool: seq<Item>)
    ensures |DateSet(w, pool)| != 1 ==> Consistent(w, pool) == None
    ensures |DateSet(w, pool)| == 1 ==> forall d :: d in DateSet(w, pool) ==> Consistent(w, pool) == Some(d)
  {
    OneDate(w, pool);
    if |DateSet(w, pool)| == 1 {
      forall d | d in DateSet(w, pool)
        ensures Consistent(w, pool) == Some(d)
      {
        OnlyMember(DateSet(w, pool), d);
        assert Agreed(w, pool, d);
      }
    }
  }

  datatype Resolution = Resolution(date: Date, source: Source)

  ghost function FromOriginal(w: World, dated: seq<Item>, original: string): Option<Date> {
    var named := Consistent(w, Having(dated, BasenameOf(), original));
    if named.Some? then named else Consistent(w, Having(dated, StemOf(), Stem(original)))
  }

  /** The four strategies in their order: the original of an edited copy, the same name (and size, where
      that matches anything), the same stem, the album's median. */
  ghost function Resolve(w: World, items: seq<Item>, entry: Entry): Option<Resolution> {
    var dated, name := Dated(w, items), Basename(entry.destinationKey);
    var edited := if IsEdited(name) then FromOriginal(w, dated, WithoutEdited(name)) else None;
    var named := Consistent(w, Pool(Having(dated, BasenameOf(), name), Some(entry.size)));
    var stemmed := Consistent(w, Having(dated, StemOf(), Stem(name)));
    var median := AlbumMedianOf(w, items, AlbumFromPath(entry.relativePath));
    if edited.Some? then Some(Resolution(edited.value, EditedToOriginal))
    else if named.Some? then Some(Resolution(named.value, BasenameMatch))
    else if stemmed.Some? then Some(Resolution(stemmed.value, StemCrossExtension))
    else if median.Some? then Some(Resolution(median.value, AlbumMedian))
    else None
  }

  /** The body of the loop up to the application of the date. */
  method ResolveDate(w: World, ghost items: seq<Item>, indexes: Indexes, entry: Entry) returns (r: Option<Resolution>)
    requires Indexed(w, items, indexes)
    ensures r == Resolve(w, items, entry)
  {
    var filename := Basename(entry.destinationKey);
    var resolved: Option<Date> := None;
    if IsEdited(filename) {
      var original := WithoutEdited(filename);
      resolved := ResolveConsistentMetadataDate(w, Lookup(indexes.itemsByBasename, original), None);
      if resolved.None? {
        resolved := ResolveConsistentMetadataDate(w, Lookup(indexes.itemsByStem, Stem(original)), None);
      }
      if resolved.Some? {
        return Some(Resolution(resolved.value, EditedToOriginal));
      }
    }
    resolved := ResolveConsistentMetadataDate(w, Lookup(indexes.itemsByBasename, filename), Some(entry.size));
    if resolved.Some? {
      return Some(Resolution(resolved.value, BasenameMatch));
    }
    resolved := ResolveConsistentMetadataDate(w, Lookup(indexes.itemsByStem, Stem(filename)), None);
    if resolved.Some? {
      return Some(Resolution(resolved.value, StemCrossExtension));
    }
    var album := AlbumFromPath(entry.relativePath);
    if album != "" && album in indexes.albumMedian {
      return Some(Resolution(indexes.albumMedian[album], AlbumMedian));
    }
    r := None;
  }

  lemma MedianNotWrong(w: World, items: seq<Item>, album: string)
    ensures var r := AlbumMedianOf(w, items, album); r.Some? ==> !IsWrongDate(w, r.value)
  {
    var dates := AlbumDates(w, items, album);
    if |dates| >= 2 {
      MedianIsOne(dates);
      DatesOfGood(w, Having(Dated(w, items), AlbumOf(), album));
    }
  }

  lemma ConsistentNotWrong(w: World, pool: seq<Item>)
    ensures var r := Consistent(w, pool); r.Some? ==> !IsWrongDate(w, r.value)
  {
  }

  /** No strategy yields a date that isWrongDate rejects. */
  lemma ResolveNeverWrong(w: World, items: seq<Item>, entry: Entry)
    ensures var r := Resolve(w, items, entry); r.Some? ==> !IsWrongDate(w, r.value.date)
  {
    var dated, name := Dated(w, items), Basename(entry.destinationKey);
    MedianNotWrong(w, items, AlbumFromPath(entry.relativePath));
    ConsistentNotWrong(w, Pool(Having(dated, BasenameOf(), name), Some(entry.size)));
    ConsistentNotWrong(w, Having(dated, StemOf(), Stem(name)));
    if IsEdited(name) {
      ConsistentNotWrong(w, Having(dated, BasenameOf(), WithoutEdited(name)));
      ConsistentNotWrong(w, Having(dated, StemOf(), Stem(WithoutEdited(name))));
    }
  }

  // ------------------------------------------------------------------------ keys

  function Padded(n: nat): string {
    if n < 10 then "0" + Decimal(n) else Decimal(n)
  }

  function YearText(year: int): string {
    if year < 0 then "-" + Decimal(-year) else Decimal(year)
  }

  /** toDatePath of a valid date. */
  function DatePathOf(w: World, ms: int): string {
    var c := w.utc(ms);
    YearText(c.year) + "/" + Padded(c.month) + "/" + Padded(c.day)
  }

  /** extractAlbumFile; applyResolvedDate cuts the key the same way. */
  function AlbumFile(key: string): string {
    var parts := Split(key, '/');
    if |parts| > 1 && parts[1] == UNDATED_PREFIX then Join(parts[2..], '/')
    else if |parts| < 4 then ""
    else Join(parts[4..], '/')
  }

  predicate IsSafe(c: char) {
    'a' <= c <= 'z' || 'A' <= c <= 'Z' || '0' <= c <= '9' || c == '.' || c == '_' || c == '-'
  }

  function Safe(s: string): (r: string)
    ensures |r| == |s|
  {
    seq(|s|, i requires 0 <= i < |s| => if IsSafe(s[i]) then s[i] else '_')
  }

  function SanitizeSegment(segment: string): (r: string)
    ensures r != ""
  {
    if segment == "" || segment == "." || segment == ".." then "_" else Safe(segment)
  }

  function SanitizeSegments(segments: seq<string>): seq<string> {
    seq(|segments|, i requires 0 <= i < |segments| => SanitizeSegment(segments[i]))
  }

  /** sanitizeRelativePath, for a path whose separator is already the slash. */
  function SanitizeRelativePath(w: World, relativePath: string): string {
    Join(SanitizeSegments(Split(w.nfc(relativePath), '/')), '/')
  }

  /** Every segment of a sanitized path is non-empty, safe, and no step up or in place. */
  lemma SanitizedSegments(w: World, relativePath: string)
    ensures var parts := Split(SanitizeRelativePath(w, relativePath), '/');
            && |parts| == |Split(w.nfc(relativePath), '/')|
            && forall i :: 0 <= i < |parts| ==>
                 && parts[i] != "" && parts[i] != "." && parts[i] != ".."
                 && forall j :: 0 <= j < |parts[i]| ==> IsSafe(parts[i][j])
  {
    var parts := SanitizeSegments(Split(w.nfc(relativePath), '/'));
    SplitJoin(parts, '/');
  }

  lemma SanitizedIsNotEmpty(w: World, relativePath: string)
    ensures SanitizeRelativePath(w, relativePath) != ""
  {
    var parts := SanitizeSegments(Split(w.nfc(relativePath), '/'));
    assert parts[0] != "";
  }

  lemma {:induction false} DecimalPlain(n: nat)
    ensures Without(Decimal(n), '/') && Decimal(n)[0] != 'u'
  {
    if n >= 10 {
      DecimalPlain(n / 10);
    }
  }

  lemma DatePathParts(w: World, ms: int)
    requires w.utc(ms).year >= 0
    ensures var c := w.utc(ms);
            forall tail :: Split(S3TRANSFERS_PREFIX + "/" + DatePathOf(w, ms) + "/" + tail, '/')
              == [S3TRANSFERS_PREFIX, YearText(c.year), Padded(c.month), Padded(c.day)] + Split(tail, '/')
    ensures YearText(w.utc(ms).year) != UNDATED_PREFIX && DatePathOf(w, ms) != UNDATED_PREFIX
  {
    var c := w.utc(ms);
    var y, m, d := YearText(c.year), Padded(c.month), Padded(c.day);
    DecimalPlain(c.year);
    DecimalPlain(c.month);
    DecimalPlain(c.day);
    assert UNDATED_PREFIX[0] == 'u' && DatePathOf(w, ms)[0] == y[0];
    forall tail
      ensures Split(S3TRANSFERS_PREFIX + "/" + DatePathOf(w, ms) + "/" + tail, '/')
              == [S3TRANSFERS_PREFIX, y, m, d] + Split(tail, '/')
    {
      SplitFour(S3TRANSFERS_PREFIX, y, m, d, tail);
      assert S3TRANSFERS_PREFIX + "/" + DatePathOf(w, ms) + "/" + tail
          == S3TRANSFERS_PREFIX + ['/'] + (y + ['/'] + (m + ['/'] + (d + ['/'] + tail)));
    }
  }

  lemma SplitFour(a: string, b: string, c: string, d: string, tail: string)
    requires Without(a, '/') && Without(b, '/') && Without(c, '/') && Without(d, '/')
    ensures Split(a + ['/'] + (b + ['/'] + (c + ['/'] + (d + ['/'] + tail))), '/') == [a, b, c, d] + Split(tail, '/')
  {
    SplitAfter(d, tail, '/');
    SplitAfter(c, d + ['/'] + tail, '/');
    SplitAfter(b, c + ['/'] + (d + ['/'] + tail), '/');
    SplitAfter(a, b + ['/'] + (c + ['/'] + (d + ['/'] + tail)), '/');
  }

  /** The tail of a refined key is what stood after the old date path, or the sanitized relative path
      when nothing did. */
  function KeyTail(w: World, entry: Entry): string {
    var albumFile := AlbumFile(entry.destinationKey);
    if albumFile != "" then albumFile else SanitizeRelativePath(w, entry.relativePath)
  }

  function Applied(w: World, entry: Entry, ms: int): Entry {
    entry.(
      capturedAt := At(ms),
      datePath := DatePathOf(w, ms),
      destinationKey := S3TRANSFERS_PREFIX + "/" + DatePathOf(w, ms) + "/" + KeyTail(w, entry)
    )
  }

  // ------------------------------------------------------------------ refinement

  predicate NeedsDate(w: World, entry: Entry) {
    IsWrongDate(w, entry.capturedAt) || entry.datePath == UNDATED_PREFIX
  }

  /** What becomes of an entry. An invalid date makes toISOString throw a RangeError. */
  datatype Outcome = Unchanged | Changed(entry: Entry, source: Source) | Thrown

  type Refiner = Entry -> Outcome

  ghost function OutcomeOf(w: World, items: seq<Item>, entry: Entry): Outcome {
    var r := Resolve(w, items, entry);
    if !NeedsDate(w, entry) || r.None? then Unchanged
    else if r.value.date.Invalid? then Thrown
    else Changed(Applied(w, entry, r.value.date.ms), r.value.source)
  }

  ghost function RefinerOf(w: World, items: seq<Item>): Refiner {
    (entry: Entry) => OutcomeOf(w, items, entry)
  }

  /** Ties a refiner to the strategies only where they are mentioned: the loop need not look into them. */
  ghost predicate Refines(w: World, items: seq<Item>, refiner: Refiner) {
    forall entry {:trigger OutcomeOf(w, items, entry)} :: refiner(entry) == OutcomeOf(w, items, entry)
  }

  function After(outcome: Outcome, entry: Entry): Entry {
    if outcome.Changed? then outcome.entry else entry
  }

  ghost function RefinedAll(refiner: Refiner, entries: seq<Entry>): (r: seq<Entry>)
    ensures |r| == |entries|
    ensures forall i :: 0 <= i < |entries| ==> r[i] == After(refiner(entries[i]), entries[i])
  {
    seq(|entries|, i requires 0 <= i < |entries| => After(refiner(entries[i]), entries[i]))
  }

  ghost predicate NoneThrows(refiner: Refiner, entries: seq<Entry>) {
    forall i :: 0 <= i < |entries| ==> !refiner(entries[i]).Thrown?
  }

  /** How many entries a source refines. */
  ghost function Tally(refiner: Refiner, entries: seq<Entry>, source: Source): nat {
    if entries == [] then 0
    else
      var last := refiner(entries[|entries| - 1]);
      Tally(refiner, entries[..|entries| - 1], source) + if last.Changed? && last.source == source then 1 else 0
  }

  ghost function ChangedCount(refiner: Refiner, entries: seq<Entry>): nat {
    if entries == [] then 0
    else ChangedCount(refiner, entries[..|entries| - 1]) + if refiner(entries[|entries| - 1]).Changed? then 1 else 0
  }

  datatype Breakdown = Breakdown(editedToOriginal: nat, basenameMatch: nat, stemCrossExtension: nat, albumMedian: nat) {
    function Of(source: Source): nat {
      match source
      case EditedToOriginal => editedToOriginal
      case BasenameMatch => basenameMatch
      case StemCrossExtension => stemCrossExtension
      case AlbumMedian => albumMedian
    }

    function Bump(source: Source): (b: Breakdown)
      ensures forall s :: b.Of(s) == Of(s) + if s == source then 1 else 0
    {
      match source
      case EditedToOriginal => this.(editedToOriginal := editedToOriginal + 1)
      case BasenameMatch => this.(basenameMatch := basenameMatch + 1)
      case StemCrossExtension => this.(stemCrossExtension := stemCrossExtension + 1)
      case AlbumMedian => this.(albumMedian := albumMedian + 1)
    }

    function Sum(): nat {
      editedToOriginal + basenameMatch + stemCrossExtension + albumMedian
    }
  }

  ghost predicate Counts(refiner: Refiner, entries: seq<Entry>, breakdown: Breakdown) {
    forall source :: breakdown.Of(source) == Tally(refiner, entries, source)
  }

  datatype RefineResult = RefineResult(refinedCount: nat, breakdown: Breakdown)

  /** A throw at some entry: those before it are refined, it and the rest are as they were. */
  ghost predicate StoppedByThrow(refiner: Refiner, was: seq<Entry>, now: seq<Entry>) {
    exists i :: 0 <= i < |was| && refiner(was[i]).Thrown? && now == RefinedAll(refiner, was[..i]) + was[i..]
  }

  /** The body of the loop, and applyResolvedDate in it, for the entry at i; None is a throw. */
  method RefineEntry(w: World, entries: array<Entry>, i: nat, ghost items: seq<Item>, indexes: Indexes,
                     ghost refiner: Refiner, breakdown: Breakdown)
    returns (b: Option<Breakdown>, refined: bool)
    requires i < entries.Length && Indexed(w, items, indexes) && Refines(w, items, refiner)
    modifies entries
    ensures var entry, outcome := old(entries[i]), refiner(old(entries[i]));
            && b.None? == outcome.Thrown?
            && entries[..] == old(entries[..])[i := After(outcome, entry)]
            && (b.Some? ==> b.value == if outcome.Changed? then breakdown.Bump(outcome.source) else breakdown)
    ensures b.Some? ==> refined == refiner(old(entries[i])).Changed?
  {
    b, refined := Some(breakdown), false;
    assert refiner(entries[i]) == OutcomeOf(w, items, entries[i]);
    if NeedsDate(w, entries[i]) {
      var resolved := ResolveDate(w, items, indexes, entries[i]);
      if resolved.Some? {
        var date := resolved.value.date;
        if date.Invalid? {
          return None, false;
        }
        entries[i] := Applied(w, entries[i], date.ms);
        b, refined := Some(breakdown.Bump(resolved.value.source)), true;
      }
    }
  }

  /** The loop over the entries, in place; None is a throw. */
  method RefineEntries(w: World, entries: array<Entry>, ghost items: seq<Item>, indexes: Indexes,
                       ghost refiner: Refiner)
    returns (r: Option<RefineResult>)
    requires Indexed(w, items, indexes) && Refines(w, items, refiner)
    modifies entries
    ensures r.Some? ==> NoneThrows(refiner, old(entries[..])) && entries[..] == RefinedAll(refiner, old(entries[..]))
    ensures r.Some? ==> Counts(refiner, old(entries[..]), r.value.breakdown)
    ensures r.Some? ==> r.value.refinedCount == r.value.breakdown.Sum() == ChangedCount(refiner, old(entries[..]))
    ensures r.None? ==> StoppedByThrow(refiner, old(entries[..]), entries[..])
  {
    var breakdown, refinedCount := Breakdown(0, 0, 0, 0), 0;
    ghost var was := entries[..];
    assert was[..0] == [];
    for i := 0 to entries.Length
      invariant entries[..] == RefinedAll(refiner, was[..i]) + was[i..]
      invariant NoneThrows(refiner, was[..i])
      invariant Counts(refiner, was[..i], breakdown) && refinedCount == ChangedCount(refiner, was[..i])
    {
      ghost var now := entries[..];
      assert entries[i] == now[i] == was[i];
      var b, refined := RefineEntry(w, entries, i, items, indexes, refiner, breakdown);
      RefineOne(refiner, was, now, i, breakdown);
      if b.None? {
        assert StoppedByThrow(refiner, was, entries[..]);
        return None;
      }
      breakdown, refinedCount := b.value, refinedCount + if refined then 1 else 0;
    }
    assert was[..entries.Length] == was && was[entries.Length..] == [];
    ChangedByAllSources(refiner, was);
    r := Some(RefineResult(refinedCount, breakdown));
  }

  lemma {:induction false} ChangedByAllSources(refiner: Refiner, entries: seq<Entry>)
    ensures ChangedCount(refiner, entries)
            == Tally(refiner, entries, EditedToOriginal) + Tally(refiner, entries, BasenameMatch)
             + Tally(refiner, entries, StemCrossExtension) + Tally(refiner, entries, AlbumMedian)
  {
    if entries != [] {
      ChangedByAllSources(refiner, entries[..|entries| - 1]);
    }
  }

  lemma RefineOne(refiner: Refiner, was: seq<Entry>, now: seq<Entry>, i: nat, breakdown: Breakdown)
    requires i < |was| && now == RefinedAll(refiner, was[..i]) + was[i..] && NoneThrows(refiner, was[..i])
    requires Counts(refiner, was[..i], breakdown)
    ensures var outcome := refiner(was[i]);
            && |now| == |was| && (outcome.Thrown? ==> now[i := After(outcome, was[i])] == now)
            && now[i := After(outcome, was[i])] == RefinedAll(refiner, was[..i + 1]) + was[i + 1..]
            && (!outcome.Thrown? ==> NoneThrows(refiner, was[..i + 1]))
            && ChangedCount(refiner, was[..i + 1])
              == ChangedCount(refiner, was[..i]) + (if outcome.Changed? then 1 else 0)
            && Counts(refiner, was[..i + 1], if outcome.Changed? then breakdown.Bump(outcome.source) else breakdown)
  {
    assert was[..i + 1][..i] == was[..i];
  }

  /** refineDatesFromAllMetadata. */
  method RefineDatesFromAllMetadata(w: World, entries: array<Entry>, items: seq<Item>) returns (r: Option<RefineResult>)
    modifies entries
    ensures r.Some? ==> NoneThrows(RefinerOf(w, items), old(entries[..]))
    ensures r.Some? ==> entries[..] == RefinedAll(RefinerOf(w, items), old(entries[..]))
    ensures r.Some? ==> Counts(RefinerOf(w, items), old(entries[..]), r.value.breakdown)
    ensures r.Some? ==>
              r.value.refinedCount == r.value.breakdown.Sum() == ChangedCount(RefinerOf(w, items), old(entries[..]))
    ensures r.None? ==> StoppedByThrow(RefinerOf(w, items), old(entries[..]), entries[..])
  {
    var indexes := BuildDateRefinementIndexes(w, items);
    r := RefineEntries(w, entries, items, indexes, RefinerOf(w, items));
  }

  // --------------------------------------------------------------------- theorems

  /** Only wrong-dated or undated entries change, and of them only the date, its path and the key; the
      new date is not wrong. */
  lemma TouchesOnlyTheUndated(w: World, items: seq<Item>, entry: Entry)
    ensures var after := After(OutcomeOf(w, items, entry), entry);
            && (!NeedsDate(w, entry) ==> after == entry)
            && after.relativePath == entry.relativePath && after.size == entry.size
            && (after != entry ==> !IsWrongDate(w, after.capturedAt))
  {
    ResolveNeverWrong(w, items, entry);
  }

  /** A refined entry needs no date any more. */
  lemma RefinedNeedsNothing(w: World, entry: Entry, ms: int)
    requires !IsWrongDate(w, At(ms))
    ensures !NeedsDate(w, Applied(w, entry, ms))
  {
    DatePathParts(w, ms);
  }

  /** An entry's second refinement does nothing. */
  lemma RefinedTwice(w: World, items: seq<Item>, entry: Entry)
    ensures OutcomeOf(w, items, entry).Changed? ==> OutcomeOf(w, items, OutcomeOf(w, items, entry).entry).Unchanged?
  {
    var outcome := OutcomeOf(w, items, entry);
    if outcome.Changed? {
      ResolveNeverWrong(w, items, entry);
      RefinedNeedsNothing(w, entry, Resolve(w, items, entry).value.date.ms);
    }
  }

  lemma RefinedAllTwice(refiner: Refiner, entries: seq<Entry>, source: Source)
    requires NoneThrows(refiner, entries)
    requires forall entry :: refiner(entry).Changed? ==> refiner(refiner(entry).entry).Unchanged?
    ensures NoneThrows(refiner, RefinedAll(refiner, entries))
    ensures RefinedAll(refiner, RefinedAll(refiner, entries)) == RefinedAll(refiner, entries)
    ensures Tally(refiner, RefinedAll(refiner, entries), source) == 0
  {
    var once := RefinedAll(refiner, entries);
    forall i | 0 <= i < |entries|
      ensures refiner(once[i]).Unchanged?
    {
      assert !refiner(entries[i]).Thrown?;
    }
    NothingTallied(refiner, once, source);
  }

  lemma {:induction false} NothingTallied(refiner: Refiner, entries: seq<Entry>, source: Source)
    requires forall i :: 0 <= i < |entries| ==> !refiner(entries[i]).Changed?
    ensures Tally(refiner, entries, source) == 0
  {
    if entries != [] {
      NothingTallied(refiner, entries[..|entries| - 1], source);
    }
  }

  /** Idempotence at a fixed clock: a second run throws nothing, changes nothing and counts nothing. */
  lemma RefinementIdempotent(w: World, items: seq<Item>, entries: seq<Entry>, source: Source)
    requires NoneThrows(RefinerOf(w, items), entries)
    ensures var once := RefinedAll(RefinerOf(w, items), entries);
            && NoneThrows(RefinerOf(w, items), once)
            && RefinedAll(RefinerOf(w, items), once) == once
            && Tally(RefinerOf(w, items), once, source) == 0
  {
    var refiner := RefinerOf(w, items);
    forall entry | refiner(entry).Changed?
      ensures refiner(refiner(entry).entry).Unchanged?
    {
      RefinedTwice(w, items, entry);
    }
    RefinedAllTwice(refiner, entries, source);
  }

  /** The new key stands under the new date path, and keeps album and file name exactly when it had any. */
  predicate KeepsTail(entry: Entry, after: Entry) {
    && (AlbumFile(after.destinationKey) == AlbumFile(entry.destinationKey) <==> AlbumFile(entry.destinationKey) != "")
    && S3TRANSFERS_PREFIX + "/" + after.datePath + "/" <= after.destinationKey
  }

  lemma KeyTailKept(w: World, entry: Entry, ms: int)
    requires !IsWrongDate(w, At(ms))
    ensures KeepsTail(entry, Applied(w, entry, ms))
    ensures AlbumFile(Applied(w, entry, ms).destinationKey) == KeyTail(w, entry)
  {
    var tail := KeyTail(w, entry);
    DatePathParts(w, ms);
    SanitizedIsNotEmpty(w, entry.relativePath);
    JoinSplit(tail, '/');
    var parts := Split(S3TRANSFERS_PREFIX + "/" + DatePathOf(w, ms) + "/" + tail, '/');
    assert parts[4..] == Split(tail, '/');
  }

  /** KeyTailKept for every entry a run refines. */
  lemma RefinedKeyTail(w: World, items: seq<Item>, entry: Entry)
    ensures var outcome := OutcomeOf(w, items, entry);
            outcome.Changed? ==> KeepsTail(entry, outcome.entry)
  {
    ResolveNeverWrong(w, items, entry);
    if OutcomeOf(w, items, entry).Changed? {
      KeyTailKept(w, entry, Resolve(w, items, entry).value.date.ms);
    }
  }

  // ------------------------------------------------------------ when refinement throws

  /** A date out of JavaScript's range is not wrong to isWrongDate, so it is applied, and that throws. */
  predicate ReadsInvalid(w: World, item: Item) {
    w.parse(item.photoTakenTime) == Some(Invalid)
  }

  /** All dated items of this name agree on an invalid date. */
  ghost predicate InvalidName(w: World, items: seq<Item>, name: string) {
    Agreed(w, Having(Dated(w, items), BasenameOf(), name), Invalid)
  }

  /** Or all of this name and size do, and an entry of this name finds no better date as an edited copy. */
  ghost predicate InvalidSized(w: World, items: seq<Item>, name: string, size: nat) {
    && Agreed(w, Having(Having(Dated(w, items), BasenameOf(), name), SizeOf(), size), Invalid)
    && (IsEdited(name) ==>
          var original := FromOriginal(w, Dated(w, items), WithoutEdited(name));
          original.None? || original.value.Invalid?)
  }

  /** Or the median of an album is invalid. */
  ghost predicate InvalidAlbum(w: World, items: seq<Item>, path: string) {
    AlbumMedianOf(w, items, AlbumFromPath(path)) == Some(Invalid)
  }

  ghost predicate CanThrow(w: World, items: seq<Item>) {
    || (exists name :: InvalidName(w, items, name))
    || (exists name, size :: InvalidSized(w, items, name, size))
    || (exists path :: InvalidAlbum(w, items, path))
  }

  lemma AgreedIs(w: World, pool: seq<Item>, d: Date)
    requires Agreed(w, pool, d)
    ensures Consistent(w, pool) == Some(d)
  {
    assert Agreed(w, pool, Consistent(w, pool).value);
  }

  lemma StemMeansName(w: World, items: seq<Item>, stem: string) returns (name: string)
    requires Agreed(w, Having(Dated(w, items), StemOf(), stem), Invalid)
    ensures InvalidName(w, items, name)
  {
    var pool := Having(Dated(w, items), StemOf(), stem);
    var item :| item in pool && GoodDate(w, item) == Some(Invalid);
    name := Basename(item.destinationKey);
    HavingMembers(Dated(w, items), StemOf(), stem);
    HavingMembers(Dated(w, items), BasenameOf(), name);
    assert item in Having(Dated(w, items), BasenameOf(), name);
  }

  lemma OriginalMeansName(w: World, items: seq<Item>, original: string)
    requires FromOriginal(w, Dated(w, items), original) == Some(Invalid)
    ensures exists name :: InvalidName(w, items, name)
  {
    if Consistent(w, Having(Dated(w, items), BasenameOf(), original)).Some? {
      assert InvalidName(w, items, original);
    } else {
      var name := StemMeansName(w, items, Stem(original));
    }
  }

  lemma ThrownMeans(w: World, items: seq<Item>, entry: Entry)
    ensures OutcomeOf(w, items, entry).Thrown? ==> CanThrow(w, items)
  {
    var dated, name := Dated(w, items), Basename(entry.destinationKey);
    if !OutcomeOf(w, items, entry).Thrown? {
      return;
    }
    match Resolve(w, items, entry).value.source
    case EditedToOriginal =>
      OriginalMeansName(w, items, WithoutEdited(name));
    case BasenameMatch =>
      if Having(Having(dated, BasenameOf(), name), SizeOf(), entry.size) == [] {
        assert InvalidName(w, items, name);
      } else {
        assert InvalidSized(w, items, name, entry.size);
      }
    case StemCrossExtension =>
      var _ := StemMeansName(w, items, Stem(name));
    case AlbumMedian =>
      assert InvalidAlbum(w, items, entry.relativePath);
  }

  /** An entry without a date, for which a file of this name is looked up. */
  function Undated(path: string, name: string, size: nat): Entry {
    Entry(path, size, Invalid, UNDATED_PREFIX, name)
  }

  lemma NameIsPlain(w: World, items: seq<Item>, pool: seq<Item>, name: string)
    requires pool == Having(Dated(w, items), BasenameOf(), name) && pool != []
    ensures Without(name, '/')
  {
    HavingMembers(Dated(w, items), BasenameOf(), name);
    assert pool[0] in pool;
    SplitParts(pool[0].destinationKey, '/');
  }

  lemma NameThrows(w: World, items: seq<Item>, name: string)
    requires InvalidName(w, items, name)
    ensures OutcomeOf(w, items, Undated("", EDITED + name, 0)).Thrown?
  {
    var pool := Having(Dated(w, items), BasenameOf(), name);
    NameIsPlain(w, items, pool, name);
    var edited := EDITED + name;
    assert Without(edited, '/') by {
      assert forall i :: 0 <= i < |edited| ==> edited[i] == if i < |EDITED| then EDITED[i] else name[i - |EDITED|];
    }
    SplitPlain(edited, '/');
    assert EDITED <= edited && IndexOf(edited, EDITED) == 0;
    assert WithoutEdited(edited) == name;
    AgreedIs(w, pool, Invalid);
  }

  lemma SizedThrows(w: World, items: seq<Item>, name: string, size: nat)
    requires InvalidSized(w, items, name, size)
    ensures OutcomeOf(w, items, Undated("", name, size)).Thrown?
  {
    var named := Having(Dated(w, items), BasenameOf(), name);
    var sized := Having(named, SizeOf(), size);
    HavingMembers(named, SizeOf(), size);
    NameIsPlain(w, items, named, name);
    SplitPlain(name, '/');
    AgreedIs(w, sized, Invalid);
  }

  /** A length no item's name reaches. */
  function Longest(items: seq<Item>): nat {
    if items == [] then 0
    else
      var before, last := Longest(items[..|items| - 1]), |Basename(items[|items| - 1].destinationKey)|;
      if before < last then last else before
  }

  lemma {:induction false} LongestIs(items: seq<Item>)
    ensures forall item :: item in items ==> |Basename(item.destinationKey)| <= Longest(items)
  {
    if items != [] {
      LongestIs(items[..|items| - 1]);
    }
  }

  lemma LongName(n: nat) returns (name: string)
    requires n > 0
    ensures |name| == n && Split(name, '/') == [name] && !IsEdited(name) && Stem(name) == name
  {
    name := seq(n, i => 'x');
    SplitPlain(name, '/');
  }

  /** An entry whose name has nothing to do with any item's gets its album's median. */
  lemma AlbumThrows(w: World, items: seq<Item>, path: string) returns (entry: Entry)
    requires InvalidAlbum(w, items, path)
    ensures OutcomeOf(w, items, entry).Thrown?
  {
    var dated := Dated(w, items);
    var name := LongName(Longest(dated) + 1);
    entry := Undated(path, name, 0);
    LongestIs(dated);
    NoneHaving(dated, BasenameOf(), name);
    NoneHaving(dated, StemOf(), name);
    assert Consistent(w, []) == None;
  }

  /** Some entry makes the refinement throw exactly when the dated items of some name, or of some name and
      size, agree on an invalid date, or an album's median is one. */
  lemma ThrowsExactly(w: World, items: seq<Item>)
    ensures (exists entry :: OutcomeOf(w, items, entry).Thrown?) <==> CanThrow(w, items)
  {
    if entry :| OutcomeOf(w, items, entry).Thrown? {
      ThrownMeans(w, items, entry);
    }
    if name :| InvalidName(w, items, name) {
      NameThrows(w, items, name);
    } else if name, size :| InvalidSized(w, items, name, size) {
      SizedThrows(w, items, name, size);
    } else if path :| InvalidAlbum(w, items, path) {
      var _ := AlbumThrows(w, items, path);
    }
  }

  lemma InvalidIsRead(w: World, items: seq<Item>)
    requires CanThrow(w, items)
    ensures exists item :: item in items && ReadsInvalid(w, item)
  {
    var dated := Dated(w, items);
    DatedAreGood(w, items);
    if name :| InvalidName(w, items, name) {
      HavingMembers(dated, BasenameOf(), name);
      var item :| item in Having(dated, BasenameOf(), name) && GoodDate(w, item) == Some(Invalid);
      assert ReadsInvalid(w, item);
    } else if name, size :| InvalidSized(w, items, name, size) {
      HavingMembers(dated, BasenameOf(), name);
      var named := Having(dated, BasenameOf(), name);
      HavingMembers(named, SizeOf(), size);
      var item :| item in Having(named, SizeOf(), size) && GoodDate(w, item) == Some(Invalid);
      assert ReadsInvalid(w, item);
    } else {
      var path :| InvalidAlbum(w, items, path);
      var album := AlbumFromPath(path);
      HavingMembers(dated, AlbumOf(), album);
      MedianIsOne(AlbumDates(w, items, album));
      DatesOfGood(w, Having(dated, AlbumOf(), album));
      var item :| item in Having(dated, AlbumOf(), album) && GoodDate(w, item) == Some(Invalid);
      assert ReadsInvalid(w, item);
    }
  }

  /** Without an invalid date among the sidecars no entry makes it throw, and a second run changes nothing. */
  lemma ValidDatesNeverThrow(w: World, items: seq<Item>, entries: seq<Entry>, source: Source)
    requires forall item :: item in items ==> !ReadsInvalid(w, item)
    ensures NoneThrows(RefinerOf(w, items), entries)
    ensures var once := RefinedAll(RefinerOf(w, items), entries);
            RefinedAll(RefinerOf(w, items), once) == once && Tally(RefinerOf(w, items), once, source) == 0
  {
    ThrowsExactly(w, items);
    if CanThrow(w, items) {
      InvalidIsRead(w, items);
    }
    RefinementIdempotent(w, items, entries, source);
  }

  ghost predicate DistinctNames(items: seq<Item>) {
    forall x, y :: x in items && y in items && Basename(x.destinationKey) == Basename(y.destinationKey) ==> x == y
  }

  /** Among items of distinct names one invalid date is enough. */
  lemma OneInvalidThrowsExactly(w: World, items: seq<Item>)
    requires DistinctNames(items)
    ensures (exists entry :: OutcomeOf(w, items, entry).Thrown?)
            <==> exists item :: item in items && ReadsInvalid(w, item)
  {
    ThrowsExactly(w, items);
    if CanThrow(w, items) {
      InvalidIsRead(w, items);
    }
    if item :| item in items && ReadsInvalid(w, item) {
      var name := Basename(item.destinationKey);
      DatedAreGood(w, items);
      DatedHasAll(w, items, item);
      HavingMembers(Dated(w, items), BasenameOf(), name);
      assert item in Having(Dated(w, items), BasenameOf(), name) && GoodDate(w, item) == Some(Invalid);
      assert InvalidName(w, items, name);
    }
  }

  lemma {:induction false} DatedHasAll(w: World, items: seq<Item>, item: Item)
    requires item in items && GoodDate(w, item).Some?
    ensures item in Dated(w, items)
  {
    if item != items[|items| - 1] {
      DatedHasAll(w, items[..|items| - 1], item);
    }
  }
}
