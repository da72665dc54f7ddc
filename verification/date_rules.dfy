/** What the rules of date refinement come to: which dates count, what names and paths mean. */
module DateRules {
  import opened DateRefinement
  import opened Grouping
  import opened Naming
  import opened Segments
  import opened Wrappers

  // ------------------------------------------------------------------ which dates count

  /** From 1990 on, and no more than a day ahead of the clock; an invalid date is not ruled out. */
  predicate Plausible(w: World, d: Date) {
    d.At? ==> w.utc(d.ms).year >= 1990 && d.ms <= w.now + 86400000
  }

  /** The items that are looked up are those whose sidecar has a plausible date. */
  lemma {:induction false} DatedExactly(w: World, items: seq<Item>, item: Item)
    ensures item in Dated(w, items)
            <==> && item in items && w.parse(item.photoTakenTime).Some?
                 && Plausible(w, w.parse(item.photoTakenTime).value)
  {
    if items != [] {
      var front, last := items[..|items| - 1], items[|items| - 1];
      DatedExactly(w, front, item);
      assert items == front + [last];
    }
  }

  /** An entry changes exactly if it stands under unknown-date or its date is implausible, and a valid
      date is found for it; it then has that date, which is plausible, and its date path. */
  lemma ChangesExactly(w: World, items: seq<Item>, entry: Entry)
    ensures var found, outcome := Resolve(w, items, entry), OutcomeOf(w, items, entry);
            && (found.Some? ==> Plausible(w, found.value.date))
            && (outcome.Changed?
                <==> && (entry.datePath == "unknown-date" || !Plausible(w, entry.capturedAt))
                     && found.Some? && found.value.date.At?)
            && (outcome.Changed? ==>
                  && outcome.source == found.value.source
                  && outcome.entry.capturedAt == found.value.date
                  && outcome.entry.datePath == DatePathOf(w, found.value.date.ms)
                  && outcome.entry.relativePath == entry.relativePath && outcome.entry.size == entry.size)
  {
    ResolveNeverWrong(w, items, entry);
  }

  lemma AppliedKey(w: World, entry: Entry, ms: int)
    ensures Applied(w, entry, ms).destinationKey == "s3transfers/" + DatePathOf(w, ms) + "/" + KeyTail(w, entry)
  {
    assert "s3transfers" + "/" == "s3transfers/";
  }

  /** Its key then stands under s3transfers and that path, and ends as KeyTailKept says. */
  lemma KeyExactly(w: World, items: seq<Item>, entry: Entry)
    ensures var outcome := OutcomeOf(w, items, entry);
            outcome.Changed? ==>
              outcome.entry.destinationKey == "s3transfers/" + outcome.entry.datePath + "/" + KeyTail(w, entry)
  {
    if OutcomeOf(w, items, entry).Changed? {
      AppliedKey(w, entry, Resolve(w, items, entry).value.date.ms);
    }
  }

  // -------------------------------------------------------------------- the strategies

  /** The items of which this holds and that have a date, of which there are some, all have this one. */
  ghost predicate AllSay(w: World, items: seq<Item>, about: Item -> bool, d: Date) {
    && (exists item :: item in items && about(item) && GoodDate(w, item) == Some(d))
    && (forall item :: item in items && about(item) && GoodDate(w, item).Some? ==> GoodDate(w, item) == Some(d))
  }

  ghost predicate NoneSay(w: World, items: seq<Item>, about: Item -> bool) {
    forall d :: !AllSay(w, items, about, d)
  }

  function Named(name: string): Item -> bool {
    (item: Item) => Basename(item.destinationKey) == name
  }

  function Sized(name: string, size: nat): Item -> bool {
    (item: Item) => Basename(item.destinationKey) == name && item.sizeBytes == size
  }

  function Stemmed(stem: string): Item -> bool {
    (item: Item) => Stem(Basename(item.destinationKey)) == stem
  }

  lemma DatedMembers(w: World, items: seq<Item>)
    ensures forall item :: item in Dated(w, items) <==> item in items && GoodDate(w, item).Some?
  {
    DatedAreGood(w, items);
    forall item | item in items && GoodDate(w, item).Some?
      ensures item in Dated(w, items)
    {
      DatedHasAll(w, items, item);
    }
  }

  lemma PoolSays(w: World, items: seq<Item>, pool: seq<Item>, about: Item -> bool)
    requires forall item :: item in pool <==> item in items && about(item) && GoodDate(w, item).Some?
    ensures forall d :: Consistent(w, pool) == Some(d) <==> AllSay(w, items, about, d)
    ensures Consistent(w, pool) == None <==> NoneSay(w, items, about)
  {
    forall d
      ensures Agreed(w, pool, d) <==> AllSay(w, items, about, d)
    {
    }
    forall d | Agreed(w, pool, d)
      ensures Consistent(w, pool) == Some(d)
    {
      AgreedIs(w, pool, d);
    }
  }

  lemma NamedSay(w: World, items: seq<Item>, name: string)
    ensures var pool := Having(Dated(w, items), BasenameOf(), name);
            && (forall d :: Consistent(w, pool) == Some(d) <==> AllSay(w, items, Named(name), d))
            && (Consistent(w, pool) == None <==> NoneSay(w, items, Named(name)))
  {
    DatedMembers(w, items);
    HavingMembers(Dated(w, items), BasenameOf(), name);
    PoolSays(w, items, Having(Dated(w, items), BasenameOf(), name), Named(name));
  }

  lemma StemmedSay(w: World, items: seq<Item>, stem: string)
    ensures var pool := Having(Dated(w, items), StemOf(), stem);
            && (forall d :: Consistent(w, pool) == Some(d) <==> AllSay(w, items, Stemmed(stem), d))
            && (Consistent(w, pool) == None <==> NoneSay(w, items, Stemmed(stem)))
  {
    DatedMembers(w, items);
    HavingMembers(Dated(w, items), StemOf(), stem);
    PoolSays(w, items, Having(Dated(w, items), StemOf(), stem), Stemmed(stem));
  }

  /** Those of the name and the size, where some have a date, and else those of the name. */
  function SizedFirst(w: World, items: seq<Item>, name: string, size: nat): Item -> bool {
    if exists item :: item in items && Sized(name, size)(item) && GoodDate(w, item).Some? then Sized(name, size)
    else Named(name)
  }

  lemma SizedSay(w: World, items: seq<Item>, name: string, size: nat)
    ensures var pool := Pool(Having(Dated(w, items), BasenameOf(), name), Some(size));
            && (forall d :: Consistent(w, pool) == Some(d) <==> AllSay(w, items, SizedFirst(w, items, name, size), d))
            && (Consistent(w, pool) == None <==> NoneSay(w, items, SizedFirst(w, items, name, size)))
  {
    var named := Having(Dated(w, items), BasenameOf(), name);
    DatedMembers(w, items);
    HavingMembers(Dated(w, items), BasenameOf(), name);
    HavingMembers(named, SizeOf(), size);
    var sized := Having(named, SizeOf(), size);
    assert forall item :: item in sized <==> item in items && Sized(name, size)(item) && GoodDate(w, item).Some?;
    if sized == [] {
      PoolSays(w, items, named, Named(name));
    } else {
      assert sized[0] in sized;
      PoolSays(w, items, sized, Sized(name, size));
    }
  }

  /** The original of an edited copy says so: the items of its name, or else those of its stem. */
  ghost predicate OriginalSays(w: World, items: seq<Item>, name: string, d: Date) {
    && IsEdited(name)
    && var original := WithoutEdited(name);
       if NoneSay(w, items, Named(original)) then AllSay(w, items, Stemmed(Stem(original)), d)
       else AllSay(w, items, Named(original), d)
  }

  lemma OriginalResolves(w: World, items: seq<Item>, name: string)
    requires IsEdited(name)
    ensures forall d :: FromOriginal(w, Dated(w, items), WithoutEdited(name)) == Some(d)
                        <==> OriginalSays(w, items, name, d)
  {
    var original := WithoutEdited(name);
    NamedSay(w, items, original);
    StemmedSay(w, items, Stem(original));
  }

  /** The date of an entry is what its original says; or else the items of its name, of its size where
      there are such; or else those of its stem; or else the median of its album. */
  lemma ResolveExactly(w: World, items: seq<Item>, entry: Entry)
    ensures var name, r := Basename(entry.destinationKey), Resolve(w, items, entry);
            var sized, stemmed := SizedFirst(w, items, name, entry.size), Stemmed(Stem(name));
            && (forall d :: OriginalSays(w, items, name, d) ==> r == Some(Resolution(d, EditedToOriginal)))
            && ((forall d :: !OriginalSays(w, items, name, d)) ==>
                  && (forall d :: AllSay(w, items, sized, d) ==> r == Some(Resolution(d, BasenameMatch)))
                  && (NoneSay(w, items, sized) ==>
                        && (forall d :: AllSay(w, items, stemmed, d) ==> r == Some(Resolution(d, StemCrossExtension)))
                        && (NoneSay(w, items, stemmed) ==>
                              r == match AlbumMedianOf(w, items, AlbumFromPath(entry.relativePath))
                                   case Some(d) => Some(Resolution(d, AlbumMedian))
                                   case None => None)))
  {
    var name := Basename(entry.destinationKey);
    if IsEdited(name) {
      OriginalResolves(w, items, name);
    }
    SizedSay(w, items, name, entry.size);
    StemmedSay(w, items, Stem(name));
  }

  // ------------------------------------------------------------------------ the median

  function CountIf(dates: seq<Date>, test: Date -> bool): nat {
    if dates == [] then 0 else CountIf(dates[1..], test) + if test(dates[0]) then 1 else 0
  }

  function Before(ms: int): Date -> bool {
    (d: Date) => d.At? && d.ms < ms
  }

  function UpTo(ms: int): Date -> bool {
    (d: Date) => d.At? && d.ms <= ms
  }

  ghost predicate InOrder(dates: seq<Date>) {
    && (forall i :: 0 <= i < |dates| ==> dates[i].At?)
    && (forall i, j :: 0 <= i < j < |dates| ==> dates[i].ms <= dates[j].ms)
  }

  lemma {:induction false} InsertCounts(x: Date, dates: seq<Date>, test: Date -> bool)
    ensures CountIf(Insert(x, dates, NotLater()), test) == CountIf(dates, test) + if test(x) then 1 else 0
  {
    var r := Insert(x, dates, NotLater());
    if dates == [] || NotLater()(x, dates[0]) {
      assert r[1..] == dates;
    } else {
      InsertCounts(x, dates[1..], test);
      assert r[1..] == Insert(x, dates[1..], NotLater());
    }
  }

  lemma {:induction false} InsertInOrder(x: Date, dates: seq<Date>)
    requires x.At? && InOrder(dates)
    ensures InOrder(Insert(x, dates, NotLater()))
    ensures forall d :: d in Insert(x, dates, NotLater()) ==> d == x || d in dates
  {
    if dates != [] && !NotLater()(x, dates[0]) {
      InsertInOrder(x, dates[1..]);
      var rest := Insert(x, dates[1..], NotLater());
      forall i | 0 <= i < |rest|
        ensures dates[0].ms <= rest[i].ms
      {
        assert rest[i] in rest;
      }
    }
  }

  lemma {:induction false} SortsByTime(dates: seq<Date>, test: Date -> bool)
    requires forall i :: 0 <= i < |dates| ==> dates[i].At?
    ensures InOrder(Sort(dates, NotLater())) && CountIf(Sort(dates, NotLater()), test) == CountIf(dates, test)
  {
    if dates != [] {
      SortsByTime(dates[1..], test);
      InsertInOrder(dates[0], Sort(dates[1..], NotLater()));
      InsertCounts(dates[0], Sort(dates[1..], NotLater()), test);
    }
  }

  lemma {:induction false} CountsUpTo(dates: seq<Date>, test: Date -> bool, k: nat)
    requires k <= |dates|
    ensures (forall i :: k <= i < |dates| ==> !test(dates[i])) ==> CountIf(dates, test) <= k
    ensures (forall i :: 0 <= i < k ==> test(dates[i])) ==> CountIf(dates, test) >= k
  {
    if dates != [] {
      if k > 0 {
        CountsUpTo(dates[1..], test, k - 1);
      } else {
        CountsUpTo(dates[1..], test, 0);
      }
    }
  }

  lemma MiddleOf(dates: seq<Date>, k: nat)
    requires InOrder(dates) && k < |dates|
    ensures var ms := dates[k].ms; CountIf(dates, Before(ms)) <= k < CountIf(dates, UpTo(ms))
  {
    CountsUpTo(dates, Before(dates[k].ms), k);
    CountsUpTo(dates, UpTo(dates[k].ms), k + 1);
  }

  /** Of n dates at most n / 2 come before the median, and more than n / 2 not after it. */
  lemma MedianIsMiddle(dates: seq<Date>)
    requires dates != [] && forall i :: 0 <= i < |dates| ==> dates[i].At?
    ensures var m := Median(dates);
            m in dates && m.At? && CountIf(dates, Before(m.ms)) <= |dates| / 2 < CountIf(dates, UpTo(m.ms))
  {
    var m := Median(dates);
    MedianIsOne(dates);
    SortsByTime(dates, Before(m.ms));
    SortsByTime(dates, UpTo(m.ms));
    MiddleOf(Sort(dates, NotLater()), |dates| / 2);
  }

  /** How many items of the album have a date. */
  function DatedIn(w: World, items: seq<Item>, album: string): nat {
    if items == [] then 0
    else
      var last := items[|items| - 1];
      DatedIn(w, items[..|items| - 1], album) + if last.album == album && GoodDate(w, last).Some? then 1 else 0
  }

  lemma {:induction false} AlbumDatesCount(w: World, items: seq<Item>, album: string)
    ensures |AlbumDates(w, items, album)| == DatedIn(w, items, album)
  {
    if items != [] {
      var front, last := items[..|items| - 1], items[|items| - 1];
      AlbumDatesCount(w, front, album);
      var dated := Dated(w, front);
      if GoodDate(w, last).Some? {
        HavingSnoc(dated, last, AlbumOf(), album);
        var before := Having(dated, AlbumOf(), album);
        assert (before + [last])[..|before|] == before && before + [] == before;
      } else {
        assert dated + [] == dated;
      }
    }
  }

  /** An album has a median if and only if two of its items have dates; it is one of their dates. */
  lemma AlbumMedianExactly(w: World, items: seq<Item>, album: string)
    ensures var r := AlbumMedianOf(w, items, album);
            && (r.Some? <==> album != "" && DatedIn(w, items, album) >= 2)
            && (r.Some? ==> exists item :: item in items && item.album == album && GoodDate(w, item) == r)
  {
    AlbumDatesCount(w, items, album);
    var dates := AlbumDates(w, items, album);
    if |dates| >= 2 {
      MedianIsOne(dates);
      DatesOfGood(w, Having(Dated(w, items), AlbumOf(), album));
      HavingMembers(Dated(w, items), AlbumOf(), album);
      DatedMembers(w, items);
    }
  }

  // ------------------------------------------------------------------------- the names

  /** A stem is the name up to its last dot, when something follows that. */
  lemma StemCuts(name: string, ext: string)
    requires '.' !in ext
    ensures Stem(name + "." + ext) == if ext == "" then name + "." else name
    ensures Stem(ext) == ext
  {
    LastDotIs(name, ext);
    assert (name + "." + ext)[..|name|] == name;
    assert name + "." + "" == name + ".";
  }

  lemma {:induction false} IndexIsFirst(s: string, pattern: string, i: nat)
    requires i <= |s| && pattern <= s[i..] && pattern != ""
    requires forall j :: 0 <= j < i ==> !(pattern <= s[j..])
    ensures IndexOf(s, pattern) == i < |s|
  {
    if i > 0 {
      assert s[0..] == s && !(pattern <= s[0..]);
      forall j | 0 <= j < i - 1
        ensures !(pattern <= s[1..][j..])
      {
        assert s[1..][j..] == s[j + 1..];
      }
      assert s[1..][i - 1..] == s[i..];
      IndexIsFirst(s[1..], pattern, i - 1);
    } else {
      assert s[0..] == s;
    }
  }

  /** The name of an edited copy has "-edited" in it; its original's is without the first one. */
  lemma OriginalOf(before: string, after: string)
    requires forall j :: 0 <= j < |before| ==> !("-edited" <= (before + "-edited" + after)[j..])
    ensures IsEdited(before + "-edited" + after) && WithoutEdited(before + "-edited" + after) == before + after
  {
    var name := before + "-edited" + after;
    assert name[|before|..] == "-edited" + after;
    IndexIsFirst(name, "-edited", |before|);
    assert name[..|before|] == before && ("-edited" + after)[7..] == after;
  }

  lemma NotEdited(name: string)
    requires IsEdited(name)
    ensures exists before, after :: name == before + "-edited" + after
  {
    var i := IndexOf(name, "-edited");
    assert name == name[..i] + "-edited" + name[i..][7..];
  }

  function Lower(s: string): (r: string)
    ensures |r| == |s|
  {
    if s == "" then ""
    else [if 'A' <= s[0] <= 'Z' then s[0] - 'A' + 'a' else s[0]] + Lower(s[1..])
  }

  lemma {:induction false} LowerAt(s: string, i: nat)
    requires i < |s|
    ensures Lower(s)[i] == if 'A' <= s[i] <= 'Z' then s[i] - 'A' + 'a' else s[i]
  {
    if i > 0 {
      LowerAt(s[1..], i - 1);
    }
  }

  /** "Photos from" and a year, in any mix of cases. */
  lemma YearFolderExactly(name: string)
    ensures IsYearFolder(name)
            <==> && |name| == 16 && Lower(name[..12]) == "photos from "
                 && forall i :: 12 <= i < 16 ==> '0' <= name[i] <= '9'
  {
    if |name| == 16 {
      var front, words := name[..12], "photos from ";
      forall i | 0 <= i < 12
        ensures Lower(front)[i] == words[i]
                <==> if words[i] == ' ' then name[i] == ' ' else SameLetter(name[i], words[i])
      {
        LowerAt(front, i);
      }
    }
  }

  /** The folder of the photos of a year is no album; nor is there one without a folder. */
  lemma AlbumExactly(folder: string, rest: string)
    requires Without(folder, '/')
    ensures AlbumFromPath(folder + "/" + rest)
            == if && |folder| == 16 && Lower(folder[..12]) == "photos from "
                  && forall i :: 12 <= i < 16 ==> '0' <= folder[i] <= '9'
               then "" else folder
    ensures AlbumFromPath(folder) == ""
  {
    SplitAfter(folder, rest, '/');
    SplitPlain(folder, '/');
    YearFolderExactly(folder);
  }

  // -------------------------------------------------------------------------- the keys

  predicate TwoDigits(s: string, n: nat) {
    && |s| == 2 && '0' <= s[0] <= '9' && '0' <= s[1] <= '9'
    && n == 10 * (s[0] as int - '0' as int) + (s[1] as int - '0' as int)
  }

  lemma PaddedReads(n: nat)
    requires n < 100
    ensures TwoDigits(Padded(n), n)
  {
    if n >= 10 {
      assert Decimal(n) == [Digit(n / 10)] + [Digit(n % 10)];
    } else {
      assert Padded(n) == ['0', Digit(n)];
    }
  }

  /** Month and day have two digits, the year as many as it needs. */
  lemma DatePathReads(w: World, ms: int)
    requires w.utc(ms).year >= 0 && w.utc(ms).month < 100 && w.utc(ms).day < 100
    ensures var c, path := w.utc(ms), DatePathOf(w, ms);
            exists month, day ::
              && TwoDigits(month, c.month) && TwoDigits(day, c.day)
              && path == Decimal(c.year) + "/" + month + "/" + day
  {
    var c := w.utc(ms);
    PaddedReads(c.month);
    PaddedReads(c.day);
  }

  /** What a key is followed by after its date path, or after unknown-date. */
  lemma AlbumFileExactly(parts: seq<string>)
    requires parts != [] && forall i :: 0 <= i < |parts| ==> Without(parts[i], '/')
    ensures AlbumFile(Join(parts, '/'))
            == if |parts| >= 2 && parts[1] == "unknown-date" then Join(parts[2..], '/')
               else if |parts| >= 4 then Join(parts[4..], '/')
               else ""
  {
    SplitJoin(parts, '/');
  }

  predicate LetterOrDigit(c: char) {
    'a' <= c <= 'z' || 'A' <= c <= 'Z' || '0' <= c <= '9'
  }

  /** Sanitizing replaces an empty segment and a step by an underscore, and every unsafe character. */
  lemma SanitizesExactly(w: World, path: string, i: nat)
    requires i < |Split(w.nfc(path), '/')|
    ensures var was, parts := Split(w.nfc(path), '/')[i], Split(SanitizeRelativePath(w, path), '/');
            && i < |parts|
            && if was == "" || was == "." || was == ".." then parts[i] == "_"
               else
                 && |parts[i]| == |was|
                 && forall j :: 0 <= j < |was| ==>
                      parts[i][j] == if LetterOrDigit(was[j]) || was[j] == '.' || was[j] == '-' then was[j] else '_'
  {
    var segments := SanitizeSegments(Split(w.nfc(path), '/'));
    SplitParts(w.nfc(path), '/');
    forall k | 0 <= k < |segments|
      ensures Without(segments[k], '/')
    {
    }
    SplitJoin(segments, '/');
  }
}
