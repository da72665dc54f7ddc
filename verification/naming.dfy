/**
 Free file names by counting: `name__dupN.ext` (src/takeout/unpack.ts) and `name-N.ext`
 (src/takeout/incremental.ts).
*/
module Naming {
  import opened Wrappers

  function Digit(d: nat): char
    requires d < 10
  {
    '0' + d as char
  }

  /** The decimal rendering of a number in a template string. */
  function Decimal(n: nat): (s: string)
    ensures s != ""
  {
    if n < 10 then [Digit(n)] else Decimal(n / 10) + [Digit(n % 10)]
  }

  lemma {:induction false} DecimalInjective(m: nat, n: nat)
    requires Decimal(m) == Decimal(n)
    ensures m == n
    decreases m + n
  {
    var s, t := Decimal(m), Decimal(n);
    assert s[|s| - 1] == t[|t| - 1] && s[|s| - 1] == Digit(m % 10) && t[|t| - 1] == Digit(n % 10);
    if m >= 10 && n >= 10 {
      assert s[..|s| - 1] == Decimal(m / 10) && t[..|t| - 1] == Decimal(n / 10);
      DecimalInjective(m / 10, n / 10);
    }
  }

  /** What a decimal numeral says. */
  function NumberOf(s: string): nat
    requires forall i :: 0 <= i < |s| ==> '0' <= s[i] <= '9'
  {
    if s == "" then 0 else 10 * NumberOf(s[..|s| - 1]) + (s[|s| - 1] as int - '0' as int)
  }

  /** The rendering is the number's decimal numeral, without leading zeros. */
  lemma {:induction false} DecimalIsNumeral(n: nat)
    ensures forall i :: 0 <= i < |Decimal(n)| ==> '0' <= Decimal(n)[i] <= '9'
    ensures NumberOf(Decimal(n)) == n
    ensures n > 0 ==> Decimal(n)[0] != '0'
    ensures n == 0 ==> Decimal(n) == "0"
  {
    if n < 10 {
      assert Decimal(n)[..0] == "";
    } else {
      DecimalIsNumeral(n / 10);
      assert Decimal(n)[..|Decimal(n)| - 1] == Decimal(n / 10);
    }
  }

  function LastDot(s: string): (d: int)
    ensures -1 <= d < |s|
    ensures d >= 0 ==> s[d] == '.'
    ensures forall i :: d < i < |s| ==> s[i] != '.'
  {
    if s == "" then -1
    else if s[|s| - 1] == '.' then |s| - 1
    else LastDot(s[..|s| - 1])
  }

  /** Where path.parse cuts a base name: before the last dot, unless nothing precedes it. */
  function StemEnd(name: string): (n: nat)
    ensures n <= |name|
  {
    if LastDot(name) <= 0 || name == ".." then |name| else LastDot(name)
  }

  /** The k-th alternative for a name: the stem, a mark, the number, the extension. */
  function Alternative(name: string, mark: string, k: nat): string {
    name[..StemEnd(name)] + mark + Decimal(k) + name[StemEnd(name)..]
  }

  /** The number goes before the extension, which is what follows the last dot. A name without a dot, or
      with one only at its start, has none; nor has "..". */
  lemma AlternativeShape(stem: string, ext: string, mark: string, k: nat)
    requires '.' !in ext && stem != "" && stem + "." + ext != ".."
    ensures Alternative(stem + "." + ext, mark, k) == stem + mark + Decimal(k) + "." + ext
    ensures Alternative(ext, mark, k) == ext + mark + Decimal(k)
    ensures Alternative("." + ext, mark, k) == "." + ext + mark + Decimal(k)
    ensures Alternative("..", mark, k) == ".." + mark + Decimal(k)
  {
    var name := stem + "." + ext;
    LastDotIs(stem, ext);
    assert name[..|stem|] == stem && name[|stem|..] == "." + ext;
    LastDotIs("", ext);
    assert "" + "." + ext == "." + ext;
    assert ext[..|ext|] == ext && ext[|ext|..] == "";
    assert ".."[..2] == ".." && ".."[2..] == "";
    assert ("." + ext)[..|ext| + 1] == "." + ext && ("." + ext)[|ext| + 1..] == "";
  }

  lemma {:induction false} LastDotIs(stem: string, ext: string)
    requires '.' !in ext
    ensures LastDot(stem + "." + ext) == |stem|
  {
    var name := stem + "." + ext;
    if ext == "" {
      assert name == stem + ".";
    } else {
      assert name[..|name| - 1] == stem + "." + ext[..|ext| - 1];
      LastDotIs(stem, ext[..|ext| - 1]);
    }
  }

  lemma AlternativeInjective(name: string, mark: string, j: nat, k: nat)
    requires Alternative(name, mark, j) == Alternative(name, mark, k)
    ensures j == k
  {
    var stem, ext := name[..StemEnd(name)] + mark, name[StemEnd(name)..];
    var a, b := stem + Decimal(j) + ext, stem + Decimal(k) + ext;
    assert a == b && |Decimal(j)| == |Decimal(k)|;
    assert a[|stem|..|stem| + |Decimal(j)|] == Decimal(j);
    assert b[|stem|..|stem| + |Decimal(k)|] == Decimal(k);
    DecimalInjective(j, k);
  }

  /** k is the first number from 1 whose alternative is not taken. */
  ghost predicate FirstFree(taken: set<string>, name: string, mark: string, k: nat) {
    && k >= 1
    && Alternative(name, mark, k) !in taken
    && forall j :: 1 <= j < k ==> Alternative(name, mark, j) in taken
  }

  ghost function Tried(name: string, mark: string, k: nat): (tried: set<string>)
    ensures forall n :: n in tried <==> exists j :: 1 <= j < k && n == Alternative(name, mark, j)
  {
    set j | 1 <= j < k :: Alternative(name, mark, j)
  }

  /** Counting cannot go on for longer than there are names. */
  lemma {:induction false} TriedCount(taken: set<string>, name: string, mark: string, k: nat)
    requires k >= 1 && forall j :: 1 <= j < k ==> Alternative(name, mark, j) in taken
    ensures |Tried(name, mark, k)| == k - 1 <= |taken|
  {
    if k == 1 {
      assert Tried(name, mark, k) == {};
    } else {
      TriedCount(taken, name, mark, k - 1);
      var last := Alternative(name, mark, k - 1);
      forall j | 1 <= j < k - 1
        ensures Alternative(name, mark, j) != last
      {
        if Alternative(name, mark, j) == last {
          AlternativeInjective(name, mark, j, k - 1);
        }
      }
      assert last !in Tried(name, mark, k - 1);
      assert Tried(name, mark, k) == Tried(name, mark, k - 1) + {last};
    }
    SubsetCount(Tried(name, mark, k), taken);
  }

  lemma {:induction false} SubsetCount<T>(a: set<T>, b: set<T>)
    requires a <= b
    ensures |a| <= |b|
  {
    if a != {} {
      var x :| x in a;
      SubsetCount(a - {x}, b - {x});
    }
  }

  /** getUniqueDestinationPath: the name in the directory, given its listing, or none when unreadable. */
  method UniqueDestinationName(listing: Option<set<string>>, fileName: string) returns (r: string)
    ensures listing.None? ==> r == fileName
    ensures listing.Some? ==> r !in listing.value
    ensures listing.Some? && fileName !in listing.value ==> r == fileName
    ensures listing.Some? && fileName in listing.value ==>
              exists k: nat :: FirstFree(listing.value, fileName, "-", k) && r == Alternative(fileName, "-", k)
  {
    if listing.None? || fileName !in listing.value {
      return fileName;
    }
    var suffix := 1;
    TriedCount(listing.value, fileName, "-", suffix);
    while Alternative(fileName, "-", suffix) in listing.value
      invariant suffix >= 1
      invariant forall j :: 1 <= j < suffix ==> Alternative(fileName, "-", j) in listing.value
      invariant suffix - 1 <= |listing.value|
      decreases |listing.value| + 1 - suffix
    {
      suffix := suffix + 1;
      TriedCount(listing.value, fileName, "-", suffix);
    }
    assert FirstFree(listing.value, fileName, "-", suffix);
    r := Alternative(fileName, "-", suffix);
  }

  /** A free alternative exists for any finite set of names: both searches end. */
  lemma SearchEnds(taken: set<string>, name: string, mark: string)
    ensures exists k: nat :: FirstFree(taken, name, mark, k) && k <= |taken| + 1
  {
    var k := 1;
    TriedCount(taken, name, mark, k);
    while Alternative(name, mark, k) in taken
      invariant k >= 1
      invariant forall j :: 1 <= j < k ==> Alternative(name, mark, j) in taken
      invariant k - 1 <= |taken|
      decreases |taken| + 1 - k
    {
      k := k + 1;
      TriedCount(taken, name, mark, k);
    }
    assert FirstFree(taken, name, mark, k);
  }
}
