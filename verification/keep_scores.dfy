/** What the keep scores of the two deduplications weigh, in terms of the keys' texts. */
module KeepScores {
  import Catalog = CatalogDuplicates
  import opened Grouping
  import opened KeyText
  import Manifest = ManifestDedup

  predicate AllDigits(s: string) {
    forall i :: 0 <= i < |s| ==> '0' <= s[i] <= '9'
  }

  predicate IsDatePath(s: string, year: string, month: string, day: string, rest: string) {
    && s == year + "/" + month + "/" + day + "/" + rest
    && |year| == 4 && |month| == 2 && |day| == 2 && AllDigits(year) && AllDigits(month) && AllDigits(day)
    && (year[..2] == "19" || year[..2] == "20")
  }

  ghost predicate BeginsDated(s: string) {
    exists year, month, day, rest :: IsDatePath(s, year, month, day, rest)
  }

  lemma DatePathBegins(prefix: string, s: string)
    requires DatePathAt(prefix + s, |prefix|)
    ensures BeginsDated(s)
  {
    var key, n := prefix + s, |prefix|;
    assert key[n..] == s;
    assert s[..4] == key[n..n + 4] && s[5..7] == key[n + 5..n + 7] && s[8..10] == key[n + 8..n + 10];
    assert s[..4][..2] == key[n..n + 2];
    assert s == s[..4] + "/" + s[5..7] + "/" + s[8..10] + "/" + s[11..];
    assert IsDatePath(s, s[..4], s[5..7], s[8..10], s[11..]);
  }

  lemma BeginsDatePath(prefix: string, s: string, year: string, month: string, day: string, rest: string)
    requires IsDatePath(s, year, month, day, rest)
    ensures DatePathAt(prefix + s, |prefix|)
  {
    var key, n := prefix + s, |prefix|;
    assert s[..4] == year && s[4] == '/' && s[5..7] == month && s[7] == '/' && s[8..10] == day && s[10] == '/';
    assert forall i :: 0 <= i < |s| ==> key[n + i] == s[i];
    assert key[n..n + 2] == year[..2] && key[n + 2..n + 4] == year[2..];
    DigitsOf(key, n + 2, year[2..]);
    DigitsOf(key, n + 5, month);
    DigitsOf(key, n + 8, day);
  }

  /** A date path is a year from 1900 to 2099, a month and a day, each with a slash after it. */
  lemma DatePathExactly(prefix: string, s: string)
    ensures DatePathAt(prefix + s, |prefix|) <==> BeginsDated(s)
  {
    if DatePathAt(prefix + s, |prefix|) {
      DatePathBegins(prefix, s);
    }
    if year, month, day, rest :| IsDatePath(s, year, month, day, rest) {
      BeginsDatePath(prefix, s, year, month, day, rest);
    }
  }

  lemma DigitsOf(key: string, pos: nat, part: string)
    requires pos + |part| <= |key| && key[pos..pos + |part|] == part && AllDigits(part)
    ensures DigitsAt(key, pos, |part|)
  {
    forall i | pos <= i < pos + |part|
      ensures IsDigit(key[i])
    {
      assert key[i] == part[i - pos];
    }
  }

  /** In a manifest the path counts at the start of the key, or after s3transfers/. */
  lemma ManifestDatePath(key: string)
    ensures Manifest.HasDatePath(key) <==> BeginsDated(key) || ("s3transfers/" <= key && BeginsDated(key[12..]))
  {
    DatePathExactly("", key);
    assert "" + key == key;
    if "s3transfers/" <= key {
      DatePathExactly("s3transfers/", key[12..]);
      assert "s3transfers/" + key[12..] == key;
    }
  }

  /** A __dup mark is that text with a digit after it. */
  lemma DupMarkExactly(path: string)
    ensures Manifest.HasDupMark(path)
            <==> exists before, digit, after :: path == before + "__dup" + [digit] + after && '0' <= digit <= '9'
  {
    if i :| 0 <= i < |path| && Manifest.DupMarkAt(path, i) {
      assert path == path[..i] + "__dup" + [path[i + 5]] + path[i + 6..];
    }
    if before, digit, after :| path == before + "__dup" + [digit] + after && '0' <= digit <= '9' {
      assert path[|before|..|before| + 5] == "__dup" && path[|before| + 5] == digit;
      assert Manifest.DupMarkAt(path, |before|);
    }
  }

  /** Of two entries that differ in nothing else, one with a date path is kept rather than one without it
      that has up to nine slashes less, and one without a __dup mark rather than one with it that has up
      to 19 less. */
  lemma ManifestWeighs(a: Manifest.Entry, b: Manifest.Entry)
    ensures Manifest.HasDatePath(a.destinationKey) && !Manifest.HasDatePath(b.destinationKey)
            && Manifest.HasDupMark(a.relativePath) == Manifest.HasDupMark(b.relativePath) ==>
              (Manifest.ScoreEntryForKeep(a) > Manifest.ScoreEntryForKeep(b)
               <==> Slashes(a.destinationKey) <= Slashes(b.destinationKey) + 9)
    ensures !Manifest.HasDupMark(a.relativePath) && Manifest.HasDupMark(b.relativePath)
            && Manifest.HasDatePath(a.destinationKey) == Manifest.HasDatePath(b.destinationKey) ==>
              (Manifest.ScoreEntryForKeep(a) > Manifest.ScoreEntryForKeep(b)
               <==> Slashes(a.destinationKey) <= Slashes(b.destinationKey) + 19)
    ensures Manifest.HasDupMark(a.relativePath) == Manifest.HasDupMark(b.relativePath)
            && Manifest.HasDatePath(a.destinationKey) == Manifest.HasDatePath(b.destinationKey) ==>
              (Manifest.ScoreEntryForKeep(a) > Manifest.ScoreEntryForKeep(b)
               <==> Slashes(a.destinationKey) < Slashes(b.destinationKey))
  {
  }

  /** Outside immich/ a dated transfers key is kept rather than another with up to seven slashes less. */
  lemma TransfersWeigh(dated: string, other: string)
    requires BeginsDated(dated) && !("immich/" <= other) && !("s3transfers/" <= other)
    ensures Catalog.ScoreKeyForKeep("s3transfers/" + dated) > Catalog.ScoreKeyForKeep(other)
            <==> Slashes("s3transfers/" + dated) <= Slashes(other) + 7
  {
    var key := "s3transfers/" + dated;
    DatePathExactly("s3transfers/", dated);
    Catalog.NotImmich(key);
    NoPrefix(other);
  }

  lemma PrefixTrans(a: string, b: string, c: string)
    requires a <= b && b <= c
    ensures a <= c
  {
  }

  lemma NoPrefix(other: string)
    requires !("immich/" <= other)
    ensures !("immich/library/" <= other) && !("immich/upload/" <= other)
  {
    assert "immich/" <= "immich/library/" && "immich/" <= "immich/upload/";
    if "immich/library/" <= other {
      PrefixTrans("immich/", "immich/library/", other);
    }
    if "immich/upload/" <= other {
      PrefixTrans("immich/", "immich/upload/", other);
    }
  }

  /** What the flags of a duplicate group say of the objects that share its fingerprint. */
  lemma FlagsExactly(objects: seq<Catalog.Object>, keyLe: Catalog.KeyOrder, d: Catalog.DuplicateGroup)
    requires Catalog.IsGroupOf(objects, keyLe, d)
    ensures var immich := exists o :: o in objects && o.size == d.size && o.etag == d.fingerprint.etag
                                      && "immich/" <= o.key;
            var transfers := exists o :: o in objects && o.size == d.size && o.etag == d.fingerprint.etag
                                         && "s3transfers/" <= o.key;
            (d.crossNamespace <==> immich && transfers) && (d.immichOnly <==> immich && !transfers)
  {
    var sharing := Having(objects, Catalog.FingerprintOf(), d.fingerprint);
    HavingMembers(objects, Catalog.FingerprintOf(), d.fingerprint);
    KeyOfSome(sharing, "immich/");
    KeyOfSome(sharing, "s3transfers/");
  }

  lemma KeyOfSome(sharing: seq<Catalog.Object>, prefix: string)
    ensures (exists i :: 0 <= i < |sharing| && prefix <= Catalog.KeysOf(sharing)[i])
            <==> exists o :: o in sharing && prefix <= o.key
  {
    if i :| 0 <= i < |sharing| && prefix <= Catalog.KeysOf(sharing)[i] {
      assert sharing[i] in sharing;
    }
    if o :| o in sharing && prefix <= o.key {
      var i :| 0 <= i < |sharing| && sharing[i] == o;
      assert prefix <= Catalog.KeysOf(sharing)[i];
    }
  }

  /** In the catalog a library key is kept rather than an upload key with up to nine slashes less, and so
      is an upload key rather than another immich/ key. */
  lemma CatalogWeighs(a: string, b: string, c: string)
    requires "immich/library/" <= a && "immich/upload/" <= b
    requires "immich/" <= c && !("immich/library/" <= c) && !("immich/upload/" <= c)
    ensures Catalog.ScoreKeyForKeep(a) > Catalog.ScoreKeyForKeep(b) <==> Slashes(a) <= Slashes(b) + 9
    ensures Catalog.ScoreKeyForKeep(b) > Catalog.ScoreKeyForKeep(c) <==> Slashes(b) <= Slashes(c) + 9
  {
    assert a[7] == "immich/library/"[7] == 'l' && b[7] == "immich/upload/"[7] == 'u';
  }
}
