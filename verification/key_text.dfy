/** The few facts about storage keys that the keep scores look at. */
module KeyText {

  predicate IsDigit(c: char) {
    '0' <= c <= '9'
  }

  predicate DigitsAt(s: string, pos: nat, n: nat) {
    pos + n <= |s| && forall i :: pos <= i < pos + n ==> IsDigit(s[i])
  }

  /** (19|20)dd/dd/dd/ at `pos`. */
  predicate DatePathAt(s: string, pos: nat) {
    && pos + 11 <= |s|
    && (s[pos..pos + 2] == "19" || s[pos..pos + 2] == "20") && DigitsAt(s, pos + 2, 2)
    && s[pos + 4] == '/' && DigitsAt(s, pos + 5, 2)
    && s[pos + 7] == '/' && DigitsAt(s, pos + 8, 2)
    && s[pos + 10] == '/'
  }

  function Slashes(s: string): nat {
    if s == "" then 0 else Slashes(s[..|s| - 1]) + if s[|s| - 1] == '/' then 1 else 0
  }

  lemma {:induction false} SlashesGrow(s: string, i: nat, j: nat)
    requires i <= j <= |s|
    ensures Slashes(s[..i]) <= Slashes(s[..j])
  {
    if i < j {
      SlashesGrow(s, i, j - 1);
      assert s[..j][..j - 1] == s[..j - 1];
    }
  }

  /** A slash at p counts once more than what precedes it. */
  lemma SlashAt(s: string, p: nat, q: nat)
    requires p < q <= |s| && s[p] == '/'
    ensures Slashes(s[..q]) >= Slashes(s[..p]) + 1
  {
    assert s[..p + 1][..p] == s[..p];
    SlashesGrow(s, p + 1, q);
  }

  /** Characters other than slashes do not count. */
  lemma {:induction false} PlainRun(s: string, i: nat, j: nat)
    requires i <= j <= |s| && forall k :: i <= k < j ==> s[k] != '/'
    ensures Slashes(s[..j]) == Slashes(s[..i])
  {
    if i < j {
      PlainRun(s, i, j - 1);
      assert s[..j][..j - 1] == s[..j - 1];
    }
  }

  /** A plain run up to a slash counts one. */
  lemma RunToSlash(s: string, i: nat, j: nat)
    requires i <= j < |s| && s[j] == '/' && forall k :: i <= k < j ==> s[k] != '/'
    ensures Slashes(s[..j + 1]) == Slashes(s[..i]) + 1
  {
    PlainRun(s, i, j);
    assert s[..j + 1][..j] == s[..j];
  }

  /** A key with a dated transfers path has at least four slashes. */
  lemma DatedHasFourSlashes(key: string)
    requires "s3transfers/" <= key && DatePathAt(key, 12)
    ensures Slashes(key) >= 4
  {
    assert key[..12] == "s3transfers/";
    assert key[11] == key[..12][11] == '/';
    SlashAt(key, 11, 16);
    SlashAt(key, 16, 19);
    SlashAt(key, 19, 22);
    SlashAt(key, 22, |key|);
    assert key[..|key|] == key;
  }
}
