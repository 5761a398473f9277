/** Whitespace trimming, as Go's strings.TrimSpace applies it to every
    string field of an incoming record. */
module Text {

  /** Go's unicode.IsSpace: the six ASCII spaces, NEL and NO-BREAK SPACE in
      Latin-1, and the Unicode White_Space code points above U+00FF. */
  predicate IsSpace(c: char)
  {
    || c == '\t' || c == '\n' || c == '\U{000B}' || c == '\U{000C}' || c == '\r' || c == ' '
    || c == '\U{0085}' || c == '\U{00A0}'
    || c == '\U{1680}'
    || ('\U{2000}' <= c <= '\U{200A}')
    || c == '\U{2028}' || c == '\U{2029}' || c == '\U{202F}' || c == '\U{205F}' || c == '\U{3000}'
  }

  /** Every character of `s` in positions `lo` up to (not including) `hi` is whitespace. */
  predicate AllSpaceIn(s: string, lo: int, hi: int)
    requires 0 <= lo && hi <= |s|
  {
    forall i :: lo <= i < hi ==> IsSpace(s[i])
  }

  predicate AllSpace(s: string)
  {
    AllSpaceIn(s, 0, |s|)
  }

  /** Neither end of `s` is whitespace: the shape of every string TrimSpace returns. */
  predicate IsTrimmed(s: string)
  {
    s == [] || (!IsSpace(s[0]) && !IsSpace(s[|s| - 1]))
  }

  /** TrimSpace's forward scan from `i`: the first position at or after `i`
      that holds no whitespace, or |s| if there is none. */
  function Start(s: string, i: nat): (k: nat)
    requires i <= |s|
    ensures i <= k <= |s|
    ensures AllSpaceIn(s, i, k)
    ensures k < |s| ==> !IsSpace(s[k])
    decreases |s| - i
  {
    if i == |s| || !IsSpace(s[i]) then i else Start(s, i + 1)
  }

  /** TrimSpace's backward scan from `j`, not going below `lo`: the end of
      the last non-whitespace character in between, or `lo` if there is none. */
  function Stop(s: string, lo: nat, j: nat): (k: nat)
    requires lo <= j <= |s|
    ensures lo <= k <= j
    ensures AllSpaceIn(s, k, j)
    ensures k > lo ==> !IsSpace(s[k - 1])
    decreases j
  {
    if j == lo || !IsSpace(s[j - 1]) then j else Stop(s, lo, j - 1)
  }

  /** strings.TrimSpace: the result has no whitespace at either end and is
      no longer than `s` (lemma TrimDecomposes says what was removed). */
  function Trim(s: string): (r: string)
    ensures IsTrimmed(r)
    ensures |r| <= |s|
  {
    var start := Start(s, 0);
    var stop := Stop(s, start, |s|);
    s[start..stop]
  }

  /** `s` is whitespace, then its trim, then whitespace. */
  lemma TrimDecomposes(s: string)
    ensures var i := Start(s, 0);
      var j := i + |Trim(s)|;
      && j <= |s|
      && Trim(s) == s[i..j]
      && AllSpaceIn(s, 0, i)
      && AllSpaceIn(s, j, |s|)
  {
  }

  /** The forward scan stops at the first non-whitespace position. */
  lemma StartAt(s: string, i: nat, k: nat)
    requires i <= k <= |s|
    requires AllSpaceIn(s, i, k)
    requires k < |s| ==> !IsSpace(s[k])
    ensures Start(s, i) == k
  {
  }

  /** The backward scan stops just after the last non-whitespace position. */
  lemma StopAt(s: string, lo: nat, j: nat, k: nat)
    requires lo <= k <= j <= |s|
    requires AllSpaceIn(s, k, j)
    requires k > lo ==> !IsSpace(s[k - 1])
    ensures Stop(s, lo, j) == k
  {
  }

  /** TrimSpace removes exactly the whitespace padding: a trimmed core
      surrounded by whitespace trims back to that core. */
  lemma TrimPadded(pre: string, t: string, post: string)
    requires AllSpace(pre) && AllSpace(post)
    requires IsTrimmed(t)
    ensures Trim(pre + t + post) == t
  {
    var s := pre + t + post;
    var i := |pre|;
    var j := |pre| + |t|;
    assert forall k :: 0 <= k < i ==> s[k] == pre[k];
    assert forall k :: i <= k < j ==> s[k] == t[k - i];
    assert forall k :: j <= k < |s| ==> s[k] == post[k - j];
    if t == [] {
      StartAt(s, 0, |s|);
      StopAt(s, |s|, |s|, |s|);
    } else {
      StartAt(s, 0, i);
      StopAt(s, i, |s|, j);
      assert s[i..j] == t;
    }
  }

  /** A string is its own trim exactly when neither end is whitespace. */
  lemma TrimFixedIff(s: string)
    ensures Trim(s) == s <==> IsTrimmed(s)
  {
    if IsTrimmed(s) {
      assert [] + s + [] == s;
      TrimPadded([], s, []);
    }
  }

  lemma TrimIdempotent(s: string)
    ensures Trim(Trim(s)) == Trim(s)
  {
    TrimFixedIff(Trim(s));
  }

  /** TrimSpace yields "" exactly for strings made only of whitespace. */
  lemma TrimEmptyIff(s: string)
    ensures Trim(s) == [] <==> AllSpace(s)
  {
    if AllSpace(s) {
      assert s + [] + [] == s;
      TrimPadded(s, [], []);
    }
  }
}
