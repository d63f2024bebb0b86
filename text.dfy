/**
 * The Python string primitives the story generator relies on:
 * `str.isspace` on one character, `str.strip()` with no argument,
 * `str.rfind` and `str.find` for a single character, and the notion of a
 * contiguous substring used to state where results come from.
 */
module Text {

  /**
   * Python 3's whitespace test for `str.isspace` and `str.strip()`:
   * the ASCII controls TAB, LF, VT, FF, CR, the separators U+001C..U+001F,
   * SPACE, NEL, NO-BREAK SPACE, OGHAM SPACE MARK, U+2000..U+200A,
   * LINE SEPARATOR, PARAGRAPH SEPARATOR, NARROW NO-BREAK SPACE,
   * MEDIUM MATHEMATICAL SPACE and IDEOGRAPHIC SPACE.
   */
  predicate IsSpace(c: char) {
    ('\t' <= c <= '\r')
    || ('\U{1C}' <= c <= '\U{1F}')
    || c == ' '
    || c == '\U{85}'
    || c == '\U{A0}'
    || c == '\U{1680}'
    || ('\U{2000}' <= c <= '\U{200A}')
    || c == '\U{2028}'
    || c == '\U{2029}'
    || c == '\U{202F}'
    || c == '\U{205F}'
    || c == '\U{3000}'
  }

  /** Every character of `s` from index `lo` up to `hi` is whitespace. */
  ghost predicate SpaceBetween(s: string, lo: int, hi: int) {
    0 <= lo && hi <= |s| && forall k :: lo <= k < hi ==> IsSpace(s[k])
  }

  /** Neither the first nor the last character is whitespace. */
  predicate NoEdgeSpace(s: string) {
    s == [] || (!IsSpace(s[0]) && !IsSpace(s[|s| - 1]))
  }

  /** `t` sits in `s` at position `i`. */
  ghost predicate SliceAt(s: string, i: int, t: string) {
    0 <= i <= |s| - |t| && s[i..i + |t|] == t
  }

  ghost predicate IsSubstring(t: string, s: string) {
    exists i :: SliceAt(s, i, t)
  }

  /** `r` sits in `s` at `i`, and everything of `s` before and after it is whitespace. */
  ghost predicate StripsTo(s: string, i: int, r: string) {
    SliceAt(s, i, r) && SpaceBetween(s, 0, i) && SpaceBetween(s, i + |r|, |s|)
  }

  /** Python's `str.lstrip()`: the longest suffix that does not start with whitespace. */
  function LStrip(s: string): (r: string)
    ensures |r| <= |s| && r == s[|s| - |r|..]
    ensures SpaceBetween(s, 0, |s| - |r|)
    ensures r == [] || !IsSpace(r[0])
  {
    if |s| > 0 && IsSpace(s[0]) then LStrip(s[1..]) else s
  }

  /** Python's `str.rstrip()`: the longest prefix that does not end with whitespace. */
  function RStrip(s: string): (r: string)
    ensures |r| <= |s| && r == s[..|r|]
    ensures SpaceBetween(s, |r|, |s|)
    ensures r == [] || !IsSpace(r[|r| - 1])
  {
    if |s| > 0 && IsSpace(s[|s| - 1]) then RStrip(s[..|s| - 1]) else s
  }

  /** Python's `str.strip()`: whitespace removed from both ends. */
  function Strip(s: string): (r: string)
    ensures NoEdgeSpace(r)
    ensures |r| <= |s|
    ensures exists i :: StripsTo(s, i, r)
  {
    var l := LStrip(s);
    var r := RStrip(l);
    StripsToParts(s, l, r);
    r
  }

  /** The pieces `LStrip` and then `RStrip` leave make up a stripped piece. */
  lemma StripsToParts(s: string, l: string, r: string)
    requires |l| <= |s| && l == s[|s| - |l|..] && SpaceBetween(s, 0, |s| - |l|)
    requires |r| <= |l| && r == l[..|r|] && SpaceBetween(l, |r|, |l|)
    ensures StripsTo(s, |s| - |l|, r)
  {
    var i := |s| - |l|;
    assert s[i..i + |r|] == r;
    forall k | i + |r| <= k < |s| ensures IsSpace(s[k]) {
      assert s[k] == l[k - i];
    }
  }

  /** A non-whitespace character lies outside a whitespace run. */
  lemma NotInSpace(s: string, lo: int, hi: int, k: int)
    requires SpaceBetween(s, lo, hi) && 0 <= k < |s| && !IsSpace(s[k])
    ensures k < lo || hi <= k
  {
  }

  /** A stripped piece is empty exactly when the whole string is whitespace. */
  lemma StripsToEmpty(s: string, i: int, r: string)
    requires StripsTo(s, i, r) && NoEdgeSpace(r)
    ensures r == [] <==> SpaceBetween(s, 0, |s|)
  {
    if r != [] {
      assert s[i] == r[0] && !IsSpace(s[i]);
    } else {
      forall k | 0 <= k < |s| ensures IsSpace(s[k]) {
        if k < i { assert SpaceBetween(s, 0, i); } else { assert SpaceBetween(s, i, |s|); }
      }
    }
  }

  /** Two stripped pieces of one string without whitespace at their ends are equal. */
  lemma StripsToUnique(s: string, i: int, r: string, i': int, r': string)
    requires StripsTo(s, i, r) && NoEdgeSpace(r)
    requires StripsTo(s, i', r') && NoEdgeSpace(r')
    ensures r == r'
  {
    StripsToEmpty(s, i, r);
    StripsToEmpty(s, i', r');
    if r != [] {
      assert r' != [];
      var j, j' := i + |r|, i' + |r'|;
      assert s[i] == r[0] && s[i'] == r'[0];
      assert s[j - 1] == r[|r| - 1];
      assert s[j' - 1] == r'[|r'| - 1];
      NotInSpace(s, 0, i', i);
      NotInSpace(s, 0, i, i');
      NotInSpace(s, j', |s|, j - 1);
      NotInSpace(s, j, |s|, j' - 1);
      assert i == i' && j == j';
    }
  }

  /**
   * The contract of `Strip` pins its result down: any `r` that is `s`
   * with whitespace runs cut from both ends, and that has no whitespace
   * at either end, is `Strip(s)`.
   */
  lemma StripUnique(s: string, i: int, r: string)
    requires StripsTo(s, i, r) && NoEdgeSpace(r)
    ensures r == Strip(s)
  {
    var r' := Strip(s);
    var i' :| StripsTo(s, i', r');
    StripsToUnique(s, i, r, i', r');
  }

  /** A string without whitespace at its ends is left alone by `Strip`. */
  lemma StripNoEdgeSpace(s: string)
    requires NoEdgeSpace(s)
    ensures Strip(s) == s
  {
    assert s[0..|s|] == s;
    StripUnique(s, 0, s);
  }

  lemma StripIdempotent(s: string)
    ensures Strip(Strip(s)) == Strip(s)
  {
    StripNoEdgeSpace(Strip(s));
  }

  lemma StripsToKeepsLast(s: string, i: int, r: string)
    requires StripsTo(s, i, r) && NoEdgeSpace(r)
    requires |s| > 0 && !IsSpace(s[|s| - 1])
    ensures |r| > 0 && r[|r| - 1] == s[|s| - 1]
  {
    assert !SpaceBetween(s, 0, |s|);
    StripsToEmpty(s, i, r);
    NotInSpace(s, i + |r|, |s|, |s| - 1);
    assert r[|r| - 1] == s[i + |r| - 1];
  }

  /** `Strip` keeps a non-whitespace last character where it is. */
  lemma StripKeepsLast(s: string)
    requires |s| > 0 && !IsSpace(s[|s| - 1])
    ensures |Strip(s)| > 0 && Strip(s)[|Strip(s)| - 1] == s[|s| - 1]
  {
    var r := Strip(s);
    var i :| StripsTo(s, i, r);
    StripsToKeepsLast(s, i, r);
  }

  /**
   * Stripping the part of `s` up to a non-whitespace character at `k` keeps
   * everything from `s`'s first non-whitespace character through `k`.
   */
  lemma StripThrough(s: string, k: int, t: string)
    requires 0 <= k < |s| && !IsSpace(s[k]) && t == s[..k + 1]
    ensures |s| - |LStrip(s)| <= k && Strip(t) == s[|s| - |LStrip(s)|..k + 1]
  {
    var l := LStrip(s);
    var n := |s| - |l|;
    NotInSpace(s, 0, n, k);
    assert l[0] == s[n];
    StripBetween(s, n, k, t);
  }

  lemma StripBetween(s: string, n: int, k: int, t: string)
    requires 0 <= n <= k < |s| && SpaceBetween(s, 0, n)
    requires !IsSpace(s[n]) && !IsSpace(s[k]) && t == s[..k + 1]
    ensures Strip(t) == s[n..k + 1]
  {
    var r := s[n..k + 1];
    assert r[0] == s[n] && r[|r| - 1] == s[k];
    assert SliceAt(t, n, r) by {
      assert t[n..n + |r|] == r;
    }
    assert SpaceBetween(t, 0, n) by {
      forall j | 0 <= j < n ensures IsSpace(t[j]) {
        assert t[j] == s[j];
      }
    }
    assert StripsTo(t, n, r);
    StripUnique(t, n, r);
  }

  /** A substring of a substring is a substring. */
  lemma SliceAtTrans(s: string, i: int, t: string, j: int, u: string)
    requires SliceAt(s, i, t) && SliceAt(t, j, u)
    ensures SliceAt(s, i + j, u)
  {
    forall k | 0 <= k < |u|
      ensures s[i + j..i + j + |u|][k] == u[k]
    {
      assert u[k] == t[j + k] == s[i + j + k];
    }
  }

  lemma SubstringTrans(u: string, t: string, s: string)
    requires IsSubstring(u, t) && IsSubstring(t, s)
    ensures IsSubstring(u, s)
  {
    var j :| SliceAt(t, j, u);
    var i :| SliceAt(s, i, t);
    SliceAtTrans(s, i, t, j, u);
  }

  lemma SubstringLength(t: string, s: string)
    requires IsSubstring(t, s)
    ensures |t| <= |s|
  {
    var i :| SliceAt(s, i, t);
  }

  lemma SelfSubstring(s: string)
    ensures IsSubstring(s, s)
  {
    assert SliceAt(s, 0, s);
  }

  /** Every character of a substring occurs in the whole string. */
  lemma SubstringChars(t: string, s: string, c: char)
    requires IsSubstring(t, s) && c in t
    ensures c in s
  {
    var i :| SliceAt(s, i, t);
    var k :| 0 <= k < |t| && t[k] == c;
    assert s[i + k] == t[k];
  }

  /** `Strip` adds no character. */
  lemma StripLacks(s: string, c: char)
    requires c !in s
    ensures c !in Strip(s)
  {
    StripSubstring(s);
    if c in Strip(s) {
      SubstringChars(Strip(s), s, c);
    }
  }

  lemma PrefixSubstring(s: string, n: nat)
    requires n <= |s|
    ensures IsSubstring(s[..n], s)
  {
    assert SliceAt(s, 0, s[..n]);
  }

  lemma SuffixSubstring(s: string, n: nat)
    requires n <= |s|
    ensures IsSubstring(s[n..], s)
  {
    assert SliceAt(s, n, s[n..]);
  }

  lemma StripSubstring(s: string)
    ensures IsSubstring(Strip(s), s)
  {
    var i :| StripsTo(s, i, Strip(s));
  }

  /**
   * Python's `str.rfind` for one character: the highest index holding `c`,
   * or -1 when `c` does not occur.
   */
  function RFind(s: string, c: char): (r: int)
    ensures -1 <= r < |s|
    ensures r == -1 <==> c !in s
    ensures 0 <= r ==> s[r] == c && c !in s[r + 1..]
  {
    if |s| == 0 then -1
    else if s[|s| - 1] == c then |s| - 1
    else RFind(s[..|s| - 1], c)
  }

  /**
   * Python's `str.find` for one character: the lowest index holding `c`,
   * or -1 when `c` does not occur.
   */
  function Find(s: string, c: char): (r: int)
    ensures -1 <= r < |s|
    ensures r == -1 <==> c !in s
    ensures 0 <= r ==> s[r] == c && c !in s[..r]
  {
    if |s| == 0 then -1
    else if s[0] == c then 0
    else
      var k := Find(s[1..], c);
      if k == -1 then -1 else k + 1
  }
}
