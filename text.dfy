/**
 * `String.prototype.trim`: removes leading and trailing white space and line
 * terminators as ECMAScript defines them.
 */
module Text {

  /**
   * ECMAScript WhiteSpace and LineTerminator from U+00A0 up: NBSP, every space
   * separator (U+1680, U+2000-U+200A, U+202F, U+205F, U+3000), LS, PS and ZWNBSP.
   */
  const WIDE_WHITE_SPACE: seq<char> := [
    '\U{00A0}', '\U{1680}',
    '\U{2000}', '\U{2001}', '\U{2002}', '\U{2003}', '\U{2004}', '\U{2005}',
    '\U{2006}', '\U{2007}', '\U{2008}', '\U{2009}', '\U{200A}',
    '\U{2028}', '\U{2029}', '\U{202F}', '\U{205F}', '\U{3000}', '\U{FEFF}'
  ]

  /**
   * `c` occurs in `cs`. Written as a recursion so that proofs about an unknown
   * character unfold it only as far as they need, not into one case per member.
   */
  predicate OneOf(c: char, cs: seq<char>) {
    cs != [] && (cs[0] == c || OneOf(c, cs[1..]))
  }

  /**
   * What `trim` removes: below U+00A0, TAB, LF, VT, FF, CR (U+0009-U+000D) and
   * SPACE; from U+00A0 up, the characters of WIDE_WHITE_SPACE.
   */
  predicate IsWhiteSpace(c: char) {
    if c < '\U{00A0}' then '\t' <= c <= '\r' || c == ' ' else OneOf(c, WIDE_WHITE_SPACE)
  }

  predicate AllWhiteSpace(s: string) {
    forall k :: 0 <= k < |s| ==> IsWhiteSpace(s[k])
  }

  /** `s` holds `r` at position `i`, with only white space before and after it. */
  predicate Surrounds(s: string, i: int, r: string) {
    && 0 <= i <= |s| - |r|
    && r == s[i..i + |r|]
    && AllWhiteSpace(s[..i])
    && AllWhiteSpace(s[i + |r|..])
  }

  lemma AllWhiteSpaceConcat(a: string, b: string)
    ensures AllWhiteSpace(a + b) <==> AllWhiteSpace(a) && AllWhiteSpace(b)
  {
    if AllWhiteSpace(a) && AllWhiteSpace(b) {
      forall k | 0 <= k < |a + b|
        ensures IsWhiteSpace((a + b)[k])
      {
        if k < |a| {
          assert (a + b)[k] == a[k];
        } else {
          assert (a + b)[k] == b[k - |a|];
        }
      }
    }
    if AllWhiteSpace(a + b) {
      forall k | 0 <= k < |a|
        ensures IsWhiteSpace(a[k])
      {
        assert (a + b)[k] == a[k];
      }
      forall k | 0 <= k < |b|
        ensures IsWhiteSpace(b[k])
      {
        assert (a + b)[|a| + k] == b[k];
      }
    }
  }

  /** `s` without its leading white space. */
  function TrimStart(s: string): (r: string)
    ensures |r| <= |s| && r == s[|s| - |r|..]
    ensures AllWhiteSpace(s[..|s| - |r|])
    ensures r == [] || !IsWhiteSpace(r[0])
  {
    if s != [] && IsWhiteSpace(s[0]) then
      var r := TrimStart(s[1..]);
      assert s[..|s| - |r|] == [s[0]] + s[1..][..|s| - 1 - |r|];
      AllWhiteSpaceConcat([s[0]], s[1..][..|s| - 1 - |r|]);
      r
    else s
  }

  /** `s` without its trailing white space. */
  function TrimEnd(s: string): (r: string)
    ensures |r| <= |s| && r == s[..|r|]
    ensures AllWhiteSpace(s[|r|..])
    ensures r == [] || !IsWhiteSpace(r[|r| - 1])
  {
    if s != [] && IsWhiteSpace(s[|s| - 1]) then
      var r := TrimEnd(s[..|s| - 1]);
      assert s[|r|..] == s[..|s| - 1][|r|..] + [s[|s| - 1]];
      AllWhiteSpaceConcat(s[..|s| - 1][|r|..], [s[|s| - 1]]);
      r
    else s
  }

  /**
   * The trimmed text is a contiguous piece of the input that neither starts nor ends
   * with white space, everything cut off on either side is white space, and it is
   * empty exactly when the input is all white space.
   */
  function Trim(s: string): (r: string)
    ensures |r| <= |s|
    ensures r == [] || (!IsWhiteSpace(r[0]) && !IsWhiteSpace(r[|r| - 1]))
    ensures r == [] <==> AllWhiteSpace(s)
    ensures exists i :: Surrounds(s, i, r)
  {
    TrimOfSteps(s, TrimStart(s), TrimEnd(TrimStart(s)));
    TrimEnd(TrimStart(s))
  }

  /** What trimming the start and then the end of `s` leaves, from the two steps' contracts. */
  lemma TrimOfSteps(s: string, t: string, r: string)
    requires |t| <= |s| && t == s[|s| - |t|..] && AllWhiteSpace(s[..|s| - |t|])
    requires t == [] || !IsWhiteSpace(t[0])
    requires |r| <= |t| && r == t[..|r|] && AllWhiteSpace(t[|r|..])
    requires r == [] || !IsWhiteSpace(r[|r| - 1])
    ensures |r| <= |s|
    ensures r == [] || (!IsWhiteSpace(r[0]) && !IsWhiteSpace(r[|r| - 1]))
    ensures r == [] <==> AllWhiteSpace(s)
    ensures Surrounds(s, |s| - |t|, r)
  {
    SurroundsOfSteps(s, t, r);
    if r != [] {
      assert r[0] == t[0];
    }
    SurroundedAllWhiteSpace(s, |s| - |t|, r);
  }

  /** White space cut off the start, then off the end, leaves a surrounded piece. */
  lemma SurroundsOfSteps(s: string, t: string, r: string)
    requires |t| <= |s| && t == s[|s| - |t|..] && AllWhiteSpace(s[..|s| - |t|])
    requires |r| <= |t| && r == t[..|r|] && AllWhiteSpace(t[|r|..])
    ensures Surrounds(s, |s| - |t|, r)
  {
    var i := |s| - |t|;
    assert s[i + |r|..] == t[|r|..];
  }

  /** A piece surrounded by white space is empty iff the whole text is white space, when it starts with a non-blank. */
  lemma SurroundedAllWhiteSpace(s: string, i: int, r: string)
    requires Surrounds(s, i, r)
    requires r == [] || !IsWhiteSpace(r[0])
    ensures r == [] <==> AllWhiteSpace(s)
  {
    if r == [] {
      forall k | 0 <= k < |s|
        ensures IsWhiteSpace(s[k])
      {
        if k < i {
          assert s[k] == s[..i][k];
        } else {
          assert s[k] == s[i..][k - i];
        }
      }
    } else {
      assert s[i] == r[0];
    }
  }

  /** Trimming twice trims nothing more. */
  lemma TrimIdempotent(s: string)
    ensures Trim(Trim(s)) == Trim(s)
  {
    var r := Trim(s);
    if r != [] {
      assert TrimStart(r) == r;
      assert TrimEnd(r) == r;
    }
  }
}
