/**
  `String.prototype.trim` as the editor uses it on the live text of a
  block: strip leading and trailing white space and line terminators
  (section 22.1.3.32 of ECMA-262, with WhiteSpace and LineTerminator as
  defined in sections 12.2 and 12.3).
 */
module LiveText {

  /** WhiteSpace or LineTerminator code points of ECMA-262. */
  predicate IsWhitespace(c: char)
  {
    || c == '\U{0009}' || c == '\U{000A}' || c == '\U{000B}' || c == '\U{000C}'
    || c == '\U{000D}' || c == '\U{0020}' || c == '\U{00A0}' || c == '\U{1680}'
    || ('\U{2000}' <= c <= '\U{200A}')
    || c == '\U{2028}' || c == '\U{2029}' || c == '\U{202F}' || c == '\U{205F}'
    || c == '\U{3000}' || c == '\U{FEFF}'
  }

  predicate AllWhitespace(s: string)
  {
    forall i :: 0 <= i < |s| ==> IsWhitespace(s[i])
  }

  /** The text with its leading white space removed: a suffix of s. */
  function TrimStart(s: string): (r: string)
    ensures |r| <= |s| && r == s[|s| - |r|..]
    ensures AllWhitespace(s[..|s| - |r|])
    ensures r == [] || !IsWhitespace(r[0])
  {
    if |s| > 0 && IsWhitespace(s[0]) then
      var r := TrimStart(s[1..]);
      assert s[..|s| - |r|] == [s[0]] + s[1..][..|s| - 1 - |r|];
      r
    else s
  }

  /** The text with its trailing white space removed: a prefix of s. */
  function TrimEnd(s: string): (r: string)
    ensures |r| <= |s| && r == s[..|r|]
    ensures AllWhitespace(s[|r|..])
    ensures r == [] || !IsWhitespace(r[|r| - 1])
  {
    if |s| > 0 && IsWhitespace(s[|s| - 1]) then
      var r := TrimEnd(s[..|s| - 1]);
      assert s[|r|..] == s[..|s| - 1][|r|..] + [s[|s| - 1]];
      r
    else s
  }

  /** `s.trim()`: no longer than s, and white space at neither end. */
  function Trim(s: string): (r: string)
    ensures |r| <= |s|
    ensures r == [] || (!IsWhitespace(r[0]) && !IsWhitespace(r[|r| - 1]))
  {
    TrimEnd(TrimStart(s))
  }

  /** `s.trim() === ''`: the live text of a block counts as empty. */
  predicate IsBlank(s: string)
  {
    Trim(s) == ""
  }

  /**
    The trimmed text is a slice s[i..j] of the input whose outside is all
    white space.
   */
  lemma TrimIsSlice(s: string)
    ensures exists i, j ::
      (0 <= i <= j <= |s| && Trim(s) == s[i..j] && AllWhitespace(s[..i]) && AllWhitespace(s[j..]))
  {
    var u := TrimStart(s);
    var t := TrimEnd(u);
    PrefixOfSuffix(s, u, t);
    var i, j := |s| - |u|, |s| - |u| + |t|;
    var before, after := s[..i], s[j..];
    assert AllWhitespace(before);
    assert after == u[|t|..];
    assert AllWhitespace(after);
    assert Trim(s) == s[i..j];
  }

  /** A prefix t of a suffix u of s is the slice of s between them, and
      what follows t in s is what follows it in u. */
  lemma PrefixOfSuffix(s: string, u: string, t: string)
    requires |u| <= |s| && u == s[|s| - |u|..]
    requires |t| <= |u| && t == u[..|t|]
    ensures t == s[|s| - |u|..|s| - |u| + |t|]
    ensures s[|s| - |u| + |t|..] == u[|t|..]
  {
  }

  /** A blank text is exactly one made of white space only. */
  lemma BlankIffAllWhitespace(s: string)
    ensures IsBlank(s) <==> AllWhitespace(s)
  {
    var u := TrimStart(s);
    if u != [] {
      assert !IsWhitespace(s[|s| - |u|]);
    }
    if IsBlank(s) {
      assert u[0..] == u;
      assert s == s[..|s| - |u|] + u;
    }
  }

  /** Padding a word whose ends are not white space with white space on
      both sides is undone by trim. */
  lemma {:induction false} TrimPadded(w1: string, t: string, w2: string)
    requires AllWhitespace(w1) && AllWhitespace(w2)
    requires t == [] || (!IsWhitespace(t[0]) && !IsWhitespace(t[|t| - 1]))
    ensures Trim(w1 + t + w2) == t
  {
    if t == [] {
      assert w1 + t + w2 == w1 + w2;
      AllWhitespaceAppend(w1, w2);
      BlankIffAllWhitespace(w1 + w2);
    } else {
      TrimStartPadded(w1, t + w2);
      assert w1 + t + w2 == w1 + (t + w2);
      TrimEndPadded(t, w2);
    }
  }

  lemma AllWhitespaceAppend(a: string, b: string)
    requires AllWhitespace(a) && AllWhitespace(b)
    ensures AllWhitespace(a + b)
  {
    forall k | 0 <= k < |a + b|
      ensures IsWhitespace((a + b)[k])
    {
      if k >= |a| {
        assert (a + b)[k] == b[k - |a|];
      }
    }
  }

  lemma {:induction false} TrimStartPadded(w: string, u: string)
    requires AllWhitespace(w) && u != [] && !IsWhitespace(u[0])
    ensures TrimStart(w + u) == u
  {
    if w != [] {
      assert (w + u)[1..] == w[1..] + u;
      TrimStartPadded(w[1..], u);
    }
  }

  lemma {:induction false} TrimEndPadded(u: string, w: string)
    requires AllWhitespace(w) && u != [] && !IsWhitespace(u[|u| - 1])
    ensures TrimEnd(u + w) == u
  {
    if w != [] {
      assert (u + w)[..|u + w| - 1] == u + w[..|w| - 1];
      TrimEndPadded(u, w[..|w| - 1]);
    }
  }
}
