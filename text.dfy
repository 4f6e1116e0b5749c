/** JavaScript's `String.prototype.trim`, which the store applies to names and descriptions. */
module Text {

  /** The characters `trim` removes: ECMAScript WhiteSpace (TAB, VT, FF, ZWNBSP and every
      Unicode space separator) and LineTerminator (LF, CR, LS, PS). */
  predicate IsWhitespace(c: char) {
    || c == '\t' || c == '\n' || c == '\U{000B}' || c == '\U{000C}' || c == '\r'
    || c == ' ' || c == '\U{00A0}' || c == '\U{1680}'
    || ('\U{2000}' <= c <= '\U{200A}')
    || c == '\U{2028}' || c == '\U{2029}' || c == '\U{202F}' || c == '\U{205F}'
    || c == '\U{3000}' || c == '\U{FEFF}'
  }

  predicate AllWhitespace(s: string) {
    forall k :: 0 <= k < |s| ==> IsWhitespace(s[k])
  }

  /** The number of whitespace characters at the start of `s`. */
  function LeadingSpace(s: string): (n: nat)
    ensures n <= |s|
    ensures AllWhitespace(s[..n])
    ensures n < |s| ==> !IsWhitespace(s[n])
  {
    if s == [] || !IsWhitespace(s[0]) then 0
    else
      var m := LeadingSpace(s[1..]);
      assert s[1..][..m] == s[1..m + 1];
      m + 1
  }

  /** The number of whitespace characters at the end of `s`. */
  function TrailingSpace(s: string): (n: nat)
    ensures n <= |s|
    ensures AllWhitespace(s[|s| - n..])
    ensures n < |s| ==> !IsWhitespace(s[|s| - n - 1])
  {
    if s == [] || !IsWhitespace(s[|s| - 1]) then 0
    else
      var m := TrailingSpace(s[..|s| - 1]);
      assert s[..|s| - 1][|s| - 1 - m..] == s[|s| - 1 - m..|s| - 1];
      m + 1
  }

  /** `s.trim()`: `s` without its leading and trailing whitespace. */
  function Trim(s: string): (r: string)
    ensures |r| <= |s|
    ensures r != [] ==> !IsWhitespace(r[0]) && !IsWhitespace(r[|r| - 1])
  {
    var rest := s[LeadingSpace(s)..];
    rest[..|rest| - TrailingSpace(rest)]
  }

  /** The trimmed string is a contiguous slice of the input, everything cut off either end is
      whitespace, and what is left neither starts nor ends with whitespace. */
  lemma TrimIsInnerSlice(s: string)
    ensures var i, r := LeadingSpace(s), Trim(s);
      && i + |r| <= |s| && r == s[i..i + |r|]
      && AllWhitespace(s[..i]) && AllWhitespace(s[i + |r|..])
      && (r != [] ==> !IsWhitespace(r[0]) && !IsWhitespace(r[|r| - 1]))
  {
    var i := LeadingSpace(s);
    var rest := s[i..];
    var j := TrailingSpace(rest);
    var r := Trim(s);
    assert r == rest[..|rest| - j];
    assert |r| == |s| - i - j;
    assert r == s[i..i + |r|];
    assert s[i + |r|..] == rest[|rest| - j..];
    if r != [] {
      assert r[0] == rest[0];
      assert r[|r| - 1] == rest[|rest| - j - 1];
    }
  }

  /** A string is trimmed to nothing exactly when it is all whitespace. */
  lemma TrimEmptyIff(s: string)
    ensures Trim(s) == [] <==> AllWhitespace(s)
  {
    var i := LeadingSpace(s);
    TrimIsInnerSlice(s);
    if Trim(s) == [] {
      assert s == s[..i];
    } else {
      assert !IsWhitespace(s[i]);
    }
  }

  /** Padding a string that neither starts nor ends with whitespace, and then trimming it,
      gives back that string. */
  lemma TrimPadded(front: string, core: string, back: string)
    requires AllWhitespace(front) && AllWhitespace(back)
    requires core != [] ==> !IsWhitespace(core[0]) && !IsWhitespace(core[|core| - 1])
    ensures Trim(front + core + back) == core
  {
    var s := front + core + back;
    if core == [] {
      assert AllWhitespace(s) by {
        forall k | 0 <= k < |s| ensures IsWhitespace(s[k]) {
          if k < |front| { assert s[k] == front[k]; } else { assert s[k] == back[k - |front|]; }
        }
      }
      TrimEmptyIff(s);
    } else {
      LeadingOfPadded(front, core + back);
      assert s == front + (core + back);
      var rest := s[|front|..];
      assert rest == core + back;
      TrailingOfPadded(core, back);
      assert rest[..|rest| - |back|] == core;
    }
  }

  lemma {:induction false} LeadingOfPadded(front: string, t: string)
    requires AllWhitespace(front)
    requires t != [] && !IsWhitespace(t[0])
    ensures LeadingSpace(front + t) == |front|
  {
    if front != [] {
      assert (front + t)[1..] == front[1..] + t;
      LeadingOfPadded(front[1..], t);
    } else {
      assert front + t == t;
    }
  }

  lemma {:induction false} TrailingOfPadded(t: string, back: string)
    requires AllWhitespace(back)
    requires t != [] && !IsWhitespace(t[|t| - 1])
    ensures TrailingSpace(t + back) == |back|
  {
    if back != [] {
      var s := t + back;
      assert s[..|s| - 1] == t + back[..|back| - 1];
      assert s[|s| - 1] == back[|back| - 1];
      TrailingOfPadded(t, back[..|back| - 1]);
    } else {
      assert t + back == t;
    }
  }

  /** Trimming twice is trimming once. */
  lemma TrimIdempotent(s: string)
    ensures Trim(Trim(s)) == Trim(s)
  {
    TrimIsInnerSlice(s);
    var r := Trim(s);
    TrimPadded([], r, []);
    assert [] + r + [] == r;
  }
}
