/**
 The string trimming that zod's `.trim()` performs (JavaScript's
 `String.prototype.trim`): leading and trailing white space and line
 terminators are removed, interior ones are kept.

 Strings are sequences of Unicode scalar values, so `|s|` counts characters
 rather than UTF-16 code units.
 */
module Text {

  /** The characters `String.prototype.trim` removes: the ECMAScript
      WhiteSpace set (tab, vertical tab, form feed, space, no-break space,
      byte-order mark and the Unicode space separators) and the LineTerminator
      set (line feed, carriage return, line and paragraph separators). */
  predicate IsWhitespace(c: char) {
    || c == '\t' || c == '\U{000B}' || c == '\U{000C}' || c == ' '
    || c == '\U{00A0}' || c == '\U{FEFF}' || c == '\U{1680}'
    || ('\U{2000}' <= c <= '\U{200A}')
    || c == '\U{202F}' || c == '\U{205F}' || c == '\U{3000}'
    || c == '\n' || c == '\r' || c == '\U{2028}' || c == '\U{2029}'
  }

  predicate AllWhitespace(s: string) {
    forall k :: 0 <= k < |s| ==> IsWhitespace(s[k])
  }

  /** Some character of `s` is not white space. */
  predicate HasVisibleChar(s: string) {
    exists k :: 0 <= k < |s| && !IsWhitespace(s[k])
  }

  /** Neither end of `s` is white space: `s` is already trimmed. */
  predicate Tight(s: string) {
    s == [] || (!IsWhitespace(s[0]) && !IsWhitespace(s[|s| - 1]))
  }

  /** Drops the white space at the front of `s`. */
  function TrimStart(s: string): string {
    if |s| > 0 && IsWhitespace(s[0]) then TrimStart(s[1..]) else s
  }

  /** Drops the white space at the back of `s`. */
  function TrimEnd(s: string): string {
    if |s| > 0 && IsWhitespace(s[|s| - 1]) then TrimEnd(s[..|s| - 1]) else s
  }

  /** `TrimStart` returns a suffix of its input that does not start with white
      space, and everything it dropped was white space. */
  lemma {:induction false} TrimStartSpec(s: string)
    ensures |TrimStart(s)| <= |s| && TrimStart(s) == s[|s| - |TrimStart(s)|..]
    ensures TrimStart(s) == [] || !IsWhitespace(TrimStart(s)[0])
    ensures AllWhitespace(s[..|s| - |TrimStart(s)|])
  {
    if |s| > 0 && IsWhitespace(s[0]) {
      var r := TrimStart(s[1..]);
      TrimStartSpec(s[1..]);
      assert TrimStart(s) == r;
      assert s[|s| - |r|..] == s[1..][|s| - 1 - |r|..];
      assert s[..|s| - |r|] == [s[0]] + s[1..][..|s| - 1 - |r|];
    }
  }

  /** `TrimEnd` returns a prefix of its input that does not end with white
      space, and everything it dropped was white space. */
  lemma {:induction false} TrimEndSpec(s: string)
    ensures |TrimEnd(s)| <= |s| && TrimEnd(s) == s[..|TrimEnd(s)|]
    ensures TrimEnd(s) == [] || !IsWhitespace(TrimEnd(s)[|TrimEnd(s)| - 1])
    ensures AllWhitespace(s[|TrimEnd(s)|..])
  {
    if |s| > 0 && IsWhitespace(s[|s| - 1]) {
      var r := TrimEnd(s[..|s| - 1]);
      TrimEndSpec(s[..|s| - 1]);
      assert TrimEnd(s) == r;
      assert s[..|r|] == s[..|s| - 1][..|r|];
      assert s[|r|..] == s[..|s| - 1][|r|..] + [s[|s| - 1]];
    }
  }

  /** JavaScript's `trim`. Its meaning independent of how it is computed is
      given by `TrimDecomposes` and `TrimUnique` below. */
  function Trim(s: string): (r: string)
    ensures |r| <= |s|
    ensures Tight(r)
  {
    var u := TrimStart(s);
    TrimStartSpec(s);
    TrimEndSpec(u);
    var r := TrimEnd(u);
    assert r != [] ==> r[0] == u[0];
    r
  }

  /** Every string is white space, then its trimmed form, then white space. */
  lemma TrimDecomposes(s: string)
    ensures exists a, b :: AllWhitespace(a) && AllWhitespace(b) && s == a + Trim(s) + b
  {
    var u := TrimStart(s);
    var t := TrimEnd(u);
    TrimStartSpec(s);
    TrimEndSpec(u);
    var a := s[..|s| - |u|];
    var b := u[|t|..];
    assert t == Trim(s);
    assert AllWhitespace(a) && AllWhitespace(b);
    assert u == t + b;
    assert s == a + u;
    assert s == a + t + b;
  }

  lemma {:induction false} TrimStartSkips(a: string, t: string)
    requires AllWhitespace(a)
    requires t == [] || !IsWhitespace(t[0])
    ensures TrimStart(a + t) == t
    decreases |a|
  {
    if a == [] {
      assert a + t == t;
    } else {
      assert (a + t)[0] == a[0];
      assert (a + t)[1..] == a[1..] + t;
      TrimStartSkips(a[1..], t);
    }
  }

  lemma {:induction false} TrimEndSkips(t: string, b: string)
    requires AllWhitespace(b)
    requires t == [] || !IsWhitespace(t[|t| - 1])
    ensures TrimEnd(t + b) == t
    decreases |b|
  {
    if b == [] {
      assert t + b == t;
    } else {
      var s := t + b;
      assert s[|s| - 1] == b[|b| - 1];
      assert s[..|s| - 1] == t + b[..|b| - 1];
      TrimEndSkips(t, b[..|b| - 1]);
    }
  }

  /** Trimming is determined by its meaning: surrounding white space around an
      already-trimmed middle is exactly what `Trim` removes. */
  lemma TrimUnique(a: string, m: string, b: string)
    requires AllWhitespace(a) && AllWhitespace(b) && Tight(m)
    ensures Trim(a + m + b) == m
  {
    var s := a + m + b;
    if m == [] {
      assert s == a + b;
      assert AllWhitespace(s);
      TrimStartSpec(s);
    } else {
      assert s == a + (m + b);
      TrimStartSkips(a, m + b);
      TrimEndSkips(m, b);
    }
  }

  /** Trimming a trimmed string changes nothing. */
  lemma TrimIdempotent(s: string)
    ensures Trim(Trim(s)) == Trim(s)
  {
    var t := Trim(s);
    assert [] + t + [] == t;
    TrimUnique([], t, []);
  }

  /** The trimmed form is empty exactly when the string is all white space. */
  lemma TrimEmptyIff(s: string)
    ensures Trim(s) == [] <==> !HasVisibleChar(s)
  {
    TrimDecomposes(s);
    var a, b :| AllWhitespace(a) && AllWhitespace(b) && s == a + Trim(s) + b;
    var t := Trim(s);
    if t == [] {
      assert s == a + b;
      assert AllWhitespace(s);
    } else {
      assert s[|a|] == t[0];
    }
  }
}
