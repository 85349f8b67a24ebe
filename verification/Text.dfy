/** Character classes and whitespace trimming, as Rust's `char` and `str` define them.
    Text is a sequence of Unicode scalar values and one length measure is used
    throughout: a character counts as one, wherever the source counts bytes or characters. */
module Text {

  /** `char::is_whitespace`: the Unicode White_Space property. */
  predicate IsWhitespace(c: char) {
    || '\t' <= c <= '\r' || c == ' ' || c == '\U{0085}' || c == '\U{00A0}' || c == '\U{1680}'
    || '\U{2000}' <= c <= '\U{200A}' || c == '\U{2028}' || c == '\U{2029}'
    || c == '\U{202F}' || c == '\U{205F}' || c == '\U{3000}'
  }

  /** `char::is_control`: general category Cc. */
  predicate IsControl(c: char) {
    c <= '\U{001F}' || '\U{007F}' <= c <= '\U{009F}'
  }

  predicate Blank(s: string) {
    forall i :: 0 <= i < |s| ==> IsWhitespace(s[i])
  }

  function TrimStart(s: string): string {
    if s != "" && IsWhitespace(s[0]) then TrimStart(s[1..]) else s
  }

  function TrimEnd(s: string): string {
    if s != "" && IsWhitespace(s[|s| - 1]) then TrimEnd(s[..|s| - 1]) else s
  }

  function Trim(s: string): string {
    TrimEnd(TrimStart(s))
  }

  /** Neither end of a solid text is whitespace, so trimming leaves it alone. */
  predicate Solid(s: string) {
    s != "" && !IsWhitespace(s[0]) && !IsWhitespace(s[|s| - 1])
  }

  lemma {:induction false} TrimStartAppend(a: string, b: string)
    requires !Blank(a)
    ensures TrimStart(a + b) == TrimStart(a) + b
    ensures !Blank(TrimStart(a)) && !IsWhitespace(TrimStart(a)[0])
  {
    if IsWhitespace(a[0]) {
      assert (a + b)[1..] == a[1..] + b;
      TrimStartAppend(a[1..], b);
    }
  }

  lemma {:induction false} TrimEndAppend(a: string, b: string)
    requires !Blank(b)
    ensures TrimEnd(a + b) == a + TrimEnd(b)
    ensures TrimEnd(b) != "" && !IsWhitespace(TrimEnd(b)[|TrimEnd(b)| - 1])
    decreases |b|
  {
    var n := |b| - 1;
    if IsWhitespace(b[n]) {
      assert (a + b)[..|a + b| - 1] == a + b[..n];
      TrimEndAppend(a, b[..n]);
    } else {
      assert (a + b)[|a + b| - 1] == b[n];
    }
  }

  /** Trimming a joined text touches only its outer ends. */
  lemma {:induction false} TrimJoined(a: string, sep: string, b: string)
    requires !Blank(a) && !Blank(b)
    ensures Trim(a + sep + b) == TrimStart(a) + sep + TrimEnd(b)
    ensures |Trim(a + sep + b)| >= |Trim(a)| + |sep| + |Trim(b)|
  {
    assert a + sep + b == a + (sep + b);
    TrimStartAppend(a, sep + b);
    assert TrimStart(a) + (sep + b) == (TrimStart(a) + sep) + b;
    TrimEndAppend(TrimStart(a) + sep, b);
    TrimEndLength(TrimStart(a));
    TrimStartAppend(b, "");
    assert b + "" == b;
    TrimSplit(b);
    TrimEndAppend(b[..|b| - |TrimStart(b)|], TrimStart(b));
  }

  lemma {:induction false} TrimEndLength(s: string)
    ensures |TrimEnd(s)| <= |s|
  {
    if s != "" && IsWhitespace(s[|s| - 1]) {
      TrimEndLength(s[..|s| - 1]);
    }
  }

  lemma {:induction false} TrimSplit(s: string)
    ensures |TrimStart(s)| <= |s|
    ensures s == s[..|s| - |TrimStart(s)|] + TrimStart(s)
    ensures Blank(s[..|s| - |TrimStart(s)|])
  {
    if s != "" && IsWhitespace(s[0]) {
      TrimSplit(s[1..]);
      var k := |s| - |TrimStart(s)|;
      assert s[..k] == [s[0]] + s[1..][..k - 1];
    } else {
      assert s[..0] == "";
    }
  }

  /** The test `s.trim().is_empty()` is the test for a blank text. */
  lemma TrimEmptyIffBlank(s: string)
    ensures Trim(s) == "" <==> Blank(s)
  {
    TrimSplit(s);
    if Blank(s) {
      assert TrimStart(s) == "" by { BlankTrimStart(s); }
    } else {
      assert s + "" == s;
      TrimStartAppend(s, "");
      TrimEndAppend("", TrimStart(s));
    }
  }

  lemma {:induction false} BlankTrimStart(s: string)
    requires Blank(s)
    ensures TrimStart(s) == ""
  {
    if s != "" {
      BlankTrimStart(s[1..]);
    }
  }
}
