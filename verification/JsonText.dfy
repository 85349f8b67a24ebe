/** Printed JSON (sections 4 and 7 of RFC 8259) and the reply scanner of src/judge.rs: the scanner
    finds exactly the printed object, whatever surrounds it. */
module JsonText {
  import opened Options
  import opened JsonScan

  /** A piece of a string literal: a character as it is, or a backslash and the character after. */
  datatype Piece = Plain(c: char) | Escape(c: char)

  datatype Json =
    | Word(text: string)
    | Text(pieces: seq<Piece>)
    | List(items: seq<Json>)
    | Object(members: seq<(seq<Piece>, Json)>)

  /** White space after an opening and before a closing bracket, after a comma, around a colon;
      it may depend on how deep the value is. */
  datatype Gaps = Gaps(open: string, close: string, comma: string, colon: string)

  type Layout = nat -> Gaps

  predicate Quiet(t: string) { forall i :: 0 <= i < |t| ==> t[i] != '"' && t[i] != '{' && t[i] != '}' }

  predicate QuietGaps(g: Gaps) { Quiet(g.open) && Quiet(g.close) && Quiet(g.comma) && Quiet(g.colon) }

  ghost predicate QuietLayout(layout: Layout) { forall n :: QuietGaps(layout(n)) }

  predicate PlainOk(p: Piece) { p.Plain? ==> p.c != '"' && p.c != '\\' }

  predicate PiecesOk(ps: seq<Piece>) { forall i :: 0 <= i < |ps| ==> PlainOk(ps[i]) }

  /** Numbers and literal names have no quote or brace; unescaped characters are no quote or backslash. */
  predicate WellFormed(v: Json) {
    match v
    case Word(text) => Quiet(text)
    case Text(pieces) => PiecesOk(pieces)
    case List(items) => forall i :: 0 <= i < |items| ==> WellFormed(items[i])
    case Object(members) => forall i :: 0 <= i < |members| ==> PiecesOk(members[i].0) && WellFormed(members[i].1)
  }

  function PrintPieces(ps: seq<Piece>): string {
    if ps == [] then "" else
    PrintPieces(ps[..|ps| - 1]) + (match ps[|ps| - 1] case Plain(c) => [c] case Escape(c) => ['\\', c])
  }

  function PrintText(ps: seq<Piece>): string { "\"" + PrintPieces(ps) + "\"" }

  function Print(v: Json, layout: Layout, level: nat): string
    decreases v, 1
  {
    match v
    case Word(text) => text
    case Text(pieces) => PrintText(pieces)
    case List(items) => "[" + layout(level).open + PrintItems(v, layout, level, |items|) + layout(level).close + "]"
    case Object(members) =>
      "{" + layout(level).open + PrintMembers(v, layout, level, |members|) + layout(level).close + "}"
  }

  function PrintItems(v: Json, layout: Layout, level: nat, n: nat): string
    requires v.List? && n <= |v.items|
    decreases v, 0, n
  {
    if n == 0 then "" else
    PrintItems(v, layout, level, n - 1) + (if n == 1 then "" else "," + layout(level).comma)
    + Print(v.items[n - 1], layout, level + 1)
  }

  function PrintMembers(v: Json, layout: Layout, level: nat, n: nat): string
    requires v.Object? && n <= |v.members|
    decreases v, 0, n
  {
    if n == 0 then "" else
    PrintMembers(v, layout, level, n - 1) + (if n == 1 then "" else "," + layout(level).comma)
    + PrintText(v.members[n - 1].0) + ":" + layout(level).colon + Print(v.members[n - 1].1, layout, level + 1)
  }

  // ---- balanced text ----

  lemma {:induction false} RunAppend(l: Lex, a: string, b: string)
    ensures Run(l, a + b) == Run(Run(l, a), b)
  {
    if b == "" {
      assert a + b == a;
    } else {
      var n := |b| - 1;
      RunAppend(l, a, b[..n]);
      assert (a + b)[..|a + b| - 1] == a + b[..n];
    }
  }

  function Deeper(l: Lex, d: int): Lex { l.(depth := l.depth + d) }

  lemma {:induction false} RunDeeper(l: Lex, d: int, t: string)
    ensures Run(Deeper(l, d), t) == Deeper(Run(l, t), d)
  {
    if t != "" { RunDeeper(l, d, t[..|t| - 1]); }
  }

  /** Read from outside any string, the text closes what it opens and never dips below. */
  ghost predicate Balanced(t: string) {
    Run(OUTSIDE, t) == OUTSIDE && forall k: nat :: k <= |t| ==> DepthAt(t, k) >= 0
  }

  function DepthAt(t: string, k: nat): int
    requires k <= |t|
  {
    Run(OUTSIDE, t[..k]).depth
  }

  lemma BalancedAppend(a: string, b: string)
    requires Balanced(a) && Balanced(b)
    ensures Balanced(a + b)
  {
    RunAppend(OUTSIDE, a, b);
    forall k: nat | k <= |a + b|
      ensures DepthAt(a + b, k) >= 0
    {
      if k <= |a| {
        assert (a + b)[..k] == a[..k];
        assert DepthAt(a, k) >= 0;
      } else {
        assert (a + b)[..k] == a + b[..k - |a|];
        RunAppend(OUTSIDE, a, b[..k - |a|]);
        assert DepthAt(b, k - |a|) >= 0;
      }
    }
  }

  lemma {:induction false} QuietBalanced(t: string)
    requires Quiet(t)
    ensures Balanced(t)
  {
    forall k: nat | k <= |t|
      ensures Run(OUTSIDE, t[..k]) == OUTSIDE
    {
      QuietRun(t[..k]);
    }
    assert t[..|t|] == t;
  }

  lemma {:induction false} QuietRun(t: string)
    requires Quiet(t)
    ensures Run(OUTSIDE, t) == OUTSIDE
  {
    if t != "" { QuietRun(t[..|t| - 1]); }
  }

  const INSIDE := Lex(0, true, false)

  /** Inside a literal every piece leaves the scan inside it. */
  lemma {:induction false} PiecesRun(ps: seq<Piece>)
    requires PiecesOk(ps)
    ensures Run(INSIDE, PrintPieces(ps)) == INSIDE
  {
    if ps != [] {
      var n := |ps| - 1;
      var last := match ps[n] case Plain(c) => [c] case Escape(c) => ['\\', c];
      PiecesRun(ps[..n]);
      assert PlainOk(ps[n]);
      RunAppend(INSIDE, PrintPieces(ps[..n]), last);
      assert last[..|last| - 1] == if ps[n].Plain? then "" else "\\";
      if ps[n].Escape? { assert "\\"[..0] == ""; }
    }
  }

  /** Nor does any part of a literal open or close a brace. */
  lemma {:induction false} PiecesDepth(ps: seq<Piece>, k: nat)
    requires PiecesOk(ps) && k <= |PrintPieces(ps)|
    ensures Run(INSIDE, PrintPieces(ps)[..k]).depth == 0
  {
    if ps != [] {
      var n := |ps| - 1;
      var front := PrintPieces(ps[..n]);
      if k <= |front| {
        assert PrintPieces(ps)[..k] == front[..k];
        PiecesDepth(ps[..n], k);
      } else if k == |front| + 1 && ps[n].Escape? {
        assert PrintPieces(ps)[..k] == front + "\\";
        PiecesRun(ps[..n]);
        assert "\\"[..0] == "";
        RunAppend(INSIDE, front, "\\");
      } else {
        assert PrintPieces(ps)[..k] == PrintPieces(ps);
        PiecesRun(ps);
      }
    }
  }

  lemma RunQuote(ps: seq<Piece>, k: nat)
    requires k <= |PrintPieces(ps)|
    ensures Run(OUTSIDE, "\"" + PrintPieces(ps)[..k]) == Run(INSIDE, PrintPieces(ps)[..k])
  {
    assert "\""[..0] == "";
    RunAppend(OUTSIDE, "\"", PrintPieces(ps)[..k]);
  }

  lemma TextBalanced(ps: seq<Piece>)
    requires PiecesOk(ps)
    ensures Balanced(PrintText(ps))
  {
    var inner, t := PrintPieces(ps), PrintText(ps);
    assert inner[..|inner|] == inner && "\""[..0] == "";
    RunQuote(ps, |inner|);
    PiecesRun(ps);
    RunAppend(OUTSIDE, "\"" + inner, "\"");
    forall k: nat | k <= |t|
      ensures DepthAt(t, k) >= 0
    {
      if k == 0 {
        assert t[..k] == "";
      } else if k <= |inner| + 1 {
        assert t[..k] == "\"" + inner[..k - 1];
        RunQuote(ps, k - 1);
        PiecesDepth(ps, k - 1);
      } else {
        assert t[..k] == t;
      }
    }
  }

  lemma RunBrace(t: string, k: nat)
    requires k <= |t|
    ensures Run(OUTSIDE, "{" + t[..k]) == Deeper(Run(OUTSIDE, t[..k]), 1)
  {
    assert "{"[..0] == "";
    RunAppend(OUTSIDE, "{", t[..k]);
    RunDeeper(OUTSIDE, 1, t[..k]);
  }

  lemma BracedDepth(t: string, k: nat)
    requires Balanced(t) && k <= |t| + 1
    ensures DepthAt("{" + t + "}", k) == if k == 0 then 0 else DepthAt(t, k - 1) + 1
  {
    var b := "{" + t + "}";
    if k == 0 {
      assert b[..k] == "";
    } else {
      assert b[..k] == "{" + t[..k - 1];
      RunBrace(t, k - 1);
    }
  }

  lemma BracedRun(t: string)
    requires Balanced(t)
    ensures Run(OUTSIDE, "{" + t + "}") == OUTSIDE
  {
    assert t[..|t|] == t && "}"[..0] == "";
    RunBrace(t, |t|);
    RunAppend(OUTSIDE, "{" + t, "}");
  }

  /** Balanced text in braces is balanced, and open until its last character. */
  lemma Braced(t: string)
    requires Balanced(t)
    ensures var b := "{" + t + "}";
      Balanced(b) && forall k: nat :: 0 < k < |b| ==> DepthAt(b, k) > 0
  {
    hide Run;
    var b := "{" + t + "}";
    BracedRun(t);
    forall k: nat | k <= |b|
      ensures DepthAt(b, k) >= 0 && (0 < k < |b| ==> DepthAt(b, k) > 0)
    {
      if k < |b| {
        BracedDepth(t, k);
        if k > 0 { assert DepthAt(t, k - 1) >= 0; }
      } else {
        assert b[..k] == b;
      }
    }
  }

  lemma {:induction false} PrintBalanced(v: Json, layout: Layout, level: nat)
    requires WellFormed(v) && QuietLayout(layout)
    ensures Balanced(Print(v, layout, level))
    decreases v, 1
  {
    hide Balanced, Run;
    var g := layout(level);
    assert QuietGaps(g);
    match v
    case Word(text) => QuietBalanced(text);
    case Text(pieces) => TextBalanced(pieces);
    case List(items) =>
      ItemsBalanced(v, layout, level, |items|);
      QuietBalanced("[" + g.open);
      QuietBalanced(g.close + "]");
      BalancedAppend("[" + g.open, PrintItems(v, layout, level, |items|));
      BalancedAppend("[" + g.open + PrintItems(v, layout, level, |items|), g.close + "]");
      assert Print(v, layout, level) == ("[" + g.open + PrintItems(v, layout, level, |items|)) + (g.close + "]");
    case Object(members) =>
      InnerBalanced(v, layout, level);
      Braced(Inner(v, layout, level));
      assert Print(v, layout, level) == "{" + Inner(v, layout, level) + "}";
  }

  /** What stands between an object's braces. */
  function Inner(v: Json, layout: Layout, level: nat): string
    requires v.Object?
  {
    layout(level).open + PrintMembers(v, layout, level, |v.members|) + layout(level).close
  }

  lemma InnerBalanced(v: Json, layout: Layout, level: nat)
    requires v.Object? && WellFormed(v) && QuietLayout(layout)
    ensures Balanced(Inner(v, layout, level))
    decreases v, 0, |v.members| + 1
  {
    hide Balanced, Run;
    var g, members := layout(level), PrintMembers(v, layout, level, |v.members|);
    assert QuietGaps(g);
    MembersBalanced(v, layout, level, |v.members|);
    QuietBalanced(g.open);
    QuietBalanced(g.close);
    BalancedAppend(g.open, members);
    BalancedAppend(g.open + members, g.close);
  }

  lemma {:induction false} ItemsBalanced(v: Json, layout: Layout, level: nat, n: nat)
    requires v.List? && n <= |v.items| && WellFormed(v) && QuietLayout(layout)
    ensures Balanced(PrintItems(v, layout, level, n))
    decreases v, 0, n
  {
    hide Balanced, Run;
    if n == 0 {
      QuietBalanced("");
    } else {
      var comma := if n == 1 then "" else "," + layout(level).comma;
      assert QuietGaps(layout(level));
      ItemsBalanced(v, layout, level, n - 1);
      PrintBalanced(v.items[n - 1], layout, level + 1);
      QuietBalanced(comma);
      BalancedAppend(PrintItems(v, layout, level, n - 1), comma);
      BalancedAppend(PrintItems(v, layout, level, n - 1) + comma, Print(v.items[n - 1], layout, level + 1));
    }
  }

  lemma {:induction false} MembersBalanced(v: Json, layout: Layout, level: nat, n: nat)
    requires v.Object? && n <= |v.members| && WellFormed(v) && QuietLayout(layout)
    ensures Balanced(PrintMembers(v, layout, level, n))
    decreases v, 0, n
  {
    hide Balanced, Run;
    if n == 0 {
      QuietBalanced("");
    } else {
      var comma, gap := if n == 1 then "" else "," + layout(level).comma, layout(level).colon;
      var (name, value) := v.members[n - 1];
      var before := PrintMembers(v, layout, level, n - 1);
      assert QuietGaps(layout(level));
      MembersBalanced(v, layout, level, n - 1);
      QuietBalanced(comma);
      QuietBalanced(":");
      QuietBalanced(gap);
      TextBalanced(name);
      PrintBalanced(value, layout, level + 1);
      BalancedAppend(before, comma);
      BalancedAppend(before + comma, PrintText(name));
      BalancedAppend(before + comma + PrintText(name), ":");
      BalancedAppend(before + comma + PrintText(name) + ":", gap);
      BalancedAppend(before + comma + PrintText(name) + ":" + gap, Print(value, layout, level + 1));
    }
  }

  // ---- the round trip ----

  lemma DepthShift(prefix: string, t: string, suffix: string, k: nat)
    requires k <= |t|
    ensures Depth(prefix + t + suffix, |prefix|, |prefix| + k) == DepthAt(t, k)
  {
    assert (prefix + t + suffix)[|prefix|..|prefix| + k] == t[..k];
  }

  lemma BalancedEnd(t: string)
    requires Balanced(t)
    ensures DepthAt(t, |t|) == 0
  {
    assert t[..|t|] == t;
  }

  /** Any object, printed with any white space and escapes, after any text without a brace and
      before any text at all: the scan returns exactly the printed span. */
  lemma ScanUndoesPrint(v: Json, layout: Layout, prefix: string, suffix: string)
    requires v.Object? && WellFormed(v) && QuietLayout(layout) && '{' !in prefix
    ensures var t := Print(v, layout, 0);
      NextObject(prefix + t + suffix, 0) == Some((|prefix|, |prefix| + |t|))
  {
    hide Run, DepthAt;
    var t, s := Print(v, layout, 0), prefix + Print(v, layout, 0) + suffix;
    InnerBalanced(v, layout, 0);
    Braced(Inner(v, layout, 0));
    assert t == "{" + Inner(v, layout, 0) + "}";
    forall k: nat | |prefix| < k < |prefix| + |t|
      ensures Depth(s, |prefix|, k) > 0
    {
      DepthShift(prefix, t, suffix, k - |prefix|);
      assert DepthAt(t, k - |prefix|) > 0;
    }
    DepthShift(prefix, t, suffix, |t|);
    BalancedEnd(t);
    forall k | 0 <= k < |prefix|
      ensures s[k] != '{'
    {
      assert s[k] == prefix[k];
    }
    FoundIfEnds(s, 0, |prefix|, |prefix| + |t|);
  }

  /** So a verdict printed into a reply is what the reply parses to. */
  lemma PrintedVerdictIsRead<V, E>(
      v: Json, layout: Layout, prefix: string, suffix: string, read: string -> Result<V, E>)
    requires v.Object? && WellFormed(v) && QuietLayout(layout) && '{' !in prefix && read(Print(v, layout, 0)).Ok?
    ensures ParseFrom(prefix + Print(v, layout, 0) + suffix, 0, read, None) == Ok(read(Print(v, layout, 0)).value)
  {
    var t := Print(v, layout, 0);
    ScanUndoesPrint(v, layout, prefix, suffix);
    assert (prefix + t + suffix)[|prefix|..|prefix| + |t|] == t;
  }
}
