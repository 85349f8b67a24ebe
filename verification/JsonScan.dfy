/** Finding a JSON object in a model's reply (src/judge.rs): the first balanced `{...}`, braces in
    string literals not counted. */
module JsonScan {
  import opened Options

  /** Where a scan stands: open braces, inside a string literal, just after a backslash in one. */
  datatype Lex = Lex(depth: int, inString: bool, escaped: bool)

  const OUTSIDE := Lex(0, false, false)

  function Step(l: Lex, c: char): Lex {
    if l.inString then
      if l.escaped then l.(escaped := false)
      else if c == '\\' then l.(escaped := true)
      else if c == '"' then l.(inString := false)
      else l
    else if c == '"' then l.(inString := true)
    else if c == '{' then l.(depth := l.depth + 1)
    else if c == '}' then l.(depth := l.depth - 1)
    else l
  }

  function Run(l: Lex, s: string): Lex {
    if s == "" then l else Step(Run(l, s[..|s| - 1]), s[|s| - 1])
  }

  /** Open braces after reading `s[start..e]`. */
  function Depth(s: string, start: nat, e: nat): int
    requires start <= e <= |s|
  {
    Run(OUTSIDE, s[start..e]).depth
  }

  // ---- the scan on values ----

  function Find(s: string, from: nat): Option<nat>
    decreases |s| - from
  {
    if from >= |s| then None else if s[from] == '{' then Some(from) else Find(s, from + 1)
  }

  /** The end of the object opened at `start`, `i` characters in with state `l`. */
  function Close(s: string, i: nat, l: Lex): Option<nat>
    decreases |s| - i
  {
    if i >= |s| then None else
    var next := Step(l, s[i]);
    if !l.inString && s[i] == '}' && next.depth == 0 then Some(i + 1) else Close(s, i + 1, next)
  }

  function NextObject(s: string, from: nat): Option<(nat, nat)> {
    match Find(s, from)
    case None => None
    case Some(start) =>
      match Close(s, start, OUTSIDE)
      case None => None
      case Some(e) => Some((start, e))
  }

  // ---- what it finds ----

  /** The object opened at `start` ends at `e`: the first place all braces are closed. */
  ghost predicate Ends(s: string, start: nat, e: nat) {
    && start < e <= |s| && Depth(s, start, e) == 0
    && forall k: nat :: start < k < e ==> Depth(s, start, k) > 0
  }

  ghost predicate FirstBrace(s: string, from: nat, start: nat) {
    from <= start < |s| && s[start] == '{' && forall k :: from <= k < start ==> s[k] != '{'
  }

  lemma {:induction false} FindIs(s: string, from: nat)
    ensures Find(s, from).Some? ==> FirstBrace(s, from, Find(s, from).value)
    ensures Find(s, from).None? ==> forall k :: from <= k < |s| ==> s[k] != '{'
    decreases |s| - from
  {
    if from < |s| && s[from] != '{' { FindIs(s, from + 1); }
  }

  lemma RunNext(s: string, start: nat, i: nat)
    requires start <= i < |s|
    ensures Run(OUTSIDE, s[start..i + 1]) == Step(Run(OUTSIDE, s[start..i]), s[i])
  {
    assert s[start..i + 1][..i - start] == s[start..i];
  }

  lemma {:induction false} CloseIs(s: string, start: nat, i: nat)
    requires start < i <= |s| && forall k: nat :: start < k <= i ==> Depth(s, start, k) > 0
    ensures var c := Close(s, i, Run(OUTSIDE, s[start..i]));
      && (c.Some? ==> Ends(s, start, c.value))
      && (c.None? ==> forall k: nat :: start < k <= |s| ==> Depth(s, start, k) > 0)
    decreases |s| - i
  {
    if i < |s| {
      RunNext(s, start, i);
      var l := Run(OUTSIDE, s[start..i]);
      if l.inString || s[i] != '}' || Step(l, s[i]).depth != 0 {
        assert Depth(s, start, i) > 0 && Depth(s, start, i + 1) == Step(l, s[i]).depth;
        CloseIs(s, start, i + 1);
      }
    }
  }

  lemma RunNothing()
    ensures Run(OUTSIDE, "") == OUTSIDE
  {
  }

  lemma CloseFromBrace(s: string, start: nat)
    requires start < |s| && s[start] == '{'
    ensures var c := Close(s, start, OUTSIDE);
      && (c.Some? ==> Ends(s, start, c.value))
      && (c.None? ==> forall k: nat :: start < k <= |s| ==> Depth(s, start, k) > 0)
  {
    hide Run;
    RunNext(s, start, start);
    assert s[start..start] == "";
    RunNothing();
    CloseIs(s, start, start + 1);
  }

  /** The scan finds the first brace at or after `from` and the first place it is closed; it finds
      nothing exactly when there is no brace or that one is never closed. */
  lemma NextObjectIs(s: string, from: nat)
    ensures match NextObject(s, from)
      case Some((start, e)) => FirstBrace(s, from, start) && Ends(s, start, e)
      case None =>
        || (forall k :: from <= k < |s| ==> s[k] != '{')
        || (exists start: nat ::
             FirstBrace(s, from, start) && forall k: nat :: start < k <= |s| ==> Depth(s, start, k) > 0)
  {
    FindIs(s, from);
    if Find(s, from).Some? { CloseFromBrace(s, Find(s, from).value); }
  }

  lemma EndsOnce(s: string, start: nat, e: nat, e': nat)
    requires Ends(s, start, e) && Ends(s, start, e')
    ensures e == e'
  {
  }

  /** Conversely a brace that is first and has an end is what the scan finds. */
  lemma FoundIfEnds(s: string, from: nat, start: nat, e: nat)
    requires FirstBrace(s, from, start) && Ends(s, start, e)
    ensures NextObject(s, from) == Some((start, e))
  {
    FindIs(s, from);
    CloseFromBrace(s, start);
    var c := Close(s, start, OUTSIDE);
    if c.Some? { EndsOnce(s, start, e, c.value); }
  }

  // ---- the loop ----

  /** The scan as it runs; the depth counter never goes below zero. */
  method NextJsonObject(s: string, from: nat) returns (r: Option<(nat, nat)>)
    ensures r == NextObject(s, from)
  {
    FindIs(s, from);
    var found := Find(s, from);
    if found.None? { return None; }
    var start := found.value;
    var depth: nat := 0;
    var inString, escaped := false, false;
    for i := start to |s|
      invariant Close(s, start, OUTSIDE) == Close(s, i, Lex(depth, inString, escaped))
      invariant depth > 0 || (i == start && !inString)
      invariant !inString ==> !escaped
    {
      var c := s[i];
      if inString {
        if escaped {
          escaped := false;
        } else if c == '\\' {
          escaped := true;
        } else if c == '"' {
          inString := false;
        }
        continue;
      }
      if c == '"' {
        inString := true;
      } else if c == '{' {
        depth := depth + 1;
      } else if c == '}' {
        depth := depth - 1;
        if depth == 0 { return Some((start, i + 1)); }
      }
    }
    r := None;
  }

  // ---- trying each object in turn ----

  /** The verdict of the first object, in order of opening brace, that reads as one. */
  function ParseFrom<V, E>(s: string, from: nat, read: string -> Result<V, E>, last: Option<E>): Result<V, Option<E>>
    decreases |s| - from
  {
    NextObjectIs(s, from);
    match NextObject(s, from)
    case None => Err(last)
    case Some((start, e)) =>
      match read(s[start..e])
      case Ok(v) => Ok(v)
      case Err(error) => ParseFrom(s, start + 1, read, Some(error))
  }

  /** The object opened at `start` is closed and does not read as a verdict. */
  ghost predicate Rejected<V, E>(s: string, read: string -> Result<V, E>, start: nat)
    requires start < |s|
  {
    exists e: nat :: Ends(s, start, e) && read(s[start..e]).Err?
  }

  /** The object opened at `start` reads as the verdict, all objects opened before it being closed
      and not reading as one. */
  ghost predicate Chosen<V, E>(s: string, from: nat, read: string -> Result<V, E>, start: nat, v: V) {
    && from <= start < |s| && s[start] == '{'
    && (exists e: nat :: Ends(s, start, e) && read(s[start..e]) == Ok(v))
    && (forall k: nat :: from <= k < start && s[k] == '{' ==> Rejected(s, read, k))
  }

  /** Exactly when a reply parses, and to what. */
  lemma {:induction false} ParseIs<V, E>(s: string, from: nat, read: string -> Result<V, E>, last: Option<E>, v: V)
    ensures ParseFrom(s, from, read, last) == Ok(v) <==> exists start: nat :: Chosen(s, from, read, start, v)
    decreases |s| - from
  {
    NextObjectIs(s, from);
    match NextObject(s, from)
    case None =>
      NothingChosen(s, from, read, v);
    case Some((start, e)) =>
      EndIs(s, read, start, e);
      if read(s[start..e]).Err? { ParseIs(s, start + 1, read, Some(read(s[start..e]).error), v); }
      ChosenStep(s, from, read, start, e, start + 1, v);
  }

  lemma EndIs<V, E>(s: string, read: string -> Result<V, E>, start: nat, e: nat)
    requires Ends(s, start, e)
    ensures start < |s| && (Rejected(s, read, start) <==> read(s[start..e]).Err?)
    ensures forall e': nat :: Ends(s, start, e') ==> e' == e
  {
    forall e': nat | Ends(s, start, e')
      ensures e' == e
    {
      EndsOnce(s, start, e, e');
    }
  }

  lemma NothingChosen<V, E>(s: string, from: nat, read: string -> Result<V, E>, v: V)
    requires NextObject(s, from).None?
    ensures forall start: nat :: !Chosen(s, from, read, start, v)
  {
    NextObjectIs(s, from);
    if first: nat :| FirstBrace(s, from, first) && forall k: nat :: first < k <= |s| ==> Depth(s, first, k) > 0 {
      NeverEnds(s, read, first);
    }
  }

  lemma NeverEnds<V, E>(s: string, read: string -> Result<V, E>, first: nat)
    requires first < |s| && forall k: nat :: first < k <= |s| ==> Depth(s, first, k) > 0
    ensures !Rejected(s, read, first) && forall e: nat :: !Ends(s, first, e)
  {
  }

  lemma ChosenStep<V, E>(s: string, from: nat, read: string -> Result<V, E>, start: nat, e: nat, next: nat, v: V)
    requires FirstBrace(s, from, start) && Ends(s, start, e) && next == start + 1
    ensures (exists k: nat :: Chosen(s, from, read, k, v))
      <==> if read(s[start..e]).Err? then exists k: nat :: Chosen(s, next, read, k, v) else read(s[start..e]) == Ok(v)
  {
    EndIs(s, read, start, e);
    if read(s[start..e]) == Ok(v) { assert Chosen(s, from, read, start, v); }
    if k: nat :| Chosen(s, from, read, k, v) {
      if k == start {
        assert read(s[start..e]) == Ok(v);
      } else {
        assert Rejected(s, read, start);
        assert Chosen(s, next, read, k, v);
      }
    }
    if read(s[start..e]).Err? {
      if k: nat :| Chosen(s, next, read, k, v) { assert Chosen(s, from, read, k, v); }
    }
  }

  /** The parsing loop; `from` grows with every object tried, so it ends. */
  method ParseVerdictText<V, E>(text: string, read: string -> Result<V, E>) returns (r: Result<V, Option<E>>)
    ensures r == ParseFrom(text, 0, read, None)
  {
    var from := 0;
    var lastErr := None;
    while true
      invariant from <= |text| && ParseFrom(text, 0, read, None) == ParseFrom(text, from, read, lastErr)
      decreases |text| - from
    {
      NextObjectIs(text, from);
      var next := NextJsonObject(text, from);
      if next.None? { return Err(lastErr); }
      var (start, end) := next.value;
      match read(text[start..end]) {
        case Ok(v) => return Ok(v);
        case Err(e) => lastErr := Some(e);
      }
      from := start + 1;
    }
  }

  // ---- an unclosed brace ----

  function OnlyEmpty(t: string): Result<bool, bool> { if t == "{}" then Ok(true) else Err(false) }

  /** A brace that is never closed hides every object after it: here the text after it reads as a
      verdict, and the reply is refused. */
  lemma UnclosedBraceHides()
    ensures OnlyEmpty("{ {}"[2..]) == Ok(true)
    ensures ParseFrom("{ {}", 0, OnlyEmpty, None) == Err(None)
  {
    var s := "{ {}";
    assert Step(OUTSIDE, s[0]) == Lex(1, false, false);
    assert Close(s, 4, Lex(1, false, false)) == None;
    assert Close(s, 3, Lex(2, false, false)) == None;
    assert Close(s, 2, Lex(1, false, false)) == None;
    assert Close(s, 1, Lex(1, false, false)) == None;
    assert Close(s, 0, OUTSIDE) == None;
  }

  /** In general: a reply whose first brace is never closed is refused, whatever follows. */
  lemma UnclosedFirstBrace<V, E>(s: string, first: nat, read: string -> Result<V, E>)
    requires FirstBrace(s, 0, first) && forall k: nat :: first < k <= |s| ==> Depth(s, first, k) > 0
    ensures ParseFrom(s, 0, read, None) == Err(None)
  {
    FindIs(s, 0);
    CloseFromBrace(s, first);
  }
}
