/** Normalised heading text and the machine keys built from it (src/heading.rs). */
module HeadingKeys {
  import opened Text
  import opened HeadingText

  // ---- cleaning twice is cleaning once ----

  lemma {:induction false} SplitPlain(w: string)
    requires Plain(w)
    ensures Split(w) == [w]
  {
    if w != "" {
      assert InWord(w[0]);
      SplitPlain(w[1..]);
      assert [w[0]] + w[1..] == w;
    }
  }

  lemma SplitStep(s: string)
    requires s != ""
    ensures var rest := Split(s[1..]);
      Split(s) == if IsSeparator(s[0]) then [""] + rest else [[s[0]] + rest[0]] + rest[1..]
    ensures Split("") == [""] && IsSeparator(' ')
  {
  }

  lemma {:induction false} SplitAtSpace(a: string, t: string)
    requires t != "" && t[0] == ' '
    ensures Split(a + t) == Split(a) + Split(t[1..])
  {
    hide Split, IsSeparator;
    SplitStep(t);
    if a == "" {
      assert a + t == t;
    } else {
      assert (a + t)[1..] == a[1..] + t && (a + t)[0] == a[0];
      SplitStep(a);
      SplitStep(a + t);
      SplitAtSpace(a[1..], t);
      var here, there := Split(a[1..]), Split(t[1..]);
      if IsSeparator(a[0]) {
        assert [""] + (here + there) == [""] + here + there;
      } else {
        assert (here + there)[0] == here[0] && (here + there)[1..] == here[1..] + there;
        var first := [a[0]] + here[0];
        assert [first] + (here[1..] + there) == [first] + here[1..] + there;
      }
    }
  }

  ghost predicate Spaced(t: string) {
    forall i :: 0 <= i < |t| ==> t[i] == ' ' || InWord(t[i])
  }

  lemma {:induction false} JoinedIsSpaced(ws: seq<string>)
    requires AreWords(ws)
    ensures Spaced(Joined(ws))
  {
    if ws != [] {
      var head := ws[..|ws| - 1];
      WordsPrefix(ws, |head|);
      JoinedIsSpaced(head);
      assert WordAt(ws, |head|);
    }
  }

  lemma {:induction false} SplitJoined(ws: seq<string>)
    requires AreWords(ws) && ws != []
    ensures Split(Joined(ws)) == ws
  {
    var head, w := ws[..|ws| - 1], ws[|ws| - 1];
    WordsPrefix(ws, |head|);
    assert WordAt(ws, |head|);
    SplitPlain(w);
    if head == [] {
      assert "" + w == w;
    } else {
      SplitJoined(head);
      SplitAtSpace(Joined(head), " " + w);
      assert Joined(head) + (" " + w) == Front(head) + w && (" " + w)[1..] == w;
    }
  }

  lemma {:induction false} DropLayoutPlain(w: string)
    requires Plain(w)
    ensures DropLayout(w) == w
  {
    if w != "" {
      assert InWord(w[0]);
      DropLayoutPlain(w[1..]);
    }
  }

  lemma {:induction false} ShownWords(ws: seq<string>)
    requires AreWords(ws)
    ensures ShownPieces(ws) == ws
  {
    if ws != [] {
      assert WordAt(ws, 0);
      ShowsMatching(ws[0]);
      DropLayoutPlain(ws[0]);
      forall k: nat | k < |ws| - 1
        ensures WordAt(ws[1..], k)
      {
        assert WordAt(ws, k + 1);
      }
      ShownWords(ws[1..]);
    }
  }

  lemma CleanIsIdempotent(s: string)
    ensures Clean(Clean(s)) == Clean(s)
  {
    var ws := CleanShape(s);
    if ws == [] {
      assert Split("") == [""] && Words("") == [];
      assert Collapsed("") == "";
    } else {
      SplitJoined(ws);
      ShownWords(ws);
    }
    assert Words(Clean(s)) == ws;
    assert ws[..|ws|] == ws;
    AllPushed(Clean(s));
  }

  /** Stored text never holds a control character, so never the key separator. */
  lemma CleanHasNoControl(s: string)
    ensures forall i :: 0 <= i < |Clean(s)| ==> !IsControl(Clean(s)[i]) && !IsLayoutOnly(Clean(s)[i])
  {
    var ws := CleanShape(s);
    JoinedIsSpaced(ws);
  }

  // ---- normalising ----

  /** What is assumed of case folding: it works one character at a time, keeps a space and
      turns a visible character into visible characters. */
  ghost predicate FoldOk(fold: char -> string) {
    && fold(' ') == " "
    && forall c :: IsVisible(c) ==> fold(c) != "" && forall i :: 0 <= i < |fold(c)| ==> IsVisible(fold(c)[i])
  }

  lemma FoldIsPossible()
    ensures FoldOk((c: char) => [c])
  {
  }

  function FoldText(s: string, fold: char -> string): string {
    if s == "" then "" else fold(s[0]) + FoldText(s[1..], fold)
  }

  function CapFolded(folded: string): string {
    if |folded| > MAX_HEADING_TEXT_CHARS then TrimEnd(folded[..MAX_HEADING_TEXT_CHARS]) else folded
  }

  /** `normalize_heading_text`: clean, drop ignored characters, fold, cut again. */
  function Normalize(s: string, fold: char -> string): string {
    CapFolded(FoldText(Matching(Clean(s)), fold))
  }

  function Take(s: string): string {
    if |s| > MAX_HEADING_TEXT_CHARS then s[..MAX_HEADING_TEXT_CHARS] else s
  }

  /** What normalising is meant to be: drop ignored characters, squeeze separators to single spaces,
      fold, take the first 200 characters, trim the end. */
  function Reference(s: string, fold: char -> string): string {
    TrimEnd(Take(FoldText(Squeeze(Matching(s)), fold)))
  }

  /** The matching text the reference would keep if folding changed no length. */
  function CappedMatching(s: string): string {
    TrimEnd(Take(Matching(Collapsed(s))))
  }

  function TakeRaw(s: string): string {
    if |s| > MAX_HEADING_TEXT_RAW_CHARS then s[..MAX_HEADING_TEXT_RAW_CHARS] else s
  }

  /** The raw cap leaves room for everything the matching cap would keep. */
  predicate RawCapIsSlack(s: string) {
    |Matching(TakeRaw(Collapsed(s)))| >= |CappedMatching(s)|
  }

  lemma {:induction false} MatchingPrefix(t: string, n: nat)
    requires n <= |t|
    ensures Matching(t[..n]) <= Matching(t)
  {
    assert t == t[..n] + t[n..];
    MatchingConcat(t[..n], t[n..]);
  }

  /** The two caps together keep as many matching characters as either one allows. */
  lemma CutMatching(t: string)
    ensures var m := |Matching(TakeRaw(t))|;
      |Matching(t[..CutLength(t, 0)])| == if m > MAX_HEADING_TEXT_CHARS then MAX_HEADING_TEXT_CHARS else m
  {
    var n := CutLength(t, 0);
    CutLengthFits(t, 0);
    MatchingPrefix(TakeRaw(t), n);
    assert TakeRaw(t)[..n] == t[..n];
    if n < |TakeRaw(t)| {
      assert TakeRaw(t)[..n + 1] == t[..n + 1] == t[..n] + [t[n]];
      MatchingPush(t[..n], t[n]);
      MatchingPrefix(TakeRaw(t), n + 1);
    } else {
      assert t[..n] == TakeRaw(t);
    }
  }

  lemma CutIsCapped(t: string)
    ensures TrimEnd(Matching(t[..CutLength(t, 0)])) == TrimEnd(Take(Matching(t)))
            <==> |Matching(TakeRaw(t))| >= |TrimEnd(Take(Matching(t)))|
  {
    var part, capped := Matching(t[..CutLength(t, 0)]), Take(Matching(t));
    CutMatching(t);
    MatchingPrefix(t, CutLength(t, 0));
    assert part <= capped;
    assert capped[..|part|] == part;
    TrimPrefix(capped, |part|);
    TrimEndLength(capped);
  }

  /** Exactly when the raw cap is slack, storing and then dropping the ignored characters
      keeps the matching text up to its own cap. */
  lemma StoredMatchingText(s: string)
    ensures Matching(Clean(s)) == CappedMatching(s) <==> RawCapIsSlack(s)
  {
    var ws := CleanShape(s);
    CutIsCapped(Collapsed(s));
  }

  /** Trimming a prefix gives the trimmed text exactly when the prefix holds all of that. */
  lemma TrimPrefix(t: string, n: nat)
    requires n <= |t|
    ensures TrimEnd(t[..n]) == TrimEnd(t) <==> n >= |TrimEnd(t)|
  {
    TrimEndLength(t[..n]);
    TrimEndLength(t);
    if n >= |TrimEnd(t)| { TrimEndBetween(t, n); }
  }

  lemma {:induction false} TrimEndIsPrefix(t: string)
    ensures TrimEnd(t) <= t && Blank(t[|TrimEnd(t)|..])
    ensures TrimEnd(t) != "" ==> !IsWhitespace(TrimEnd(t)[|TrimEnd(t)| - 1])
  {
    if t != "" && IsWhitespace(t[|t| - 1]) {
      var front, kept := t[..|t| - 1], TrimEnd(t);
      TrimEndIsPrefix(front);
      forall i | 0 <= i < |t[|kept|..]|
        ensures IsWhitespace(t[|kept|..][i])
      {
        if |kept| + i < |front| { assert t[|kept|..][i] == front[|kept|..][i]; }
      }
    }
  }

  /** Trimming a prefix that only cuts into the trailing whitespace gives the same text. */
  lemma {:induction false} TrimEndBetween(t: string, n: nat)
    requires |TrimEnd(t)| <= n <= |t|
    ensures TrimEnd(t[..n]) == TrimEnd(t)
  {
    if n < |t| {
      TrimEndIsPrefix(t);
      assert IsWhitespace(t[|TrimEnd(t)|..][|t| - 1 - |TrimEnd(t)|]);
      assert t[..|t| - 1][..n] == t[..n];
      TrimEndBetween(t[..|t| - 1], n);
    } else {
      assert t[..n] == t;
    }
  }

  /** Spaces and visible characters only. */
  ghost predicate Rendered(t: string) {
    forall i :: 0 <= i < |t| ==> t[i] == ' ' || IsVisible(t[i])
  }

  lemma {:induction false} MatchingIsRendered(t: string)
    requires Spaced(t)
    ensures Rendered(Matching(t))
  {
    if t != "" {
      assert t[0] == ' ' || InWord(t[0]);
      MatchingIsRendered(t[1..]);
    }
  }

  lemma {:induction false} FoldConcat(a: string, b: string, fold: char -> string)
    ensures FoldText(a + b, fold) == FoldText(a, fold) + FoldText(b, fold)
  {
    if a == "" {
      assert a + b == b;
    } else {
      assert (a + b)[1..] == a[1..] + b;
      FoldConcat(a[1..], b, fold);
    }
  }

  lemma {:induction false} FoldRendered(t: string, fold: char -> string)
    requires FoldOk(fold) && Rendered(t)
    ensures Rendered(FoldText(t, fold)) && |FoldText(t, fold)| >= |t|
    ensures Blank(t) ==> FoldText(t, fold) == t
  {
    if t != "" {
      FoldRendered(t[1..], fold);
      assert t[0] == ' ' || IsVisible(t[0]);
    }
  }

  /** A folded text ends in whitespace only if the text did. */
  lemma FoldEnd(t: string, fold: char -> string)
    requires FoldOk(fold) && Rendered(t) && TrimEnd(t) == t
    ensures TrimEnd(FoldText(t, fold)) == FoldText(t, fold)
  {
    if t != "" {
      var n := |t| - 1;
      assert t[..n] + [t[n]] == t;
      FoldConcat(t[..n], [t[n]], fold);
      assert [t[n]][1..] == "";
      TrimEndIsPrefix(t);
      assert IsVisible(t[n]);
      var f := fold(t[n]);
      assert IsVisible(f[|f| - 1]);
      assert FoldText(t, fold)[|FoldText(t, fold)| - 1] == f[|f| - 1];
    }
  }

  /** Folding the capped text and capping again is capping the folded text: `kept` is what
      trimming leaves of the first 200 characters, `blanks` what it removes, `rest` the tail. */
  lemma {:induction false} CapCommutes(kept: string, blanks: string, rest: string, fold: char -> string)
    requires FoldOk(fold) && Rendered(kept) && Rendered(blanks) && Rendered(rest)
    requires TrimEnd(kept) == kept && Blank(blanks)
    requires |kept| + |blanks| <= MAX_HEADING_TEXT_CHARS
    requires rest != "" ==> |kept| + |blanks| == MAX_HEADING_TEXT_CHARS
    ensures CapFolded(FoldText(kept, fold)) == TrimEnd(Take(FoldText(kept + blanks + rest, fold)))
  {
    FoldConcat(kept + blanks, rest, fold);
    FoldConcat(kept, blanks, fold);
    FoldRendered(kept, fold);
    FoldRendered(blanks, fold);
    FoldRendered(rest, fold);
    FoldEnd(kept, fold);
    CapJoin(FoldText(kept, fold), blanks, FoldText(rest, fold));
  }

  lemma TakeJoin(a: string, b: string)
    ensures |a| >= MAX_HEADING_TEXT_CHARS ==> Take(a + b) == a[..MAX_HEADING_TEXT_CHARS]
    ensures |a| < MAX_HEADING_TEXT_CHARS && b == "" ==> Take(a + b) == a
  {
    if |a| >= MAX_HEADING_TEXT_CHARS {
      TakeLeft(a, b, MAX_HEADING_TEXT_CHARS);
      if b == "" { assert a + b == a; }
    } else if b == "" {
      assert a + b == a;
    }
  }

  lemma {:induction false} CapJoin(k: string, blanks: string, r: string)
    requires TrimEnd(k) == k && Blank(blanks)
    requires r != "" ==> |k| + |blanks| >= MAX_HEADING_TEXT_CHARS
    ensures CapFolded(k) == TrimEnd(Take(k + blanks + r))
  {
    if |k| > MAX_HEADING_TEXT_CHARS {
      TakeJoin(k + blanks, r);
      TakeLeft(k, blanks, MAX_HEADING_TEXT_CHARS);
    } else {
      var n := TakeBlanks(k, blanks, r);
      TrimBlanks(k, blanks[..n]);
    }
  }

  lemma TakeBlanks(k: string, blanks: string, r: string) returns (n: nat)
    requires |k| <= MAX_HEADING_TEXT_CHARS
    requires r != "" ==> |k| + |blanks| >= MAX_HEADING_TEXT_CHARS
    ensures n <= |blanks| && Take(k + blanks + r) == k + blanks[..n]
  {
    TakeJoin(k + blanks, r);
    n := if |k| + |blanks| >= MAX_HEADING_TEXT_CHARS then MAX_HEADING_TEXT_CHARS - |k| else |blanks|;
    TakeRight(k, blanks, n);
  }

  lemma {:induction false} TrimBlanks(t: string, blanks: string)
    requires TrimEnd(t) == t && Blank(blanks)
    ensures TrimEnd(t + blanks) == t
    decreases |blanks|
  {
    if blanks == "" {
      assert t + blanks == t;
    } else {
      var n := |blanks| - 1;
      TakeRight(t, blanks, n);
      TrimBlanks(t, blanks[..n]);
    }
  }

  lemma CapThenFold(whole: string, fold: char -> string)
    requires FoldOk(fold) && Rendered(whole)
    ensures CapFolded(FoldText(TrimEnd(Take(whole)), fold)) == TrimEnd(Take(FoldText(whole, fold)))
  {
    var capped := Take(whole);
    var kept := TrimEnd(capped);
    TrimEndIsPrefix(capped);
    var blanks, rest := capped[|kept|..], whole[|capped|..];
    assert whole == kept + blanks + rest;
    TrimEndBetween(capped, |kept|);
    assert capped[..|kept|] == kept;
    CapCommutes(kept, blanks, rest, fold);
  }

  lemma SlackIsReference(s: string, fold: char -> string)
    requires FoldOk(fold) && RawCapIsSlack(s)
    ensures Normalize(s, fold) == Reference(s, fold)
  {
    StoredMatchingText(s);
    CollapseSqueezes(s);
    WordsAreWords(s);
    JoinedIsSpaced(Words(s));
    MatchingIsRendered(Collapsed(s));
    CapThenFold(Matching(Collapsed(s)), fold);
  }

  /** What of the stored text takes part in matching: the start of all that does. */
  lemma StoredStart(s: string)
    ensures var part := Matching(Clean(s));
      part <= Matching(Collapsed(s)) && TrimEnd(part) == part && Rendered(part)
  {
    hide Matching, Fits, CutLength, Words;
    var t := Collapsed(s);
    var ws := CleanShape(s);
    assert exists n: nat :: n <= |t| && Clean(s) == t[..n] by {
      var cut := t[..CutLength(t, 0)];
      assert forall k: nat :: k <= |cut| ==> cut[..k] == t[..k];
    }
    var n: nat :| n <= |t| && Clean(s) == t[..n];
    MatchingPrefix(t, n);
    MatchingStep("");
    if ws != [] { MatchingOfWords(ws); }
    JoinedIsSpaced(ws);
    MatchingIsRendered(Clean(s));
  }

  lemma CapOfStart(part: string, whole: string)
    requires part <= whole && TrimEnd(part) == part
    ensures CapFolded(part) == TrimEnd(Take(whole)) <==> |part| >= |TrimEnd(Take(whole))|
  {
    assert Take(part) == Take(whole)[..|Take(part)|];
    TrimPrefix(Take(whole), |Take(part)|);
    TrimEndLength(Take(whole));
  }

  /** The capped two-stage normaliser refines the simple one exactly when the raw cap is slack or
      folding makes up in length for what that cap cut. */
  lemma NormalizeIsReference(s: string, fold: char -> string)
    requires FoldOk(fold)
    ensures Normalize(s, fold) == Reference(s, fold)
            <==> RawCapIsSlack(s) || |FoldText(Matching(Clean(s)), fold)| >= |Reference(s, fold)|
  {
    hide FoldOk, Matching, Clean, FoldText, CapFolded, RawCapIsSlack, Rendered;
    if RawCapIsSlack(s) { SlackIsReference(s, fold); }
    var part, all := Matching(Clean(s)), Matching(Collapsed(s));
    StoredStart(s);
    CollapseSqueezes(s);
    FoldEnd(part, fold);
    assert part + all[|part|..] == all;
    FoldConcat(part, all[|part|..], fold);
    CapOfStart(FoldText(part, fold), FoldText(all, fold));
  }

  // ---- few rendering characters leave the raw cap slack ----

  function RenderingCount(s: string): nat {
    if s == "" then 0 else (if IsRenderingFormat(s[0]) then 1 else 0) + RenderingCount(s[1..])
  }

  lemma {:induction false} CountConcat(a: string, b: string)
    ensures RenderingCount(a + b) == RenderingCount(a) + RenderingCount(b)
  {
    if a == "" {
      assert a + b == b;
    } else {
      assert (a + b)[1..] == a[1..] + b;
      CountConcat(a[1..], b);
    }
  }

  function PiecesCount(pieces: seq<string>): nat {
    if pieces == [] then 0 else RenderingCount(pieces[0]) + PiecesCount(pieces[1..])
  }

  lemma {:induction false} PiecesSnoc(pieces: seq<string>, p: string)
    ensures PiecesCount(pieces + [p]) == PiecesCount(pieces) + RenderingCount(p)
  {
    if pieces == [] {
      assert [] + [p] == [p];
    } else {
      assert (pieces + [p])[1..] == pieces[1..] + [p];
      PiecesSnoc(pieces[1..], p);
    }
  }

  lemma {:induction false} SplitCount(s: string)
    ensures PiecesCount(Split(s)) <= RenderingCount(s)
  {
    if s != "" {
      SplitCount(s[1..]);
      if !IsSeparator(s[0]) {
        CountConcat([s[0]], Split(s[1..])[0]);
        assert [s[0]][1..] == "";
      }
    }
  }

  lemma {:induction false} DropLayoutCount(p: string)
    ensures RenderingCount(DropLayout(p)) <= RenderingCount(p)
  {
    if p != "" {
      DropLayoutCount(p[1..]);
      var rest := DropLayout(p[1..]);
      assert DropLayout(p) == if IsLayoutOnly(p[0]) then rest else [p[0]] + rest;
      assert ([p[0]] + rest)[1..] == rest;
    }
  }

  lemma {:induction false} ShownCount(pieces: seq<string>)
    ensures PiecesCount(ShownPieces(pieces)) <= PiecesCount(pieces)
  {
    if pieces != [] {
      ShownCount(pieces[1..]);
      DropLayoutCount(pieces[0]);
      var rest := ShownPieces(pieces[1..]);
      assert ([DropLayout(pieces[0])] + rest)[1..] == rest;
      assert [] + rest == rest;
    }
  }

  lemma {:induction false} JoinedCount(ws: seq<string>)
    ensures RenderingCount(Joined(ws)) == PiecesCount(ws)
  {
    if ws != [] {
      var head, w := ws[..|ws| - 1], ws[|ws| - 1];
      JoinedCount(head);
      assert head + [w] == ws;
      PiecesSnoc(head, w);
      CountConcat(Front(head), w);
      CountConcat(Joined(head), " ");
    }
  }

  lemma {:induction false} CountsAddUp(t: string)
    requires Spaced(t)
    ensures |Matching(t)| + RenderingCount(t) == |t|
  {
    if t != "" {
      assert t[0] == ' ' || InWord(t[0]);
      CountsAddUp(t[1..]);
    }
  }

  lemma {:induction false} FewRenderingCharsAreSlack(s: string)
    requires RenderingCount(s) <= MAX_HEADING_TEXT_CHARS
    ensures RawCapIsSlack(s)
  {
    var all := Collapsed(s);
    TrimEndLength(Take(Matching(all)));
    if |all| > MAX_HEADING_TEXT_RAW_CHARS {
      SplitCount(s);
      ShownCount(Split(s));
      JoinedCount(Words(s));
      WordsAreWords(s);
      JoinedIsSpaced(Words(s));
      var raw := all[..MAX_HEADING_TEXT_RAW_CHARS];
      CountsAddUp(raw);
      CountConcat(raw, all[|raw|..]);
      assert raw + all[|raw|..] == all;
    }
  }

  /** Two spellings whose full texts fold alike get the same key text. */
  lemma SameFoldedTextSameKey(a: string, b: string, fold: char -> string)
    requires FoldOk(fold)
    requires RenderingCount(a) <= MAX_HEADING_TEXT_CHARS && RenderingCount(b) <= MAX_HEADING_TEXT_CHARS
    requires FoldText(Squeeze(Matching(a)), fold) == FoldText(Squeeze(Matching(b)), fold)
    ensures Normalize(a, fold) == Normalize(b, fold)
  {
    hide FoldOk, Squeeze, Matching, FoldText, Normalize, TrimEnd, RenderingCount, RawCapIsSlack;
    FewRenderingCharsAreSlack(a);
    FewRenderingCharsAreSlack(b);
    SlackIsReference(a, fold);
    SlackIsReference(b, fold);
  }

  // ---- the spelling without ignored characters ----

  function MatchingAll(pieces: seq<string>): (r: seq<string>)
    ensures |r| == |pieces|
  {
    if pieces == [] then [] else [Matching(pieces[0])] + MatchingAll(pieces[1..])
  }

  lemma MatchingStep(s: string)
    ensures Matching("") == ""
    ensures s != "" ==> Matching(s) == if IsIgnored(s[0]) then Matching(s[1..]) else [s[0]] + Matching(s[1..])
  {
  }

  lemma {:induction false} MatchingTwice(s: string)
    ensures Matching(Matching(s)) == Matching(s) && RenderingCount(Matching(s)) == 0
    ensures DropLayout(Matching(s)) == Matching(s)
  {
    if s != "" {
      MatchingTwice(s[1..]);
      MatchingStep(s);
      var rest := Matching(s[1..]);
      assert ([s[0]] + rest)[0] == s[0] && ([s[0]] + rest)[1..] == rest;
    }
  }

  lemma {:induction false} SplitMatching(s: string)
    ensures Split(Matching(s)) == MatchingAll(Split(s))
  {
    hide Split, IsIgnored, IsSeparator, Matching;
    if s == "" {
      SplitStep(" ");
      MatchingStep("");
    } else {
      SplitMatching(s[1..]);
      SplitStep(s);
      NeverBoth(s[0]);
      MatchingStep(s);
      MatchingStep("");
      var rest, m := Split(s[1..]), Matching(s[1..]);
      var first := [s[0]] + rest[0];
      assert first[0] == s[0] && first[1..] == rest[0] && ([s[0]] + m)[0] == s[0] && ([s[0]] + m)[1..] == m;
      MatchingStep(first);
      assert MatchingAll(rest) == [Matching(rest[0])] + MatchingAll(rest[1..]);
      if !IsIgnored(s[0]) { SplitStep(Matching(s)); }
      if IsSeparator(s[0]) {
        assert ([""] + rest)[0] == "" && ([""] + rest)[1..] == rest;
      } else {
        assert ([first] + rest[1..])[0] == first && ([first] + rest[1..])[1..] == rest[1..];
      }
    }
  }

  lemma NeverBoth(c: char)
    ensures !(IsIgnored(c) && IsSeparator(c))
  {
  }

  lemma {:induction false} ShownMatching(pieces: seq<string>)
    ensures ShownPieces(MatchingAll(pieces)) == MatchingAll(ShownPieces(pieces))
  {
    hide Matching, DropLayout, Shows;
    if pieces != [] {
      var p, rest := pieces[0], ShownPieces(pieces[1..]);
      ShownMatching(pieces[1..]);
      MatchingTwice(p);
      MatchingDropLayout(p);
      ShowsMatching(p);
      ShowsMatching(Matching(p));
      assert MatchingAll(pieces)[0] == Matching(p) && MatchingAll(pieces)[1..] == MatchingAll(pieces[1..]);
      if Shows(p) {
        assert ([DropLayout(p)] + rest)[1..] == rest;
      } else {
        assert [] + rest == rest;
      }
    }
  }

  lemma {:induction false} MatchingAllSnoc(ws: seq<string>, w: string)
    ensures MatchingAll(ws + [w]) == MatchingAll(ws) + [Matching(w)]
  {
    if ws == [] {
      assert [] + [w] == [w];
    } else {
      assert (ws + [w])[1..] == ws[1..] + [w];
      MatchingAllSnoc(ws[1..], w);
    }
  }

  lemma {:induction false} JoinedMatching(ws: seq<string>)
    ensures Joined(MatchingAll(ws)) == Matching(Joined(ws))
  {
    hide Matching;
    if ws == [] {
      MatchingStep("");
    } else {
      var head, w := ws[..|ws| - 1], ws[|ws| - 1];
      assert head + [w] == ws;
      JoinedMatching(head);
      MatchingAllSnoc(head, w);
      JoinedSnoc(MatchingAll(head), Matching(w));
      JoinedSnoc(head, w);
      MatchingConcat(Front(head), w);
      MatchingPush(Joined(head), ' ');
    }
  }

  lemma CollapsedMatching(s: string)
    ensures Collapsed(Matching(s)) == Matching(Collapsed(s))
  {
    SplitMatching(s);
    ShownMatching(Split(s));
    JoinedMatching(Words(s));
  }

  // ---- collapsing, one character at a time ----

  /** One space for every run of separators between other characters, and none at the ends. */
  function Squeeze(t: string): string
    decreases |t|, 0
  {
    if t == "" then ""
    else if IsSeparator(t[0]) then Squeeze(t[1..])
    else [t[0]] + SqueezeOn(t[1..])
  }

  /** The same after a character that is no separator. */
  function SqueezeOn(t: string): string
    decreases |t|, 0
  {
    if t == "" then ""
    else if IsSeparator(t[0]) then AfterSpace(Squeeze(t[1..]))
    else [t[0]] + SqueezeOn(t[1..])
  }

  function AfterSpace(t: string): string { if t == "" then "" else " " + t }

  ghost predicate NoneIgnored(t: string) { forall i :: 0 <= i < |t| ==> !IsIgnored(t[i]) }

  lemma {:induction false} JoinedCons(w: string, ws: seq<string>)
    ensures Joined([w] + ws) == w + if ws == [] then "" else " " + Joined(ws)
  {
    if ws == [] {
      assert [w] + ws == [] + [w];
      JoinedSnoc([], w);
    } else {
      var head, last := ws[..|ws| - 1], ws[|ws| - 1];
      assert ws == head + [last] && [w] + ws == ([w] + head) + [last];
      JoinedCons(w, head);
      JoinedSnoc([w] + head, last);
      JoinedSnoc(head, last);
      if head == [] { assert w + "" == w; }
    }
  }

  /** Joining the words of pieces of which the first goes on where another left off. */
  function JoinedOn(pieces: seq<string>): string
    requires pieces != []
  {
    pieces[0] + AfterSpace(Joined(ShownPieces(pieces[1..])))
  }

  lemma {:induction false} MatchingIsAll(p: string)
    requires NoneIgnored(p)
    ensures Matching(p) == p && DropLayout(p) == p && (Shows(p) <==> p != "")
  {
    if p != "" {
      assert !IsIgnored(p[0]);
      MatchingIsAll(p[1..]);
    }
  }

  lemma {:induction false} PiecesNoneIgnored(t: string, k: nat)
    requires NoneIgnored(t) && k < |Split(t)|
    ensures NoneIgnored(Split(t)[k])
  {
    hide IsIgnored, IsSeparator;
    if t != "" {
      SplitStep(t);
      if IsSeparator(t[0]) {
        if k > 0 { PiecesNoneIgnored(t[1..], k - 1); }
      } else {
        PiecesNoneIgnored(t[1..], k);
      }
    }
  }

  lemma {:induction false} SqueezeJoins(t: string)
    requires NoneIgnored(t)
    ensures Joined(ShownPieces(Split(t))) == Squeeze(t) && JoinedOn(Split(t)) == SqueezeOn(t)
  {
    hide IsIgnored, IsSeparator, Split, Joined, Shows, DropLayout;
    SplitStep(if t == "" then " " else t);
    if t == "" {
      MatchingIsAll("");
      assert [""][1..] == [];
      JoinedNothing();
    } else {
      var rest := Split(t[1..]);
      SqueezeJoins(t[1..]);
      if IsSeparator(t[0]) {
        assert ([""] + rest)[1..] == rest;
        MatchingIsAll("");
        assert [] + ShownPieces(rest) == ShownPieces(rest);
      } else {
        var first := [t[0]] + rest[0];
        assert ([first] + rest[1..])[1..] == rest[1..];
        PiecesNoneIgnored(t, 0);
        assert Split(t)[0] == first;
        MatchingIsAll(first);
        JoinedCons(first, ShownPieces(rest[1..]));
        WordsShow(rest[1..]);
        JoinedNothing();
        JoinedOnStep(t[0], rest);
        assert ShownPieces(Split(t)) == [first] + ShownPieces(rest[1..]);
      }
    }
  }

  lemma JoinedNothing()
    ensures Joined([]) == "" && ShownPieces([]) == []
  {
  }

  lemma {:induction false} WordsShow(pieces: seq<string>)
    ensures var ws := ShownPieces(pieces);
      ws != [] ==> ws[0] != "" && Joined(ws) != ""
  {
    if pieces != [] {
      var ws, p := ShownPieces(pieces), pieces[0];
      WordsShow(pieces[1..]);
      ShowsMatching(p);
      MatchingDropLayout(p);
      if ws != [] {
        assert ws == [ws[0]] + ws[1..];
        JoinedCons(ws[0], ws[1..]);
      }
    }
  }

  lemma JoinedOnStep(c: char, rest: seq<string>)
    requires rest != []
    ensures var first := [c] + rest[0];
      && JoinedOn([first] + rest[1..]) == [c] + JoinedOn(rest)
      && first + AfterSpace(Joined(ShownPieces(rest[1..]))) == [c] + JoinedOn(rest)
  {
    assert ([[c] + rest[0]] + rest[1..])[1..] == rest[1..];
  }

  /** What takes part in matching is the text's own, with its separators squeezed. */
  lemma CollapseSqueezes(s: string)
    ensures Matching(Collapsed(s)) == Squeeze(Matching(s))
  {
    CollapsedMatching(s);
    MatchingNoneIgnored(s);
    SqueezeJoins(Matching(s));
  }

  lemma {:induction false} MatchingNoneIgnored(s: string)
    ensures NoneIgnored(Matching(s))
  {
    if s != "" { MatchingNoneIgnored(s[1..]); }
  }

  /** The spelling without ignored characters always gets the reference key. */
  lemma PlainSpelling(s: string, fold: char -> string)
    requires FoldOk(fold)
    ensures Normalize(Matching(s), fold) == Reference(s, fold)
  {
    hide Normalize, Matching, Collapsed, FoldText, FoldOk, RenderingCount, Take;
    CollapsedMatching(s);
    MatchingTwice(s);
    MatchingTwice(Collapsed(s));
    FewRenderingCharsAreSlack(Matching(s));
    SlackIsReference(Matching(s), fold);
  }

  /** A heading and its spelling without ignored characters get the same key exactly when the raw
      cap is slack or folding makes up in length for what that cap cut. */
  lemma PlainSpellingSameKey(s: string, fold: char -> string)
    requires FoldOk(fold)
    ensures Normalize(Matching(s), fold) == Normalize(s, fold)
            <==> RawCapIsSlack(s) || |FoldText(Matching(Clean(s)), fold)| >= |Reference(s, fold)|
  {
    hide *;
    PlainSpelling(s, fold);
    NormalizeIsReference(s, fold);
  }

  // ---- fewer rendering characters than visible ones are not enough ----

  const JOINER := '\U{200D}'

  function Copies(c: char, n: nat): (r: string)
    ensures |r| == n && forall i :: 0 <= i < n ==> r[i] == c
  {
    seq(n, i => c)
  }

  lemma {:induction false} CopiesMatch(n: nat)
    ensures Matching(Copies('a', n)) == Copies('a', n) && Matching(Copies(JOINER, n)) == ""
    ensures RenderingCount(Copies(JOINER, n)) == n && RenderingCount(Copies('a', n)) == 0
  {
    if n > 0 {
      assert Copies('a', n)[1..] == Copies('a', n - 1) && Copies(JOINER, n)[1..] == Copies(JOINER, n - 1);
      CopiesMatch(n - 1);
    }
  }

  lemma {:induction false} CopiesFold(n: nat, fold: char -> string)
    requires fold('a') == "a"
    ensures FoldText(Copies('a', n), fold) == Copies('a', n)
  {
    if n > 0 {
      assert Copies('a', n)[1..] == Copies('a', n - 1);
      CopiesFold(n - 1, fold);
    }
  }

  /** A single word is cut to the longest prefix that fits. */
  lemma CleanOneWord(w: string, n: nat)
    requires Plain(w) && n <= |w| && Matching(w[..n]) != ""
    requires Fits(w[..n]) && (n < |w| ==> !Fits(w[..n + 1]))
    ensures Clean(w) == w[..n]
  {
    MatchingPrefix(w, n);
    SplitPlain(w);
    assert forall k: nat :: k < 1 ==> WordAt([w], k);
    ShownWords([w]);
    assert Joined([w]) == Front([]) + w == w;
    assert w[..0] == "";
    CutLengthIs(w, 0, n);
    DropTailOfJoined([], w[..n]);
    assert Front([]) + w[..n] == w[..n];
  }

  /** 199 visible characters, 201 joiners, 1000 visible characters. */
  function Mixed(): string { Copies('a', 199) + Copies(JOINER, 201) + Copies('a', 1000) }

  lemma MixedIs()
    ensures Plain(Mixed()) && RenderingCount(Mixed()) == 201 && Matching(Mixed()) == Copies('a', 1199)
    ensures Matching(Mixed()[..400]) == Copies('a', 199)
  {
    hide Matching, RenderingCount, Copies;
    var start := Copies('a', 199) + Copies(JOINER, 201);
    CopiesMatch(199);
    CopiesMatch(201);
    CopiesMatch(1000);
    CountConcat(Copies('a', 199), Copies(JOINER, 201));
    CountConcat(start, Copies('a', 1000));
    MatchingConcat(Copies('a', 199), Copies(JOINER, 201));
    MatchingConcat(start, Copies('a', 1000));
    assert Copies('a', 199) + Copies('a', 1000) == Copies('a', 1199);
    assert Mixed()[..400] == start;
  }

  lemma KeyOfOneWord(w: string, n: nat, m: nat, fold: char -> string)
    requires Plain(w) && n <= |w| && Fits(w[..n]) && (n < |w| ==> !Fits(w[..n + 1]))
    requires Matching(w[..n]) == Copies('a', m) && 0 < m <= MAX_HEADING_TEXT_CHARS && fold('a') == "a"
    ensures Normalize(w, fold) == Copies('a', m)
  {
    hide Clean, Matching, FoldText, Fits, Plain;
    CleanOneWord(w, n);
    CopiesFold(m, fold);
  }

  /** A heading with far more visible than rendering characters whose joiner-free spelling
      nevertheless gets another key. */
  lemma MinorityMatters(fold: char -> string)
    requires fold('a') == "a"
    ensures RenderingCount(Mixed()) == 201 && |Matching(Mixed())| == 1199
    ensures Normalize(Mixed(), fold) != Normalize(Matching(Mixed()), fold)
  {
    hide Clean, Matching, FoldText, Normalize, RenderingCount, Mixed;
    var plain := Copies('a', 1199);
    MixedIs();
    assert |Mixed()| == 1400 by { MixedLength(); }
    KeyOfOneWord(Mixed(), 400, 199, fold);
    CopiesMatch(200);
    CopiesMatch(201);
    assert plain[..200] == Copies('a', 200) && plain[..201] == Copies('a', 201);
    KeyOfOneWord(plain, 200, 200, fold);
  }

  lemma MixedLength()
    ensures |Mixed()| == 1400
  {
  }

  // ---- keys ----

  function KeyOf(segments: seq<string>): string {
    if segments == [] then ""
    else if |segments| == 1 then segments[0]
    else segments[0] + [HEADING_KEY_SEPARATOR] + KeyOf(segments[1..])
  }

  function NormalizeAll(segments: seq<string>, fold: char -> string): seq<string> {
    seq(|segments|, i requires 0 <= i < |segments| => Normalize(segments[i], fold))
  }

  /** `heading_prefix_key`: normalised segments joined by the separator. */
  function HeadingPrefixKey(segments: seq<string>, fold: char -> string): string {
    KeyOf(NormalizeAll(segments, fold))
  }

  lemma NormalizeIsRendered(s: string, fold: char -> string)
    requires FoldOk(fold)
    ensures Rendered(Normalize(s, fold))
  {
    var ws := CleanShape(s);
    JoinedIsSpaced(ws);
    MatchingIsRendered(Clean(s));
    FoldRendered(Matching(Clean(s)), fold);
    var folded := FoldText(Matching(Clean(s)), fold);
    TrimEndIsPrefix(Take(folded));
  }

  ghost predicate NoSeparator(s: string) {
    forall i :: 0 <= i < |s| ==> s[i] != HEADING_KEY_SEPARATOR
  }

  /** Length of a key up to its first separator. */
  function FirstLength(k: string): nat {
    if k == "" || k[0] == HEADING_KEY_SEPARATOR then 0 else 1 + FirstLength(k[1..])
  }

  lemma {:induction false} FirstSegment(head: string, tail: string)
    requires NoSeparator(head) && (tail == "" || tail[0] == HEADING_KEY_SEPARATOR)
    ensures FirstLength(head + tail) == |head|
  {
    if head == "" {
      assert head + tail == tail;
    } else {
      assert (head + tail)[1..] == head[1..] + tail;
      FirstSegment(head[1..], tail);
    }
  }

  lemma {:induction false} KeyOfInjective(a: seq<string>, b: seq<string>)
    requires a != [] && b != [] && KeyOf(a) == KeyOf(b)
    requires forall i :: 0 <= i < |a| ==> NoSeparator(a[i])
    requires forall i :: 0 <= i < |b| ==> NoSeparator(b[i])
    ensures a == b
  {
    var ta := if |a| == 1 then "" else [HEADING_KEY_SEPARATOR] + KeyOf(a[1..]);
    var tb := if |b| == 1 then "" else [HEADING_KEY_SEPARATOR] + KeyOf(b[1..]);
    FirstSegment(a[0], ta);
    FirstSegment(b[0], tb);
    assert KeyOf(a) == a[0] + ta && KeyOf(b) == b[0] + tb;
    assert a[0] == KeyOf(a)[..|a[0]|] == b[0];
    assert ta == KeyOf(a)[|a[0]|..] == tb;
    if |a| > 1 {
      assert KeyOf(a[1..]) == ta[1..] == KeyOf(b[1..]);
      KeyOfInjective(a[1..], b[1..]);
    }
  }

  /** Keys of non-empty paths agree exactly when every normalised segment does. */
  lemma PrefixKeyInjective(a: seq<string>, b: seq<string>, fold: char -> string)
    requires FoldOk(fold) && a != [] && b != []
    ensures HeadingPrefixKey(a, fold) == HeadingPrefixKey(b, fold)
            <==> NormalizeAll(a, fold) == NormalizeAll(b, fold)
  {
    var na, nb := NormalizeAll(a, fold), NormalizeAll(b, fold);
    forall i | 0 <= i < |a|
      ensures NoSeparator(na[i])
    {
      NormalizeIsRendered(a[i], fold);
    }
    forall i | 0 <= i < |b|
      ensures NoSeparator(nb[i])
    {
      NormalizeIsRendered(b[i], fold);
    }
    if KeyOf(na) == KeyOf(nb) {
      KeyOfInjective(na, nb);
    }
  }
}
