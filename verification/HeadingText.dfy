/** Heading text (src/heading.rs): the capped text that is stored, its normalised form for
    matching, and the keys built from normalised segments. */
module HeadingText {
  import opened Text

  const MAX_HEADING_TEXT_CHARS := 200
  const MAX_HEADING_TEXT_RAW_CHARS := 2 * MAX_HEADING_TEXT_CHARS
  const HEADING_KEY_SEPARATOR := '\U{001F}'

  predicate IsLayoutOnly(c: char) {
    c == '\U{00AD}' || c == '\U{200B}' || '\U{2060}' <= c <= '\U{2064}' || c == '\U{FEFF}'
  }

  predicate IsRenderingFormat(c: char) {
    || c == '\U{061C}' || c == '\U{180E}' || '\U{200C}' <= c <= '\U{200F}'
    || '\U{202A}' <= c <= '\U{202E}' || '\U{2066}' <= c <= '\U{206F}' || '\U{FE00}' <= c <= '\U{FE0F}'
  }

  predicate IsIgnored(c: char) { IsLayoutOnly(c) || IsRenderingFormat(c) }

  predicate IsSeparator(c: char) { IsWhitespace(c) || IsControl(c) }

  /** A character that shows and takes part in matching. */
  predicate IsVisible(c: char) { !IsSeparator(c) && !IsIgnored(c) }

  /** A character that can stand in a stored word. */
  predicate InWord(c: char) { !IsSeparator(c) && !IsLayoutOnly(c) }

  // ---- filtering ----

  function DropLayout(s: string): string {
    if s == "" then "" else (if IsLayoutOnly(s[0]) then "" else [s[0]]) + DropLayout(s[1..])
  }

  /** The part of a text that takes part in matching. */
  function Matching(s: string): string {
    if s == "" then "" else (if IsIgnored(s[0]) then "" else [s[0]]) + Matching(s[1..])
  }

  lemma {:induction false} MatchingConcat(a: string, b: string)
    ensures Matching(a + b) == Matching(a) + Matching(b)
  {
    if a == "" {
      assert a + b == b;
    } else {
      assert (a + b)[1..] == a[1..] + b;
      MatchingConcat(a[1..], b);
    }
  }

  lemma MatchingPush(t: string, c: char)
    ensures Matching(t + [c]) == Matching(t) + (if IsIgnored(c) then "" else [c])
  {
    MatchingConcat(t, [c]);
    assert [c][1..] == "";
  }

  // ---- collapsing to words ----

  function Split(s: string): (pieces: seq<string>)
    ensures |pieces| > 0
  {
    if s == "" then [""]
    else if IsSeparator(s[0]) then [""] + Split(s[1..])
    else [[s[0]] + Split(s[1..])[0]] + Split(s[1..])[1..]
  }

  predicate Shows(piece: string) {
    exists i :: 0 <= i < |piece| && !IsIgnored(piece[i])
  }

  /** The pieces that show something, without their layout-only characters. */
  function ShownPieces(pieces: seq<string>): seq<string> {
    if pieces == [] then []
    else (if Shows(pieces[0]) then [DropLayout(pieces[0])] else []) + ShownPieces(pieces[1..])
  }

  function Words(s: string): seq<string> { ShownPieces(Split(s)) }

  /** The words with single spaces between them. */
  function Joined(words: seq<string>): string
    decreases |words|, 0
  {
    if words == [] then "" else Front(words[..|words| - 1]) + words[|words| - 1]
  }

  /** What stands before a word that follows `words`. */
  function Front(words: seq<string>): string
    decreases |words|, 1
  {
    if words == [] then "" else Joined(words) + " "
  }

  function Collapsed(s: string): string { Joined(Words(s)) }

  ghost predicate Plain(w: string) {
    forall i :: 0 <= i < |w| ==> InWord(w[i])
  }

  /** What every collapsed word looks like. */
  ghost predicate IsWord(w: string) {
    Plain(w) && Matching(w) != ""
  }

  ghost predicate WordAt(ws: seq<string>, k: nat)
    requires k < |ws|
  {
    IsWord(ws[k])
  }

  ghost predicate AreWords(ws: seq<string>) {
    forall k: nat :: k < |ws| ==> WordAt(ws, k)
  }

  lemma WordsPrefix(ws: seq<string>, n: nat)
    requires AreWords(ws) && n <= |ws|
    ensures AreWords(ws[..n])
  {
    forall k: nat | k < n
      ensures WordAt(ws[..n], k)
    {
      assert WordAt(ws, k);
    }
  }

  lemma WordsSnoc(ws: seq<string>, w: string)
    requires AreWords(ws) && IsWord(w)
    ensures AreWords(ws + [w])
  {
    forall k: nat | k < |ws| + 1
      ensures WordAt(ws + [w], k)
    {
      if k < |ws| { assert WordAt(ws, k); }
    }
  }

  lemma {:induction false} SplitHasNoSeparator(s: string, k: nat, i: nat)
    requires k < |Split(s)| && i < |Split(s)[k]|
    ensures !IsSeparator(Split(s)[k][i])
  {
    if s != "" {
      if IsSeparator(s[0]) {
        SplitHasNoSeparator(s[1..], k - 1, i);
      } else if k > 0 {
        SplitHasNoSeparator(s[1..], k, i);
      } else if i > 0 {
        SplitHasNoSeparator(s[1..], 0, i - 1);
      }
    }
  }

  lemma {:induction false} DropLayoutIsPlain(p: string)
    requires forall i :: 0 <= i < |p| ==> !IsSeparator(p[i])
    ensures Plain(DropLayout(p))
  {
    if p != "" {
      DropLayoutIsPlain(p[1..]);
    }
  }

  lemma {:induction false} MatchingDropLayout(p: string)
    ensures Matching(DropLayout(p)) == Matching(p)
  {
    if p != "" {
      MatchingDropLayout(p[1..]);
      var head := if IsLayoutOnly(p[0]) then "" else [p[0]];
      MatchingConcat(head, DropLayout(p[1..]));
      assert [p[0]][1..] == "";
    }
  }

  lemma {:induction false} ShowsMatching(p: string)
    ensures Matching(p) != "" <==> Shows(p)
  {
    if p != "" {
      ShowsMatching(p[1..]);
      if Shows(p) && IsIgnored(p[0]) {
        var i :| 0 <= i < |p| && !IsIgnored(p[i]);
        assert p[1..][i - 1] == p[i];
      }
    }
  }

  lemma {:induction false} ShownPiecesAreWords(pieces: seq<string>)
    requires forall k, i :: 0 <= k < |pieces| && 0 <= i < |pieces[k]| ==> !IsSeparator(pieces[k][i])
    ensures AreWords(ShownPieces(pieces))
  {
    if pieces != [] {
      assert forall k, i :: 0 <= k < |pieces| - 1 && 0 <= i < |pieces[1..][k]| ==>
          pieces[1..][k][i] == pieces[k + 1][i];
      ShownPiecesAreWords(pieces[1..]);
      DropLayoutIsPlain(pieces[0]);
      MatchingDropLayout(pieces[0]);
      ShowsMatching(pieces[0]);
      var rest := ShownPieces(pieces[1..]);
      if Shows(pieces[0]) {
        forall k: nat | k < |rest| + 1
          ensures WordAt([DropLayout(pieces[0])] + rest, k)
        {
          if k > 0 { assert WordAt(rest, k - 1); }
        }
        assert ShownPieces(pieces) == [DropLayout(pieces[0])] + rest;
      } else {
        assert ShownPieces(pieces) == rest;
      }
    }
  }

  lemma WordsAreWords(s: string)
    ensures AreWords(Words(s))
  {
    forall k, i | 0 <= k < |Split(s)| && 0 <= i < |Split(s)[k]|
      ensures !IsSeparator(Split(s)[k][i])
    {
      SplitHasNoSeparator(s, k, i);
    }
    ShownPiecesAreWords(Split(s));
  }

  // ---- the caps ----

  predicate Fits(t: string) {
    |t| <= MAX_HEADING_TEXT_RAW_CHARS && |Matching(t)| <= MAX_HEADING_TEXT_CHARS
  }

  /** Length of the longest prefix of `t` within both caps, counting on from `n`. */
  function CutLength(t: string, n: nat): (r: nat)
    requires n <= |t|
    ensures n <= r <= |t|
    decreases |t| - n
  {
    if n < |t| && Fits(t[..n + 1]) then CutLength(t, n + 1) else n
  }

  function TailStart(t: string): (k: nat)
    ensures k <= |t|
  {
    if t == "" || t[|t| - 1] == ' ' then |t| else TailStart(t[..|t| - 1])
  }

  /** Drop a last word the cut left without a matching character, and the space before it. */
  function DropTail(t: string): string {
    var k := TailStart(t);
    if Matching(t[k..]) != "" then t else t[..if k == 0 then 0 else k - 1]
  }

  /** The stored text: the longest prefix of the collapsed text that fits both caps. */
  function Clean(s: string): string {
    DropTail(Collapsed(s)[..CutLength(Collapsed(s), 0)])
  }

  lemma FitsPrefix(t: string, n: nat)
    requires n <= |t| && Fits(t)
    ensures Fits(t[..n])
  {
    assert t == t[..n] + t[n..];
    MatchingConcat(t[..n], t[n..]);
  }

  lemma {:induction false} CutLengthIs(t: string, from: nat, n: nat)
    requires from <= n <= |t| && Fits(t[..n])
    requires n == |t| || !Fits(t[..n + 1])
    ensures CutLength(t, from) == n
    decreases n - from
  {
    if from < n {
      assert t[..n][..from + 1] == t[..from + 1];
      FitsPrefix(t[..n], from + 1);
      CutLengthIs(t, from + 1, n);
    }
  }

  lemma {:induction false} CutLengthFits(t: string, from: nat)
    requires from <= |t| && Fits(t[..from])
    ensures Fits(t[..CutLength(t, from)])
    ensures CutLength(t, from) < |t| ==> !Fits(t[..CutLength(t, from) + 1])
    decreases |t| - from
  {
    if from < |t| && Fits(t[..from + 1]) {
      CutLengthFits(t, from + 1);
    }
  }

  // ---- joined words ----

  lemma JoinedSnoc(ws: seq<string>, w: string)
    ensures Joined(ws + [w]) == Front(ws) + w
  {
    assert (ws + [w])[..|ws|] == ws;
  }

  lemma TakeLeft(a: string, b: string, n: nat)
    requires n <= |a|
    ensures (a + b)[..n] == a[..n]
  {
  }

  lemma TakeRight(a: string, b: string, n: nat)
    requires n <= |b|
    ensures (a + b)[..|a| + n] == a + b[..n]
  {
  }

  /** A last word, having no space in it, is where the tail starts. */
  lemma {:induction false} TailOfJoined(front: string, w: string)
    requires Plain(w)
    requires front == "" || front[|front| - 1] == ' '
    ensures TailStart(front + w) == |front|
    decreases |w|
  {
    if w == "" {
      assert front + w == front;
    } else {
      var n := |w| - 1;
      TakeRight(front, w, n);
      assert (front + w)[|front + w| - 1] == w[n];
      TailOfJoined(front, w[..n]);
    }
  }

  /** Dropping the tail of whole words followed by a partial one. */
  lemma DropTailOfJoined(ws: seq<string>, w: string)
    requires Plain(w)
    ensures DropTail(Front(ws) + w) == if Matching(w) != "" then Front(ws) + w else Joined(ws)
  {
    TailOfJoined(Front(ws), w);
    assert (Front(ws) + w)[|Front(ws)|..] == w;
    if ws != [] {
      TakeLeft(Joined(ws), " " + w, |Joined(ws)|);
      assert Joined(ws) + (" " + w) == Front(ws) + w;
    }
  }

  /** Every prefix of joined words is some whole words and a prefix of the next. */
  lemma {:induction false} PrefixOfJoined(ws: seq<string>, n: nat) returns (k: nat, j: nat)
    requires ws != [] && n <= |Joined(ws)|
    ensures k < |ws| && j <= |ws[k]|
    ensures Joined(ws)[..n] == Front(ws[..k]) + ws[k][..j]
  {
    var last := |ws| - 1;
    var head := ws[..last];
    if n >= |Front(head)| {
      k, j := last, n - |Front(head)|;
      TakeRight(Front(head), ws[last], j);
    } else {
      assert n <= |Joined(head)|;
      k, j := PrefixOfJoined(head, n);
      assert head[..k] == ws[..k];
      TakeLeft(Front(head), ws[last], n);
      TakeLeft(Joined(head), " ", n);
    }
  }

  lemma {:induction false} MatchingIsVisible(w: string)
    requires Plain(w)
    ensures forall i :: 0 <= i < |Matching(w)| ==> IsVisible(Matching(w)[i])
  {
    if w != "" {
      assert InWord(w[0]);
      MatchingIsVisible(w[1..]);
    }
  }

  /** A text that ends in a word ends in a visible character as far as matching sees. */
  lemma MatchingEnds(front: string, w: string)
    requires IsWord(w)
    ensures Matching(front + w) == Matching(front) + Matching(w)
    ensures Matching(front + w) != "" && IsVisible(Matching(front + w)[|Matching(front + w)| - 1])
  {
    MatchingConcat(front, w);
    MatchingIsVisible(w);
  }

  lemma MatchingOfWords(ws: seq<string>)
    requires AreWords(ws) && ws != []
    ensures Matching(Joined(ws)) != "" && IsVisible(Matching(Joined(ws))[|Matching(Joined(ws))| - 1])
  {
    assert WordAt(ws, |ws| - 1);
    MatchingEnds(Front(ws[..|ws| - 1]), ws[|ws| - 1]);
  }

  /** Seen through matching, dropping the tail only trims the end. */
  lemma MatchingOfDropTail(ws: seq<string>, w: string)
    requires Plain(w) && AreWords(ws)
    ensures Matching(DropTail(Front(ws) + w)) == TrimEnd(Matching(Front(ws) + w))
  {
    DropTailOfJoined(ws, w);
    if Matching(w) != "" {
      MatchingEnds(Front(ws), w);
    } else {
      MatchingConcat(Front(ws), w);
      if ws != [] {
        MatchingOfWords(ws);
        MatchingPush(Joined(ws), ' ');
        var m := Matching(Joined(ws));
        assert (m + " ")[..|m|] == m;
      }
    }
  }

  /** The stored text is again a run of whole words, within both caps. */
  lemma CleanShape(s: string) returns (ws: seq<string>)
    ensures AreWords(ws) && Clean(s) == Joined(ws) && Fits(Clean(s))
    ensures Matching(Clean(s)) == TrimEnd(Matching(Collapsed(s)[..CutLength(Collapsed(s), 0)]))
  {
    var all, n := Words(s), CutLength(Collapsed(s), 0);
    WordsAreWords(s);
    CutLengthFits(Collapsed(s), 0);
    if all == [] {
      return [];
    }
    var k, j := PrefixOfJoined(all, n);
    var part := all[k][..j];
    assert WordAt(all, k);
    WordsPrefix(all, k);
    MatchingOfDropTail(all[..k], part);
    DropTailOfJoined(all[..k], part);
    if Matching(part) != "" {
      ws := all[..k] + [part];
      WordsSnoc(all[..k], part);
      JoinedSnoc(all[..k], part);
    } else {
      ws := all[..k];
      FrontFits(ws, part);
    }
  }

  lemma FrontFits(ws: seq<string>, w: string)
    requires Fits(Front(ws) + w)
    ensures Fits(Joined(ws))
  {
    if ws != [] {
      assert Front(ws) + w == Joined(ws) + (" " + w);
      TakeLeft(Joined(ws), " " + w, |Joined(ws)|);
      FitsPrefix(Front(ws) + w, |Joined(ws)|);
    }
  }

  lemma CleanIsTrimmed(s: string)
    ensures TrimEnd(Clean(s)) == Clean(s)
  {
    var ws := CleanShape(s);
    if ws != [] {
      assert WordAt(ws, |ws| - 1);
      var w := ws[|ws| - 1];
      assert w != "" && InWord(w[|w| - 1]);
    }
  }

  // ---- the loop as written ----

  lemma {:induction false} FrontIsPrefix(ws: seq<string>, k: nat)
    requires k < |ws|
    ensures Front(ws[..k]) + ws[k] == Joined(ws[..k + 1]) <= Joined(ws)
    ensures k + 1 < |ws| ==> Front(ws[..k + 1]) <= Joined(ws)
    decreases |ws| - k
  {
    assert ws[..k + 1] == ws[..k] + [ws[k]];
    JoinedSnoc(ws[..k], ws[k]);
    if k + 1 == |ws| {
      assert ws[..k + 1] == ws;
    } else {
      FrontIsPrefix(ws, k + 1);
    }
  }

  /** Where the next character would break a cap, the cut is. */
  lemma CutAt(all: string, out: string)
    requires out <= all && Fits(out)
    requires out == all || !Fits(out + [all[|out|]])
    ensures all[..CutLength(all, 0)] == out
  {
    assert all[..|out|] == out;
    if |out| < |all| { assert all[..|out| + 1] == out + [all[|out|]]; }
    CutLengthIs(all, 0, |out|);
  }

  /** Stopping inside or at the end of word `k`, where nothing more fits. */
  lemma StopsHere(s: string, k: nat, j: nat, out: string)
    requires k < |Words(s)| && j <= |Words(s)[k]|
    requires out == Front(Words(s)[..k]) + Words(s)[k][..j]
    requires Fits(out) && out <= Collapsed(s)
    requires out == Collapsed(s) || !Fits(out + [Collapsed(s)[|out|]])
    ensures Clean(s) == if Matching(Words(s)[k][..j]) != "" then out else Joined(Words(s)[..k])
  {
    CutAt(Collapsed(s), out);
    WordsAreWords(s);
    assert WordAt(Words(s), k);
    DropTailOfJoined(Words(s)[..k], Words(s)[k][..j]);
  }

  /** A whole word always shows something, so stopping right after it keeps it. */
  lemma StopAfterWord(s: string, k: nat)
    requires k < |Words(s)| && Fits(Joined(Words(s)[..k + 1]))
    requires k + 1 < |Words(s)| ==> !Fits(Front(Words(s)[..k + 1]))
    ensures Clean(s) == Joined(Words(s)[..k + 1])
  {
    var ws := Words(s);
    var out := Joined(ws[..k + 1]);
    FrontIsPrefix(ws, k);
    assert ws[k][..|ws[k]|] == ws[k];
    WordsAreWords(s);
    assert WordAt(ws, k);
    if k + 1 < |ws| {
      FrontIsPrefix(ws, k + 1);
      assert out + " " <= Collapsed(s);
    } else {
      assert ws[..k + 1] == ws;
    }
    StopsHere(s, k, |ws[k]|, out);
  }

  /** Append the characters of a word while they fit; `shown` says whether one of them matches. */
  method PushWord(start: string, word: string, matching0: nat, raw0: nat)
    returns (out: string, matching: nat, raw: nat, pushed: nat, shown: bool)
    requires Fits(start) && Plain(word) && matching0 == |Matching(start)| && raw0 == |start|
    ensures matching == |Matching(out)| && raw == |out|
    ensures pushed <= |word| && out == start + word[..pushed] && Fits(out)
    ensures shown <==> Matching(word[..pushed]) != ""
    ensures pushed < |word| ==> !Fits(out + [word[pushed]])
  {
    out, matching, raw, pushed, shown := start, matching0, raw0, 0, false;
    while pushed < |word|
      invariant pushed <= |word| && out == start + word[..pushed] && Fits(out)
      invariant matching == |Matching(out)| && raw == |out|
      invariant shown <==> Matching(word[..pushed]) != ""
    {
      var c := word[pushed];
      assert InWord(c);
      var counts := !IsRenderingFormat(c);
      MatchingPush(out, c);
      if (counts && matching == MAX_HEADING_TEXT_CHARS) || raw == MAX_HEADING_TEXT_RAW_CHARS {
        return;
      }
      MatchingPush(word[..pushed], c);
      assert word[..pushed + 1] == word[..pushed] + [c];
      out := out + [c];
      raw := raw + 1;
      matching := matching + (if counts then 1 else 0);
      shown := shown || counts;
      pushed := pushed + 1;
    }
  }

  /** What stopping in the middle of word `k` leaves. */
  lemma StopInWord(s: string, k: nat, j: nat, out: string)
    requires k < |Words(s)| && j < |Words(s)[k]|
    requires out == Front(Words(s)[..k]) + Words(s)[k][..j]
    requires Fits(out) && !Fits(out + [Words(s)[k][j]])
    ensures Clean(s) == if Matching(Words(s)[k][..j]) != "" then out else Joined(Words(s)[..k])
  {
    var w := Words(s)[k];
    FrontIsPrefix(Words(s), k);
    TakeRight(Front(Words(s)[..k]), w, j + 1);
    TakeRight(Front(Words(s)[..k]), w, j);
    assert Collapsed(s)[|out|] == w[j];
    StopsHere(s, k, j, out);
  }

  /** The space before a word that is not the first, if there is room for it. */
  method PushSpace(out0: string, matching0: nat, raw0: nat)
    returns (out: string, matching: nat, raw: nat, pushed: bool)
    requires Fits(out0) && matching0 == |Matching(out0)| && raw0 == |out0|
    ensures pushed <==> out0 == "" || Fits(out0 + " ")
    ensures pushed ==> out == (if out0 == "" then "" else out0 + " ") && Fits(out)
    ensures pushed ==> matching == |Matching(out)| && raw == |out|
  {
    out, matching, raw := out0, matching0, raw0;
    if out != "" {
      MatchingPush(out, ' ');
      if matching == MAX_HEADING_TEXT_CHARS || raw == MAX_HEADING_TEXT_RAW_CHARS {
        return out, matching, raw, false;
      }
      out := out + " ";
      matching := matching + 1;
      raw := raw + 1;
    }
    pushed := true;
  }

  /** One round of the outer loop: word `k` and the space before it. */
  method AppendWord(s: string, words: seq<string>, k: nat, out0: string, matching0: nat, raw0: nat)
    returns (out: string, matching: nat, raw: nat, stopped: bool)
    requires words == Words(s) && k < |words|
    requires out0 == Joined(words[..k]) && Fits(out0) && (out0 == "" <==> k == 0)
    requires matching0 == |Matching(out0)| && raw0 == |out0|
    ensures stopped ==> out == Clean(s)
    ensures !stopped ==> out == Joined(words[..k + 1]) && Fits(out) && out != ""
    ensures !stopped ==> matching == |Matching(out)| && raw == |out|
  {
    hide Words, Clean, Fits;
    var ok;
    out, matching, raw, ok := PushSpace(out0, matching0, raw0);
    if !ok {
      StopAfterWord(s, k - 1);
      return out0, matching, raw, true;
    }
    WordsAreWords(s);
    assert WordAt(words, k);
    assert out == Front(words[..k]);
    ghost var start := out;
    var pushed, shown;
    out, matching, raw, pushed, shown := PushWord(out, words[k], matching, raw);
    stopped := pushed < |words[k]|;
    if stopped {
      StopInWord(s, k, pushed, out);
      TakeLeft(start, words[k][..pushed], |out0|);
      out := if shown then out else out[..|out0|];
    } else {
      FrontIsPrefix(words, k);
    }
  }

  method CleanHeadingText(s: string) returns (out: string)
    ensures out == Clean(s)
  {
    var words := Words(s);
    out := "";
    var matching, raw, stopped := 0, 0, false;
    for k := 0 to |words|
      invariant out == Joined(words[..k]) && Fits(out) && (out == "" <==> k == 0)
      invariant matching == |Matching(out)| && raw == |out|
    {
      out, matching, raw, stopped := AppendWord(s, words, k, out, matching, raw);
      if stopped {
        CleanIsTrimmed(s);
        out := TrimEnd(out);
        return;
      }
    }
    AllPushed(s);
    out := TrimEnd(out);
  }

  lemma AllPushed(s: string)
    requires Fits(Joined(Words(s)[..|Words(s)|]))
    ensures Joined(Words(s)[..|Words(s)|]) == Clean(s) == TrimEnd(Clean(s))
  {
    CleanIsTrimmed(s);
    if Words(s) == [] {
      assert Collapsed(s) == "";
    } else {
      StopAfterWord(s, |Words(s)| - 1);
    }
  }
}
