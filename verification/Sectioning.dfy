/** Sections and pieces: what the cut at heading boundaries guarantees (src/chunk.rs). */
module Sectioning {
  import opened Text
  import opened Lines
  import opened Headings
  import opened Ancestry
  import opened Chunks

  ghost predicate Document(body: string, t: HeadingTree) {
    WellFormed(t) && t.lines == Index(body)
  }

  ghost predicate SectionOk(body: string, t: HeadingTree, s: Section) {
    && 1 <= s.lineStart <= s.lineEnd <= t.LineCount()
    && s.text == Slice(body, s.lineStart, s.lineEnd)
    && s.byteStart == Index(body).ByteRange(s.lineStart, s.lineEnd).start
    && match s.heading
       case None => s.lineStart == 1 && s.lineEnd == t.PreambleEnd() && Trim(s.text) != ""
       case Some(i) => i < |t.headings| && s.lineStart == t.headings[i].line && s.lineEnd == t.headings[i].sectionEnd
  }

  /** Position of a section in the document; the root is no section of its own. */
  function Rank(s: SectionId): nat {
    if s.AtHeading? then s.index + 1 else 0
  }

  /** Section `k` is right, and the next one starts where it ends. */
  ghost predicate ChainAt(body: string, t: HeadingTree, ss: seq<Section>, k: nat)
    requires k < |ss|
  {
    && SectionOk(body, t, ss[k])
    && (if k + 1 < |ss|
        then ss[k].lineEnd + 1 == ss[k + 1].lineStart && Rank(ss[k].Id()) < Rank(ss[k + 1].Id())
        else ss[k].lineEnd == t.LineCount())
  }

  ghost predicate Chain(body: string, t: HeadingTree, ss: seq<Section>) {
    forall k: nat :: k < |ss| ==> ChainAt(body, t, ss, k)
  }

  ghost predicate PreambleCount(body: string, t: HeadingTree, pre: nat) {
    pre <= 1 && (pre == 1 ==> t.PreambleEnd() > 0 && Trim(Slice(body, 1, t.PreambleEnd())) != "")
  }

  lemma SectionNoOk(body: string, t: HeadingTree, pre: nat, k: nat)
    requires Document(body, t) && PreambleCount(body, t, pre) && k < pre + |t.headings|
    ensures SectionOk(body, t, SectionNo(body, t, pre, k))
  {
    if t.headings != [] { HeadingFacts(t, 0); }
    if k >= pre { HeadingFacts(t, k - pre); }
  }

  lemma SectionNoChain(body: string, t: HeadingTree, pre: nat, k: nat)
    requires Document(body, t) && PreambleCount(body, t, pre) && k < pre + |t.headings|
    ensures ChainAt(body, t, SectionsWith(body, t, pre), k)
  {
    hide Slice, Trim, Index, SectionOk, RecordsAre;
    SectionNoOk(body, t, pre, k);
    if k >= pre { HeadingFacts(t, k - pre); }
    if k + 1 < pre + |t.headings| { HeadingFacts(t, k + 1 - pre); }
  }

  /** The sections follow one another without gaps, each with its exact lines. */
  lemma SectionsChain(body: string, t: HeadingTree)
    requires Document(body, t)
    ensures Chain(body, t, Sections(body, t))
  {
    var pre := if HasPreamble(body, t) then 1 else 0;
    forall k: nat | k < |Sections(body, t)|
      ensures ChainAt(body, t, Sections(body, t), k)
    {
      SectionNoChain(body, t, pre, k);
    }
  }

  lemma SectionIsPresent(body: string, t: HeadingTree, s: Section)
    requires Document(body, t) && SectionOk(body, t, s)
    ensures s.Id().Present(t) && s.Id().First(t) <= s.lineStart && s.lineEnd <= s.Id().Last(t)
  {
    if s.heading.Some? { HeadingFacts(t, s.heading.value); }
  }

  // ---- tiling ----

  function JoinLines(sections: seq<Section>): string {
    if sections == [] then ""
    else if |sections| == 1 then sections[0].text
    else sections[0].text + "\n" + JoinLines(sections[1..])
  }

  lemma {:induction false} SectionsTileFrom(body: string, t: HeadingTree, ss: seq<Section>, k: nat)
    requires Document(body, t) && Chain(body, t, ss) && k < |ss|
    ensures JoinLines(ss[k..]) == Slice(body, ss[k].lineStart, t.LineCount())
    decreases |ss| - k
  {
    assert ChainAt(body, t, ss, k);
    if k + 1 < |ss| {
      SectionsTileFrom(body, t, ss, k + 1);
      assert ss[k..][1..] == ss[k + 1..] && ss[k..][0] == ss[k];
      assert ChainAt(body, t, ss, k + 1);
      SlicesJoin(body, ss[k].lineStart, ss[k].lineEnd, t.LineCount());
    }
  }

  lemma LinesNeedText(body: string)
    ensures Index(body).LineCount() > 0 ==> body != ""
  {
  }

  lemma {:induction false} TileAll(body: string, t: HeadingTree, ss: seq<Section>)
    requires Document(body, t) && Chain(body, t, ss) && ss != []
    ensures var first := ss[0].lineStart;
      body == if first == 1 then JoinLines(ss) else Slice(body, 1, SatPred(first)) + "\n" + JoinLines(ss)
  {
    hide Trim, Index, Slice, JoinLines;
    assert ChainAt(body, t, ss, 0);
    SectionsTileFrom(body, t, ss, 0);
    assert ss[0..] == ss;
    LinesNeedText(body);
    WholeSlice(body);
    if ss[0].lineStart > 1 { SlicesJoin(body, 1, ss[0].lineStart - 1, t.LineCount()); }
  }

  lemma NoSections(body: string, t: HeadingTree)
    requires Document(body, t) && Sections(body, t) == []
    ensures Blank(body)
  {
    if body != "" {
      IndexIsExact(body);
      WholeSlice(body);
      TrimEmptyIffBlank(body);
    }
  }

  /** The sections, joined by newlines, are the body without a blank preamble. */
  lemma SectionsTileBody(body: string, t: HeadingTree)
    requires Document(body, t)
    ensures var ss := Sections(body, t);
      if ss == [] then Blank(body)
      else if ss[0].lineStart == 1 then JoinLines(ss) == body
      else && t.headings != [] && ss[0].lineStart == t.headings[0].line
           && Blank(Slice(body, 1, SatPred(ss[0].lineStart)))
           && Slice(body, 1, SatPred(ss[0].lineStart)) + "\n" + JoinLines(ss) == body
  {
    var ss := Sections(body, t);
    if ss == [] {
      NoSections(body, t);
    } else {
      SectionsChain(body, t);
      TileAll(body, t, ss);
      assert ChainAt(body, t, ss, 0);
      TrimEmptyIffBlank(Slice(body, 1, t.PreambleEnd()));
    }
  }

  // ---- what is assumed of the splitter ----

  /** Fragments of `text`: at least one, each a solid substring no longer than `max`, in
      order without overlap, the first at the first non-blank character. */
  ghost predicate FragmentsOk(text: string, fs: seq<Fragment>, max: nat) {
    && fs != []
    && (forall k :: 0 <= k < |fs| ==>
         && fs[k].offset + |fs[k].text| <= |text|
         && fs[k].text == text[fs[k].offset..fs[k].offset + |fs[k].text|]
         && Solid(fs[k].text) && |fs[k].text| <= max)
    && (forall k :: 0 <= k < |fs| - 1 ==> fs[k].offset + |fs[k].text| <= fs[k + 1].offset)
    && Blank(text[..fs[0].offset])
  }

  ghost predicate SplitOkAt(split: Splitter, max: nat, text: string) {
    |Trim(text)| > max ==> FragmentsOk(text, split(max, text), max)
  }

  ghost predicate SplitterOk(split: Splitter, max: nat) {
    forall text: string :: SplitOkAt(split, max, text)
  }

  /** A splitter that gives every visible character its own fragment. */
  function Singles(text: string, n: nat): seq<Fragment>
    requires n <= |text|
  {
    if n == 0 then [] else
    Singles(text, n - 1) + if IsWhitespace(text[n - 1]) then [] else [Fragment(n - 1, [text[n - 1]])]
  }

  lemma OneMoreFragment(text: string, fs: seq<Fragment>, f: Fragment)
    requires f.offset < |text| && f.text == [text[f.offset]] && !IsWhitespace(text[f.offset])
    requires if fs == [] then Blank(text[..f.offset]) else FragmentsOk(text, fs, 1)
    requires forall i :: 0 <= i < |fs| ==> fs[i].offset < f.offset
    ensures FragmentsOk(text, fs + [f], 1)
  {
    hide IsWhitespace;
    assert text[f.offset..f.offset + 1] == f.text;
  }

  lemma {:induction false} SinglesOk(text: string, n: nat)
    requires n <= |text|
    ensures Singles(text, n) == [] <==> Blank(text[..n])
    ensures forall i :: 0 <= i < |Singles(text, n)| ==> Singles(text, n)[i].offset < n
    ensures Singles(text, n) != [] ==> FragmentsOk(text, Singles(text, n), 1)
  {
    hide IsWhitespace, FragmentsOk, Blank;
    if n > 0 {
      SinglesOk(text, n - 1);
      BlankSnoc(text, n - 1);
      var before := Singles(text, n - 1);
      if !IsWhitespace(text[n - 1]) {
        OneMoreFragment(text, before, Fragment(n - 1, [text[n - 1]]));
      } else {
        assert before + [] == before;
      }
    } else {
      NothingIsBlank(text);
    }
  }

  lemma NothingIsBlank(text: string)
    ensures Blank(text[..0])
  {
  }

  lemma BlankSnoc(text: string, n: nat)
    requires n < |text|
    ensures Blank(text[..n + 1]) <==> Blank(text[..n]) && IsWhitespace(text[n])
  {
    assert text[..n + 1] == text[..n] + [text[n]];
  }

  lemma SplitterIsPossible(max: nat)
    requires max >= 1
    ensures exists split :: SplitterOk(split, max)
  {
    var split: Splitter := (m: nat, text: string) => Singles(text, |text|);
    forall text: string
      ensures SplitOkAt(split, max, text)
    {
      SinglesOk(text, |text|);
      TrimEmptyIffBlank(text);
      assert text[..|text|] == text;
    }
    assert SplitterOk(split, max);
  }

  /** Only what line numbers need: fragments start inside the text and do not go back. */
  ghost predicate FragmentsInRange(text: string, fs: seq<Fragment>) {
    && (forall k :: 0 <= k < |fs| ==> fs[k].offset < |text|)
    && (forall k :: 0 <= k < |fs| - 1 ==> fs[k].offset + SatSub(|fs[k].text|, 1) <= fs[k + 1].offset)
  }

  ghost predicate SplitInRangeAt(split: Splitter, max: nat, text: string) {
    |Trim(text)| > max ==> FragmentsInRange(text, split(max, text))
  }

  ghost predicate SplitterInRange(split: Splitter, max: nat) {
    forall text: string :: SplitInRangeAt(split, max, text)
  }

  lemma OkIsInRange(split: Splitter, max: nat)
    requires SplitterOk(split, max)
    ensures SplitterInRange(split, max)
  {
    forall text: string
      ensures SplitInRangeAt(split, max, text)
    {
      assert SplitOkAt(split, max, text);
    }
  }

  // ---- pieces of one section ----

  /** A piece lies in its section, carries its id and one of its two breadcrumbs. */
  ghost predicate PieceOk(t: HeadingTree, s: Section, p: Piece)
  {
    && s.lineStart <= p.lineStart <= p.lineEnd <= s.lineEnd
    && p.section == s.Id()
    && (p.breadcrumb == s.LeadingBreadcrumb(t) || p.breadcrumb == s.heading)
  }

  /** For any in-range offsets, whatever length the splitter reports. */
  lemma PieceInSection(body: string, t: HeadingTree, s: Section, split: Splitter, max: nat, k: nat)
    requires Document(body, t) && SectionOk(body, t, s) && SplitterInRange(split, max)
    requires k < |PiecesOf(t, s, split, max)|
    ensures PieceOk(t, s, PiecesOf(t, s, split, max)[k])
  {
    if s.TrimmedSize() > max {
      var fs := split(max, s.text);
      assert SplitInRangeAt(split, max, s.text);
      FragmentLines(body, t, s, k, fs[k]);
    }
  }

  lemma FragmentLines(body: string, t: HeadingTree, s: Section, k: nat, f: Fragment)
    requires Document(body, t) && SectionOk(body, t, s) && f.offset < |s.text|
    ensures PieceOk(t, s, FragmentPiece(t, s, k, f))
  {
    RangeInText(body, s.lineStart, s.lineEnd);
    LineOfByteRange(body, s.lineStart, s.lineEnd, s.byteStart + f.offset);
  }

  /** The piece is where it says in the body, from the line its first character is on to the line of
      its end. */
  ghost predicate PieceAtLines(body: string, p: Piece) {
    && p.at + |p.text| <= |body| && p.text == body[p.at..p.at + |p.text|]
    && p.lineStart == 1 + Newlines(body, p.at)
    && p.lineEnd == 1 + Newlines(body, p.at + |p.text|)
  }

  lemma PieceLinesExact(body: string, t: HeadingTree, s: Section, split: Splitter, max: nat, k: nat)
    requires Document(body, t) && SectionOk(body, t, s) && SplitterOk(split, max)
    requires k < |PiecesOf(t, s, split, max)|
    ensures PieceAtLines(body, PiecesOf(t, s, split, max)[k])
  {
    hide PieceAtLines, SectionOk, Document, FragmentPiece, WholePiece, Trim, IsWhitespace, Blank;
    if s.TrimmedSize() > max {
      assert SplitOkAt(split, max, s.text);
      FragmentLinesExact(body, t, s, k, split(max, s.text)[k]);
    } else {
      WholeLinesExact(body, t, s);
    }
  }

  lemma SectionBytes(body: string, t: HeadingTree, s: Section)
    requires Document(body, t) && SectionOk(body, t, s)
    ensures body != "" && s.byteStart + |s.text| == Index(body).ByteRange(s.lineStart, s.lineEnd).end <= |body|
    ensures s.text == body[s.byteStart..s.byteStart + |s.text|]
  {
    RangeInText(body, s.lineStart, s.lineEnd);
    IndexIsExact(body);
  }

  lemma FragmentLinesExact(body: string, t: HeadingTree, s: Section, k: nat, f: Fragment)
    requires Document(body, t) && SectionOk(body, t, s) && Solid(f.text) && f.offset + |f.text| <= |s.text|
    requires f.text == s.text[f.offset..f.offset + |f.text|]
    ensures PieceAtLines(body, FragmentPiece(t, s, k, f))
  {
    hide Slice, Index, Newlines, Solid, LineIndex.ByteRange, LineIndex.LineOf, WellFormed, Trim;
    var at, end := s.byteStart + f.offset, s.byteStart + f.offset + |f.text|;
    assert |f.text| > 0 by { SolidText(f.text); }
    SectionBytes(body, t, s);
    FragmentText(body, s, f);
    LineOfCounts(body, at);
    LineOfCounts(body, end - 1);
    LineOfByteRange(body, s.lineStart, s.lineEnd, end - 1);
    LineOfMonotone(t.lines, at, end - 1);
    NewlinesStep(body, end);
  }

  lemma SolidText(s: string)
    requires Solid(s)
    ensures s != ""
  {
  }

  lemma FragmentText(body: string, s: Section, f: Fragment)
    requires s.byteStart + |s.text| <= |body| && s.text == body[s.byteStart..s.byteStart + |s.text|]
    requires f.offset + |f.text| <= |s.text| && f.text == s.text[f.offset..f.offset + |f.text|] && Solid(f.text)
    ensures var at := s.byteStart + f.offset;
      f.text == body[at..at + |f.text|] && body[at + |f.text| - 1] != '\n'
  {
    SliceOfSlice(body, s.byteStart, |s.text|, f.offset, |f.text|);
    var at := s.byteStart + f.offset;
    assert f.text[|f.text| - 1] == body[at..at + |f.text|][|f.text| - 1] == body[at + |f.text| - 1];
  }

  lemma SliceOfSlice(s: string, a: nat, n: nat, b: nat, m: nat)
    requires a + n <= |s| && b + m <= n
    ensures s[a..a + n][b..b + m] == s[a + b..a + b + m]
  {
    var part, same := s[a..a + n][b..b + m], s[a + b..a + b + m];
    assert forall i :: 0 <= i < m ==> part[i] == same[i];
  }

  lemma WholeLinesExact(body: string, t: HeadingTree, s: Section)
    requires Document(body, t) && SectionOk(body, t, s)
    ensures PieceAtLines(body, WholePiece(t, s))
  {
    hide Slice, Index, Newlines, LineIndex.ByteRange, LineIndex.LineOf, WellFormed, Trim;
    SectionBytes(body, t, s);
    var end := s.byteStart + |s.text|;
    LineOfCounts(body, s.byteStart);
    LineOfCounts(body, end);
    RangesOfEnds(body, s.lineStart, s.lineEnd);
    LineOfByteRange(body, s.lineStart, s.lineStart, s.byteStart);
    LineOfByteRange(body, s.lineEnd, s.lineEnd, end);
  }

  /** A run of lines starts where its first line starts and ends where its last line ends. */
  lemma RangesOfEnds(body: string, first: nat, last: nat)
    requires 1 <= first <= last <= Index(body).LineCount()
    ensures var r, a, b := Index(body).ByteRange(first, last), Index(body).ByteRange(first, first),
                           Index(body).ByteRange(last, last);
      r.start == a.start <= a.end && b.start <= b.end == r.end
  {
    RangeInText(body, first, first);
    RangeInText(body, last, last);
  }

  /** Neighbouring fragments do not go back in the document. */
  lemma FragmentsInOrder(body: string, t: HeadingTree, s: Section, split: Splitter, max: nat, k: nat)
    requires Document(body, t) && SectionOk(body, t, s) && SplitterInRange(split, max)
    requires k + 1 < |PiecesOf(t, s, split, max)|
    ensures PiecesOf(t, s, split, max)[k].lineEnd <= PiecesOf(t, s, split, max)[k + 1].lineStart
  {
    hide SectionOk, Document, Slice;
    var fs := split(max, s.text);
    assert SplitInRangeAt(split, max, s.text);
    var a, b := fs[k], fs[k + 1];
    assert a.offset + SatSub(|a.text|, 1) <= b.offset;
    LineOfMonotone(t.lines, s.byteStart + a.offset, s.byteStart + b.offset);
    LineOfMonotone(t.lines, s.byteStart + a.offset + SatSub(|a.text|, 1), s.byteStart + b.offset);
  }

  // ---- all sections ----

  ghost predicate OkAt(body: string, t: HeadingTree, ss: seq<Section>, k: nat)
    requires k < |ss|
  {
    SectionOk(body, t, ss[k])
  }

  ghost predicate SectionsOk(body: string, t: HeadingTree, ss: seq<Section>) {
    forall k: nat :: k < |ss| ==> OkAt(body, t, ss, k)
  }

  lemma ChainIsOk(body: string, t: HeadingTree, ss: seq<Section>, n: nat)
    requires Chain(body, t, ss) && n <= |ss|
    ensures SectionsOk(body, t, ss[..n])
  {
    forall k: nat | k < n
      ensures OkAt(body, t, ss[..n], k)
    {
      assert ChainAt(body, t, ss, k);
    }
  }

  /** Later sections come later: on later lines and with a higher rank. */
  lemma {:induction false} ChainOrdered(body: string, t: HeadingTree, ss: seq<Section>, i: nat, j: nat)
    requires Chain(body, t, ss) && i < j < |ss|
    ensures ss[i].lineEnd < ss[j].lineStart && Rank(ss[i].Id()) < Rank(ss[j].Id())
    decreases j - i
  {
    hide Slice, Trim, Index;
    assert ChainAt(body, t, ss, i) && ChainAt(body, t, ss, i + 1);
    if i + 1 < j { ChainOrdered(body, t, ss, i + 1, j); }
  }
}
