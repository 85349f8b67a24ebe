/** What an emitted chunk says of itself (src/chunk.rs): its lines, its section, the text put before
    its body, and the sizes the configuration asks for. */
module EmissionLaws {
  import opened Options
  import opened Lines
  import opened Headings
  import opened Ancestry
  import opened Chunks
  import opened Sectioning
  import opened ChunkLaws
  import opened Accumulation
  import opened Emission

  // ---- lines ----

  ghost predicate AllAtLines(body: string, g: Group) {
    forall k :: 0 <= k < |g| ==> PieceAtLines(body, g[k])
  }

  lemma ChunkPiecesAtLines(body: string, t: HeadingTree, split: Splitter, lim: Limits, i: nat)
    requires Document(body, t) && SplitterOk(split, lim.max)
    requires i < |Groups(t, Sections(body, t), split, lim)|
    ensures AllAtLines(body, Groups(t, Sections(body, t), split, lim)[i])
  {
    hide Groups, Sections, PiecesOf, SplitterOk, PieceAtLines, SectionOk, PieceOk, Document, Chain;
    var ss := Sections(body, t);
    var g := Groups(t, ss, split, lim)[i];
    SectionsChain(body, t);
    OkIsInRange(split, lim.max);
    forall k | 0 <= k < |g|
      ensures PieceAtLines(body, g[k])
    {
      var j, m := ChunkPieceOrigin(body, t, ss, split, lim, i, k);
      PieceLinesExact(body, t, ss[j], split, lim.max, m);
    }
  }

  /** A chunk's line range, exactly: from the line its first character is on to the line of its end. */
  lemma EmittedLines(body: string, t: HeadingTree, config: Config, description: Option<string>, split: Splitter, i: nat)
    requires Document(body, t) && SplitterOk(split, config.GetLimits().max)
    requires i < |Groups(t, Sections(body, t), split, config.GetLimits())|
    ensures var g := Groups(t, Sections(body, t), split, config.GetLimits())[i];
      && Emittable(t, g) && AllAtLines(body, g)
      && var c, last := Emit(t, config, description, g, i), g[|g| - 1];
         && g[0].at <= |body| && last.at + |last.text| <= |body|
         && c.lineStart == 1 + Newlines(body, g[0].at) && c.lineEnd == 1 + Newlines(body, last.at + |last.text|)
  {
    hide *;
    var lim := config.GetLimits();
    var g := Groups(t, Sections(body, t), split, lim)[i];
    OkIsInRange(split, lim.max);
    ChunkIsEmittable(body, t, split, lim, i);
    ChunkPiecesAtLines(body, t, split, lim, i);
    EmitSpan(t, config, description, g, i);
    AllAtLinesMeans(body, g, 0);
    AllAtLinesMeans(body, g, |g| - 1);
    AtLinesFits(body, g[0]);
    AtLinesFits(body, g[|g| - 1]);
  }

  lemma EmitSpan(t: HeadingTree, config: Config, description: Option<string>, g: Group, i: nat)
    requires Emittable(t, g)
    ensures g != []
    ensures var c := Emit(t, config, description, g, i);
      c.lineStart == g[0].lineStart && c.lineEnd == g[|g| - 1].lineEnd
  {
  }

  lemma AllAtLinesMeans(body: string, g: Group, k: nat)
    requires AllAtLines(body, g) && k < |g|
    ensures PieceAtLines(body, g[k])
  {
  }

  lemma AtLinesFits(body: string, p: Piece)
    requires PieceAtLines(body, p)
    ensures p.at + |p.text| <= |body|
    ensures p.lineStart == 1 + Newlines(body, p.at) && p.lineEnd == 1 + Newlines(body, p.at + |p.text|)
  {
  }

  // ---- section ----

  /** A chunk reports the heading it is attributed to by text, level and subtree lines; the preamble and
      the whole document by their lines alone. */
  lemma EmittedSection(t: HeadingTree, config: Config, description: Option<string>, g: Group, i: nat)
    requires Emittable(t, g)
    ensures var c := Emit(t, config, description, g, i);
      && c.index == i
      && match Attribution(t, g)
         case AtHeading(h) =>
           && c.headingPath != [] && c.headingPath[|c.headingPath| - 1] == t.headings[h].text
           && c.headingLevel == t.headings[h].level
           && c.sectionLineStart == t.headings[h].line && c.sectionLineEnd == t.headings[h].subtreeEnd
         case Preamble =>
           c.headingPath == [] && c.headingLevel == 0 && c.sectionLineStart == 1 && c.sectionLineEnd == t.PreambleEnd()
         case Root =>
           c.headingPath == [] && c.headingLevel == 0 && c.sectionLineStart == 1 && c.sectionLineEnd == t.LineCount()
  {
    var id := Attribution(t, g);
    if id.AtHeading? { PathListsAncestors(t, id.index); }
  }

  // ---- text ----

  /** Paths are joined with " > " between every two texts. */
  lemma {:induction false} JoinPathAppend(a: seq<string>, b: seq<string>)
    requires a != [] && b != []
    ensures JoinPath(a + b) == JoinPath(a) + " > " + JoinPath(b)
    ensures |a| == 1 ==> JoinPath(a) == a[0]
  {
    assert (a + b)[1..] == a[1..] + b;
    if |a| == 1 { assert a[1..] + b == b; } else { JoinPathAppend(a[1..], b); }
  }

  /** A breadcrumb of `n` characters and its separator leave enough of the chunk to its content. */
  predicate HasRoom(config: Config, n: nat) { n + 2 <= 200 && 4 * (n + 2) <= config.maxChunkSize }

  /** The breadcrumb text of a heading. */
  function Crumb(t: HeadingTree, b: nat): string
    requires Nested(t) && b < |t.headings|
  {
    JoinPath(Texts(t, PathNodes(t, Some(b))))
  }

  /** The breadcrumb before a chunk: as much of the path as there is room for, all of it if it fits, and
      nothing without a heading, without room, or when breadcrumbs are off. */
  lemma PrefixIs(t: HeadingTree, config: Config, b: Option<nat>)
    requires Nested(t) && Node(t, b)
    ensures var prefix := HeadingPrefix(t, config, b);
      if config.prependHeadingPath && b.Some? && HasRoom(config, 1) then
        exists n: nat :: n <= |Crumb(t, b.value)| && prefix == Crumb(t, b.value)[..n] + "\n\n"
          && HasRoom(config, n) && (n < |Crumb(t, b.value)| ==> !HasRoom(config, n + 1))
      else prefix == ""
  {
    hide JoinPath;
    if b.Some? {
      PathListsAncestors(t, b.value);
      var joined, room := Crumb(t, b.value), SatSub(HeadingPathBudget(config.maxChunkSize), 2);
      var n := if |joined| <= room then |joined| else room;
      assert joined[..|joined|] == joined;
      assert HasRoom(config, 1) <==> room > 0;
      if config.prependHeadingPath && room > 0 {
        assert HeadingPrefix(t, config, b) == joined[..n] + "\n\n";
        assert HasRoom(config, n) && (n < |joined| ==> !HasRoom(config, n + 1));
      }
    }
  }

  /** A chunk's text: the breadcrumb, then the description if there is one and it is wanted, then the body. */
  lemma EmittedText(t: HeadingTree, config: Config, description: string, g: Group, i: nat)
    requires Emittable(t, g)
    ensures var crumb := HeadingPrefix(t, config, Breadcrumb(t, g));
      var text := Emit(t, config, Some(description), g, i).text;
      && (config.prependDescription ==> text == crumb + description + "\n\n" + BodyText(g))
      && (!config.prependDescription ==> text == crumb + BodyText(g))
    ensures Emit(t, config, None, g, i).text == HeadingPrefix(t, config, Breadcrumb(t, g)) + BodyText(g)
  {
    var crumb, text := HeadingPrefix(t, config, Breadcrumb(t, g)), BodyText(g);
    assert crumb + (description + "\n\n") + text == crumb + description + "\n\n" + text;
    assert crumb + "" == crumb;
  }

  // ---- sizes ----

  /** The chunk size asked for: the target, or without one the maximum. */
  function SizeAsked(config: Config): nat {
    match config.targetChunkSize case Some(size) => size case None => config.maxChunkSize
  }

  /** What breadcrumbs take of the configured sizes: the most that leaves three quarters of a chunk, and
      no more than 200; nothing when they are off. */
  lemma LimitsAre(config: Config)
    ensures var lim, target := config.GetLimits(), SizeAsked(config);
      var reserve := config.maxChunkSize - lim.max;
      && 0 <= reserve <= 200 && 4 * reserve <= config.maxChunkSize
      && (config.prependHeadingPath ==> reserve == 200 || 4 * (reserve + 1) > config.maxChunkSize)
      && (!config.prependHeadingPath ==> reserve == 0)
      && lim.target == (if target >= reserve then target - reserve else 0)
      && lim.isolate == config.headingMetadata
  {
  }

  /** Neighbouring sections, neither oversized, end up in one chunk exactly if the chunk so far, a join, the
      next section and the room for breadcrumbs fit the configured target. */
  lemma SectionsFillTarget(t: HeadingTree, ss: seq<Section>, n: nat, split: Splitter, config: Config)
    returns (i: nat, k: nat)
    requires !config.headingMetadata && n + 1 < |ss|
    requires ss[n].TrimmedSize() <= config.GetLimits().max && ss[n + 1].TrimmedSize() <= config.GetLimits().max
    ensures var gs := Groups(t, ss, split, config.GetLimits());
      && i < |gs| && k < |gs[i]| && gs[i][k] == WholePiece(t, ss[n])
      && var size := TrimmedSize(gs[i][..k + 1]) + 2 + ss[n + 1].TrimmedSize();
         var reserve := config.maxChunkSize - config.GetLimits().max;
         if size + reserve <= SizeAsked(config)
         then k + 1 < |gs[i]| && gs[i][k + 1] == WholePiece(t, ss[n + 1])
         else k + 1 == |gs[i]| && i + 1 < |gs| && gs[i + 1] != [] && gs[i + 1][0] == WholePiece(t, ss[n + 1])
  {
    hide Groups, TrimmedSize, WholePiece;
    LimitsAre(config);
    i, k := NeighboursMergeWhileTheyFit(t, ss, n, split, config.GetLimits());
  }
}
