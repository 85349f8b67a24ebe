/** From a group of pieces to the emitted chunk (src/chunk.rs): prefixes, offsets, ranges. */
module Emission {
  import opened Options
  import opened Headings
  import opened Ancestry
  import opened Chunks
  import opened Sectioning
  import opened ChunkLaws
  import opened ChunkSizes

  datatype Chunk = Chunk(
    text: string, index: nat, lineStart: nat, lineEnd: nat, headingPath: seq<string>, headingLevel: nat,
    sectionLineStart: nat, sectionLineEnd: nat, bodyOffset: nat)

  function JoinPath(path: seq<string>): string {
    if path == [] then "" else if |path| == 1 then path[0] else path[0] + " > " + JoinPath(path[1..])
  }

  /** The breadcrumb text, cut to the budget; none for an empty path or no budget. */
  function FormatHeadingPath(path: seq<string>, budget: nat): (r: Option<string>)
    ensures r.Some? ==> |r.value| <= budget
    ensures r.None? <==> path == [] || budget == 0
  {
    if path == [] || budget == 0 then None
    else if |JoinPath(path)| <= budget then Some(JoinPath(path))
    else Some(JoinPath(path)[..budget])
  }

  function HeadingOf(id: SectionId): Option<nat> {
    if id.AtHeading? then Some(id.index) else None
  }

  function Level(t: HeadingTree, id: SectionId): nat
    requires id.Valid(t)
  {
    if id.AtHeading? then t.headings[id.index].level else 0
  }

  /** Breadcrumb and its separator, or nothing. */
  function HeadingPrefix(t: HeadingTree, config: Config, b: Option<nat>): string
    requires Nested(t) && Node(t, b)
  {
    if !config.prependHeadingPath then "" else
    match FormatHeadingPath(Texts(t, PathNodes(t, b)), SatSub(config.HeadingReserve(), 2))
    case None => ""
    case Some(prefix) => prefix + "\n\n"
  }

  function DescriptionPrefix(config: Config, description: Option<string>): string {
    if config.prependDescription && description.Some? then description.value + "\n\n" else ""
  }

  ghost predicate Emittable(t: HeadingTree, g: Group) {
    Nested(t) && g != [] && Node(t, Breadcrumb(t, g)) && Attribution(t, g).Valid(t)
  }

  ghost function Emit(t: HeadingTree, config: Config, description: Option<string>, g: Group, index: nat): Chunk
    requires Emittable(t, g)
  {
    var prefix := HeadingPrefix(t, config, Breadcrumb(t, g)) + DescriptionPrefix(config, description);
    var id := Attribution(t, g);
    Chunk(prefix + BodyText(g), index, g[0].lineStart, g[|g| - 1].lineEnd,
          Texts(t, PathNodes(t, HeadingOf(id))), Level(t, id), id.First(t), id.Last(t), |prefix|)
  }

  lemma ChunkIsEmittable(body: string, t: HeadingTree, split: Splitter, lim: Limits, i: nat)
    requires Document(body, t) && SplitterInRange(split, lim.max)
    requires i < |Groups(t, Sections(body, t), split, lim)|
    ensures Emittable(t, Groups(t, Sections(body, t), split, lim)[i])
  {
    SectionsChain(body, t);
    ChunkIsGood(body, t, Sections(body, t), split, lim, i);
    GoodIsEmittable(t, Groups(t, Sections(body, t), split, lim)[i]);
  }

  lemma {:induction false} GoodIsEmittable(t: HeadingTree, g: Group)
    requires Nested(t) && g != [] && GoodGroup(t, g)
    ensures Emittable(t, g)
  {
    assert GoodPiece(t, g[|g| - 1]);
    if |g| > 1 { GoodIsEmittable(t, g[..|g| - 1]); }
  }

  /** An emitted chunk holds its body at `bodyOffset`, lies within the range it reports for its
      section, and starts no earlier than the chunk before it ends. */
  lemma EmittedChunk(body: string, t: HeadingTree, config: Config, description: Option<string>, split: Splitter, i: nat)
    requires Document(body, t) && SplitterInRange(split, config.GetLimits().max)
    requires i < |Groups(t, Sections(body, t), split, config.GetLimits())|
    ensures var gs := Groups(t, Sections(body, t), split, config.GetLimits());
      && Emittable(t, gs[i])
      && var c := Emit(t, config, description, gs[i], i);
      && c.bodyOffset <= |c.text| && c.text[c.bodyOffset..] == BodyText(gs[i])
      && 1 <= c.sectionLineStart <= c.lineStart <= c.lineEnd <= c.sectionLineEnd <= t.LineCount()
      && (i + 1 < |gs| ==>
           Emittable(t, gs[i + 1]) && c.lineEnd <= Emit(t, config, description, gs[i + 1], i + 1).lineStart)
  {
    var lim := config.GetLimits();
    ChunkIsEmittable(body, t, split, lim, i);
    ChunkLines(body, t, split, lim, i);
    if i + 1 < |Groups(t, Sections(body, t), split, lim)| { ChunkIsEmittable(body, t, split, lim, i + 1); }
  }

  /** The breadcrumb and its separator stay within what was reserved for them. */
  lemma PrefixFitsReserve(t: HeadingTree, config: Config, b: Option<nat>)
    requires Nested(t) && Node(t, b)
    ensures |HeadingPrefix(t, config, b)| <= config.HeadingReserve() <= config.maxChunkSize
  {
  }

  /** Without a description, breadcrumb and content together exceed the configured maximum by
      less than one small fragment and a join. */
  lemma EmittedSize(body: string, t: HeadingTree, config: Config, split: Splitter, i: nat)
    requires Document(body, t) && SplitterOk(split, config.GetLimits().max)
    requires config.Target() <= config.maxChunkSize && HeadingsVisible(Sections(body, t))
    requires i < |Groups(t, Sections(body, t), split, config.GetLimits())|
    ensures var g := Groups(t, Sections(body, t), split, config.GetLimits())[i];
      && Emittable(t, g)
      && Emit(t, config, None, g, i).bodyOffset + ContentSize(g) <= config.maxChunkSize + MIN_MERGE_SIZE + 1
      && (config.headingMetadata ==>
           Emit(t, config, None, g, i).bodyOffset + TrimmedSize(g) <= config.maxChunkSize + MIN_MERGE_SIZE + 1)
  {
    var lim := config.GetLimits();
    var ss := Sections(body, t);
    OkIsInRange(split, lim.max);
    ChunkIsEmittable(body, t, split, lim, i);
    var g := Groups(t, ss, split, lim)[i];
    PrefixFitsReserve(t, config, Breadcrumb(t, g));
    ChunkSizeBound(t, ss, split, lim, i);
    if config.headingMetadata { IsolatedChunkSize(body, t, split, lim, i); }
  }
}
