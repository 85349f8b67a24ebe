/** What chunking does (src/chunk.rs), said on values: the body is cut into sections, the
    sections into pieces, and the pieces are grouped into chunks in document order. */
module Chunks {
  import opened Options
  import opened Text
  import opened Lines
  import opened Headings
  import opened Ancestry

  /** Fragments smaller than this are merged into a neighbour. */
  const MIN_MERGE_SIZE := 200
  const MAX_HEADING_PATH_CHARS := 200

  datatype Config = Config(
    maxChunkSize: nat, targetChunkSize: Option<nat>, prependDescription: bool,
    prependHeadingPath: bool, headingMetadata: bool)
  {
    function Target(): nat {
      if targetChunkSize.Some? then targetChunkSize.value else maxChunkSize
    }

    function HeadingReserve(): nat {
      if prependHeadingPath then HeadingPathBudget(maxChunkSize) else 0
    }

    function GetLimits(): Limits {
      Limits(SatSub(maxChunkSize, HeadingReserve()), SatSub(Target(), HeadingReserve()), headingMetadata)
    }
  }

  /** The sizes the grouping decisions use, and whether sections are kept apart. */
  datatype Limits = Limits(max: nat, target: nat, isolate: bool)

  function SatSub(a: nat, b: nat): nat { if a < b then 0 else a - b }

  function HeadingPathBudget(maxChunkSize: nat): nat {
    if MAX_HEADING_PATH_CHARS < maxChunkSize / 4 then MAX_HEADING_PATH_CHARS else maxChunkSize / 4
  }

  // ---- sections ----

  datatype Section = Section(text: string, byteStart: nat, lineStart: nat, lineEnd: nat, heading: Option<nat>) {

    function Id(): SectionId {
      match heading case None => Preamble case Some(i) => AtHeading(i)
    }

    /** Breadcrumb of a piece that starts with the section's heading line. Sections come from the
        tree, so the heading is always one of its headings. */
    function LeadingBreadcrumb(t: HeadingTree): Option<nat> {
      match heading case None => None case Some(i) => if i < |t.headings| then t.headings[i].parent else None
    }

    function TrimmedSize(): nat { |Trim(text)| }
  }

  function SectionOver(body: string, first: nat, last: nat, heading: Option<nat>): Section {
    Section(Slice(body, first, last), Index(body).ByteRange(first, last).start, first, last, heading)
  }

  /** Whether the lines before the first heading hold anything to keep. */
  predicate HasPreamble(body: string, t: HeadingTree) {
    t.PreambleEnd() > 0 && Trim(Slice(body, 1, t.PreambleEnd())) != ""
  }

  /** Section `k` when the first `pre` sections (none or one) are the preamble. */
  function SectionNo(body: string, t: HeadingTree, pre: nat, k: nat): Section
    requires k < pre + |t.headings|
  {
    if k < pre then SectionOver(body, 1, t.PreambleEnd(), None)
    else SectionOver(body, t.headings[k - pre].line, t.headings[k - pre].sectionEnd, Some(k - pre))
  }

  function SectionsWith(body: string, t: HeadingTree, pre: nat): (r: seq<Section>)
    ensures |r| == pre + |t.headings|
  {
    seq(pre + |t.headings|, k requires 0 <= k < pre + |t.headings| => SectionNo(body, t, pre, k))
  }

  /** The kept preamble, if any, then one section per heading. */
  function Sections(body: string, t: HeadingTree): seq<Section> {
    SectionsWith(body, t, if HasPreamble(body, t) then 1 else 0)
  }

  // ---- pieces ----

  /** What the size splitter yields: an offset into the section text and the fragment there. */
  datatype Fragment = Fragment(offset: nat, text: string)

  /** A run of body text that goes into one chunk whole, with what it would have as a chunk
      of its own. `at` is its byte offset in the body. */
  datatype Piece = Piece(
    text: string, at: nat, lineStart: nat, lineEnd: nat, breadcrumb: Option<nat>, section: SectionId)

  function WholePiece(t: HeadingTree, s: Section): Piece
  {
    Piece(s.text, s.byteStart, s.lineStart, s.lineEnd, s.LeadingBreadcrumb(t), s.Id())
  }

  function FragmentPiece(t: HeadingTree, s: Section, k: nat, f: Fragment): Piece
  {
    var at := s.byteStart + f.offset;
    var lineStart := t.lines.LineOf(at);
    var last := t.lines.LineOf(at + SatSub(|f.text|, 1));
    var clamped := if last < s.lineEnd then last else s.lineEnd;
    Piece(f.text, at, lineStart, if clamped < lineStart then lineStart else clamped,
          if k == 0 then s.LeadingBreadcrumb(t) else s.heading, s.Id())
  }

  function FragmentPieces(t: HeadingTree, s: Section, fs: seq<Fragment>): (r: seq<Piece>)
    ensures |r| == |fs|
  {
    seq(|fs|, k requires 0 <= k < |fs| => FragmentPiece(t, s, k, fs[k]))
  }

  /** The library splitter, as a function of the size limit and the section text. */
  type Splitter = (nat, string) -> seq<Fragment>

  function PiecesOf(t: HeadingTree, s: Section, split: Splitter, max: nat): seq<Piece>
  {
    if s.TrimmedSize() > max then FragmentPieces(t, s, split(max, s.text)) else [WholePiece(t, s)]
  }

  /** The pieces that end up in one chunk; never empty once it is a chunk. */
  type Group = seq<Piece>

  ghost function Flatten(gs: seq<Group>): seq<Piece> {
    if gs == [] then [] else Flatten(gs[..|gs| - 1]) + gs[|gs| - 1]
  }

  ghost function PieceLists(t: HeadingTree, sections: seq<Section>, split: Splitter, max: nat): (r: seq<Group>)
    ensures |r| == |sections|
  {
    seq(|sections|, j requires 0 <= j < |sections| => PiecesOf(t, sections[j], split, max))
  }

  /** Section texts, or their fragments where a section is oversized, in document order. */
  ghost function AllPieces(t: HeadingTree, sections: seq<Section>, split: Splitter, max: nat): seq<Piece>
  {
    Flatten(PieceLists(t, sections, split, max))
  }

  // ---- what a group of pieces becomes ----

  ghost function BodyText(g: Group): string {
    if g == [] then ""
    else if |g| == 1 then g[0].text
    else BodyText(g[..|g| - 1]) + "\n\n" + g[|g| - 1].text
  }

  ghost predicate GoodPiece(t: HeadingTree, p: Piece) {
    Node(t, p.breadcrumb) && p.section.Valid(t)
  }

  ghost predicate GoodGroup(t: HeadingTree, g: Group) {
    forall k :: 0 <= k < |g| ==> GoodPiece(t, g[k])
  }

  /** The deepest heading common to the breadcrumbs the pieces would have had. */
  ghost function Breadcrumb(t: HeadingTree, g: Group): Option<nat> {
    if g == [] then None
    else if |g| == 1 then g[0].breadcrumb
    else
      var front := Breadcrumb(t, g[..|g| - 1]);
      var last := g[|g| - 1].breadcrumb;
      if Nested(t) && Node(t, front) && Node(t, last) then CommonAncestor(t, front, last) else None
  }

  /** The narrowest section containing every piece. */
  ghost function Attribution(t: HeadingTree, g: Group): SectionId {
    if g == [] then Root
    else if |g| == 1 then g[0].section
    else
      var front := Attribution(t, g[..|g| - 1]);
      var last := g[|g| - 1].section;
      if Nested(t) && front.Valid(t) && last.Valid(t) then front.Merge(last, t) else Root
  }

  ghost function TrimmedSize(g: Group): nat { |Trim(BodyText(g))| }

  // ---- grouping the fragments of one oversized section ----

  /** Finished groups, and the small group still waiting for its next fragment (or none). */
  datatype Frags = Frags(done: seq<Group>, pending: Group)

  ghost function FragStep(fr: Frags, p: Piece, max: nat): Frags {
    if fr.pending != [] then
      var size := TrimmedSize(fr.pending);
      if size + 2 + |Trim(p.text)| <= max || size < MIN_MERGE_SIZE then
        var merged := fr.pending + [p];
        if TrimmedSize(merged) < MIN_MERGE_SIZE then Frags(fr.done, merged) else Frags(fr.done + [merged], [])
      else if |Trim(p.text)| < MIN_MERGE_SIZE then Frags(fr.done + [fr.pending], [p])
      else Frags(fr.done + [fr.pending] + [[p]], [])
    else if |Trim(p.text)| < MIN_MERGE_SIZE then Frags(fr.done, [p])
    else Frags(fr.done + [[p]], [])
  }

  ghost function FragRun(done: seq<Group>, ps: seq<Piece>, max: nat): Frags {
    if ps == [] then Frags(done, []) else FragStep(FragRun(done, ps[..|ps| - 1], max), ps[|ps| - 1], max)
  }

  /** A trailing small fragment joins the last chunk if it fits and may. */
  ghost function TailMerge(t: HeadingTree, fr: Frags, lim: Limits): seq<Group> {
    if fr.pending == [] then fr.done
    else if fr.done == [] then [fr.pending]
    else
      var n := |fr.done| - 1;
      var last := fr.done[n];
      if TrimmedSize(last) + 2 + TrimmedSize(fr.pending) <= lim.max
         && (Attribution(t, last) == Attribution(t, fr.pending) || !lim.isolate)
      then fr.done[..n] + [last + fr.pending]
      else fr.done + [fr.pending]
  }

  // ---- grouping sections ----

  /** Finished groups, and the group being accumulated (or none). */
  datatype State = State(chunks: seq<Group>, current: Group)

  ghost function Flush(st: State): seq<Group> {
    if st.current == [] then st.chunks else st.chunks + [st.current]
  }

  ghost function SectionStep(t: HeadingTree, st: State, s: Section, split: Splitter, lim: Limits): State
  {
    if s.TrimmedSize() > lim.max then
      State(TailMerge(t, FragRun(Flush(st), PiecesOf(t, s, split, lim.max), lim.max), lim), [])
    else
      var w := WholePiece(t, s);
      var combined := if st.current != [] then TrimmedSize(st.current) + 2 + s.TrimmedSize() else s.TrimmedSize();
      if combined <= lim.target && !lim.isolate then State(st.chunks, st.current + [w])
      else State(Flush(st), [w])
  }

  ghost function Run(t: HeadingTree, sections: seq<Section>, split: Splitter, lim: Limits): State
  {
    if sections == [] then State([], []) else
    SectionStep(t, Run(t, sections[..|sections| - 1], split, lim), sections[|sections| - 1], split, lim)
  }

  ghost function Groups(t: HeadingTree, sections: seq<Section>, split: Splitter, lim: Limits): seq<Group>
  {
    Flush(Run(t, sections, split, lim))
  }
}
