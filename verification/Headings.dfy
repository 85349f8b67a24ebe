/** The heading tree (src/heading.rs): ancestry and line ranges computed from the list of
    headings with a stack, common ancestors, and the section a chunk is attributed to. */
module Headings {
  import opened Options
  import opened Lines
  import HeadingText

  /** A top-level heading as the markdown parser reports it, text not yet cleaned. */
  datatype Candidate = Candidate(level: nat, line: nat, raw: string)

  datatype Found = Found(level: nat, line: nat, text: string)

  datatype Heading = Heading(
    level: nat, text: string, line: nat, parent: Option<nat>, sectionEnd: nat, subtreeEnd: nat)

  datatype HeadingTree = HeadingTree(headings: seq<Heading>, lines: LineIndex) {

    function LineCount(): nat { lines.LineCount() }

    function PreambleEnd(): nat {
      if headings == [] then LineCount() else SatPred(headings[0].line)
    }
  }

  function SatPred(n: nat): nat { if n == 0 then 0 else n - 1 }

  function Max(a: nat, b: nat): nat { if a < b then b else a }

  // ---- which headings are kept ----

  /** The candidates with their text cleaned. */
  function Cleaned(candidates: seq<Candidate>): seq<Found> {
    seq(|candidates|, i requires 0 <= i < |candidates| =>
      Found(candidates[i].level, candidates[i].line, HeadingText.Clean(candidates[i].raw)))
  }

  /** Headings with visible text, the first one on each line only. */
  function Kept(cleaned: seq<Found>): seq<Found> {
    if cleaned == [] then [] else
    var found := Kept(cleaned[..|cleaned| - 1]);
    var c := cleaned[|cleaned| - 1];
    if c.text != "" && (found == [] || c.line > found[|found| - 1].line) then found + [c] else found
  }

  /** Whatever order the parser reports, the kept headings are on strictly increasing lines
      and never empty. */
  lemma {:induction false} KeptAscend(cleaned: seq<Found>, lineCount: nat)
    requires forall i :: 0 <= i < |cleaned| ==> 1 <= cleaned[i].line <= lineCount
    ensures LinesAscend(Kept(cleaned), lineCount)
    ensures forall i :: 0 <= i < |Kept(cleaned)| ==> Kept(cleaned)[i].text != ""
  {
    if cleaned != [] {
      KeptAscend(cleaned[..|cleaned| - 1], lineCount);
    }
  }

  /** Every heading that shows something stands above the line. */
  ghost predicate Clear(cleaned: seq<Found>, line: nat) {
    forall j :: 0 <= j < |cleaned| && cleaned[j].text != "" ==> cleaned[j].line < line
  }

  /** It shows something, and stands below every earlier one that does. */
  ghost predicate Leads(cleaned: seq<Found>, i: nat)
    requires i < |cleaned|
  {
    cleaned[i].text != "" && Clear(cleaned[..i], cleaned[i].line)
  }

  lemma ClearSnoc(cleaned: seq<Found>, line: nat)
    requires cleaned != []
    ensures var n := |cleaned| - 1;
      Clear(cleaned, line) <==> Clear(cleaned[..n], line) && (cleaned[n].text != "" ==> cleaned[n].line < line)
  {
    var n := |cleaned| - 1;
    assert forall j :: 0 <= j < n ==> cleaned[..n][j] == cleaned[j];
  }

  /** The last heading kept so far stands on the lowest line of all that show something. */
  lemma {:induction false} LastKept(cleaned: seq<Found>, line: nat)
    ensures var found := Kept(cleaned);
      (found == [] || found[|found| - 1].line < line) <==> Clear(cleaned, line)
  {
    hide Clear;
    if cleaned == [] {
      assert Clear([], line) by { ClearNone(line); }
    } else {
      var n := |cleaned| - 1;
      LastKept(cleaned[..n], line);
      LastKept(cleaned[..n], cleaned[n].line);
      ClearSnoc(cleaned, line);
      if Clear(cleaned[..n], cleaned[n].line) && cleaned[n].line < line {
        ClearBelow(cleaned[..n], cleaned[n].line, line);
      }
    }
  }

  lemma ClearNone(line: nat)
    ensures Clear([], line)
  {
  }

  lemma ClearBelow(cleaned: seq<Found>, upper: nat, lower: nat)
    requires Clear(cleaned, upper) && upper < lower
    ensures Clear(cleaned, lower)
  {
  }

  lemma KeptSnoc(cleaned: seq<Found>)
    requires cleaned != []
    ensures var n := |cleaned| - 1;
      Kept(cleaned) == Kept(cleaned[..n]) + if Leads(cleaned, n) then [cleaned[n]] else []
  {
    hide Clear;
    var n := |cleaned| - 1;
    LastKept(cleaned[..n], cleaned[n].line);
  }

  lemma LeadsBefore(cleaned: seq<Found>, n: nat, i: nat)
    requires i < n <= |cleaned|
    ensures Leads(cleaned[..n], i) <==> Leads(cleaned, i)
  {
    assert cleaned[..n][..i] == cleaned[..i];
  }

  ghost predicate LeadsAs(cleaned: seq<Found>, i: nat, f: Found) {
    i < |cleaned| && cleaned[i] == f && Leads(cleaned, i)
  }

  /** Exactly the headings that show something and lead are kept. */
  lemma {:induction false} KeptLead(cleaned: seq<Found>, f: Found)
    ensures f in Kept(cleaned) <==> exists i: nat :: LeadsAs(cleaned, i, f)
  {
    hide Kept, Leads;
    if cleaned == [] {
      assert Kept(cleaned) == [] by { KeptNone(); }
    } else {
      var n := |cleaned| - 1;
      KeptLead(cleaned[..n], f);
      KeptSnoc(cleaned);
      forall i: nat
        ensures LeadsAs(cleaned, i, f)
                <==> LeadsAs(cleaned[..n], i, f) || (i == n && cleaned[n] == f && Leads(cleaned, n))
      {
        if i < n { LeadsBefore(cleaned, n, i); }
      }
      assert Leads(cleaned, n) && cleaned[n] == f ==> LeadsAs(cleaned, n, f);
    }
  }

  lemma KeptNone()
    ensures Kept([]) == []
  {
  }

  /** The heading shows something and is the first on its line that does. */
  ghost predicate FirstOnLine(cleaned: seq<Found>, i: nat, f: Found) {
    && i < |cleaned| && cleaned[i] == f && f.text != ""
    && forall j :: 0 <= j < i && cleaned[j].text != "" ==> cleaned[j].line != f.line
  }

  /** For headings reported in line order, those kept are the first on each line that show something. */
  lemma KeptIsFirstOnLine(cleaned: seq<Found>, f: Found)
    requires forall j, k :: 0 <= j < k < |cleaned| ==> cleaned[j].line <= cleaned[k].line
    ensures f in Kept(cleaned) <==> exists i: nat :: FirstOnLine(cleaned, i, f)
  {
    hide Kept;
    KeptLead(cleaned, f);
    forall i: nat
      ensures LeadsAs(cleaned, i, f) <==> FirstOnLine(cleaned, i, f)
    {
      if i < |cleaned| { assert forall j :: 0 <= j < i ==> cleaned[..i][j] == cleaned[j]; }
    }
  }

  lemma CleanedAt(candidates: seq<Candidate>)
    ensures |Cleaned(candidates)| == |candidates|
    ensures forall i :: 0 <= i < |candidates| ==>
      Cleaned(candidates)[i] == Found(candidates[i].level, candidates[i].line, HeadingText.Clean(candidates[i].raw))
  {
  }

  method KeepHeadings(candidates: seq<Candidate>) returns (found: seq<Found>)
    ensures found == Kept(Cleaned(candidates))
  {
    hide Cleaned, HeadingText.Clean;
    found := [];
    ghost var cleaned := Cleaned(candidates);
    CleanedAt(candidates);
    for i := 0 to |candidates|
      invariant found == Kept(cleaned[..i])
    {
      var c := candidates[i];
      assert cleaned[..i + 1][..i] == cleaned[..i] && cleaned[..i + 1][i] == cleaned[i];
      var text := HeadingText.CleanHeadingText(c.raw);
      var newLine := found == [] || c.line > found[|found| - 1].line;
      if text != "" && newLine {
        found := found + [Found(c.level, c.line, text)];
      }
    }
    assert cleaned[..|candidates|] == cleaned;
  }

  // ---- the tree, declaratively ----

  /** Nearest heading before `k` of level strictly below `level`. */
  function NearestLower(fs: seq<Found>, k: nat, level: nat): (p: Option<nat>)
    requires k <= |fs|
    ensures p.Some? ==> p.value < k
  {
    if k == 0 then None
    else if fs[k - 1].level < level then Some(k - 1)
    else NearestLower(fs, k - 1, level)
  }

  lemma {:induction false} NearestLowerIsNearest(fs: seq<Found>, k: nat, level: nat)
    requires k <= |fs|
    ensures match NearestLower(fs, k, level)
      case None => forall j :: 0 <= j < k ==> fs[j].level >= level
      case Some(i) => i < k && fs[i].level < level && forall j :: i < j < k ==> fs[j].level >= level
  {
    if k > 0 {
      NearestLowerIsNearest(fs, k - 1, level);
    }
  }

  /** First of the headings `k..n` whose level is at most `level`, or `n`. */
  function NextAtOrAbove(fs: seq<Found>, n: nat, k: nat, level: nat): (e: nat)
    requires k <= n <= |fs|
    ensures k <= e <= n
    decreases n - k
  {
    if k == n || fs[k].level <= level then k else NextAtOrAbove(fs, n, k + 1, level)
  }

  lemma {:induction false} NextIsFirst(fs: seq<Found>, n: nat, k: nat, level: nat)
    requires k <= n <= |fs|
    ensures var e := NextAtOrAbove(fs, n, k, level);
      && (forall j :: k <= j < e ==> fs[j].level > level)
      && (e < n ==> fs[e].level <= level)
    decreases n - k
  {
    if k < n && fs[k].level > level {
      NextIsFirst(fs, n, k + 1, level);
    }
  }

  /** The line before heading `next`, or the last line when there are only `n` headings. */
  function EndBefore(fs: seq<Found>, n: nat, next: nat, lineCount: nat): nat
    requires n <= |fs|
  {
    if next < n then SatPred(fs[next].line) else lineCount
  }

  /** Heading `i` as it should be once the first `n` headings have been read. */
  function Record(fs: seq<Found>, n: nat, i: nat, lineCount: nat): Heading
    requires i < n <= |fs|
  {
    var f := fs[i];
    Heading(f.level, f.text, f.line, NearestLower(fs, i, f.level),
            EndBefore(fs, n, i + 1, lineCount),
            EndBefore(fs, n, NextAtOrAbove(fs, n, i + 1, f.level), lineCount))
  }

  ghost function AsFound(hs: seq<Heading>): seq<Found> {
    seq(|hs|, i requires 0 <= i < |hs| => Found(hs[i].level, hs[i].line, hs[i].text))
  }

  ghost predicate LinesAscend(fs: seq<Found>, lineCount: nat) {
    && (forall i :: 0 <= i < |fs| ==> 1 <= fs[i].line <= lineCount)
    && (forall i, j :: 0 <= i < j < |fs| ==> fs[i].line < fs[j].line)
  }

  ghost predicate IsRecord(hs: seq<Heading>, fs: seq<Found>, i: nat, lineCount: nat)
    requires i < |hs| <= |fs|
  {
    hs[i] == Record(fs, |hs|, i, lineCount)
  }

  ghost predicate RecordsAre(hs: seq<Heading>, fs: seq<Found>, lineCount: nat) {
    |hs| <= |fs| && forall i: nat :: i < |hs| ==> IsRecord(hs, fs, i, lineCount)
  }

  /** All the ancestor walks rely on: a parent comes before its child. */
  ghost predicate Nested(t: HeadingTree) {
    forall i :: 0 <= i < |t.headings| ==> t.headings[i].parent.Some? ==> t.headings[i].parent.value < i
  }

  ghost predicate WellFormed(t: HeadingTree) {
    && LinesAscend(AsFound(t.headings), t.LineCount())
    && RecordsAre(t.headings, AsFound(t.headings), t.LineCount())
    && Nested(t)
  }

  /** The tree those records make. */
  function TreeOf(fs: seq<Found>, lines: LineIndex): HeadingTree {
    HeadingTree(seq(|fs|, i requires 0 <= i < |fs| => Record(fs, |fs|, i, lines.LineCount())), lines)
  }

  // ---- the stack pass ----

  /** Nothing after heading `i` among the first `n` is at or above its level. */
  ghost predicate Open(fs: seq<Found>, n: nat, i: nat)
    requires n <= |fs|
  {
    i < n && forall j :: i < j < n ==> fs[j].level > fs[i].level
  }

  /** The stack holds exactly the open headings, in document order. */
  ghost predicate StackIs(fs: seq<Found>, n: nat, stack: seq<nat>)
    requires n <= |fs|
  {
    && (forall k, l :: 0 <= k < l < |stack| ==> stack[k] < stack[l])
    && (forall k :: 0 <= k < |stack| ==> Open(fs, n, stack[k]))
    && (forall i: nat :: Open(fs, n, i) ==> i in stack)
  }

  /** What is left of it once every heading at `level` or deeper is popped. */
  ghost predicate Surviving(fs: seq<Found>, n: nat, left: seq<nat>, level: nat)
    requires n <= |fs|
  {
    && (forall k, l :: 0 <= k < l < |left| ==> left[k] < left[l])
    && (forall k :: 0 <= k < |left| ==> Open(fs, n, left[k]) && fs[left[k]].level < level)
    && (forall i: nat :: Open(fs, n, i) && fs[i].level < level ==> i in left)
  }

  /** Reading the next heading changes an earlier record in two ways only: first its section
      ends if it was the newest, then its subtree ends if it was open and not shallower. */
  ghost predicate Ended(hs: seq<Heading>, ended: seq<Heading>, line: nat) {
    |ended| == |hs| && forall i :: 0 <= i < |hs| ==>
      ended[i] == if i == |hs| - 1 then hs[i].(sectionEnd := SatPred(line)) else hs[i]
  }

  ghost predicate Closed(ended: seq<Heading>, closed: seq<Heading>, fs: seq<Found>) {
    |closed| == |ended| < |fs| && forall i :: 0 <= i < |ended| ==>
      closed[i] == if Open(fs, |ended|, i) && fs[i].level >= fs[|ended|].level
                   then ended[i].(subtreeEnd := SatPred(fs[|ended|].line)) else ended[i]
  }

  lemma RecordStep(hs: seq<Heading>, ended: seq<Heading>, closed: seq<Heading>, fs: seq<Found>, i: nat, lineCount: nat)
    requires i < |hs| < |fs| && IsRecord(hs, fs, i, lineCount)
    requires Ended(hs, ended, fs[|hs|].line) && Closed(ended, closed, fs)
    ensures closed[i] == Record(fs, |hs| + 1, i, lineCount)
  {
    var n := |hs|;
    var e := NextAtOrAbove(fs, n, i + 1, fs[i].level);
    var e' := NextAtOrAbove(fs, n + 1, i + 1, fs[i].level);
    NextIsFirst(fs, n, i + 1, fs[i].level);
    NextIsFirst(fs, n + 1, i + 1, fs[i].level);
    assert e < n ==> e' == e;
    assert Open(fs, n, i) <==> e == n;
  }

  /** The headings of the stack from place `kept` on have had their subtrees ended. */
  ghost predicate Popped(hs: seq<Heading>, hs': seq<Heading>, stack: seq<nat>, kept: nat, line: nat)
    requires kept <= |stack|
  {
    |hs'| == |hs| && forall i :: 0 <= i < |hs| ==>
      hs'[i] == if i in stack[kept..] then hs[i].(subtreeEnd := SatPred(line)) else hs[i]
  }

  lemma PopOne(hs: seq<Heading>, hs': seq<Heading>, stack: seq<nat>, kept: nat, line: nat)
    requires kept < |stack| && stack[kept] < |hs| && Popped(hs, hs', stack, kept + 1, line)
    ensures |hs'| == |hs| && hs'[stack[kept]].line == hs[stack[kept]].line
    ensures Popped(hs, hs'[stack[kept] := hs'[stack[kept]].(subtreeEnd := SatPred(line))], stack, kept, line)
  {
    assert stack[kept..] == [stack[kept]] + stack[kept + 1..];
  }

  lemma PoppedLevel(hs: seq<Heading>, hs': seq<Heading>, stack: seq<nat>, kept: nat, line: nat, i: nat)
    requires kept <= |stack| && i < |hs| && Popped(hs, hs', stack, kept, line)
    ensures |hs'| == |hs| && hs'[i].level == hs[i].level
  {
  }

  /** Pop every open heading at `level` or deeper, ending its subtree before `line`. */
  method CloseSubtrees(hs: seq<Heading>, stack: seq<nat>, level: nat, line: nat, ghost fs: seq<Found>)
    returns (hs': seq<Heading>, stack': seq<nat>)
    requires |hs| < |fs| && fs[|hs|].level == level && fs[|hs|].line == line
    requires StackIs(fs, |hs|, stack)
    requires forall i :: 0 <= i < |hs| ==>
               hs[i].level == fs[i].level && hs[i].line == fs[i].line && hs[i].line < line
    ensures Surviving(fs, |hs|, stack', level)
    ensures Closed(hs, hs', fs)
  {
    hide Popped, StackIs, Surviving, Open;
    hs', stack' := hs, stack;
    StackInRange(fs, |hs|, stack);
    NonePopped(hs, stack, line);
    while stack' != [] && hs'[stack'[|stack'| - 1]].level >= level
      invariant |stack'| <= |stack| && stack' == stack[..|stack'|] && |hs'| == |hs|
      invariant forall k :: |stack'| <= k < |stack| ==> fs[stack[k]].level >= level
      invariant Popped(hs, hs', stack, |stack'|, line)
      decreases |stack'|
    {
      var kept := |stack'| - 1;
      var top := stack'[kept];
      PoppedLevel(hs, hs', stack, kept + 1, line, top);
      PopOne(hs, hs', stack, kept, line);
      hs' := hs'[top := hs'[top].(subtreeEnd := Max(SatPred(line), hs'[top].line))];
      stack' := stack'[..kept];
    }
    if stack' != [] { PoppedLevel(hs, hs', stack, |stack'|, line, stack'[|stack'| - 1]); }
    PoppedAreDeep(stack, |stack'|, level, fs, |hs|);
    PoppedIsClosed(hs, hs', stack, |stack'|, level, line, fs);
  }

  lemma StackInRange(fs: seq<Found>, n: nat, stack: seq<nat>)
    requires n <= |fs| && StackIs(fs, n, stack)
    ensures forall k :: 0 <= k < |stack| ==> stack[k] < n
  {
    forall k | 0 <= k < |stack|
      ensures stack[k] < n
    {
      assert Open(fs, n, stack[k]);
    }
  }

  lemma NonePopped(hs: seq<Heading>, stack: seq<nat>, line: nat)
    ensures Popped(hs, hs, stack, |stack|, line)
  {
  }

  lemma PoppedIsClosed(
      hs: seq<Heading>, hs': seq<Heading>, stack: seq<nat>, kept: nat, level: nat, line: nat, fs: seq<Found>)
    requires |hs| < |fs| && fs[|hs|].level == level && fs[|hs|].line == line
    requires kept <= |stack| && Popped(hs, hs', stack, kept, line)
    requires forall i: nat :: i in stack[kept..] <==> Open(fs, |hs|, i) && fs[i].level >= level
    ensures Closed(hs, hs', fs)
  {
    hide Open;
  }

  /** Stopping at the first shallower heading from the top leaves exactly the shallower ones. */
  lemma PoppedAreDeep(stack: seq<nat>, kept: nat, level: nat, fs: seq<Found>, n: nat)
    requires n <= |fs| && kept <= |stack| && StackIs(fs, n, stack)
    requires forall k :: kept <= k < |stack| ==> fs[stack[k]].level >= level
    requires kept > 0 ==> fs[stack[kept - 1]].level < level
    ensures Surviving(fs, n, stack[..kept], level)
    ensures forall i: nat :: i in stack[kept..] <==> Open(fs, n, i) && fs[i].level >= level
  {
    assert stack == stack[..kept] + stack[kept..];
    forall k | 0 <= k < kept
      ensures fs[stack[k]].level < level
    {
      assert Open(fs, n, stack[k]) && stack[k] <= stack[kept - 1];
    }
    forall i: nat
      ensures i in stack[kept..] <==> Open(fs, n, i) && fs[i].level >= level
    {
      if i in stack[kept..] {
        var k :| kept <= k < |stack| && stack[k] == i;
      }
    }
  }

  method EndSection(hs: seq<Heading>, line: nat) returns (ended: seq<Heading>)
    requires hs != [] ==> hs[|hs| - 1].line < line
    ensures Ended(hs, ended, line)
  {
    ended := hs;
    if hs != [] {
      var last := |hs| - 1;
      ended := hs[last := hs[last].(sectionEnd := Max(SatPred(line), hs[last].line))];
    }
  }

  /** One round of the pass: end the previous section and the closed subtrees, add the heading. */
  method AddHeading(hs: seq<Heading>, stack: seq<nat>, f: Found, lineCount: nat, ghost fs: seq<Found>)
    returns (hs': seq<Heading>, stack': seq<nat>)
    requires LinesAscend(fs, lineCount) && |hs| < |fs| && f == fs[|hs|]
    requires RecordsAre(hs, fs, lineCount) && StackIs(fs, |hs|, stack)
    ensures |hs'| == |hs| + 1 && RecordsAre(hs', fs, lineCount) && StackIs(fs, |hs'|, stack')
  {
    var n: nat := |hs|;
    LevelsAndLines(hs, fs, lineCount);
    var ended := EndSection(hs, f.line);
    var closed, left := CloseSubtrees(ended, stack, f.level, f.line, fs);
    var parent := if left == [] then None else Some(left[|left| - 1]);
    var newest := Heading(f.level, f.text, f.line, parent, Max(lineCount, f.line), Max(lineCount, f.line));
    ParentOnTop(fs, n, left);
    StackPush(fs, n, left);
    RoundKeeps(hs, ended, closed, newest, fs, lineCount);
    hs' := closed + [newest];
    var top: seq<nat> := [n];
    stack' := left + top;
  }

  lemma LevelsAndLines(hs: seq<Heading>, fs: seq<Found>, lineCount: nat)
    requires LinesAscend(fs, lineCount) && |hs| < |fs| && RecordsAre(hs, fs, lineCount)
    ensures forall i :: 0 <= i < |hs| ==>
              hs[i].level == fs[i].level && hs[i].line == fs[i].line < fs[|hs|].line
  {
    forall i | 0 <= i < |hs|
      ensures hs[i].level == fs[i].level && hs[i].line == fs[i].line
    {
      assert IsRecord(hs, fs, i, lineCount);
    }
  }

  lemma RoundKeeps(hs: seq<Heading>, ended: seq<Heading>, closed: seq<Heading>, newest: Heading,
                   fs: seq<Found>, lineCount: nat)
    requires |hs| < |fs| && RecordsAre(hs, fs, lineCount)
    requires Ended(hs, ended, fs[|hs|].line) && Closed(ended, closed, fs)
    requires newest == Record(fs, |hs| + 1, |hs|, lineCount)
    ensures RecordsAre(closed + [newest], fs, lineCount)
  {
    var hs' := closed + [newest];
    forall i: nat | i < |hs'|
      ensures IsRecord(hs', fs, i, lineCount)
    {
      if i < |hs| { RecordStep(hs, ended, closed, fs, i, lineCount); }
    }
  }

  method BuildTree(found: seq<Found>, lines: LineIndex) returns (t: HeadingTree)
    requires LinesAscend(found, lines.LineCount())
    ensures t == TreeOf(found, lines)
  {
    var headings: seq<Heading> := [];
    var stack: seq<nat> := [];
    for n := 0 to |found|
      invariant |headings| == n && RecordsAre(headings, found, lines.LineCount())
      invariant StackIs(found, n, stack)
    {
      headings, stack := AddHeading(headings, stack, found[n], lines.LineCount(), found);
    }
    t := HeadingTree(headings, lines);
    var spec := TreeOf(found, lines).headings;
    forall i | 0 <= i < |found|
      ensures headings[i] == spec[i]
    {
      assert IsRecord(headings, found, i, lines.LineCount());
    }
    assert headings == spec;
  }

  lemma TreeIsWellFormed(fs: seq<Found>, lines: LineIndex)
    requires LinesAscend(fs, lines.LineCount())
    ensures WellFormed(TreeOf(fs, lines)) && AsFound(TreeOf(fs, lines).headings) == fs
  {
    var t := TreeOf(fs, lines);
    assert AsFound(t.headings) == fs by {
      forall i | 0 <= i < |fs|
        ensures AsFound(t.headings)[i] == fs[i]
      {
        assert t.headings[i] == Record(fs, |fs|, i, lines.LineCount());
      }
    }
    forall i: nat | i < |fs|
      ensures IsRecord(t.headings, fs, i, lines.LineCount())
    {
    }
    forall i | 0 <= i < |fs| && t.headings[i].parent.Some?
      ensures t.headings[i].parent.value < i
    {
      assert t.headings[i] == Record(fs, |fs|, i, lines.LineCount());
    }
  }

  lemma StackPush(fs: seq<Found>, n: nat, left: seq<nat>)
    requires n < |fs|
    requires Surviving(fs, n, left, fs[n].level)
    ensures StackIs(fs, n + 1, left + [n])
  {
    forall i: nat
      ensures i in left + [n] <==> Open(fs, n + 1, i)
    {
      if i < n && Open(fs, n + 1, i) {
        assert fs[n].level > fs[i].level;
        assert Open(fs, n, i);
      }
    }
    forall k | 0 <= k < |left|
      ensures left[k] < n
    {
      assert left[k] in left;
    }
  }

  /** Once the deeper headings are popped, the top of the stack is the new heading's parent. */
  lemma {:induction false} ParentOnTop(fs: seq<Found>, n: nat, left: seq<nat>)
    requires n < |fs|
    requires Surviving(fs, n, left, fs[n].level)
    ensures NearestLower(fs, n, fs[n].level) == if left == [] then None else Some(left[|left| - 1])
  {
    NearestLowerIsNearest(fs, n, fs[n].level);
    var nearest := NearestLower(fs, n, fs[n].level);
    if nearest.Some? {
      var m := LastLowest(fs, n, nearest.value);
      var k :| 0 <= k < |left| && left[k] == m;
      assert left[k] <= left[|left| - 1];
    }
  }

  /** At or after any heading there is an open one no deeper than it. */
  lemma {:induction false} LastLowest(fs: seq<Found>, n: nat, j: nat) returns (m: nat)
    requires j < n <= |fs|
    ensures j <= m < n && fs[m].level <= fs[j].level && Open(fs, n, m)
    decreases n - j
  {
    if Open(fs, n, j) {
      m := j;
    } else {
      var k :| j < k < n && fs[k].level <= fs[j].level;
      m := LastLowest(fs, n, k);
    }
  }

  method Parse(candidates: seq<Candidate>, lines: LineIndex) returns (t: HeadingTree)
    requires forall i :: 0 <= i < |candidates| ==> 1 <= candidates[i].line <= lines.LineCount()
    ensures t == TreeOf(Kept(Cleaned(candidates)), lines) && WellFormed(t)
  {
    var found := KeepHeadings(candidates);
    KeptAscend(Cleaned(candidates), lines.LineCount());
    t := BuildTree(found, lines);
    TreeIsWellFormed(found, lines);
  }
}
