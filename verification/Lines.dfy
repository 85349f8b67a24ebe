/** `LineIndex` (src/heading.rs): byte offset of every line start, for byte-to-line
    lookup and line-to-byte slicing. Lines are the newline-separated segments. */
module Lines {

  datatype Range = Range(start: nat, end: nat)

  datatype LineIndex = LineIndex(starts: seq<nat>, len: nat) {

    function LineCount(): nat { |starts| }

    /** 1-based line containing `byte`; a newline belongs to the line it terminates. */
    function LineOf(byte: nat): nat {
      var k := PartitionPoint(starts, byte);
      if k < 1 then 1 else k
    }

    /** Byte range of lines `first..=last`, clamped, without the terminator of `last`. */
    function ByteRange(first: nat, last: nat): Range {
      var count := |starts|;
      if count == 0 then Range(0, 0) else
      var f := Clamp(first, 1, count);
      var l := Clamp(last, f, count);
      Range(starts[f - 1], if l < count then (if starts[l] == 0 then 0 else starts[l] - 1) else len)
    }
  }

  function Clamp(x: nat, lo: nat, hi: nat): nat
    requires lo <= hi
  {
    if x < lo then lo else if x > hi then hi else x
  }

  /** Length of the longest prefix of `starts` with every element at most `byte`. */
  function PartitionPoint(starts: seq<nat>, byte: nat): (k: nat)
    ensures k <= |starts|
    ensures forall j :: 0 <= j < k ==> starts[j] <= byte
    ensures k < |starts| ==> byte < starts[k]
  {
    if starts == [] || byte < starts[0] then 0 else 1 + PartitionPoint(starts[1..], byte)
  }

  /** One past each newline at or after `i`. */
  function NewlineFollowers(text: string, i: nat): seq<nat>
    requires i <= |text|
    decreases |text| - i
  {
    if i == |text| then []
    else (if text[i] == '\n' then [i + 1] else []) + NewlineFollowers(text, i + 1)
  }

  function Index(text: string): LineIndex {
    LineIndex(if text == "" then [] else [0] + NewlineFollowers(text, 0), |text|)
  }

  ghost predicate Ascending(s: seq<nat>) {
    forall i, j :: 0 <= i < j < |s| ==> s[i] < s[j]
  }

  /** `s` holds exactly the offsets just past a newline at or after `i`, ascending. */
  ghost predicate FollowersFrom(text: string, i: nat, s: seq<nat>) {
    && Ascending(s)
    && (forall k :: 0 <= k < |s| ==> i < s[k] <= |text| && text[s[k] - 1] == '\n')
    && (forall b :: i <= b < |text| && text[b] == '\n' ==> b + 1 in s)
  }

  lemma FollowersStep(text: string, i: nat, rest: seq<nat>, all: seq<nat>)
    requires i < |text| && FollowersFrom(text, i + 1, rest)
    requires all == if text[i] == '\n' then [i + 1] + rest else rest
    ensures FollowersFrom(text, i, all)
  {
    if text[i] == '\n' {
      assert all[0] == i + 1;
      forall k | 0 <= k < |all|
        ensures i < all[k] <= |text| && text[all[k] - 1] == '\n' && (k > 0 ==> all[k] > i + 1)
      {
        if k > 0 { assert all[k] == rest[k - 1]; }
      }
      forall j, k | 0 <= j < k < |all|
        ensures all[j] < all[k]
      {
        if j > 0 { assert all[j] == rest[j - 1] && all[k] == rest[k - 1]; }
      }
      forall b | i <= b < |text| && text[b] == '\n'
        ensures b + 1 in all
      {
        if b > i { InCons(i + 1, rest, b + 1); }
      }
    }
  }

  lemma InCons(x: nat, rest: seq<nat>, y: nat)
    requires y in rest
    ensures y in [x] + rest
  {
  }

  lemma {:induction false} FollowersAreNewlines(text: string, i: nat)
    requires i <= |text|
    ensures FollowersFrom(text, i, NewlineFollowers(text, i))
    decreases |text| - i
  {
    if i < |text| {
      var rest, all := NewlineFollowers(text, i + 1), NewlineFollowers(text, i);
      FollowersAreNewlines(text, i + 1);
      assert all == if text[i] == '\n' then [i + 1] + rest else rest;
      FollowersStep(text, i, rest, all);
    }
  }

  /** The index holds exactly 0 and the offsets just past a newline, in ascending order. */
  lemma IndexIsExact(text: string)
    ensures var s := Index(text).starts;
      && Ascending(s)
      && (text == "" <==> s == [])
      && (text != "" ==> s[0] == 0)
      && (forall k :: 1 <= k < |s| ==> 1 <= s[k] <= |text| && text[s[k] - 1] == '\n')
      && (text != "" ==> forall p: nat :: p in s <==> p == 0 || (1 <= p <= |text| && text[p - 1] == '\n'))
  {
    FollowersAreNewlines(text, 0);
    var s := Index(text).starts;
    if text != "" {
      forall p: nat
        ensures p in s <==> p == 0 || (1 <= p <= |text| && text[p - 1] == '\n')
      {
        if 1 <= p <= |text| && text[p - 1] == '\n' {
          assert p in NewlineFollowers(text, 0);
        }
      }
    }
  }

  /** Looking a byte up and slicing lines out agree: a byte is on a line of `first..=last`
      exactly when it is in their byte range or is the terminator right after it. */
  lemma LineOfByteRange(text: string, first: nat, last: nat, byte: nat)
    requires 1 <= first <= last <= Index(text).LineCount()
    requires byte <= |text|
    ensures var r := Index(text).ByteRange(first, last);
      first <= Index(text).LineOf(byte) <= last <==> r.start <= byte <= r.end
  {
    IndexIsExact(text);
    var s := Index(text).starts;
    hide NewlineFollowers, PartitionPoint;
    PartitionPointIs(s, byte, 0);
    PartitionPointIs(s, byte, first - 1);
    if last < |s| {
      PartitionPointIs(s, byte, last);
    }
  }

  lemma PartitionPointIs(s: seq<nat>, byte: nat, j: nat)
    requires Ascending(s) && j < |s|
    ensures s[j] <= byte <==> j < PartitionPoint(s, byte)
  {
  }

  lemma LineOfMonotone(index: LineIndex, a: nat, b: nat)
    requires a <= b
    ensures index.LineOf(a) <= index.LineOf(b)
    ensures index.LineCount() > 0 ==> 1 <= index.LineOf(b) <= index.LineCount()
  {
    assert PartitionPoint(index.starts, a) <= PartitionPoint(index.starts, b);
  }

  /** How many of the first `n` characters end a line. */
  function Newlines(text: string, n: nat): nat
    requires n <= |text|
  {
    if n == 0 then 0 else Newlines(text, n - 1) + if text[n - 1] == '\n' then 1 else 0
  }

  lemma NewlinesStep(text: string, n: nat)
    requires 0 < n <= |text|
    ensures Newlines(text, n) == Newlines(text, n - 1) + if text[n - 1] == '\n' then 1 else 0
  {
  }

  /** A byte's line is one more than the lines that end before it. */
  lemma {:induction false} LineOfCounts(text: string, byte: nat)
    requires text != "" && byte <= |text|
    ensures Index(text).LineOf(byte) == 1 + Newlines(text, byte)
  {
    hide PartitionPoint, Index;
    IndexIsExact(text);
    var s := Index(text).starts;
    if byte == 0 {
      PartitionPointIs(s, 0, 0);
      if |s| > 1 { PartitionPointIs(s, 0, 1); }
    } else {
      LineOfCounts(text, byte - 1);
      NextByte(s, byte);
    }
  }

  /** From one byte to the next, the line goes up exactly if a line starts there. */
  lemma NextByte(s: seq<nat>, byte: nat)
    requires Ascending(s) && s != [] && s[0] == 0 && byte > 0
    ensures PartitionPoint(s, byte) == PartitionPoint(s, byte - 1) + if byte in s then 1 else 0
    ensures PartitionPoint(s, byte - 1) >= 1
  {
    hide PartitionPoint;
    var k := PartitionPoint(s, byte - 1);
    PartitionPointIs(s, byte - 1, 0);
    if byte in s {
      var i: nat :| i < |s| && s[i] == byte;
      PartitionPointIs(s, byte - 1, i);
      PartitionPointIs(s, byte, i);
      if i > 0 { PartitionPointIs(s, byte - 1, i - 1); }
      if i + 1 < |s| { PartitionPointIs(s, byte, i + 1); }
    } else {
      var m := PartitionPoint(s, byte);
      if k < m { PartitionPointIs(s, byte, k); }
    }
  }

  /** Slicing lines out is total: whatever is asked for, the clamped range lies in the text. */
  lemma RangeInText(text: string, first: nat, last: nat)
    ensures var r := Index(text).ByteRange(first, last); r.start <= r.end <= |text|
  {
    IndexIsExact(text);
    var s := Index(text).starts;
    if |s| > 0 {
      var f := Clamp(first, 1, |s|);
      var l := Clamp(last, f, |s|);
      if l < |s| { assert s[f - 1] < s[l]; }
    }
  }

  function Slice(text: string, first: nat, last: nat): string {
    RangeInText(text, first, last);
    var r := Index(text).ByteRange(first, last);
    text[r.start..r.end]
  }

  lemma RangesAbut(text: string, first: nat, mid: nat, last: nat)
    requires 1 <= first <= mid < last <= Index(text).LineCount()
    ensures var a, b, c := Index(text).ByteRange(first, mid), Index(text).ByteRange(mid + 1, last),
                           Index(text).ByteRange(first, last);
      && c.start == a.start <= a.end < b.start <= b.end == c.end <= |text|
      && b.start == a.end + 1 && text[a.end] == '\n'
  {
    IndexIsExact(text);
    RangeInText(text, first, mid);
    RangeInText(text, mid + 1, last);
  }

  /** Two neighbouring runs of lines, joined by the newline between them, are one run. */
  lemma SlicesJoin(text: string, first: nat, mid: nat, last: nat)
    requires 1 <= first <= mid < last <= Index(text).LineCount()
    ensures Slice(text, first, mid) + "\n" + Slice(text, mid + 1, last) == Slice(text, first, last)
  {
    RangesAbut(text, first, mid, last);
    var c := Index(text).ByteRange(first, last);
    JoinAt(text, c.start, Index(text).ByteRange(mid + 1, last).start, c.end);
  }

  lemma JoinAt(text: string, from: nat, mid: nat, to: nat)
    requires from < mid <= to <= |text| && text[mid - 1] == '\n'
    ensures text[from..mid - 1] + "\n" + text[mid..to] == text[from..to]
  {
    assert text[from..mid - 1] + "\n" == text[from..mid];
  }

  lemma WholeSlice(text: string)
    requires text != ""
    ensures Index(text).LineCount() >= 1
    ensures Slice(text, 1, Index(text).LineCount()) == text
  {
    IndexIsExact(text);
  }
}
