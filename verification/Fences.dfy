/** The fence around the documents of a prompt (src/judge.rs): long enough that neither document
    can close it. */
module Fences {

  predicate HereAt(text: string, part: string, i: nat)
    requires i + |part| <= |text|
  {
    text[i..i + |part|] == part
  }

  predicate Contains(text: string, part: string) {
    exists i: nat :: i + |part| <= |text| && HereAt(text, part, i)
  }

  /** A run of `n` equals signs. */
  function Fence(n: nat): string { seq(n, _ => '=') }

  lemma TooLong(text: string, part: string)
    requires |part| > |text|
    ensures !Contains(text, part)
  {
  }

  /** Lengthened until neither text contains it: the shortest such fence of five or more. */
  method ChooseFence(a: string, b: string) returns (fence: string)
    ensures exists n: nat :: n >= 5 && fence == Fence(n)
    ensures !Contains(a, fence) && !Contains(b, fence)
    ensures forall n: nat :: 5 <= n < |fence| ==> Contains(a, Fence(n)) || Contains(b, Fence(n))
  {
    fence := "=====";
    ghost var n := 5;
    while Contains(a, fence) || Contains(b, fence)
      invariant n >= 5 && fence == Fence(n)
      invariant forall m: nat :: 5 <= m < n ==> Contains(a, Fence(m)) || Contains(b, Fence(m))
      decreases |a| + |b| - n
    {
      if |fence| > |a| { TooLong(a, fence); }
      if |fence| > |b| { TooLong(b, fence); }
      fence, n := fence + "=", n + 1;
    }
  }

  /** Each document stands on lines of its own between the fence lines: with no fence in the
      text, none starts, ends or straddles inside what the fences enclose. */
  lemma CannotCloseOwnFence(text: string, n: nat)
    requires n > 0 && !Contains(text, Fence(n))
    ensures !Contains("\n" + text + "\n", Fence(n))
  {
    var framed, fence := "\n" + text + "\n", Fence(n);
    assert fence[0] == '=' && fence[n - 1] == '=';
    forall i: nat | i + n <= |framed|
      ensures !HereAt(framed, fence, i)
    {
      if i == 0 {
        assert framed[i..i + n][0] == '\n';
      } else if i + n == |framed| {
        assert framed[i..i + n][n - 1] == '\n';
      } else {
        assert framed[i..i + n] == text[i - 1..i - 1 + n];
        assert !HereAt(text, fence, i - 1);
      }
    }
  }
}
