/** Total orders, and the sorted sequence of a finite set: what `sort` and a `BTreeMap` give. */
module Ordering {

  predicate Total<T>(le: (T, T) -> bool, a: T, b: T) { le(a, b) || le(b, a) }

  predicate Antisymmetric<T(==)>(le: (T, T) -> bool, a: T, b: T) { le(a, b) && le(b, a) ==> a == b }

  predicate Transitive<T>(le: (T, T) -> bool, a: T, b: T, c: T) { le(a, b) && le(b, c) ==> le(a, c) }

  ghost predicate TotalOrder<T(!new)>(le: (T, T) -> bool) {
    && (forall a, b :: Total(le, a, b))
    && (forall a, b :: Antisymmetric(le, a, b))
    && (forall a, b, c :: Transitive(le, a, b, c))
  }

  predicate IsLeast<T(!new, ==)>(s: set<T>, le: (T, T) -> bool, m: T) {
    m in s && forall x :: x in s ==> le(m, x)
  }

  lemma {:induction false} LeastExists<T(!new)>(s: set<T>, le: (T, T) -> bool)
    requires TotalOrder(le) && s != {}
    ensures exists m :: IsLeast(s, le, m)
    decreases |s|
  {
    var m :| m in s;
    assert Total(le, m, m);
    if s == {m} {
      assert IsLeast(s, le, m);
    } else {
      LeastExists(s - {m}, le);
      var least :| IsLeast(s - {m}, le, least);
      assert Total(le, least, m);
      if le(least, m) {
        assert IsLeast(s, le, least);
      } else {
        forall x | x in s
          ensures le(m, x)
        {
          assert Transitive(le, m, least, x);
        }
        assert IsLeast(s, le, m);
      }
    }
  }

  predicate Before<T(==)>(r: seq<T>, le: (T, T) -> bool, i: nat, j: nat)
    requires i < |r| && j < |r|
  {
    le(r[i], r[j]) && r[i] != r[j]
  }

  predicate Within<T(==)>(r: seq<T>, s: set<T>, i: nat)
    requires i < |r|
  {
    r[i] in s
  }

  predicate Holds<T(==)>(r: seq<T>, x: T) { x in r }

  /** `r` lists the elements of `s`, each once, from the least to the greatest. */
  predicate Lists<T(==)>(r: seq<T>, s: set<T>, le: (T, T) -> bool) {
    && (forall i: nat :: i < |r| ==> Within(r, s, i))
    && (forall x {:trigger Holds(r, x)} :: x in s ==> Holds(r, x))
    && (forall i: nat, j: nat :: i < j < |r| ==> Before(r, le, i, j))
  }

  lemma {:induction false} ListExists<T(!new)>(s: set<T>, le: (T, T) -> bool)
    requires TotalOrder(le)
    ensures exists r :: Lists(r, s, le)
    decreases |s|
  {
    if s == {} {
      assert Lists([], s, le);
    } else {
      LeastExists(s, le);
      var m :| IsLeast(s, le, m);
      ListExists(s - {m}, le);
      var rest :| Lists(rest, s - {m}, le);
      ListCons(m, rest, s, le);
    }
  }

  lemma ListCons<T(!new)>(m: T, rest: seq<T>, s: set<T>, le: (T, T) -> bool)
    requires IsLeast(s, le, m) && Lists(rest, s - {m}, le)
    ensures Lists([m] + rest, s, le)
  {
    var r := [m] + rest;
    forall i: nat | i < |r|
      ensures Within(r, s, i)
    {
      if i > 0 { assert Within(rest, s - {m}, i - 1); }
    }
    forall x | x in s
      ensures Holds(r, x)
    {
      if x != m { assert Holds(rest, x); }
    }
    forall i: nat, j: nat | i < j < |r|
      ensures Before(r, le, i, j)
    {
      assert Within(rest, s - {m}, j - 1);
      if i > 0 { assert Before(rest, le, i - 1, j - 1); }
    }
  }

  /** Only one sequence lists a set. */
  lemma {:induction false} ListUnique<T(!new)>(r: seq<T>, r': seq<T>, s: set<T>, le: (T, T) -> bool, n: nat)
    requires TotalOrder(le) && Lists(r, s, le) && Lists(r', s, le) && n <= |r| && n <= |r'|
    ensures r[..n] == r'[..n]
  {
    if n > 0 {
      var i := n - 1;
      ListUnique(r, r', s, le, i);
      SameAt(r, r', s, le, i);
      assert r[..n] == r[..i] + [r[i]] && r'[..n] == r'[..i] + [r'[i]];
    }
  }

  lemma SameAt<T(!new)>(r: seq<T>, r': seq<T>, s: set<T>, le: (T, T) -> bool, i: nat)
    requires TotalOrder(le) && Lists(r, s, le) && Lists(r', s, le) && i < |r| && i < |r'| && r[..i] == r'[..i]
    ensures r[i] == r'[i]
  {
    LeastOfRest(r, r', s, le, i);
    LeastOfRest(r', r, s, le, i);
    assert Antisymmetric(le, r[i], r'[i]);
  }

  lemma LeastOfRest<T(!new)>(r: seq<T>, r': seq<T>, s: set<T>, le: (T, T) -> bool, i: nat)
    requires TotalOrder(le) && Lists(r, s, le) && Lists(r', s, le) && i < |r| && i < |r'| && r[..i] == r'[..i]
    ensures le(r[i], r'[i])
  {
    assert Within(r', s, i) && Holds(r, r'[i]);
    var j: nat :| j < |r| && r[j] == r'[i];
    assert Total(le, r[i], r[i]);
    if j < i {
      NotEarlier(r, r', s, le, i, j);
    } else if i < j {
      assert Before(r, le, i, j);
    }
  }

  lemma NotEarlier<T(!new)>(r: seq<T>, r': seq<T>, s: set<T>, le: (T, T) -> bool, i: nat, j: nat)
    requires Lists(r', s, le) && j < i < |r| && i < |r'| && r[..i] == r'[..i]
    ensures r[j] != r'[i]
  {
    assert Before(r', le, j, i);
    assert r'[..i][j] == r[..i][j];
  }

  lemma {:induction false} ListCount<T(!new)>(r: seq<T>, s: set<T>, le: (T, T) -> bool)
    requires Lists(r, s, le)
    ensures |r| == |s|
    decreases |r|
  {
    if r == [] {
      assert forall x :: x in s ==> Holds(r, x);
    } else {
      DropLists(r, s, le, 1);
      assert Within(r, s, 0);
      assert Elements(r[..1]) == {r[0]};
      ListCount(r[1..], s - {r[0]}, le);
    }
  }

  lemma ListIsOne<T(!new)>(s: set<T>, le: (T, T) -> bool)
    requires TotalOrder(le)
    ensures forall r, r' :: Lists(r, s, le) && Lists(r', s, le) ==> |r| == |s| && r == r'
  {
    forall r, r' | Lists(r, s, le) && Lists(r', s, le)
      ensures |r| == |s| && r == r'
    {
      ListCount(r, s, le);
      ListCount(r', s, le);
      ListUnique(r, r', s, le, |s|);
      assert r[..|s|] == r && r'[..|s|] == r';
    }
  }

  /** The elements of `s`, each once, in order. */
  function Sorted<T(!new, ==)>(s: set<T>, le: (T, T) -> bool): seq<T>
    requires TotalOrder(le)
  {
    ListExists(s, le);
    ListIsOne(s, le);
    var r :| Lists(r, s, le);
    r
  }

  lemma SortedElements<T(!new)>(s: set<T>, le: (T, T) -> bool)
    requires TotalOrder(le)
    ensures forall x :: x in s <==> x in Sorted(s, le)
    ensures forall i :: 0 <= i < |Sorted(s, le)| ==> Sorted(s, le)[i] in s
  {
    var r := Sorted(s, le);
    forall x
      ensures x in s <==> x in r
    {
      if x in s { assert Holds(r, x); }
      if i: nat :| i < |r| && r[i] == x { assert Within(r, s, i); }
    }
  }

  lemma SortedCount<T(!new)>(s: set<T>, le: (T, T) -> bool)
    requires TotalOrder(le)
    ensures |Sorted(s, le)| == |s|
  {
    ListIsOne(s, le);
  }

  lemma SortedAscends<T(!new)>(s: set<T>, le: (T, T) -> bool, i: nat, j: nat)
    requires TotalOrder(le) && i < j < |Sorted(s, le)|
    ensures le(Sorted(s, le)[i], Sorted(s, le)[j]) && Sorted(s, le)[i] != Sorted(s, le)[j]
  {
    assert Before(Sorted(s, le), le, i, j);
  }

  function Elements<T>(s: seq<T>): (r: set<T>) { set x | x in s }

  lemma {:induction false} DistinctCount<T(!new)>(s: seq<T>)
    requires forall i, j :: 0 <= i < j < |s| ==> s[i] != s[j]
    ensures |Elements(s)| == |s|
  {
    if s != [] {
      var n := |s| - 1;
      DistinctCount(s[..n]);
      assert s == s[..n] + [s[n]];
      assert s[n] !in s[..n];
      assert Elements(s) == Elements(s[..n]) + {s[n]};
    }
  }

  /** Taking the first `n` away leaves the rest sorted as it was. */
  lemma SortedDrop<T(!new)>(s: set<T>, le: (T, T) -> bool, n: nat)
    requires TotalOrder(le) && n <= |Sorted(s, le)|
    ensures Sorted(s - Elements(Sorted(s, le)[..n]), le) == Sorted(s, le)[n..]
  {
    var r, rest := Sorted(s, le), s - Elements(Sorted(s, le)[..n]);
    DropLists(r, s, le, n);
    ListIsOne(rest, le);
  }

  lemma TailElement<T(!new)>(r: seq<T>, s: set<T>, le: (T, T) -> bool, n: nat, i: nat)
    requires Lists(r, s, le) && n + i < |r|
    ensures r[n + i] in s - Elements(r[..n])
  {
    assert Within(r, s, n + i);
    forall j: nat | j < n
      ensures r[..n][j] != r[n + i]
    {
      assert Before(r, le, j, n + i);
    }
  }

  lemma InTail<T(!new)>(r: seq<T>, n: nat, x: T)
    requires n <= |r| && x in r && x !in Elements(r[..n])
    ensures x in r[n..]
  {
    assert r == r[..n] + r[n..];
  }

  lemma DropLists<T(!new)>(r: seq<T>, s: set<T>, le: (T, T) -> bool, n: nat)
    requires Lists(r, s, le) && n <= |r|
    ensures Lists(r[n..], s - Elements(r[..n]), le)
  {
    var rest, tail := s - Elements(r[..n]), r[n..];
    forall i: nat | i < |tail|
      ensures Within(tail, rest, i)
    {
      TailElement(r, s, le, n, i);
    }
    forall x | x in rest
      ensures Holds(tail, x)
    {
      assert Holds(r, x);
      InTail(r, n, x);
    }
    forall i: nat, j: nat | i < j < |tail|
      ensures Before(tail, le, i, j)
    {
      assert Before(r, le, n + i, n + j);
    }
  }

  function Min(a: nat, b: nat): nat { if a < b then a else b }

  // ---- text and pairs of texts ----

  /** Lexicographic order on text. */
  predicate TextLe(a: string, b: string) {
    a == "" || (b != "" && (a[0] < b[0] || (a[0] == b[0] && TextLe(a[1..], b[1..]))))
  }

  /** At some place the texts differ for the first time, and there the first has the smaller character. */
  ghost predicate SmallerAt(a: string, b: string, i: nat) { i < |a| && i < |b| && a[..i] == b[..i] && a[i] < b[i] }

  lemma {:induction false} TextLeIs(a: string, b: string)
    ensures TextLe(a, b) <==> a <= b || exists i: nat :: SmallerAt(a, b, i)
  {
    if a != "" && b != "" && a[0] == b[0] {
      TextLeIs(a[1..], b[1..]);
      assert a == [a[0]] + a[1..] && b == [b[0]] + b[1..];
      if i: nat :| SmallerAt(a[1..], b[1..], i) {
        assert a[..i + 1] == [a[0]] + a[1..][..i] && b[..i + 1] == [b[0]] + b[1..][..i];
        assert SmallerAt(a, b, i + 1);
      }
      if i: nat :| SmallerAt(a, b, i) {
        assert a[1..][..i - 1] == a[..i][1..] && b[1..][..i - 1] == b[..i][1..];
        assert SmallerAt(a[1..], b[1..], i - 1);
      }
    } else if a != "" && b != "" && a[0] < b[0] {
      assert SmallerAt(a, b, 0);
    }
  }

  lemma {:induction false} TextTotal(a: string, b: string)
    ensures TextLe(a, b) || TextLe(b, a)
    ensures TextLe(a, b) && TextLe(b, a) ==> a == b
  {
    if a != "" && b != "" {
      TextTotal(a[1..], b[1..]);
      if a[0] == b[0] && a[1..] == b[1..] { assert a == [a[0]] + a[1..] == b; }
    }
  }

  lemma {:induction false} TextTransitive(a: string, b: string, c: string)
    requires TextLe(a, b) && TextLe(b, c)
    ensures TextLe(a, c)
  {
    if a != "" && a[0] == b[0] == c[0] {
      TextTransitive(a[1..], b[1..], c[1..]);
    }
  }

  lemma TextOrder()
    ensures TotalOrder(TextLe)
  {
    forall a: string, b: string
      ensures Total(TextLe, a, b) && Antisymmetric(TextLe, a, b)
    {
      TextTotal(a, b);
    }
    forall a: string, b: string, c: string
      ensures Transitive(TextLe, a, b, c)
    {
      if TextLe(a, b) && TextLe(b, c) { TextTransitive(a, b, c); }
    }
  }

  type TextPair = (string, string)

  predicate PairLe(x: TextPair, y: TextPair) {
    if x.0 == y.0 then TextLe(x.1, y.1) else TextLe(x.0, y.0)
  }

  lemma PairOrder()
    ensures TotalOrder(PairLe)
  {
    forall x: TextPair, y: TextPair
      ensures Total(PairLe, x, y) && Antisymmetric(PairLe, x, y)
    {
      TextTotal(x.0, y.0);
      TextTotal(x.1, y.1);
    }
    forall x: TextPair, y: TextPair, z: TextPair
      ensures Transitive(PairLe, x, y, z)
    {
      if PairLe(x, y) && PairLe(y, z) { PairTransitive(x, y, z); }
    }
  }

  lemma PairTransitive(x: TextPair, y: TextPair, z: TextPair)
    requires PairLe(x, y) && PairLe(y, z)
    ensures PairLe(x, z)
  {
    if x.0 == y.0 == z.0 {
      TextTransitive(x.1, y.1, z.1);
    } else {
      if x.0 != y.0 && y.0 != z.0 { TextTransitive(x.0, y.0, z.0); }
      TextTotal(x.0, y.0);
    }
  }
}
