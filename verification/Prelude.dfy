/** Small values and facts shared by every module. */
module Prelude {

  datatype Option<+T> = None | Some(value: T)

  /** Some element of a non-empty set. */
  ghost function Pick<T>(s: set<T>): (x: T)
    requires s != {}
    ensures x in s
  {
    var x :| x in s;
    x
  }

  /** The least element of a non-empty set of integers. */
  ghost function Least(s: set<int>): (m: int)
    requires s != {}
    ensures m in s && forall x :: x in s ==> m <= x
  {
    LeastExists(s);
    var m :| m in s && forall x :: x in s ==> m <= x;
    m
  }

  lemma {:induction false} LeastExists(s: set<int>)
    requires s != {}
    ensures exists m :: m in s && forall x :: x in s ==> m <= x
  {
    var y := Pick(s);
    if s != {y} {
      var rest := s - {y};
      LeastExists(rest);
      var m :| m in rest && forall x :: x in rest ==> m <= x;
      var k := if m <= y then m else y;
      assert forall x :: x in s ==> x == y || x in rest;
      assert k in s && forall x :: x in s ==> k <= x;
    } else {
      assert y in s && forall x :: x in s ==> y <= x;
    }
  }

  lemma SubsetSize<T>(a: set<T>, b: set<T>)
    requires a <= b
    ensures |a| <= |b|
    ensures |b - a| == |b| - |a|
  {
    assert b == a + (b - a);
  }

  /** The elements of a sequence, in no order. */
  function Elements<T>(s: seq<T>): set<T> {
    set x | x in s
  }

  lemma ElementsOfConcat<T>(a: seq<T>, b: seq<T>)
    ensures Elements(a + b) == Elements(a) + Elements(b)
  {
    assert forall x :: x in a + b <==> x in a || x in b;
  }

  lemma {:induction false} ElementsAtMost<T>(s: seq<T>)
    ensures |Elements(s)| <= |s|
  {
    if s != [] {
      var n := |s| - 1;
      ElementsAtMost(s[..n]);
      FrontLast(s);
    }
  }

  /** A sequence without repetition has as many elements as its length. */
  lemma {:induction false} DistinctElements<T>(s: seq<T>)
    requires forall i, j :: 0 <= i < j < |s| ==> s[i] != s[j]
    ensures |Elements(s)| == |s|
  {
    if s != [] {
      var n := |s| - 1;
      DistinctElements(s[..n]);
      FrontLast(s);
      assert s[n] !in Elements(s[..n]);
    }
  }

  /** A non-empty sequence as its front and its last element. */
  lemma FrontLast<T>(s: seq<T>)
    requires s != []
    ensures s == s[..|s| - 1] + [s[|s| - 1]]
    ensures Elements(s) == Elements(s[..|s| - 1]) + {s[|s| - 1]}
  {
    ElementsOfConcat(s[..|s| - 1], [s[|s| - 1]]);
    assert s == s[..|s| - 1] + [s[|s| - 1]];
  }

  /** Where an element of a sequence first appears. */
  function FirstIndex<T(==)>(s: seq<T>, x: T): (i: nat)
    requires x in s
    ensures i < |s| && s[i] == x && x !in s[..i]
  {
    if s[0] == x then 0 else
      assert s == [s[0]] + s[1..];
      var i := 1 + FirstIndex(s[1..], x);
      assert s[..i] == [s[0]] + s[1..][..i - 1];
      i
  }

  lemma FirstIndexIs<T>(s: seq<T>, x: T, i: nat)
    requires i < |s| && s[i] == x && x !in s[..i]
    ensures FirstIndex(s, x) == i
  {
    var j := FirstIndex(s, x);
    assert forall k :: 0 <= k < i ==> s[k] in s[..i];
    assert forall k :: 0 <= k < j ==> s[k] in s[..j];
  }

  /** A later element changes no first appearance, and a new one appears last. */
  lemma FirstIndexAppend<T>(s: seq<T>, y: T)
    ensures forall x :: x in s ==> x in s + [y] && FirstIndex(s + [y], x) == FirstIndex(s, x)
    ensures y !in s ==> y in s + [y] && FirstIndex(s + [y], y) == |s|
  {
    var t := s + [y];
    assert t[|s|] == y;
    forall x | x in s ensures x in t && FirstIndex(t, x) == FirstIndex(s, x) {
      var i := FirstIndex(s, x);
      assert t[i] == x && t[..i] == s[..i];
      FirstIndexIs(t, x, i);
    }
    if y !in s {
      assert t[..|s|] == s;
      FirstIndexIs(t, y, |s|);
    }
  }

  /** Taking one key off the set that is still to be done adds that key's entry to what is done. */
  lemma OneKeyLess<K, V>(all: map<K, V>, left: set<K>, k: K)
    requires k in left
    ensures all - (left - {k}) == if k in all then (all - left)[k := all[k]] else all - left
  {
  }

  lemma MulMono(m: nat, n: nat, b: nat)
    requires m <= n
    ensures m * b <= n * b
  {
  }

  lemma QuotientIs(n: nat, q: nat, b: nat)
    requires b > 0 && q * b <= n < q * b + b
    ensures n / b == q
  {
    var d := n / b;
    assert d * b <= n < d * b + b;
    assert (d + 1) * b == d * b + b && (q + 1) * b == q * b + b;
    if d < q {
      MulMono(d + 1, q, b);
    } else if q < d {
      MulMono(q + 1, d, b);
    }
  }
}
