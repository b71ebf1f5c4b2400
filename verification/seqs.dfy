/** Generic sequence helpers shared by the modules. */
module Seqs {

  /** The concatenation of a list of lists, in order. */
  function Concat<T>(xss: seq<seq<T>>): (r: seq<T>)
    decreases |xss|
  {
    if |xss| == 0 then [] else xss[0] + Concat(xss[1..])
  }

  lemma {:induction false} ConcatAppend<T>(a: seq<seq<T>>, b: seq<seq<T>>)
    ensures Concat(a + b) == Concat(a) + Concat(b)
    decreases |a|
  {
    if |a| > 0 {
      assert (a + b)[1..] == a[1..] + b;
      ConcatAppend(a[1..], b);
    } else {
      assert a + b == b;
    }
  }

  /** f applied to every element, the results concatenated in order. */
  function FlatMap<X, Y>(f: X -> seq<Y>, xs: seq<X>): (r: seq<Y>)
  {
    Concat(seq(|xs|, i requires 0 <= i < |xs| => f(xs[i])))
  }

  /** FlatMap over a split list is the FlatMap of the two halves, joined. */
  lemma FlatMapSplit<X, Y>(f: X -> seq<Y>, xs: seq<X>, k: nat)
    requires k <= |xs|
    ensures FlatMap(f, xs) == FlatMap(f, xs[..k]) + FlatMap(f, xs[k..])
  {
    var a := seq(k, i requires 0 <= i < k => f(xs[..k][i]));
    var b := seq(|xs| - k, i requires 0 <= i < |xs| - k => f(xs[k..][i]));
    assert seq(|xs|, i requires 0 <= i < |xs| => f(xs[i])) == a + b;
    ConcatAppend(a, b);
  }

  /** FlatMap over a non-empty list: the first element's results, then the rest. */
  lemma FlatMapCons<X, Y>(f: X -> seq<Y>, xs: seq<X>)
    requires |xs| > 0
    ensures FlatMap(f, xs) == f(xs[0]) + FlatMap(f, xs[1..])
  {
    var all := seq(|xs|, i requires 0 <= i < |xs| => f(xs[i]));
    assert all[1..] == seq(|xs| - 1, i requires 0 <= i < |xs| - 1 => f(xs[1..][i]));
  }

  /** The pairs of two lists of equal length, position by position. */
  function Zip<A, B>(a: seq<A>, b: seq<B>): (z: seq<(A, B)>)
    requires |a| == |b|
    ensures |z| == |a| && forall i :: 0 <= i < |a| ==> z[i] == (a[i], b[i])
  {
    seq(|a|, i requires 0 <= i < |a| => (a[i], b[i]))
  }

  /** Concatenating one more list at the end appends it. */
  lemma ConcatSnoc<T>(a: seq<seq<T>>, x: seq<T>)
    ensures Concat(a + [x]) == Concat(a) + x
  {
    ConcatAppend(a, [x]);
    assert Concat([x]) == x + Concat([x][1..]);
    assert [x][1..] == [];
  }

  /** An element of the concatenation comes from one of the lists, and back. */
  lemma {:induction false} ConcatMembership<T>(xss: seq<seq<T>>, x: T)
    ensures x in Concat(xss) <==> exists i :: 0 <= i < |xss| && x in xss[i]
    decreases |xss|
  {
    if |xss| > 0 {
      ConcatMembership(xss[1..], x);
      assert forall i :: 1 <= i < |xss| ==> xss[1..][i - 1] == xss[i];
    }
  }

  /** An element of a FlatMap comes from applying f to one of the inputs, and back. */
  lemma FlatMapMembership<X, Y>(f: X -> seq<Y>, xs: seq<X>, y: Y)
    ensures y in FlatMap(f, xs) <==> exists i :: 0 <= i < |xs| && y in f(xs[i])
  {
    var parts := seq(|xs|, i requires 0 <= i < |xs| => f(xs[i]));
    ConcatMembership(parts, y);
    assert forall i :: 0 <= i < |xs| ==> parts[i] == f(xs[i]);
  }

  /** `n` lists of length `b` concatenate to `n * b` elements. */
  lemma {:induction false} ConcatUniformLength<T>(xss: seq<seq<T>>, b: nat)
    requires forall i :: 0 <= i < |xss| ==> |xss[i]| == b
    ensures |Concat(xss)| == |xss| * b
    decreases |xss|
  {
    if |xss| > 0 {
      ConcatUniformLength(xss[1..], b);
      assert (|xss| - 1) * b + b == |xss| * b;
    }
  }
}
