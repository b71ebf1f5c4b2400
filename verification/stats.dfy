/**
 * Real-valued aggregation used throughout the scripts: sums, means,
 * absolute values, and the
 * `pd.Series` operations `sort_values(ascending=True)` and `tail(k)` over
 * named values.
 */
module Stats {

  function Sum(xs: seq<real>): real
    decreases |xs|
  {
    if |xs| == 0 then 0.0 else xs[0] + Sum(xs[1..])
  }

  lemma {:induction false} SumAppend(a: seq<real>, b: seq<real>)
    ensures Sum(a + b) == Sum(a) + Sum(b)
    decreases |a|
  {
    if |a| > 0 {
      assert (a + b)[1..] == a[1..] + b;
      SumAppend(a[1..], b);
    } else {
      assert a + b == b;
    }
  }

  lemma {:induction false} SumBounds(xs: seq<real>, lo: real, hi: real)
    requires forall i :: 0 <= i < |xs| ==> lo <= xs[i] <= hi
    ensures |xs| as real * lo <= Sum(xs) <= |xs| as real * hi
    decreases |xs|
  {
    if |xs| > 0 {
      SumBounds(xs[1..], lo, hi);
    }
  }

  /** `np.mean` of a non-empty sequence. */
  function Mean(xs: seq<real>): real
    requires |xs| > 0
  {
    Sum(xs) / |xs| as real
  }

  /** A mean lies between any lower and upper bound of its inputs. */
  lemma MeanBounds(xs: seq<real>, lo: real, hi: real)
    requires |xs| > 0
    requires forall i :: 0 <= i < |xs| ==> lo <= xs[i] <= hi
    ensures lo <= Mean(xs) <= hi
  {
    SumBounds(xs, lo, hi);
    var n := |xs| as real;
    assert n * lo <= Sum(xs) <= n * hi;
    assert Sum(xs) / n >= lo by { assert Sum(xs) >= n * lo; }
    assert Sum(xs) / n <= hi by { assert Sum(xs) <= n * hi; }
  }

  lemma {:induction false} SumAtLeast(xs: seq<real>, lo: real)
    requires forall i :: 0 <= i < |xs| ==> lo <= xs[i]
    ensures |xs| as real * lo <= Sum(xs)
    decreases |xs|
  {
    if |xs| > 0 {
      SumAtLeast(xs[1..], lo);
    }
  }

  /** A mean is at least any lower bound of its inputs. */
  lemma MeanAtLeast(xs: seq<real>, lo: real)
    requires |xs| > 0
    requires forall i :: 0 <= i < |xs| ==> lo <= xs[i]
    ensures lo <= Mean(xs)
  {
    SumAtLeast(xs, lo);
    var n := |xs| as real;
    assert Sum(xs) / n >= lo by { assert Sum(xs) >= n * lo; }
  }

  /** The mean of a constant sequence is that constant. */
  lemma MeanConstant(xs: seq<real>, c: real)
    requires |xs| > 0
    requires forall i :: 0 <= i < |xs| ==> xs[i] == c
    ensures Mean(xs) == c
  {
    MeanBounds(xs, c, c);
  }

  function Abs(x: real): real {
    if x < 0.0 then -x else x
  }

  // ---------------------------------------------------------------------------
  // sorting plain values
  // ---------------------------------------------------------------------------

  predicate Ascending(xs: seq<real>) {
    forall i, j :: 0 <= i < j < |xs| ==> xs[i] <= xs[j]
  }

  predicate AllAbove(xs: seq<real>, v: real) {
    forall i :: 0 <= i < |xs| ==> v <= xs[i]
  }

  function InsertReal(x: real, s: seq<real>): (r: seq<real>)
    requires Ascending(s)
    ensures Ascending(r) && |r| == |s| + 1
    ensures multiset(r) == multiset(s) + multiset{x}
    ensures forall v :: AllAbove(s, v) && v <= x ==> AllAbove(r, v)
    decreases |s|
  {
    if |s| == 0 || x <= s[0] then
      InsertRealFront(x, s);
      [x] + s
    else
      var rest := InsertReal(x, s[1..]);
      assert s == [s[0]] + s[1..];
      InsertRealBehind(x, s, rest);
      [s[0]] + rest
  }

  /** Placing x before an ascending sequence whose head is at least x. */
  lemma InsertRealFront(x: real, s: seq<real>)
    requires Ascending(s) && (|s| == 0 || x <= s[0])
    ensures Ascending([x] + s)
    ensures forall v :: AllAbove(s, v) && v <= x ==> AllAbove([x] + s, v)
  {
    forall i, j | 0 <= i < j < |[x] + s| ensures ([x] + s)[i] <= ([x] + s)[j] {
      assert ([x] + s)[j] == s[j - 1];
      if i > 0 {
        assert ([x] + s)[i] == s[i - 1];
      } else {
        assert s[0] <= s[j - 1];
      }
    }
  }

  /** Keeping the head of s in front of the insertion into its tail. */
  lemma InsertRealBehind(x: real, s: seq<real>, rest: seq<real>)
    requires Ascending(s) && |s| > 0 && s[0] < x && Ascending(rest)
    requires forall v :: AllAbove(s[1..], v) && v <= x ==> AllAbove(rest, v)
    ensures Ascending([s[0]] + rest)
    ensures forall v :: AllAbove(s, v) && v <= x ==> AllAbove([s[0]] + rest, v)
  {
    assert AllAbove(s[1..], s[0]);
    assert AllAbove(rest, s[0]);
    var r := [s[0]] + rest;
    forall i, j | 0 <= i < j < |r| ensures r[i] <= r[j] {
      assert r[j] == rest[j - 1];
      if i > 0 {
        assert r[i] == rest[i - 1];
      }
    }
    forall v | AllAbove(s, v) && v <= x ensures AllAbove(r, v) {
      assert AllAbove(s[1..], v);
      assert v <= s[0];
      assert forall i :: 1 <= i < |r| ==> r[i] == rest[i - 1];
    }
  }

  /** `np.sort`: the same values in ascending order. */
  /** Two lists with the same multiset hold the same elements. */
  lemma SameElements(a: seq<real>, b: seq<real>)
    requires multiset(a) == multiset(b)
    ensures forall x :: x in a <==> x in b
  {
    forall x ensures x in a <==> x in b {
      assert x in a <==> x in multiset(a);
      assert x in b <==> x in multiset(b);
    }
  }

  function SortReals(xs: seq<real>): (r: seq<real>)
    ensures Ascending(r)
    ensures multiset(r) == multiset(xs)
    ensures |r| == |xs|
    decreases |xs|
  {
    if |xs| == 0 then []
    else
      MultisetOfLast(xs);
      InsertReal(xs[|xs| - 1], SortReals(xs[..|xs| - 1]))
  }

  /** A non-empty sequence holds its init and its last element. */
  lemma MultisetOfLast<T>(s: seq<T>)
    requires |s| > 0
    ensures multiset(s) == multiset(s[..|s| - 1]) + multiset{s[|s| - 1]}
  {
    assert s == s[..|s| - 1] + [s[|s| - 1]];
  }

  lemma AscendingHeadLeast(a: seq<real>)
    requires Ascending(a) && |a| > 0
    ensures forall x :: x in a ==> a[0] <= x
  {
  }

  lemma MultisetTail(a: seq<real>)
    requires |a| > 0
    ensures multiset(a[1..]) == multiset(a) - multiset{a[0]}
  {
    assert a == [a[0]] + a[1..];
  }

  /** Two ascending arrangements of the same values are identical. */
  lemma {:induction false} AscendingArrangementUnique(a: seq<real>, b: seq<real>)
    requires Ascending(a) && Ascending(b) && multiset(a) == multiset(b)
    ensures a == b
    decreases |a|
  {
    assert |a| == |multiset(a)| == |multiset(b)| == |b|;
    if |a| > 0 {
      HeadsAgree(a, b);
      MultisetTail(a);
      MultisetTail(b);
      AscendingTail(a);
      AscendingTail(b);
      AscendingArrangementUnique(a[1..], b[1..]);
      assert a == [a[0]] + a[1..] && b == [b[0]] + b[1..];
    } else {
      assert a == [] == b;
    }
  }

  /** Two ascending arrangements of the same values start with the same value. */
  lemma HeadsAgree(a: seq<real>, b: seq<real>)
    requires Ascending(a) && Ascending(b) && multiset(a) == multiset(b) && |a| > 0 && |b| > 0
    ensures a[0] == b[0]
  {
    assert a[0] in multiset(b) && b[0] in multiset(a);
    AscendingHeadLeast(a);
    AscendingHeadLeast(b);
  }

  lemma AscendingTail(a: seq<real>)
    requires Ascending(a) && |a| > 0
    ensures Ascending(a[1..])
  {
    forall i, j | 0 <= i < j < |a[1..]| ensures a[1..][i] <= a[1..][j] {
      assert a[1..][i] == a[i + 1] && a[1..][j] == a[j + 1];
    }
  }

  /** No value occurs twice. */
  predicate Distinct(xs: seq<real>) {
    forall i, j :: 0 <= i < j < |xs| ==> xs[i] != xs[j]
  }

  predicate StrictlyAscending(xs: seq<real>) {
    forall i, j :: 0 <= i < j < |xs| ==> xs[i] < xs[j]
  }

  /** A sequence without repeats holds every value at most once. */
  lemma {:induction false} DistinctOnce(xs: seq<real>, v: real)
    requires Distinct(xs)
    ensures multiset(xs)[v] <= 1
    decreases |xs|
  {
    if |xs| > 0 {
      assert xs == [xs[0]] + xs[1..];
      assert Distinct(xs[1..]) by {
        forall i, j | 0 <= i < j < |xs[1..]| ensures xs[1..][i] != xs[1..][j] {
          assert xs[1..][i] == xs[i + 1] && xs[1..][j] == xs[j + 1];
        }
      }
      DistinctOnce(xs[1..], v);
      assert xs[0] !in xs[1..] by {
        forall k | 0 <= k < |xs[1..]| ensures xs[1..][k] != xs[0] {
          assert xs[1..][k] == xs[k + 1];
        }
      }
    }
  }

  /** A value found at two positions is counted at least twice. */
  lemma TwiceCounted(s: seq<real>, i: nat, j: nat)
    requires i < j < |s| && s[i] == s[j]
    ensures multiset(s)[s[j]] >= 2
  {
    assert s == s[..j] + s[j..];
    assert s[..j][i] == s[i];
    assert s[j..][0] == s[j];
    assert s[j] in multiset(s[..j]) && s[j] in multiset(s[j..]);
  }

  /** Sorting values without repeats gives a strictly ascending sequence. */
  lemma SortedDistinctStrict(xs: seq<real>)
    requires Distinct(xs)
    ensures StrictlyAscending(SortReals(xs))
  {
    var s := SortReals(xs);
    forall i, j | 0 <= i < j < |s| ensures s[i] < s[j] {
      if s[i] == s[j] {
        TwiceCounted(s, i, j);
        DistinctOnce(xs, s[j]);
        assert false;
      }
    }
  }

  // ---------------------------------------------------------------------------
  // named values (a pd.Series of floats indexed by strings)
  // ---------------------------------------------------------------------------

  datatype Entry = Entry(name: string, value: real)

  function Values(es: seq<Entry>): (r: seq<real>)
    ensures |r| == |es| && forall i :: 0 <= i < |es| ==> r[i] == es[i].value
  {
    seq(|es|, i requires 0 <= i < |es| => es[i].value)
  }

  function Names(es: seq<Entry>): (r: seq<string>)
    ensures |r| == |es| && forall i :: 0 <= i < |es| ==> r[i] == es[i].name
  {
    seq(|es|, i requires 0 <= i < |es| => es[i].name)
  }

  function Total(es: seq<Entry>): real
    decreases |es|
  {
    if |es| == 0 then 0.0 else es[0].value + Total(es[1..])
  }

  lemma {:induction false} TotalAppend(a: seq<Entry>, b: seq<Entry>)
    ensures Total(a + b) == Total(a) + Total(b)
    decreases |a|
  {
    if |a| > 0 {
      assert (a + b)[1..] == a[1..] + b;
      TotalAppend(a[1..], b);
    } else {
      assert a + b == b;
    }
  }

  predicate SortedByValue(es: seq<Entry>) {
    forall i, j :: 0 <= i < j < |es| ==> es[i].value <= es[j].value
  }

  predicate AllAtLeast(es: seq<Entry>, v: real) {
    forall i :: 0 <= i < |es| ==> v <= es[i].value
  }

  /** Entries drawn from a series keep any lower bound of its values. */
  lemma SubMultisetAtLeast(sub: seq<Entry>, es: seq<Entry>, v: real)
    requires multiset(sub) <= multiset(es) && AllAtLeast(es, v)
    ensures AllAtLeast(sub, v)
  {
    forall i | 0 <= i < |sub| ensures v <= sub[i].value {
      assert sub[i] in multiset(es);
      var j :| 0 <= j < |es| && es[j] == sub[i];
    }
  }

  function InsertByValue(e: Entry, s: seq<Entry>): (r: seq<Entry>)
    requires SortedByValue(s)
    ensures SortedByValue(r) && |r| == |s| + 1
    ensures multiset(r) == multiset(s) + multiset{e}
    ensures forall v :: AllAtLeast(s, v) && v <= e.value ==> AllAtLeast(r, v)
    decreases |s|
  {
    if |s| == 0 || e.value < s[0].value then
      InsertEntryFront(e, s);
      [e] + s
    else
      var rest := InsertByValue(e, s[1..]);
      assert s == [s[0]] + s[1..];
      InsertEntryBehind(e, s, rest);
      [s[0]] + rest
  }

  /** Placing e before a sorted series whose head is larger than e. */
  lemma InsertEntryFront(e: Entry, s: seq<Entry>)
    requires SortedByValue(s) && (|s| == 0 || e.value < s[0].value)
    ensures SortedByValue([e] + s)
    ensures forall v :: AllAtLeast(s, v) && v <= e.value ==> AllAtLeast([e] + s, v)
  {
    forall i, j | 0 <= i < j < |[e] + s| ensures ([e] + s)[i].value <= ([e] + s)[j].value {
      assert ([e] + s)[j] == s[j - 1];
      if i > 0 {
        assert ([e] + s)[i] == s[i - 1];
      } else {
        assert s[0].value <= s[j - 1].value;
      }
    }
  }

  /** Keeping the head of s in front of the insertion into its tail. */
  lemma InsertEntryBehind(e: Entry, s: seq<Entry>, rest: seq<Entry>)
    requires SortedByValue(s) && |s| > 0 && s[0].value <= e.value && SortedByValue(rest)
    requires forall v :: AllAtLeast(s[1..], v) && v <= e.value ==> AllAtLeast(rest, v)
    ensures SortedByValue([s[0]] + rest)
    ensures forall v :: AllAtLeast(s, v) && v <= e.value ==> AllAtLeast([s[0]] + rest, v)
  {
    assert AllAtLeast(s[1..], s[0].value);
    assert AllAtLeast(rest, s[0].value);
    var r := [s[0]] + rest;
    forall i, j | 0 <= i < j < |r| ensures r[i].value <= r[j].value {
      assert r[j] == rest[j - 1];
      if i > 0 {
        assert r[i] == rest[i - 1];
      }
    }
    forall v | AllAtLeast(s, v) && v <= e.value ensures AllAtLeast(r, v) {
      assert AllAtLeast(s[1..], v);
      assert v <= s[0].value;
      assert forall i :: 1 <= i < |r| ==> r[i] == rest[i - 1];
    }
  }

  /**
   * `Series.sort_values(ascending=True)`: the same entries, by value from
   * smallest to largest (entries of equal value keep their input order).
   */
  function SortByValue(es: seq<Entry>): (r: seq<Entry>)
    ensures SortedByValue(r)
    ensures multiset(r) == multiset(es)
    ensures |r| == |es|
    decreases |es|
  {
    if |es| == 0 then []
    else
      MultisetOfLast(es);
      InsertByValue(es[|es| - 1], SortByValue(es[..|es| - 1]))
  }

  /** `Series.tail(k)`: the last `min(k, len)` entries. */
  function Tail<T>(s: seq<T>, k: nat): (r: seq<T>)
    ensures |r| == if k < |s| then k else |s|
    ensures forall i :: 0 <= i < |r| ==> r[i] == s[|s| - |r| + i]
  {
    if k < |s| then s[|s| - k..] else s
  }

  /**
   * The last `k` entries of a value-sorted series are its `k` largest:
   * every entry left out is no larger than every entry kept.
   */
  lemma TailIsLargest(sorted: seq<Entry>, k: nat)
    requires SortedByValue(sorted)
    ensures var t := Tail(sorted, k);
      forall i, j :: 0 <= i < |sorted| - |t| && 0 <= j < |t| ==> sorted[i].value <= t[j].value
  {
    var t := Tail(sorted, k);
    forall i, j | 0 <= i < |sorted| - |t| && 0 <= j < |t| ensures sorted[i].value <= t[j].value {
      assert t[j] == sorted[|sorted| - |t| + j];
    }
  }

  function Reverse<T>(s: seq<T>): (r: seq<T>)
    ensures |r| == |s| && forall i :: 0 <= i < |s| ==> r[i] == s[|s| - 1 - i]
  {
    seq(|s|, i requires 0 <= i < |s| => s[|s| - 1 - i])
  }

  /**
   * `sort_values(ascending=False).head(k)`: the `k` largest entries, largest
   * first.
   */
  function TopDescending(es: seq<Entry>, k: nat): (r: seq<Entry>)
    ensures |r| == if k < |es| then k else |es|
    ensures forall i, j :: 0 <= i < j < |r| ==> r[i].value >= r[j].value
    ensures multiset(r) <= multiset(es)
    ensures forall x, i :: x in es && x !in r && 0 <= i < |r| ==> x.value <= r[i].value
  {
    var sorted := SortByValue(es);
    var t := Tail(sorted, k);
    TopOfSorted(es, sorted, t, k);
    Reverse(t)
  }

  /**
   * `sort_values(ascending=True).tail(k)`: the `k` largest entries, from
   * the smallest of them to the largest.
   */
  function LargestAscending(es: seq<Entry>, k: nat): (r: seq<Entry>)
    ensures |r| == if k < |es| then k else |es|
    ensures SortedByValue(r)
    ensures multiset(r) <= multiset(es)
    ensures forall x, i :: x in es && x !in r && 0 <= i < |r| ==> x.value <= r[i].value
  {
    var sorted := SortByValue(es);
    TailOfSorted(es, sorted, k);
    Tail(sorted, k)
  }

  lemma TailOfSorted(es: seq<Entry>, sorted: seq<Entry>, k: nat)
    requires SortedByValue(sorted) && multiset(sorted) == multiset(es)
    ensures SortedByValue(Tail(sorted, k))
    ensures multiset(Tail(sorted, k)) <= multiset(es)
    ensures forall x, i :: x in es && x !in Tail(sorted, k) && 0 <= i < |Tail(sorted, k)| ==>
      x.value <= Tail(sorted, k)[i].value
  {
    var t := Tail(sorted, k);
    TailIsSuffix(sorted, k);
    SortedSuffix(sorted, |sorted| - |t|);
    assert t == sorted[|sorted| - |t|..];
    forall x, i | x in es && x !in t && 0 <= i < |t| ensures x.value <= t[i].value {
      assert x in multiset(sorted);
      LeftOutOfTail(sorted, k, x, i);
    }
  }

  /** The sequence is what `tail` leaves out followed by the tail itself. */
  lemma TailIsSuffix<T>(s: seq<T>, k: nat)
    ensures s == s[..|s| - |Tail(s, k)|] + Tail(s, k)
    ensures multiset(Tail(s, k)) <= multiset(s)
  {
    var t := Tail(s, k);
    assert t == s[|s| - |t|..];
    assert s == s[..|s| - |t|] + t;
    assert multiset(s) == multiset(s[..|s| - |t|]) + multiset(t);
  }

  lemma SortedSuffix(sorted: seq<Entry>, off: nat)
    requires SortedByValue(sorted) && off <= |sorted|
    ensures SortedByValue(sorted[off..])
  {
    var t := sorted[off..];
    forall i, j | 0 <= i < j < |t| ensures t[i].value <= t[j].value {
      assert t[i] == sorted[off + i] && t[j] == sorted[off + j];
    }
  }

  /** An entry of a sorted series missing from its tail is no larger than any tail entry. */
  lemma LeftOutOfTail(sorted: seq<Entry>, k: nat, x: Entry, i: nat)
    requires SortedByValue(sorted) && x in sorted
    requires x !in Tail(sorted, k) && i < |Tail(sorted, k)|
    ensures x.value <= Tail(sorted, k)[i].value
  {
    var t := Tail(sorted, k);
    var off := |sorted| - |t|;
    assert forall j :: off <= j < |sorted| ==> sorted[j] == t[j - off];
    var a :| 0 <= a < |sorted| && sorted[a] == x;
    assert a < off;
    assert t[i] == sorted[off + i];
  }

  lemma TopOfSorted(es: seq<Entry>, sorted: seq<Entry>, t: seq<Entry>, k: nat)
    requires SortedByValue(sorted) && multiset(sorted) == multiset(es) && |sorted| == |es|
    requires t == Tail(sorted, k)
    ensures |Reverse(t)| == if k < |es| then k else |es|
    ensures forall i, j :: 0 <= i < j < |t| ==> Reverse(t)[i].value >= Reverse(t)[j].value
    ensures multiset(Reverse(t)) <= multiset(es)
    ensures forall x, i :: x in es && x !in Reverse(t) && 0 <= i < |t| ==> x.value <= Reverse(t)[i].value
  {
    TopDescends(sorted, t, k);
    var rest := sorted[..|sorted| - |t|];
    assert sorted == rest + t by {
      assert t == sorted[|sorted| - |t|..];
    }
    ReverseMultiset(t);
    assert multiset(es) == multiset(rest) + multiset(t);
    TopLargest(es, sorted, rest, t, k);
  }

  lemma TopDescends(sorted: seq<Entry>, t: seq<Entry>, k: nat)
    requires SortedByValue(sorted) && t == Tail(sorted, k)
    ensures forall i, j :: 0 <= i < j < |t| ==> Reverse(t)[i].value >= Reverse(t)[j].value
  {
    forall i, j | 0 <= i < j < |t| ensures Reverse(t)[i].value >= Reverse(t)[j].value {
      assert Reverse(t)[i] == sorted[|sorted| - 1 - i];
      assert Reverse(t)[j] == sorted[|sorted| - 1 - j];
    }
  }

  lemma TopLargest(es: seq<Entry>, sorted: seq<Entry>, rest: seq<Entry>, t: seq<Entry>, k: nat)
    requires SortedByValue(sorted) && t == Tail(sorted, k) && sorted == rest + t
    requires multiset(es) == multiset(rest) + multiset(t)
    requires multiset(Reverse(t)) == multiset(t)
    ensures forall x, i :: x in es && x !in Reverse(t) && 0 <= i < |t| ==> x.value <= Reverse(t)[i].value
  {
    TailIsLargest(sorted, k);
    var r := Reverse(t);
    forall x, i | x in es && x !in r && 0 <= i < |t| ensures x.value <= r[i].value {
      assert x in multiset(es);
      assert x !in multiset(r);
      assert x in multiset(rest);
      var a :| 0 <= a < |rest| && rest[a] == x;
      assert rest[a] == sorted[a];
      assert r[i] == t[|t| - 1 - i];
    }
  }

  lemma {:induction false} ReverseMultiset<T>(s: seq<T>)
    ensures multiset(Reverse(s)) == multiset(s)
    decreases |s|
  {
    if |s| > 0 {
      var init := s[..|s| - 1];
      ReverseMultiset(init);
      assert Reverse(s) == [s[|s| - 1]] + Reverse(init);
      assert s == init + [s[|s| - 1]];
    }
  }
}
