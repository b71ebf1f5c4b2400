/**
 * The target builder shared by the CatBoost training script and the two
 * baseline scripts: forward h-step returns, the 100-row guard, the
 * chronological 80/20 cut, tertile cutoffs fitted on the training slice
 * only (`pd.qcut(..., 3)`), and right-closed labelling with the outer
 * edges widened to -inf/+inf (`pd.cut`).
 */
module Labels {
  import opened Wrappers
  import Stats

  /** A horizon with fewer rows than this is skipped. */
  const MinRows: nat := 100

  /** The horizons every script iterates over, in this order. */
  const Horizons: seq<nat> := [1, 7, 30]

  /** Closing prices; the model assumes every close is strictly positive. */
  predicate Positive(close: seq<real>) {
    forall t :: 0 <= t < |close| ==> close[t] > 0.0
  }

  /** Relative change of the close from row `from` to row `upto`. */
  function Growth(close: seq<real>, from: nat, upto: nat): real
    requires Positive(close) && from < |close| && upto < |close|
  {
    close[upto] / close[from] - 1.0
  }

  // ---------------------------------------------------------------------------
  // pct_change, shift and dropna
  // ---------------------------------------------------------------------------

  /** `close.pct_change(h)`: row t compares with row t-h; the first h rows are missing. */
  function PctChange(close: seq<real>, h: nat): (col: seq<Option<real>>)
    requires Positive(close)
    ensures |col| == |close|
    ensures forall t :: 0 <= t < |col| ==> (col[t].Some? <==> h <= t)
    ensures forall t :: h <= t < |col| ==> col[t] == Some(Growth(close, t - h, t))
  {
    seq(|close|, t requires 0 <= t < |close| =>
      if t >= h then Some(Growth(close, t - h, t)) else None)
  }

  /** `col.shift(-h)`: row t takes row t+h's value; the last h rows become missing. */
  function ShiftBack<T>(col: seq<Option<T>>, h: nat): (r: seq<Option<T>>)
    ensures |r| == |col|
  {
    seq(|col|, t requires 0 <= t < |col| => if t + h < |col| then col[t + h] else None)
  }

  /** `pct_change(h).shift(-h)`: the return earned over the next h rows. */
  function ForwardColumn(close: seq<real>, h: nat): (col: seq<Option<real>>)
    requires Positive(close)
    ensures |col| == |close|
    ensures forall t :: 0 <= t < |col| ==> (col[t].Some? <==> t + h < |close|)
    ensures forall t :: 0 <= t < |col| && t + h < |close| ==> col[t] == Some(Growth(close, t, t + h))
  {
    ShiftBack(PctChange(close, h), h)
  }

  /** `dropna`: the present values, in order. */
  function DropMissing(col: seq<Option<real>>): (r: seq<real>)
    ensures |r| <= |col|
    decreases |col|
  {
    if |col| == 0 then []
    else (if col[0].Some? then [col[0].value] else []) + DropMissing(col[1..])
  }

  /** When the present values are exactly the first m rows, dropna keeps those m values. */
  lemma {:induction false} DropMissingPrefix(col: seq<Option<real>>, m: nat)
    requires m <= |col|
    requires forall t :: 0 <= t < m ==> col[t].Some?
    requires forall t :: m <= t < |col| ==> col[t].None?
    ensures |DropMissing(col)| == m
    ensures forall t :: 0 <= t < m ==> DropMissing(col)[t] == col[t].value
    decreases |col|
  {
    if |col| > 0 {
      if m > 0 {
        DropMissingPrefix(col[1..], m - 1);
      } else {
        DropMissingPrefix(col[1..], 0);
      }
    }
  }

  /**
   * The `ret_futuro` column after `dropna`: one value per row that has a row
   * h steps ahead, and that value is the forward growth.
   */
  function ForwardReturns(close: seq<real>, h: nat): (rets: seq<real>)
    requires Positive(close)
    ensures |rets| == if h < |close| then |close| - h else 0
    ensures forall t :: 0 <= t < |rets| ==> t + h < |close| && rets[t] == Growth(close, t, t + h)
  {
    var col := ForwardColumn(close, h);
    var m := if h < |close| then |close| - h else 0;
    DropMissingPrefix(col, m);
    DropMissing(col)
  }

  // ---------------------------------------------------------------------------
  // chronological split
  // ---------------------------------------------------------------------------

  /** `int(n * 0.8)`: the floor of four fifths of n. */
  function SplitIndex(n: nat): (k: nat)
    ensures 5 * k <= 4 * n < 5 * k + 5
    ensures k <= n
  {
    (4 * n) / 5
  }

  /** With at least 100 rows both sides of the split are non-empty. */
  lemma SplitBothSides(n: nat)
    requires n >= MinRows
    ensures 80 <= SplitIndex(n) < n
    ensures n - SplitIndex(n) >= 20
  {
  }

  /** `iloc[:k]` and `iloc[k:]`. */
  function Partition<T>(xs: seq<T>, k: nat): (parts: (seq<T>, seq<T>))
    requires k <= |xs|
    ensures parts.0 + parts.1 == xs
    ensures |parts.0| == k
  {
    (xs[..k], xs[k..])
  }

  /** The train part is the prefix, the test part the suffix: every row lands in exactly one. */
  lemma PartitionRows<T>(xs: seq<T>, k: nat, t: nat)
    requires k <= |xs| && t < |xs|
    ensures t < k ==> Partition(xs, k).0[t] == xs[t]
    ensures k <= t ==> Partition(xs, k).1[t - k] == xs[t]
    ensures |Partition(xs, k).0| + |Partition(xs, k).1| == |xs|
  {
  }

  // ---------------------------------------------------------------------------
  // tertile cutoffs (pd.qcut with q = 3 on the training slice)
  // ---------------------------------------------------------------------------

  /** The two inner bin edges; the outer ones are -inf and +inf. */
  datatype Cutoffs = Cutoffs(low: real, high: real)

  /** Why a horizon produced no labels. */
  datatype Skip = TooFewRows | NonUniqueEdges

  /**
   * The k/3 quantile of an ascending sequence with linear interpolation
   * (pandas' default): position (n-1)*k/3, interpolated between its two
   * neighbours.
   */
  function Quantile(s: seq<real>, k: nat): (q: real)
    requires Stats.Ascending(s) && |s| > 0 && k <= 3
    ensures s[0] <= q <= s[|s| - 1]
  {
    var scaled := if k == 0 then 0 else if k == 1 then |s| - 1 else if k == 2 then 2 * (|s| - 1) else 3 * (|s| - 1);
    var lo := scaled / 3;
    var rem := scaled % 3;
    if rem == 0 then s[lo]
    else if rem == 1 then s[lo] + (s[lo + 1] - s[lo]) / 3.0
    else s[lo] + 2.0 * (s[lo + 1] - s[lo]) / 3.0
  }

  /** The quantile never decreases as the probability grows. */
  lemma QuantileMonotone(s: seq<real>, j: nat, k: nat)
    requires Stats.Ascending(s) && |s| > 0 && j <= k <= 3
    ensures Quantile(s, j) <= Quantile(s, k)
  {
    var n := |s|;
    var sj := if j == 0 then 0 else if j == 1 then n - 1 else if j == 2 then 2 * (n - 1) else 3 * (n - 1);
    var sk := if k == 0 then 0 else if k == 1 then n - 1 else if k == 2 then 2 * (n - 1) else 3 * (n - 1);
    assert sj <= sk;
    var lj, lk := sj / 3, sk / 3;
    if lj < lk {
      assert Quantile(s, j) <= s[lj + 1];
      assert s[lj + 1] <= s[lk];
    }
  }

  /** The first and last of the sorted values are the sample's minimum and maximum. */
  lemma SortedEnds(train: seq<real>)
    requires |train| > 0
    ensures var s := Stats.SortReals(train);
            s[0] in train && s[|s| - 1] in train && forall x :: x in train ==> s[0] <= x <= s[|s| - 1]
  {
    var s := Stats.SortReals(train);
    Stats.SameElements(s, train);
    forall x | x in train
      ensures s[0] <= x <= s[|s| - 1]
    {
      var i :| 0 <= i < |s| && s[i] == x;
      assert s[0] <= s[i] <= s[|s| - 1];
    }
  }

  /** The four `retbins` edges of `pd.qcut(train, 3)`: minimum, two tertiles, maximum. */
  function QcutEdges(train: seq<real>): (edges: seq<real>)
    requires |train| > 0
    ensures |edges| == 4
    ensures edges[0] <= edges[1] <= edges[2] <= edges[3]
    ensures edges[1] == Quantile(Stats.SortReals(train), 1)
    ensures edges[2] == Quantile(Stats.SortReals(train), 2)
    ensures edges[0] in train && edges[3] in train
    ensures forall x :: x in train ==> edges[0] <= x <= edges[3]
  {
    var s := Stats.SortReals(train);
    SortedEnds(train);
    QuantileMonotone(s, 1, 2);
    [s[0], Quantile(s, 1), Quantile(s, 2), s[|s| - 1]]
  }

  /**
   * The inner cutoffs of `pd.qcut(train, 3)`, or `NonUniqueEdges` when two of
   * the four edges coincide (pandas refuses duplicate bin edges).
   */
  function TertileCutoffs(train: seq<real>): (r: Result<Cutoffs, Skip>)
    requires |train| > 0
    ensures r.Err? ==> r.error == NonUniqueEdges
    ensures var e := QcutEdges(train); r.Err? <==> !(e[0] < e[1] < e[2] < e[3])
    ensures r.Ok? ==> r.value == Cutoffs(QcutEdges(train)[1], QcutEdges(train)[2])
    ensures r.Ok? ==> r.value.low < r.value.high
    ensures r.Ok? ==> exists i :: 0 <= i < |train| && train[i] < r.value.low
    ensures r.Ok? ==> exists j :: 0 <= j < |train| && r.value.high < train[j]
  {
    var e := QcutEdges(train);
    if e[0] < e[1] < e[2] < e[3] then
      assert e[0] in train && e[3] in train;
      Ok(Cutoffs(e[1], e[2]))
    else Err(NonUniqueEdges)
  }

  /** The cutoffs depend on the training values only, not on their order. */
  lemma CutoffsIgnoreOrder(a: seq<real>, b: seq<real>)
    requires |a| > 0 && multiset(a) == multiset(b)
    ensures |b| > 0
    ensures TertileCutoffs(a) == TertileCutoffs(b)
  {
    assert |b| == |multiset(b)| == |multiset(a)| == |a|;
    Stats.AscendingArrangementUnique(Stats.SortReals(a), Stats.SortReals(b));
  }

  /**
   * Quantiles of a strictly ascending sequence of two or more values are
   * strictly ordered, and strictly inside its range.
   */
  lemma QuantilesStrict(s: seq<real>)
    requires Stats.StrictlyAscending(s) && |s| >= 2
    ensures Stats.Ascending(s)
    ensures s[0] < Quantile(s, 1) < Quantile(s, 2) < s[|s| - 1]
  {
    var n := |s|;
    var lo1, rem1 := (n - 1) / 3, (n - 1) % 3;
    var lo2, rem2 := (2 * (n - 1)) / 3, (2 * (n - 1)) % 3;
    assert lo1 <= lo2;
    var q1, q2 := Quantile(s, 1), Quantile(s, 2);
    assert rem1 > 0 ==> lo1 + 1 < n && s[lo1] < q1 < s[lo1 + 1];
    assert rem2 > 0 ==> lo2 + 1 < n && s[lo2] < q2 < s[lo2 + 1];
    assert rem1 == 0 ==> q1 == s[lo1] && lo1 + 1 < n;
    assert rem2 == 0 ==> q2 == s[lo2] && lo2 + 1 < n;
    if lo1 == 0 {
      assert rem1 > 0 || lo1 > 0;
    }
    if lo1 < lo2 {
      assert q1 < s[lo1 + 1] <= s[lo2] <= q2;
    } else {
      assert rem1 < rem2;
    }
  }

  /**
   * Training returns that never repeat always admit tertile cutoffs: the only
   * way `pd.qcut` fails is a repeated value.
   */
  lemma DistinctTrainCuts(train: seq<real>)
    requires |train| >= 2 && Stats.Distinct(train)
    ensures TertileCutoffs(train).Ok?
  {
    Stats.SortedDistinctStrict(train);
    QuantilesStrict(Stats.SortReals(train));
  }

  /** A training slice of one repeated value cannot be cut into tertiles. */
  lemma ConstantTrainFails(train: seq<real>)
    requires |train| > 0 && forall i :: 0 <= i < |train| ==> train[i] == train[0]
    ensures TertileCutoffs(train) == Err(NonUniqueEdges)
  {
    var e := QcutEdges(train);
    assert e[0] == train[0] && e[3] == train[0];
  }

  // ---------------------------------------------------------------------------
  // labelling (pd.cut with bins [-inf, low, high, +inf], right-closed)
  // ---------------------------------------------------------------------------

  /** Class of a return: 0 up to `low`, 1 up to `high`, 2 above. */
  function Label(x: real, c: Cutoffs): (k: nat)
    requires c.low < c.high
    ensures k <= 2
    ensures k == 0 <==> x <= c.low
    ensures k == 2 <==> c.high < x
  {
    if x <= c.low then 0 else if x <= c.high then 1 else 2
  }

  /** A bin edge of `pd.cut`, with the widened outer edges. */
  datatype Edge = NegInf | At(v: real) | PosInf

  /** x lies in the right-closed interval (lo, hi]. */
  predicate InInterval(x: real, lo: Edge, hi: Edge) {
    (lo.NegInf? || (lo.At? && lo.v < x)) && (hi.PosInf? || (hi.At? && x <= hi.v))
  }

  /** The bins after `bins[0], bins[-1] = -inf, +inf`. */
  function Bins(c: Cutoffs): (edges: seq<Edge>)
    ensures |edges| == 4 && edges[0] == NegInf && edges[3] == PosInf
  {
    [NegInf, At(c.low), At(c.high), PosInf]
  }

  /** The label of x is k exactly when x falls in the k-th right-closed bin. */
  lemma LabelIsBin(x: real, c: Cutoffs, k: nat)
    requires c.low < c.high && k <= 2
    ensures Label(x, c) == k <==> InInterval(x, Bins(c)[k], Bins(c)[k + 1])
  {
  }

  /** Every return lies in exactly one bin. */
  lemma ExactlyOneBin(x: real, c: Cutoffs)
    requires c.low < c.high
    ensures exists k :: 0 <= k <= 2 && InInterval(x, Bins(c)[k], Bins(c)[k + 1])
    ensures forall j, k ::
              (0 <= j <= 2 && 0 <= k <= 2 && InInterval(x, Bins(c)[j], Bins(c)[j + 1])
               && InInterval(x, Bins(c)[k], Bins(c)[k + 1])) ==> j == k
  {
    LabelIsBin(x, c, Label(x, c));
  }

  /** A larger return never gets a smaller class. */
  lemma LabelMonotone(x: real, y: real, c: Cutoffs)
    requires c.low < c.high && x <= y
    ensures Label(x, c) <= Label(y, c)
  {
  }

  /** Labels of a column, row by row. */
  function LabelAll(xs: seq<real>, c: Cutoffs): (ks: seq<nat>)
    requires c.low < c.high
    ensures |ks| == |xs|
    ensures forall t :: 0 <= t < |xs| ==> ks[t] <= 2 && ks[t] == Label(xs[t], c)
  {
    seq(|xs|, t requires 0 <= t < |xs| => Label(xs[t], c))
  }

  // ---------------------------------------------------------------------------
  // one horizon
  // ---------------------------------------------------------------------------

  /** The labelled frame of one (series, horizon). */
  datatype Labelled = Labelled(rets: seq<real>, split: nat, cutoffs: Cutoffs, labels: seq<nat>)

  /**
   * The 100-row guard, the 80/20 cut, cutoffs from the training slice and a
   * label for every row of a return column.
   */
  function LabelReturns(rets: seq<real>): (r: Result<Labelled, Skip>)
    ensures r == Err(TooFewRows) <==> |rets| < MinRows
    ensures r == Err(NonUniqueEdges) <==>
              |rets| >= MinRows && TertileCutoffs(rets[..SplitIndex(|rets|)]).Err?
    ensures r.Ok? ==> r.value.rets == rets
    ensures r.Ok? ==> r.value.split == SplitIndex(|rets|) && 0 < r.value.split < |rets|
    ensures r.Ok? ==> r.value.cutoffs.low < r.value.cutoffs.high
    ensures r.Ok? ==> Ok(r.value.cutoffs) == TertileCutoffs(rets[..r.value.split])
    ensures r.Ok? ==> |r.value.labels| == |rets|
    ensures r.Ok? ==> forall t :: 0 <= t < |rets| ==>
              r.value.labels[t] <= 2 && r.value.labels[t] == Label(rets[t], r.value.cutoffs)
  {
    if |rets| < MinRows then Err(TooFewRows)
    else
      var k := SplitIndex(|rets|);
      var c := TertileCutoffs(rets[..k]);
      if c.Err? then Err(NonUniqueEdges)
      else Ok(Labelled(rets, k, c.value, LabelAll(rets, c.value)))
  }

  /**
   * Changing returns at or after the split changes neither the outcome, nor
   * the cutoffs, nor any training label.
   */
  lemma CutoffsIgnoreTestReturns(r1: seq<real>, r2: seq<real>)
    requires |r1| == |r2| && r1[..SplitIndex(|r1|)] == r2[..SplitIndex(|r1|)]
    ensures LabelReturns(r1).Ok? <==> LabelReturns(r2).Ok?
    ensures LabelReturns(r1).Ok? ==> LabelReturns(r1).value.cutoffs == LabelReturns(r2).value.cutoffs
    ensures LabelReturns(r1).Ok? ==> forall t :: 0 <= t < SplitIndex(|r1|) ==>
              LabelReturns(r1).value.labels[t] == LabelReturns(r2).value.labels[t]
  {
    var k := SplitIndex(|r1|);
    if LabelReturns(r1).Ok? {
      forall t | 0 <= t < k
        ensures r1[t] == r2[t]
      {
        assert r1[..k][t] == r2[..k][t];
      }
    }
  }

  /** One horizon of one series: forward returns, then `LabelReturns`. */
  function LabelHorizon(close: seq<real>, h: nat): (r: Result<Labelled, Skip>)
    requires Positive(close)
    ensures r == Err(TooFewRows) <==> |close| < MinRows + h
    ensures r == Err(NonUniqueEdges) <==>
              |close| >= MinRows + h && TertileCutoffs(ForwardReturns(close, h)[..SplitIndex(|close| - h)]).Err?
    ensures r.Ok? ==> r.value.rets == ForwardReturns(close, h)
    ensures r.Ok? ==> |r.value.rets| == |close| - h
    ensures r.Ok? ==> r.value.split == SplitIndex(|r.value.rets|) && 0 < r.value.split < |r.value.labels| == |r.value.rets|
    ensures r.Ok? ==> r.value.cutoffs.low < r.value.cutoffs.high
    ensures r.Ok? ==> Ok(r.value.cutoffs) == TertileCutoffs(r.value.rets[..r.value.split])
    ensures r.Ok? ==> forall t :: 0 <= t < |r.value.labels| ==>
              r.value.labels[t] <= 2 && r.value.labels[t] == Label(r.value.rets[t], r.value.cutoffs)
    ensures r.Ok? ==> forall t :: 0 <= t < |r.value.rets| ==> r.value.rets[t] == Growth(close, t, t + h)
  {
    LabelReturns(ForwardReturns(close, h))
  }

  /** Training returns read closes up to row k+h-1 only. */
  lemma TrainReturnsAgree(close1: seq<real>, close2: seq<real>, h: nat, k: nat)
    requires Positive(close1) && Positive(close2) && |close1| == |close2|
    requires k + h <= |close1| && close1[..k + h] == close2[..k + h]
    ensures k <= |ForwardReturns(close1, h)| && k <= |ForwardReturns(close2, h)|
    ensures ForwardReturns(close1, h)[..k] == ForwardReturns(close2, h)[..k]
  {
    var r1, r2 := ForwardReturns(close1, h), ForwardReturns(close2, h);
    forall t | 0 <= t < k
      ensures r1[t] == r2[t]
    {
      assert close1[..k + h][t] == close2[..k + h][t];
      assert close1[..k + h][t + h] == close2[..k + h][t + h];
    }
  }

  /**
   * The cutoffs, and so every training label, are fixed by the closes up to
   * row split+h-1: rewriting any later close changes neither.
   */
  lemma CutoffsIgnoreLaterCloses(close1: seq<real>, close2: seq<real>, h: nat)
    requires Positive(close1) && Positive(close2) && |close1| == |close2|
    requires |close1| >= MinRows + h
    requires close1[..SplitIndex(|close1| - h) + h] == close2[..SplitIndex(|close1| - h) + h]
    ensures LabelHorizon(close1, h).Ok? <==> LabelHorizon(close2, h).Ok?
    ensures LabelHorizon(close1, h).Ok? ==>
              LabelHorizon(close1, h).value.cutoffs == LabelHorizon(close2, h).value.cutoffs
    ensures LabelHorizon(close1, h).Ok? ==> forall t :: 0 <= t < SplitIndex(|close1| - h) ==>
              LabelHorizon(close1, h).value.labels[t] == LabelHorizon(close2, h).value.labels[t]
  {
    TrainReturnsAgree(close1, close2, h, SplitIndex(|close1| - h));
    CutoffsIgnoreTestReturns(ForwardReturns(close1, h), ForwardReturns(close2, h));
  }
}
