/**
 * What the SHAP scripts compute from a SHAP array: the mean absolute SHAP
 * value per feature, the FUZZY columns summed by indicator, the per-asset
 * series averaged into one global series, and the features each chart
 * keeps.
 */
module ShapImportance {
  import opened Wrappers
  import opened Text
  import Stats
  import Seqs
  import Training
  import opened ShapWindows

  // ---------------------------------------------------------------------------
  // Mean absolute SHAP value per feature
  // ---------------------------------------------------------------------------

  /** The length of the last axis, whose last column is the bias. */
  function LastAxis(sv: Shap): nat {
    match sv
    case Flat(_, w) => w
    case Cube(_, _, c) => c
  }

  /**
   * The rows `np.abs(...).mean(...)` averages over: the samples of a 2-D
   * array, every (sample, middle index) pair of a 3-D one.
   */
  function AveragedRows(sv: Shap): (rows: seq<seq<real>>)
    ensures forall r :: 0 <= r < |rows| ==> |rows[r]| == LastAxis(sv)
    ensures sv.Flat? ==> rows == sv.rows
    ensures sv.Cube? ==> |rows| == |sv.cells| * sv.mid
  {
    match sv
    case Flat(rows, _) => rows
    case Cube(cells, b, c) =>
      CubeRows(cells, b, c);
      Seqs.Concat(cells)
  }

  /** Flattening the first two axes of a cube keeps the rows of the last one. */
  lemma CubeRows(cells: seq<seq<seq<real>>>, b: nat, c: nat)
    requires forall r :: 0 <= r < |cells| ==> |cells[r]| == b && forall m :: 0 <= m < b ==> |cells[r][m]| == c
    ensures |Seqs.Concat(cells)| == |cells| * b
    ensures forall r :: 0 <= r < |Seqs.Concat(cells)| ==> |Seqs.Concat(cells)[r]| == c
  {
    Seqs.ConcatUniformLength(cells, b);
    forall r | 0 <= r < |Seqs.Concat(cells)| ensures |Seqs.Concat(cells)[r]| == c {
      var row := Seqs.Concat(cells)[r];
      Seqs.ConcatMembership(cells, row);
      var i :| 0 <= i < |cells| && row in cells[i];
      var m :| 0 <= m < |cells[i]| && cells[i][m] == row;
    }
  }

  /** `|x|` down column `j`. */
  function ColumnAbs(rows: seq<seq<real>>, j: nat): (col: seq<real>)
    requires forall r :: 0 <= r < |rows| ==> j < |rows[r]|
    ensures |col| == |rows|
    ensures forall r :: 0 <= r < |rows| ==> col[r] >= 0.0 && (col[r] == rows[r][j] || col[r] == -rows[r][j])
  {
    seq(|rows|, r requires 0 <= r < |rows| => Stats.Abs(rows[r][j]))
  }

  /**
   * `np.abs(sv[:, :-1]).mean(axis=0)` or `np.abs(sv[:, :, :-1]).mean(axis=(0, 1))`
   * turned into `pd.Series(val, index=cols)`: for every column but the
   * bias, the mean absolute SHAP value. `None` when the series cannot be
   * built (the last axis is not one longer than `cols`) or there is no row
   * to average.
   */
  function Importance(sv: Shap, cols: seq<string>): (ser: Option<seq<Stats.Entry>>)
    ensures ser.Some? <==> |AveragedRows(sv)| > 0 && LastAxis(sv) == |cols| + 1
    ensures ser.Some? ==> Stats.Names(ser.value) == cols
    ensures ser.Some? ==> Stats.AllAtLeast(ser.value, 0.0)
    ensures ser.Some? ==> forall j :: 0 <= j < |cols| ==>
      ser.value[j].value == Stats.Mean(ColumnAbs(AveragedRows(sv), j))
  {
    var rows := AveragedRows(sv);
    if |rows| > 0 && LastAxis(sv) == |cols| + 1 then
      var es := seq(|cols|, j requires 0 <= j < |cols| => Stats.Entry(cols[j], Stats.Mean(ColumnAbs(rows, j))));
      assert forall j :: 0 <= j < |cols| ==> es[j].value >= 0.0 by {
        forall j | 0 <= j < |cols| ensures es[j].value >= 0.0 {
          Stats.MeanAtLeast(ColumnAbs(rows, j), 0.0);
        }
      }
      Some(es)
    else None
  }

  /**
   * The bias column has no say: two arrays that agree on every feature
   * column give the same importances.
   */
  lemma ImportanceIgnoresBias(a: seq<seq<real>>, b: seq<seq<real>>, cols: seq<string>)
    requires |a| == |b|
    requires forall r :: 0 <= r < |a| ==> |a[r]| == |cols| + 1 && |b[r]| == |cols| + 1
    requires forall r, j :: 0 <= r < |a| && 0 <= j < |cols| ==> a[r][j] == b[r][j]
    ensures Importance(Flat(a, |cols| + 1), cols) == Importance(Flat(b, |cols| + 1), cols)
  {
    var ia := Importance(Flat(a, |cols| + 1), cols);
    var ib := Importance(Flat(b, |cols| + 1), cols);
    if ia.Some? {
      forall j | 0 <= j < |cols| ensures ia.value[j] == ib.value[j] {
        assert ColumnAbs(a, j) == ColumnAbs(b, j) by {
          forall r | 0 <= r < |a| ensures ColumnAbs(a, j)[r] == ColumnAbs(b, j)[r] {
            assert a[r][j] == b[r][j];
          }
        }
        assert ia.value[j].name == Stats.Names(ia.value)[j];
        assert ib.value[j].name == Stats.Names(ib.value)[j];
      }
      assert ia.value == ib.value;
    }
  }

  /** A feature whose SHAP values all have magnitude `v` has importance `v`. */
  lemma ImportanceOfConstantMagnitude(sv: Shap, cols: seq<string>, j: nat, v: real)
    requires Importance(sv, cols).Some? && j < |cols|
    requires forall r :: 0 <= r < |AveragedRows(sv)| ==> Stats.Abs(AveragedRows(sv)[r][j]) == v
    ensures Importance(sv, cols).value[j].value == v
  {
    Stats.MeanConstant(ColumnAbs(AveragedRows(sv), j), v);
  }

  /** No importance exceeds the largest magnitude in its column. */
  lemma ImportanceBelow(sv: Shap, cols: seq<string>, j: nat, hi: real)
    requires Importance(sv, cols).Some? && j < |cols|
    requires forall r :: 0 <= r < |AveragedRows(sv)| ==> Stats.Abs(AveragedRows(sv)[r][j]) <= hi
    ensures 0.0 <= Importance(sv, cols).value[j].value <= hi
  {
    Stats.MeanBounds(ColumnAbs(AveragedRows(sv), j), 0.0, hi);
  }

  // ---------------------------------------------------------------------------
  // groupby(lambda x: x.split('_')[0]).sum()
  // ---------------------------------------------------------------------------

  /** `x.split('_')[0]`: the indicator a FUZZY column belongs to. */
  function Prefix(name: string): string {
    FirstField(name, '_')
  }

  /** The sum of the values whose name has prefix `p`. */
  function GroupSum(es: seq<Stats.Entry>, p: string): real
    decreases |es|
  {
    if |es| == 0 then 0.0
    else (if Prefix(es[0].name) == p then es[0].value else 0.0) + GroupSum(es[1..], p)
  }

  /** The sum of the values whose prefix is one of `ps`. */
  function Covered(es: seq<Stats.Entry>, ps: seq<string>): real
    decreases |es|
  {
    if |es| == 0 then 0.0
    else (if Prefix(es[0].name) in ps then es[0].value else 0.0) + Covered(es[1..], ps)
  }

  function Prefixes(es: seq<Stats.Entry>): (ps: seq<string>)
    ensures |ps| == |es| && forall i :: 0 <= i < |es| ==> ps[i] == Prefix(es[i].name)
  {
    seq(|es|, i requires 0 <= i < |es| => Prefix(es[i].name))
  }

  /** One entry per prefix of `ps`, holding its group's sum. */
  function Groups(es: seq<Stats.Entry>, ps: seq<string>): (gs: seq<Stats.Entry>)
    ensures |gs| == |ps|
    ensures forall i :: 0 <= i < |ps| ==> gs[i] == Stats.Entry(ps[i], GroupSum(es, ps[i]))
    decreases |ps|
  {
    if |ps| == 0 then [] else [Stats.Entry(ps[0], GroupSum(es, ps[0]))] + Groups(es, ps[1..])
  }

  /**
   * `s.groupby(lambda x: x.split('_')[0]).sum()`: one entry per prefix, in
   * ascending order, holding the sum of its columns; nothing is lost.
   */
  function GroupByPrefix(es: seq<Stats.Entry>): (gs: seq<Stats.Entry>)
    ensures Ascending(Stats.Names(gs))
    ensures forall p :: p in Stats.Names(gs) <==> exists i :: 0 <= i < |es| && Prefix(es[i].name) == p
    ensures forall i :: 0 <= i < |gs| ==> gs[i].value == GroupSum(es, gs[i].name)
    ensures Stats.Total(gs) == Stats.Total(es)
  {
    var ps := SortedUnique(Prefixes(es));
    var gs := Groups(es, ps);
    assert Stats.Names(gs) == ps;
    forall i, j | 0 <= i < j < |ps| ensures ps[i] != ps[j] {
      LessIrreflexive(ps[i]);
    }
    GroupsTotal(es, ps);
    CoveredAll(es, ps);
    gs
  }

  /** Summing the groups of distinct prefixes sums the columns they cover. */
  lemma {:induction false} GroupsTotal(es: seq<Stats.Entry>, ps: seq<string>)
    requires forall i, j :: 0 <= i < j < |ps| ==> ps[i] != ps[j]
    ensures Stats.Total(Groups(es, ps)) == Covered(es, ps)
    decreases |ps|
  {
    if |ps| > 0 {
      var p, rest := ps[0], ps[1..];
      var gs := Groups(es, ps);
      assert gs[1..] == Groups(es, rest);
      assert Stats.Total(gs) == GroupSum(es, p) + Stats.Total(Groups(es, rest));
      GroupsTotal(es, rest);
      assert p !in rest by {
        forall k | 0 <= k < |rest| ensures rest[k] != p {
          assert rest[k] == ps[k + 1];
        }
      }
      CoveredCons(es, p, rest);
      assert [p] + rest == ps;
      assert Covered(es, ps) == GroupSum(es, p) + Covered(es, rest);
    } else {
      CoveredNothing(es);
    }
  }

  lemma {:induction false} CoveredNothing(es: seq<Stats.Entry>)
    ensures Covered(es, []) == 0.0
    decreases |es|
  {
    if |es| > 0 {
      CoveredNothing(es[1..]);
    }
  }

  /** Adding a new prefix to the list adds exactly its group. */
  lemma {:induction false} CoveredCons(es: seq<Stats.Entry>, p: string, ps: seq<string>)
    requires p !in ps
    ensures Covered(es, [p] + ps) == GroupSum(es, p) + Covered(es, ps)
    decreases |es|
  {
    if |es| > 0 {
      CoveredCons(es[1..], p, ps);
    }
  }

  /** When every prefix is listed, the listed groups cover everything. */
  lemma {:induction false} CoveredAll(es: seq<Stats.Entry>, ps: seq<string>)
    requires forall i :: 0 <= i < |es| ==> Prefix(es[i].name) in ps
    ensures Covered(es, ps) == Stats.Total(es)
    decreases |es|
  {
    if |es| > 0 {
      assert forall i :: 1 <= i < |es| ==> es[1..][i - 1] == es[i];
      CoveredAll(es[1..], ps);
    }
  }

  lemma {:induction false} GroupSumAtLeast(es: seq<Stats.Entry>, p: string)
    requires forall i :: 0 <= i < |es| ==> es[i].value >= 0.0
    ensures GroupSum(es, p) >= 0.0
    decreases |es|
  {
    if |es| > 0 {
      assert forall i :: 1 <= i < |es[1..]| + 1 && i < |es| ==> es[1..][i - 1] == es[i];
      GroupSumAtLeast(es[1..], p);
    }
  }

  /** Grouping non-negative importances gives non-negative importances. */
  lemma GroupingKeepsSign(es: seq<Stats.Entry>)
    requires Stats.AllAtLeast(es, 0.0)
    ensures Stats.AllAtLeast(GroupByPrefix(es), 0.0)
  {
    var gs := GroupByPrefix(es);
    forall i | 0 <= i < |gs| ensures gs[i].value >= 0.0 {
      GroupSumAtLeast(es, gs[i].name);
    }
  }

  /** The series a chart uses: FUZZY columns summed by indicator. */
  function ByKind(k: Training.Kind, ser: seq<Stats.Entry>): (r: seq<Stats.Entry>)
    ensures k == Training.Normal ==> r == ser
    ensures k == Training.Fuzzy ==> r == GroupByPrefix(ser)
    ensures Stats.Total(r) == Stats.Total(ser)
    ensures Stats.AllAtLeast(ser, 0.0) ==> Stats.AllAtLeast(r, 0.0)
  {
    if k == Training.Normal then ser
    else if Stats.AllAtLeast(ser, 0.0) then
      GroupingKeepsSign(ser);
      GroupByPrefix(ser)
    else GroupByPrefix(ser)
  }

  // ---------------------------------------------------------------------------
  // pd.concat(...).mean(): averaging series that need not share their names
  // ---------------------------------------------------------------------------

  /** `s[name]` for a series with unique names, if the name is there. */
  function Lookup(es: seq<Stats.Entry>, name: string): (v: Option<real>)
    ensures v.Some? <==> name in Stats.Names(es)
    ensures v.Some? ==> Stats.Entry(name, v.value) in es
    decreases |es|
  {
    if |es| == 0 then None
    else if es[0].name == name then Some(es[0].value)
    else
      var v := Lookup(es[1..], name);
      assert Stats.Names(es) == [es[0].name] + Stats.Names(es[1..]);
      v
  }

  /** The values the series holding `name` give it (the others hold NaN). */
  function Present(series: seq<seq<Stats.Entry>>, name: string): (vs: seq<real>)
    ensures |vs| > 0 <==> exists i :: 0 <= i < |series| && name in Stats.Names(series[i])
    ensures forall v :: v in vs ==> exists i :: 0 <= i < |series| && Stats.Entry(name, v) in series[i]
    decreases |series|
  {
    if |series| == 0 then []
    else
      var rest := Present(series[1..], name);
      assert forall i :: 1 <= i < |series| ==> series[1..][i - 1] == series[i];
      match Lookup(series[0], name)
      case Some(v) => [v] + rest
      case None => rest
  }

  /** Every name some series holds. */
  function AllNames(series: seq<seq<Stats.Entry>>): (ns: seq<string>)
    ensures forall n :: n in ns <==> exists i :: 0 <= i < |series| && n in Stats.Names(series[i])
    decreases |series|
  {
    if |series| == 0 then []
    else
      assert forall i :: 1 <= i < |series| ==> series[1..][i - 1] == series[i];
      Stats.Names(series[0]) + AllNames(series[1..])
  }

  function Means(series: seq<seq<Stats.Entry>>, ns: seq<string>): (c: seq<Stats.Entry>)
    requires forall k :: 0 <= k < |ns| ==> |Present(series, ns[k])| > 0
    ensures |c| == |ns|
    ensures forall k :: 0 <= k < |ns| ==> c[k] == Stats.Entry(ns[k], Stats.Mean(Present(series, ns[k])))
    decreases |ns|
  {
    if |ns| == 0 then [] else [Stats.Entry(ns[0], Stats.Mean(Present(series, ns[0])))] + Means(series, ns[1..])
  }

  /**
   * `pd.concat(series, axis=1).mean(axis=1)`, and the per-label
   * `pd.concat(frames).groupby(level=0).mean()`: one entry per name any
   * series holds, averaging only the series that hold it.
   */
  function Consolidate(series: seq<seq<Stats.Entry>>): (c: seq<Stats.Entry>)
    ensures Ascending(Stats.Names(c))
    ensures forall n :: n in Stats.Names(c) <==> exists i :: 0 <= i < |series| && n in Stats.Names(series[i])
    ensures forall k :: 0 <= k < |c| ==>
      |Present(series, c[k].name)| > 0 && c[k].value == Stats.Mean(Present(series, c[k].name))
  {
    var ns := SortedUnique(AllNames(series));
    assert forall k :: 0 <= k < |ns| ==> |Present(series, ns[k])| > 0 by {
      forall k | 0 <= k < |ns| ensures |Present(series, ns[k])| > 0 {
        assert ns[k] in ns;
      }
    }
    var c := Means(series, ns);
    assert Stats.Names(c) == ns;
    c
  }

  /** Bounds every series respects hold for the consolidated one. */
  lemma ConsolidateBounds(series: seq<seq<Stats.Entry>>, lo: real, hi: real)
    requires forall i, j :: 0 <= i < |series| && 0 <= j < |series[i]| ==> lo <= series[i][j].value <= hi
    ensures forall k :: 0 <= k < |Consolidate(series)| ==> lo <= Consolidate(series)[k].value <= hi
  {
    var c := Consolidate(series);
    forall k | 0 <= k < |c| ensures lo <= c[k].value <= hi {
      var vs := Present(series, c[k].name);
      forall m | 0 <= m < |vs| ensures lo <= vs[m] <= hi {
        assert vs[m] in vs;
        var i :| 0 <= i < |series| && Stats.Entry(c[k].name, vs[m]) in series[i];
        var j :| 0 <= j < |series[i]| && series[i][j] == Stats.Entry(c[k].name, vs[m]);
      }
      Stats.MeanBounds(vs, lo, hi);
    }
  }

  /** A lower bound every series respects holds for the consolidated one. */
  lemma ConsolidateAtLeast(series: seq<seq<Stats.Entry>>, lo: real)
    requires forall i :: 0 <= i < |series| ==> Stats.AllAtLeast(series[i], lo)
    ensures Stats.AllAtLeast(Consolidate(series), lo)
  {
    var c := Consolidate(series);
    forall k | 0 <= k < |c| ensures lo <= c[k].value {
      var vs := Present(series, c[k].name);
      forall m | 0 <= m < |vs| ensures lo <= vs[m] {
        assert vs[m] in vs;
        var i :| 0 <= i < |series| && Stats.Entry(c[k].name, vs[m]) in series[i];
        var j :| 0 <= j < |series[i]| && series[i][j] == Stats.Entry(c[k].name, vs[m]);
      }
      Stats.MeanAtLeast(vs, lo);
    }
  }

  /**
   * When every series holding a name gives it the same value (one series
   * only, say), that is its consolidated value.
   */
  lemma ConsolidateAgreeing(series: seq<seq<Stats.Entry>>, k: nat, v: real)
    requires k < |Consolidate(series)|
    requires forall i, j :: (0 <= i < |series| && 0 <= j < |series[i]| &&
      series[i][j].name == Consolidate(series)[k].name) ==> series[i][j].value == v
    ensures Consolidate(series)[k].value == v
  {
    var c := Consolidate(series);
    var vs := Present(series, c[k].name);
    forall m | 0 <= m < |vs| ensures vs[m] == v {
      assert vs[m] in vs;
      var i :| 0 <= i < |series| && Stats.Entry(c[k].name, vs[m]) in series[i];
      var j :| 0 <= j < |series[i]| && series[i][j] == Stats.Entry(c[k].name, vs[m]);
    }
    Stats.MeanConstant(vs, v);
  }

  // ---------------------------------------------------------------------------
  // The charts
  // ---------------------------------------------------------------------------

  /** `N_AMOSTRAS`. */
  const MaxSample: nat := 500

  /** `min(len(df), N_AMOSTRAS)`: how many rows the global scripts sample. */
  function SampleSize(rows: nat): (n: nat)
    ensures n <= rows && n <= MaxSample
    ensures n == rows || n == MaxSample
  {
    if rows < MaxSample then rows else MaxSample
  }

  /** How many bars the bar charts and the heatmap keep. */
  const TopBars: nat := 15

  /**
   * `ser.sort_values(ascending=True).tail(15)`: the fifteen most important
   * features, least important first, as the bars and their value labels
   * both show them.
   */
  function Bars(ser: seq<Stats.Entry>): (bars: seq<Stats.Entry>)
    ensures |bars| == if TopBars < |ser| then TopBars else |ser|
    ensures Stats.SortedByValue(bars)
    ensures multiset(bars) <= multiset(ser)
    ensures forall x, i :: x in ser && x !in bars && 0 <= i < |bars| ==> x.value <= bars[i].value
  {
    Stats.LargestAscending(ser, TopBars)
  }

  /**
   * One chart of `shap_global.py`: `None` when the importances cannot be
   * computed (the ticker and type are skipped), otherwise the bars of the
   * series, FUZZY columns grouped first.
   */
  function GlobalChart(sv: Shap, cols: seq<string>, k: Training.Kind): (bars: Option<seq<Stats.Entry>>)
    ensures bars.Some? <==> Importance(sv, cols).Some?
    ensures bars.Some? ==> bars.value == Bars(ByKind(k, Importance(sv, cols).value))
    ensures bars.Some? ==> Stats.AllAtLeast(bars.value, 0.0)
  {
    match Importance(sv, cols)
    case None => None
    case Some(ser) =>
      var grouped := ByKind(k, ser);
      var bars := Bars(grouped);
      Stats.SubMultisetAtLeast(bars, grouped, 0.0);
      Some(bars)
  }

  /**
   * `shap_global_global.py`: the per-model series of one type averaged
   * into one, then its fifteen largest, least first; `None` when no model
   * of the type contributed.
   */
  function ConsolidatedBars(series: seq<seq<Stats.Entry>>): (bars: Option<seq<Stats.Entry>>)
    ensures bars.None? <==> |series| == 0
    ensures bars.Some? ==> bars.value == Bars(Consolidate(series))
  {
    if |series| == 0 then None else Some(Bars(Consolidate(series)))
  }

  /** Every bar of the consolidated chart is the average of non-negative importances. */
  lemma ConsolidatedBarsNonNegative(series: seq<seq<Stats.Entry>>)
    requires forall i :: 0 <= i < |series| ==> Stats.AllAtLeast(series[i], 0.0)
    ensures ConsolidatedBars(series).Some? ==> Stats.AllAtLeast(ConsolidatedBars(series).value, 0.0)
  {
    if |series| > 0 {
      var c := Consolidate(series);
      ConsolidateAtLeast(series, 0.0);
      Stats.SubMultisetAtLeast(Bars(c), c, 0.0);
    }
  }

  /** Row `i` of every frame, in frame order. */
  function RowOfEach(frames: seq<seq<seq<Stats.Entry>>>, i: nat): (rows: seq<seq<Stats.Entry>>)
    requires forall f :: 0 <= f < |frames| ==> i < |frames[f]|
    ensures |rows| == |frames| && forall f :: 0 <= f < |frames| ==> rows[f] == frames[f][i]
  {
    seq(|frames|, f requires 0 <= f < |frames| => frames[f][i])
  }

  /**
   * `pd.concat(frames).groupby(level=0).mean()` over frames whose rows
   * carry the same labels in the same, already sorted, order: row `i` of
   * the result averages row `i` of every frame.
   */
  function GlobalRows(frames: seq<seq<seq<Stats.Entry>>>, labels: nat): (g: seq<seq<Stats.Entry>>)
    requires forall f :: 0 <= f < |frames| ==> |frames[f]| == labels
    ensures |g| == labels
    ensures forall i :: 0 <= i < labels ==> g[i] == Consolidate(RowOfEach(frames, i))
  {
    seq(labels, i requires 0 <= i < labels => Consolidate(RowOfEach(frames, i)))
  }

  /** `df.abs()`. */
  function AbsAll(es: seq<Stats.Entry>): (r: seq<Stats.Entry>)
    ensures |r| == |es|
    ensures forall i :: 0 <= i < |es| ==>
      r[i].name == es[i].name && r[i].value >= 0.0 && (r[i].value == es[i].value || r[i].value == -es[i].value)
  {
    seq(|es|, i requires 0 <= i < |es| => Stats.Entry(es[i].name, Stats.Abs(es[i].value)))
  }

  /**
   * `shap_heatmap_global.py`: the local frames of one type averaged label
   * by label, each feature scored by the mean absolute value of its
   * averaged row, and the fifteen best kept, best first; `None` when no
   * frame of the type was built.
   */
  function HeatmapTop(frames: seq<seq<seq<Stats.Entry>>>): (top: Option<seq<Stats.Entry>>)
    requires forall f :: 0 <= f < |frames| ==> |frames[f]| == LocalRows
    ensures top.None? <==> |frames| == 0
    ensures top.Some? ==> |top.value| <= TopBars
    ensures top.Some? ==> var n := |HeatmapScores(frames)|; |top.value| == if TopBars < n then TopBars else n
    ensures top.Some? ==> forall i, j :: 0 <= i < j < |top.value| ==> top.value[i].value >= top.value[j].value
    ensures top.Some? ==> Stats.AllAtLeast(top.value, 0.0)
    ensures top.Some? ==> var scores := HeatmapScores(frames);
      multiset(top.value) <= multiset(scores) &&
      forall x, i :: x in scores && x !in top.value && 0 <= i < |top.value| ==> x.value <= top.value[i].value
  {
    if |frames| == 0 then None
    else
      var scores := HeatmapScores(frames);
      var top := Stats.TopDescending(scores, TopBars);
      Stats.SubMultisetAtLeast(top, scores, 0.0);
      Some(top)
  }

  /** `df.abs()` of every row of a frame. */
  function AbsRows(g: seq<seq<Stats.Entry>>): (a: seq<seq<Stats.Entry>>)
    ensures |a| == |g| && forall i :: 0 <= i < |g| ==> a[i] == AbsAll(g[i])
  {
    seq(|g|, i requires 0 <= i < |g| => AbsAll(g[i]))
  }

  /**
   * `df_global.abs().mean()`: every feature of some frame is scored, and
   * its score is the mean, over the labels whose averaged row holds it, of
   * the magnitude of its averaged value.
   */
  function HeatmapScores(frames: seq<seq<seq<Stats.Entry>>>): (scores: seq<Stats.Entry>)
    requires forall f :: 0 <= f < |frames| ==> |frames[f]| == LocalRows
    ensures Stats.AllAtLeast(scores, 0.0)
    ensures forall n :: n in Stats.Names(scores) <==>
      exists f, i :: 0 <= f < |frames| && 0 <= i < LocalRows && n in Stats.Names(frames[f][i])
    ensures forall k :: 0 <= k < |scores| ==>
      var mags := Present(AbsRows(GlobalRows(frames, LocalRows)), scores[k].name);
      |mags| > 0 && scores[k].value == Stats.Mean(mags)
  {
    var g := GlobalRows(frames, LocalRows);
    var absRows := AbsRows(g);
    assert forall i :: 0 <= i < |absRows| ==> Stats.AllAtLeast(absRows[i], 0.0);
    ConsolidateAtLeast(absRows, 0.0);
    forall n ensures n in Stats.Names(Consolidate(absRows)) <==>
      exists f, i :: 0 <= f < |frames| && 0 <= i < LocalRows && n in Stats.Names(frames[f][i])
    {
      HeatmapNames(frames, n);
    }
    Consolidate(absRows)
  }

  /** The heatmap's features are those of the local frames. */
  lemma HeatmapNames(frames: seq<seq<seq<Stats.Entry>>>, n: string)
    requires forall f :: 0 <= f < |frames| ==> |frames[f]| == LocalRows
    ensures n in Stats.Names(Consolidate(AbsRows(GlobalRows(frames, LocalRows)))) <==>
      exists f, i :: 0 <= f < |frames| && 0 <= i < LocalRows && n in Stats.Names(frames[f][i])
  {
    var g := GlobalRows(frames, LocalRows);
    var a := AbsRows(g);
    forall i | 0 <= i < LocalRows ensures Stats.Names(a[i]) == Stats.Names(g[i]) {
    }
    if exists f, i :: 0 <= f < |frames| && 0 <= i < LocalRows && n in Stats.Names(frames[f][i]) {
      var f, i :| 0 <= f < |frames| && 0 <= i < LocalRows && n in Stats.Names(frames[f][i]);
      RowNames(frames, i, n);
    }
    if n in Stats.Names(Consolidate(a)) {
      var i :| 0 <= i < |a| && n in Stats.Names(a[i]);
      RowNames(frames, i, n);
    }
  }

  /**
   * Cells bounded in magnitude by m give heatmap scores of at most m: the
   * frame average and the label average never exceed the largest input.
   */
  lemma HeatmapScoresBelow(frames: seq<seq<seq<Stats.Entry>>>, m: real)
    requires forall f :: 0 <= f < |frames| ==> |frames[f]| == LocalRows
    requires forall f, i, j :: 0 <= f < |frames| && 0 <= i < LocalRows && 0 <= j < |frames[f][i]| ==>
      -m <= frames[f][i][j].value <= m
    ensures forall k :: 0 <= k < |HeatmapScores(frames)| ==> HeatmapScores(frames)[k].value <= m
  {
    var g: seq<seq<Stats.Entry>> := GlobalRows(frames, LocalRows);
    forall i | 0 <= i < LocalRows
      ensures forall j :: 0 <= j < |g[i]| ==> -m <= g[i][j].value <= m
    {
      var rows: seq<seq<Stats.Entry>> := RowOfEach(frames, i);
      assert forall f, j :: 0 <= f < |rows| && 0 <= j < |rows[f]| ==> -m <= rows[f][j].value <= m;
      ConsolidateBounds(rows, -m, m);
    }
    var a: seq<seq<Stats.Entry>> := AbsRows(g);
    assert forall i, j :: 0 <= i < |a| && 0 <= j < |a[i]| ==> -m <= a[i][j].value <= m;
    ConsolidateBounds(a, -m, m);
  }

  /** How many lines the stability chart draws. */
  const TopLines: nat := 5

  /** `CORES_ESTABILIDADE`. */
  const Palette: seq<string> := ["#FFCC00", "#000000", "#4D4D4D", "#B8860B", "#A9A9A9"]

  /** `CORES_ESTABILIDADE[i % len(CORES_ESTABILIDADE)]`. */
  function LineColour(i: nat): (c: string)
    ensures c in Palette
  {
    Palette[i % |Palette|]
  }

  /** The lines of one stability chart never share a colour. */
  lemma LineColoursDistinct(i: nat, j: nat)
    requires i < TopLines && j < TopLines && i != j
    ensures LineColour(i) != LineColour(j)
  {
  }

  /** One line of the stability chart: a feature, its colour and its value per window. */
  datatype Line = Line(feature: string, colour: string, points: seq<Option<real>>)

  /**
   * `estabilidade_temporal.py`, one asset: the data cut into four windows,
   * each window's importances (FUZZY columns grouped), the frame `None` as
   * soon as one window's cannot be computed.
   */
  function WindowFrame<R>(rows: seq<R>, cols: seq<string>, k: Training.Kind, shap: seq<R> -> Shap):
    (frame: Option<seq<seq<Stats.Entry>>>)
    ensures frame.Some? <==> forall i :: 0 <= i < Windows ==> Importance(shap(ArraySplit(rows, Windows)[i]), cols).Some?
    ensures frame.Some? ==> |frame.value| == Windows
    ensures frame.Some? ==> forall i :: 0 <= i < Windows ==>
      frame.value[i] == ByKind(k, Importance(shap(ArraySplit(rows, Windows)[i]), cols).value)
  {
    var chunks := ArraySplit(rows, Windows);
    if forall i :: 0 <= i < Windows ==> Importance(shap(chunks[i]), cols).Some? then
      Some(seq(Windows, i requires 0 <= i < Windows => ByKind(k, Importance(shap(chunks[i]), cols).value)))
    else None
  }

  /**
   * `df_global.mean()`: each feature's window averages, averaged over the
   * windows that hold it, names ascending.
   */
  function StabilityScores(frames: seq<seq<seq<Stats.Entry>>>): (scores: seq<Stats.Entry>)
    requires forall f :: 0 <= f < |frames| ==> |frames[f]| == Windows
    ensures Ascending(Stats.Names(scores))
    ensures forall k :: 0 <= k < |scores| ==>
      var perWindow := Present(GlobalRows(frames, Windows), scores[k].name);
      |perWindow| > 0 && scores[k].value == Stats.Mean(perWindow)
  {
    Consolidate(GlobalRows(frames, Windows))
  }

  /** The stability chart scores every feature some window of some asset has, and no other. */
  lemma StabilityFeatures(frames: seq<seq<seq<Stats.Entry>>>, n: string)
    requires forall f :: 0 <= f < |frames| ==> |frames[f]| == Windows
    ensures n in Stats.Names(StabilityScores(frames)) <==>
      exists f, w :: 0 <= f < |frames| && 0 <= w < Windows && n in Stats.Names(frames[f][w])
  {
    if n in Stats.Names(StabilityScores(frames)) {
      ScoredFeatureSeen(frames, n);
    }
    if exists f, w :: 0 <= f < |frames| && 0 <= w < Windows && n in Stats.Names(frames[f][w]) {
      var f, w :| 0 <= f < |frames| && 0 <= w < Windows && n in Stats.Names(frames[f][w]);
      SeenFeatureScored(frames, n, f, w);
    }
  }

  lemma ScoredFeatureSeen(frames: seq<seq<seq<Stats.Entry>>>, n: string)
    requires forall f :: 0 <= f < |frames| ==> |frames[f]| == Windows
    requires n in Stats.Names(StabilityScores(frames))
    ensures exists f, w :: 0 <= f < |frames| && 0 <= w < Windows && n in Stats.Names(frames[f][w])
  {
    var g := GlobalRows(frames, Windows);
    ScoresByWindow(frames, n);
    var w :| 0 <= w < Windows && n in Stats.Names(g[w]);
    RowNames(frames, w, n);
  }

  lemma SeenFeatureScored(frames: seq<seq<seq<Stats.Entry>>>, n: string, f: nat, w: nat)
    requires forall f :: 0 <= f < |frames| ==> |frames[f]| == Windows
    requires f < |frames| && w < Windows && n in Stats.Names(frames[f][w])
    ensures n in Stats.Names(StabilityScores(frames))
  {
    RowNames(frames, w, n);
    ScoresByWindow(frames, n);
  }

  lemma ScoresByWindow(frames: seq<seq<seq<Stats.Entry>>>, n: string)
    requires forall f :: 0 <= f < |frames| ==> |frames[f]| == Windows
    ensures n in Stats.Names(StabilityScores(frames)) <==>
      exists w :: 0 <= w < Windows && n in Stats.Names(GlobalRows(frames, Windows)[w])
  {
  }

  /** A name of the averaged row `w` is a name of row `w` of some frame, and back. */
  lemma RowNames(frames: seq<seq<seq<Stats.Entry>>>, w: nat, n: string)
    requires forall f :: 0 <= f < |frames| ==> w < |frames[f]|
    ensures n in Stats.Names(Consolidate(RowOfEach(frames, w))) <==>
      exists f :: 0 <= f < |frames| && n in Stats.Names(frames[f][w])
  {
    var rows := RowOfEach(frames, w);
    assert forall f :: 0 <= f < |frames| ==> rows[f] == frames[f][w];
  }

  /**
   * `df_global.mean().sort_values(ascending=False).head(5)`: the five best
   * features, best first; `None` when no asset of the type contributed.
   */
  function StabilityTop(frames: seq<seq<seq<Stats.Entry>>>): (top: Option<seq<Stats.Entry>>)
    requires forall f :: 0 <= f < |frames| ==> |frames[f]| == Windows
    ensures top.None? <==> |frames| == 0
    ensures top.Some? ==> |top.value| <= TopLines
    ensures top.Some? ==> var n := |StabilityScores(frames)|; |top.value| == if TopLines < n then TopLines else n
    ensures top.Some? ==> forall i, j :: 0 <= i < j < |top.value| ==> top.value[i].value >= top.value[j].value
    ensures top.Some? ==> var scores := StabilityScores(frames);
      multiset(top.value) <= multiset(scores) &&
      forall x, i :: x in scores && x !in top.value && 0 <= i < |top.value| ==> x.value <= top.value[i].value
  {
    if |frames| == 0 then None else Some(Stats.TopDescending(StabilityScores(frames), TopLines))
  }

  /** `df_global[feature]`: the averaged value of `feature` in every window. */
  function WindowPoints(g: seq<seq<Stats.Entry>>, feature: string): (points: seq<Option<real>>)
    requires |g| == Windows
    ensures |points| == Windows
    ensures forall w :: 0 <= w < Windows ==> points[w] == Lookup(g[w], feature)
  {
    seq(Windows, w requires 0 <= w < Windows => Lookup(g[w], feature))
  }

  /** One line per entry of `top`, coloured by its rank. */
  function LinesOf(top: seq<Stats.Entry>, g: seq<seq<Stats.Entry>>): (lines: seq<Line>)
    requires |top| <= TopLines && |g| == Windows
    ensures |lines| == |top|
    ensures forall i :: 0 <= i < |top| ==>
      lines[i] == Line(top[i].name, LineColour(i), WindowPoints(g, top[i].name))
    ensures forall i, j :: 0 <= i < |lines| && 0 <= j < |lines| && i != j ==> lines[i].colour != lines[j].colour
  {
    var lines := seq(|top|, i requires 0 <= i < |top| => Line(top[i].name, LineColour(i), WindowPoints(g, top[i].name)));
    assert forall i, j :: 0 <= i < |lines| && 0 <= j < |lines| && i != j ==> lines[i].colour != lines[j].colour by {
      forall i, j | 0 <= i < |lines| && 0 <= j < |lines| && i != j ensures lines[i].colour != lines[j].colour {
        LineColoursDistinct(i, j);
      }
    }
    lines
  }

  /**
   * The global stability chart of one type: one line per selected
   * feature, best first, each with its own colour and its averaged value
   * in every window.
   */
  function StabilityLines(frames: seq<seq<seq<Stats.Entry>>>): (lines: Option<seq<Line>>)
    requires forall f :: 0 <= f < |frames| ==> |frames[f]| == Windows
    ensures lines.None? <==> |frames| == 0
    ensures lines.Some? ==> lines.value == LinesOf(StabilityTop(frames).value, GlobalRows(frames, Windows))
  {
    if |frames| == 0 then None
    else Some(LinesOf(StabilityTop(frames).value, GlobalRows(frames, Windows)))
  }

  /**
   * `shap_local.py`, one model: the class-1 SHAP values of the newest ten
   * rows labelled `T-0..T-9`, FUZZY columns summed by indicator within
   * each row; `None` when the slice or the frame cannot be built.
   */
  function LocalFrame(sv: Shap, cols: seq<string>, k: Training.Kind): (frame: Option<seq<seq<Stats.Entry>>>)
    ensures frame.Some? <==> ClassOneSlice(sv, |cols|).Some? && RowCount(sv) == LocalRows
    ensures frame.Some? ==> |frame.value| == LocalRows
    ensures frame.Some? ==> forall i :: 0 <= i < LocalRows ==>
      Stats.Total(frame.value[i]) == Stats.Sum(ClassOneSlice(sv, |cols|).value[i])
    ensures frame.Some? && k == Training.Normal ==> forall i :: 0 <= i < LocalRows ==>
      |frame.value[i]| == |cols| &&
      forall j :: 0 <= j < |cols| ==> frame.value[i][j] == Stats.Entry(cols[j], ClassOneSlice(sv, |cols|).value[i][j])
    ensures frame.Some? && k == Training.Fuzzy ==> forall i :: 0 <= i < LocalRows ==>
      frame.value[i] == GroupByPrefix(Named(cols, ClassOneSlice(sv, |cols|).value[i]))
  {
    match ClassOneSlice(sv, |cols|)
    case None => None
    case Some(vals) =>
      match LabelledRows(vals, LocalLabels())
      case None => None
      case Some(_) =>
        Some(seq(LocalRows, i requires 0 <= i < LocalRows => LocalRow(cols, vals[i], k)))
  }

  /** The row `pd.DataFrame(vals, columns=cols)` gives: value j under column j. */
  function Named(cols: seq<string>, vals: seq<real>): (es: seq<Stats.Entry>)
    requires |vals| == |cols|
    ensures |es| == |cols| && forall j :: 0 <= j < |cols| ==> es[j] == Stats.Entry(cols[j], vals[j])
  {
    seq(|cols|, j requires 0 <= j < |cols| => Stats.Entry(cols[j], vals[j]))
  }

  /**
   * One labelled row of the local frame: value j under column j, FUZZY
   * columns then summed by indicator.
   */
  function LocalRow(cols: seq<string>, vals: seq<real>, k: Training.Kind): (row: seq<Stats.Entry>)
    requires |vals| == |cols|
    ensures Stats.Total(row) == Stats.Sum(vals)
    ensures k == Training.Normal ==> Stats.Names(row) == cols
    ensures k == Training.Normal ==>
      |row| == |cols| && forall j :: 0 <= j < |cols| ==> row[j] == Stats.Entry(cols[j], vals[j])
    ensures k == Training.Fuzzy ==> row == GroupByPrefix(Named(cols, vals))
  {
    var es := Named(cols, vals);
    assert Stats.Values(es) == vals;
    TotalIsSum(es);
    ByKind(k, es)
  }

  lemma {:induction false} TotalIsSum(es: seq<Stats.Entry>)
    ensures Stats.Total(es) == Stats.Sum(Stats.Values(es))
    decreases |es|
  {
    if |es| > 0 {
      TotalIsSum(es[1..]);
      assert Stats.Values(es)[1..] == Stats.Values(es[1..]);
    }
  }
}
