/**
 * The CatBoost training driver: the purged time-series cross-validation
 * folds, the single-class fold filter, the penalised objective
 * (mean - std of the fold scores), the inner merge of the labelled normal
 * frame with the fuzzy frame on `date`, the two jobs per (ticker, horizon),
 * and the ticker loop whose exception handler abandons the rest of a ticker.
 * Model fitting, prediction and the F1 metric are opaque: their outcomes
 * enter as parameters.
 */
module Training {
  import opened Wrappers
  import Text
  import Stats
  import Labels
  import Seqs

  // ---------------------------------------------------------------------------
  // purged time-series folds (TimeSeriesSplit(n_splits=5, gap=h))
  // ---------------------------------------------------------------------------

  const NSplits: nat := 5

  /** Rows [0, trainEnd) train, rows [testStart, testEnd) validate. */
  datatype Fold = Fold(trainEnd: nat, testStart: nat, testEnd: nat)

  /** The fold layout cannot be built for this many rows and this gap. */
  datatype CvError = TooManySplits | GapTooLarge

  /**
   * The folds of a time-series split of n rows: NSplits test windows of
   * n/(NSplits+1) rows ending at row n, each preceded by the rows before it
   * minus `gap` purged rows.
   */
  function CvFolds(n: nat, gap: nat): (r: Result<seq<Fold>, CvError>)
    ensures r.Err? <==> n < NSplits + 1 || n <= gap + NSplits * (n / (NSplits + 1))
    ensures r.Ok? ==> |r.value| == NSplits
    ensures r.Ok? ==> forall k :: 0 <= k < |r.value| ==>
              0 < r.value[k].trainEnd && r.value[k].trainEnd + gap == r.value[k].testStart
              && r.value[k].testEnd - r.value[k].testStart == n / (NSplits + 1)
              && r.value[k].testEnd <= n
    ensures r.Ok? ==> r.value[NSplits - 1].testEnd == n
    ensures r.Ok? ==> forall k :: 0 <= k < NSplits - 1 ==> r.value[k].testEnd == r.value[k + 1].testStart
  {
    var size := n / (NSplits + 1);
    if n < NSplits + 1 then Err(TooManySplits)
    else if n <= gap + NSplits * size then Err(GapTooLarge)
    else
      var first := n - NSplits * size;
      var folds := seq(NSplits, k requires 0 <= k < NSplits => FoldAt(first, size, gap, k));
      assert forall k :: 0 <= k < NSplits ==> folds[k] == FoldAt(first, size, gap, k);
      Ok(folds)
  }

  /** Fold k: its test window is the k-th window of `size` rows from row `first`. */
  function FoldAt(first: nat, size: nat, gap: nat, k: nat): (f: Fold)
    requires gap < first && k < NSplits
    ensures f.testStart == first + k * size && f.testEnd == first + (k + 1) * size
    ensures f.testEnd - f.testStart == size && f.testEnd <= first + NSplits * size
    ensures 0 < f.trainEnd && f.trainEnd + gap == f.testStart
  {
    assert (k + 1) * size == k * size + size;
    assert (k + 1) * size <= NSplits * size;
    Fold(first + k * size - gap, first + k * size, first + (k + 1) * size)
  }

  /** Every training row precedes every validation row of its fold by more than `gap`. */
  lemma FoldsPurged(n: nat, gap: nat, k: nat, i: nat, j: nat)
    requires CvFolds(n, gap).Ok? && k < NSplits
    requires i < CvFolds(n, gap).value[k].trainEnd
    requires CvFolds(n, gap).value[k].testStart <= j < CvFolds(n, gap).value[k].testEnd
    ensures i + gap < j && j < n
  {
  }

  /** Later folds train on a superset of the earlier folds' rows. */
  lemma FoldsGrow(n: nat, gap: nat, k: nat)
    requires CvFolds(n, gap).Ok? && k + 1 < NSplits
    ensures CvFolds(n, gap).value[k].trainEnd < CvFolds(n, gap).value[k + 1].trainEnd
  {
  }

  // ---------------------------------------------------------------------------
  // fold filter and objective
  // ---------------------------------------------------------------------------

  /** `np.unique(ys)` as a set: the classes that occur. */
  function Classes(ys: seq<nat>): set<nat> {
    set y | y in ys
  }

  /** Some two rows carry different classes. */
  predicate HasTwoClasses(ys: seq<nat>) {
    exists i, j :: 0 <= i < |ys| && 0 <= j < |ys| && ys[i] != ys[j]
  }

  /** Two rows differ exactly when `len(np.unique(ys)) >= 2`. */
  lemma TwoClassesIffTwoDistinct(ys: seq<nat>)
    ensures HasTwoClasses(ys) <==> |Classes(ys)| >= 2
  {
    var s := Classes(ys);
    if HasTwoClasses(ys) {
      var i, j :| 0 <= i < |ys| && 0 <= j < |ys| && ys[i] != ys[j];
      assert ys[i] in s && ys[j] in s;
      assert {ys[i], ys[j]} <= s;
      assert |{ys[i], ys[j]}| == 2;
      SubsetCard({ys[i], ys[j]}, s);
    } else if |ys| > 0 {
      assert s <= {ys[0]} by {
        forall y | y in s ensures y == ys[0] {
          var i :| 0 <= i < |ys| && ys[i] == y;
        }
      }
      SubsetCard(s, {ys[0]});
    } else {
      assert s == {};
    }
  }

  lemma {:induction false} SubsetCard(a: set<nat>, b: set<nat>)
    requires a <= b
    ensures |a| <= |b|
    decreases |b|
  {
    if a != {} {
      var x :| x in a;
      SubsetCard(a - {x}, b - {x});
    }
  }

  /**
   * The scores kept by the cross-validation loop: fold k's score counts only
   * when its training labels `ytrain[..trainEnd]` hold two classes.
   * `f1` is the macro F1 each fold's fitted model would reach.
   */
  function CollectScores(ytrain: seq<nat>, folds: seq<Fold>, f1: seq<real>): (scores: seq<real>)
    requires |f1| == |folds|
    requires forall k :: 0 <= k < |folds| ==> folds[k].trainEnd <= |ytrain|
    ensures |scores| <= |folds|
    ensures forall s :: s in scores ==> s in f1
    ensures (forall k :: 0 <= k < |folds| ==> HasTwoClasses(ytrain[..folds[k].trainEnd])) ==> scores == f1
    decreases |folds|
  {
    if |folds| == 0 then []
    else
      var rest := CollectScores(ytrain, folds[1..], f1[1..]);
      assert f1 == [f1[0]] + f1[1..];
      if HasTwoClasses(ytrain[..folds[0].trainEnd]) then [f1[0]] + rest else rest
  }

  /** A single-class fold contributes nothing: its score never reaches the list. */
  lemma {:induction false} SingleClassFoldIgnored(ytrain: seq<nat>, folds: seq<Fold>, f1: seq<real>, k: nat, v: real)
    requires |f1| == |folds| && k < |folds|
    requires forall i :: 0 <= i < |folds| ==> folds[i].trainEnd <= |ytrain|
    requires !HasTwoClasses(ytrain[..folds[k].trainEnd])
    ensures CollectScores(ytrain, folds, f1[k := v]) == CollectScores(ytrain, folds, f1)
    decreases |folds|
  {
    if k > 0 {
      assert f1[k := v][1..] == f1[1..][k - 1 := v];
      SingleClassFoldIgnored(ytrain, folds[1..], f1[1..], k - 1, v);
    } else {
      assert f1[k := v][1..] == f1[1..];
    }
  }

  /**
   * One more fold appends its F1 exactly when its training labels hold two
   * classes: the kept scores are the two-class folds' F1, in fold order.
   */
  lemma {:induction false} CollectScoresSnoc(ytrain: seq<nat>, folds: seq<Fold>, f1: seq<real>, f: Fold, v: real)
    requires |f1| == |folds| && f.trainEnd <= |ytrain|
    requires forall k :: 0 <= k < |folds| ==> folds[k].trainEnd <= |ytrain|
    ensures CollectScores(ytrain, folds + [f], f1 + [v])
            == CollectScores(ytrain, folds, f1) + (if HasTwoClasses(ytrain[..f.trainEnd]) then [v] else [])
    decreases |folds|
  {
    if |folds| > 0 {
      assert (folds + [f])[1..] == folds[1..] + [f];
      assert (f1 + [v])[1..] == f1[1..] + [v];
      CollectScoresSnoc(ytrain, folds[1..], f1[1..], f, v);
    } else {
      assert folds + [f] == [f] && f1 + [v] == [v];
    }
  }

  /**
   * The value a trial reports: 0 with fewer than two scored folds, else the
   * mean score minus `sd`, the population standard deviation of the scores
   * (`np.std`), which the model takes as a non-negative input.
   */
  function Objective(scores: seq<real>, sd: real): (v: real)
    requires sd >= 0.0
    ensures |scores| < 2 ==> v == 0.0
    ensures |scores| >= 2 ==> v <= Stats.Mean(scores) && Stats.Mean(scores) - v == sd
  {
    if |scores| >= 2 then Stats.Mean(scores) - sd else 0.0
  }

  /** With F1 scores in [0, 1] the objective never exceeds 1, and reaches no lower than -sd. */
  lemma ObjectiveBounds(scores: seq<real>, sd: real)
    requires sd >= 0.0
    requires forall i :: 0 <= i < |scores| ==> 0.0 <= scores[i] <= 1.0
    ensures -sd <= Objective(scores, sd) <= 1.0
  {
    if |scores| >= 2 {
      Stats.MeanBounds(scores, 0.0, 1.0);
    }
  }

  // ---------------------------------------------------------------------------
  // inner merge on date
  // ---------------------------------------------------------------------------

  /** The `c_norm` feature columns of the NORMAL model. */
  const NormalColumns: seq<string> := ["mom_7d", "vov_60d", "dd_dur_60d", "autocorr_30d", "fgi_vol_30d"]

  /** The `c_fuzz` membership columns of the FUZZY model. */
  const FuzzyColumns: seq<string> := [
    "trend_bear", "trend_neutral", "trend_bull",
    "vol_low", "vol_mid", "vol_high",
    "stress_low", "stress_mid", "stress_high",
    "ac_negative", "ac_neutral", "ac_positive",
    "macro_calm", "macro_neutral", "macro_stress"]

  /**
   * A row of the fuzzy training file: its date, its cells under
   * `FuzzyColumns` (cell k under column k), and the cells of every other
   * column, such as `close`. All of them go through the merge and `dropna`.
   */
  datatype FuzzyRow = FuzzyRow(date: int, memberships: seq<Option<real>>, others: seq<Option<real>>)

  /**
   * A row of the normal training file: its date, its close, and its cells
   * under `NormalColumns` (cell k under column k). Its other columns never
   * reach the merge.
   */
  datatype NormalRow = NormalRow(date: int, close: real, values: seq<Option<real>>)

  /** A row of `df_temp[["date", "target"] + c_norm]`. */
  datatype TargetRow = TargetRow(date: int, target: nat, values: seq<Option<real>>)

  /**
   * A row of the merged frame: the fuzzy file's membership cells and other
   * cells, the target, and the `c_norm` cells.
   */
  datatype MergedRow = MergedRow(
    date: int, fuzzy: seq<Option<real>>, fuzzyOthers: seq<Option<real>>, target: nat, normal: seq<Option<real>>)

  function Combine(l: FuzzyRow, r: TargetRow): MergedRow {
    MergedRow(l.date, l.memberships, l.others, r.target, r.values)
  }

  /** m comes from a left row and a right row with the same date. */
  predicate FromPair(left: seq<FuzzyRow>, right: seq<TargetRow>, m: MergedRow) {
    exists i, j :: 0 <= i < |left| && 0 <= j < |right| && left[i].date == right[j].date
      && m == Combine(left[i], right[j])
  }

  /** The right rows matching one left row, in right order. */
  function MatchOne(l: FuzzyRow, right: seq<TargetRow>): (ms: seq<MergedRow>)
    ensures forall m :: m in ms ==> exists j :: 0 <= j < |right| && right[j].date == l.date && m == Combine(l, right[j])
    ensures forall j :: 0 <= j < |right| && right[j].date == l.date ==> Combine(l, right[j]) in ms
    decreases |right|
  {
    if |right| == 0 then []
    else
      var rest := MatchOne(l, right[1..]);
      assert forall j :: 1 <= j < |right| ==> right[j] == right[1..][j - 1];
      if right[0].date == l.date then [Combine(l, right[0])] + rest else rest
  }

  /**
   * `pd.merge(left, right, on="date", how="inner")`, left order then right
   * order: every merged row pairs a left and a right row with equal dates,
   * and every such pair is merged.
   */
  function InnerMerge(left: seq<FuzzyRow>, right: seq<TargetRow>): (ms: seq<MergedRow>)
    ensures forall m :: m in ms ==> FromPair(left, right, m)
    ensures forall i, j :: 0 <= i < |left| && 0 <= j < |right| && left[i].date == right[j].date ==>
              Combine(left[i], right[j]) in ms
    decreases |left|
  {
    if |left| == 0 then []
    else
      var here := MatchOne(left[0], right);
      var rest := InnerMerge(left[1..], right);
      assert forall i :: 1 <= i < |left| ==> left[i] == left[1..][i - 1];
      forall m | m in rest
        ensures FromPair(left, right, m)
      {
        var i, j :| 0 <= i < |left[1..]| && 0 <= j < |right| && left[1..][i].date == right[j].date
          && m == Combine(left[1..][i], right[j]);
        assert left[i + 1] == left[1..][i];
      }
      here + rest
  }

  /** No missing value in any column. */
  predicate Complete(m: MergedRow) {
    (forall k :: 0 <= k < |m.fuzzy| ==> m.fuzzy[k].Some?)
    && (forall k :: 0 <= k < |m.fuzzyOthers| ==> m.fuzzyOthers[k].Some?)
    && (forall k :: 0 <= k < |m.normal| ==> m.normal[k].Some?)
  }

  /** `.dropna()`: the complete rows, in order. */
  function DropIncomplete(ms: seq<MergedRow>): (r: seq<MergedRow>)
    ensures |r| <= |ms|
    ensures forall m :: m in r <==> m in ms && Complete(m)
    decreases |ms|
  {
    if |ms| == 0 then []
    else
      var rest := DropIncomplete(ms[1..]);
      assert ms == [ms[0]] + ms[1..];
      if Complete(ms[0]) then [ms[0]] + rest else rest
  }

  // ---------------------------------------------------------------------------
  // the two jobs of one (ticker, horizon)
  // ---------------------------------------------------------------------------

  datatype Kind = Normal | Fuzzy

  function KindName(k: Kind): string {
    match k
    case Normal => "NORMAL"
    case Fuzzy => "FUZZY"
  }

  /** `f"{KIND}_{ticker}_H{h}"`. */
  function JobName(k: Kind, ticker: string, h: nat): (name: string)
    ensures name == KindName(k) + "_" + ticker + "_H" + Text.ShowNat(h)
    ensures Text.FirstField(name, '_') == KindName(k)
  {
    var name := KindName(k) + "_" + ticker + "_H" + Text.ShowNat(h);
    assert name == KindName(k) + ("_" + ticker + "_H" + Text.ShowNat(h));
    FirstFieldOfPrefixed(KindName(k), "_" + ticker + "_H" + Text.ShowNat(h));
    name
  }

  lemma FirstFieldOfPrefixed(a: string, rest: string)
    requires '_' !in a && |rest| > 0 && rest[0] == '_'
    ensures Text.FirstField(a + rest, '_') == a
  {
    var s := a + rest;
    var f := Text.FirstField(s, '_');
    assert s[|a|] == '_';
    assert forall i :: 0 <= i < |a| ==> s[i] == a[i];
    assert forall i :: 0 <= i < |f| ==> s[i] == f[i];
    assert |f| == |a|;
    assert f == s[..|a|] == a;
  }

  /** One call of the training routine: what it is given. */
  datatype Job = Job(name: string, kind: Kind, features: seq<seq<Option<real>>>, y: seq<nat>, split: nat, gap: nat)

  /** How a horizon ends without a trained model. */
  datatype HorizonSkip = TooFewRows | EmptyMerge

  /** An exception: the ticker-level handler abandons the ticker. */
  datatype Failure = NonUniqueEdges | Cv(err: CvError)

  datatype Outcome = Trained(jobs: seq<Job>) | Skipped(why: HorizonSkip) | Failed(err: Failure)

  /** `df_temp[["date", "target"] + c_norm]` after labelling. */
  function TargetRows(normal: seq<NormalRow>, lab: Labels.Labelled): (rows: seq<TargetRow>)
    requires |lab.labels| <= |normal|
    ensures |rows| == |lab.labels|
    ensures forall t :: 0 <= t < |rows| ==>
              rows[t].date == normal[t].date && rows[t].target == lab.labels[t] && rows[t].values == normal[t].values
  {
    seq(|lab.labels|, t requires 0 <= t < |lab.labels| =>
      TargetRow(normal[t].date, lab.labels[t], normal[t].values))
  }

  function Closes(normal: seq<NormalRow>): (cs: seq<real>)
    ensures |cs| == |normal| && forall t :: 0 <= t < |normal| ==> cs[t] == normal[t].close
  {
    seq(|normal|, t requires 0 <= t < |normal| => normal[t].close)
  }

  function Targets(ms: seq<MergedRow>): (ys: seq<nat>)
    ensures |ys| == |ms| && forall t :: 0 <= t < |ms| ==> ys[t] == ms[t].target
  {
    seq(|ms|, t requires 0 <= t < |ms| => ms[t].target)
  }

  /** The merged frame of one horizon: inner merge on date, then `dropna`. */
  function MergeFrame(normal: seq<NormalRow>, fuzzy: seq<FuzzyRow>, lab: Labels.Labelled): (ms: seq<MergedRow>)
    requires |lab.labels| <= |normal|
    requires forall t :: 0 <= t < |lab.labels| ==> lab.labels[t] <= 2
    ensures forall t :: 0 <= t < |ms| ==> ms[t].target <= 2 && Complete(ms[t])
    ensures forall m :: m in ms <==> Complete(m) && m in InnerMerge(fuzzy, TargetRows(normal, lab))
  {
    var rows := TargetRows(normal, lab);
    var ms := DropIncomplete(InnerMerge(fuzzy, rows));
    LabelsOfMerged(fuzzy, rows, ms);
    assert forall t :: 0 <= t < |ms| ==> ms[t] in ms;
    ms
  }

  /** The NORMAL and FUZZY jobs over one merged frame: same labels, same split. */
  function MakeJobs(ticker: string, h: nat, merged: seq<MergedRow>): (jobs: seq<Job>)
    ensures |jobs| == 2
    ensures jobs[0].name == JobName(Normal, ticker, h) && jobs[0].kind == Normal
    ensures jobs[1].name == JobName(Fuzzy, ticker, h) && jobs[1].kind == Fuzzy
    ensures jobs[0].y == jobs[1].y == Targets(merged)
    ensures jobs[0].split == jobs[1].split == Labels.SplitIndex(|merged|)
    ensures jobs[0].gap == jobs[1].gap == h
    ensures forall j :: j in jobs ==> IsJobOf(j, ticker, h)
    ensures |jobs[0].features| == |jobs[1].features| == |merged|
    ensures forall t :: 0 <= t < |merged| ==> jobs[0].features[t] == merged[t].normal
    ensures forall t :: 0 <= t < |merged| ==> jobs[1].features[t] == merged[t].fuzzy
  {
    var y := Targets(merged);
    var split := Labels.SplitIndex(|merged|);
    var nf := seq(|merged|, t requires 0 <= t < |merged| => merged[t].normal);
    var ff := seq(|merged|, t requires 0 <= t < |merged| => merged[t].fuzzy);
    [Job(JobName(Normal, ticker, h), Normal, nf, y, split, h),
     Job(JobName(Fuzzy, ticker, h), Fuzzy, ff, y, split, h)]
  }

  /**
   * The FUZZY job reads only the membership columns: two frames that differ
   * only in the fuzzy file's other columns (such as `close`) give the same jobs.
   */
  lemma FuzzyJobIgnoresOtherColumns(ticker: string, h: nat, a: seq<MergedRow>, b: seq<MergedRow>)
    requires |a| == |b|
    requires forall t :: 0 <= t < |a| ==> a[t].(fuzzyOthers := b[t].fuzzyOthers) == b[t]
    ensures MakeJobs(ticker, h, a) == MakeJobs(ticker, h, b)
  {
    var ja, jb := MakeJobs(ticker, h, a), MakeJobs(ticker, h, b);
    assert forall t :: 0 <= t < |a| ==> a[t].normal == b[t].normal && a[t].fuzzy == b[t].fuzzy;
    assert Targets(a) == Targets(b);
    assert ja[0].features == jb[0].features;
    assert ja[1].features == jb[1].features;
  }

  /**
   * One horizon of one ticker: label, merge, drop incomplete rows, then a
   * NORMAL job and a FUZZY job. The cross-validation layout of the training
   * slice is built first, since a layout error surfaces in the first job.
   */
  function PlanHorizon(ticker: string, normal: seq<NormalRow>, fuzzy: seq<FuzzyRow>, h: nat): (o: Outcome)
    requires Labels.Positive(Closes(normal))
    ensures o == Skipped(TooFewRows) <==> |normal| < Labels.MinRows + h
    ensures o == Failed(NonUniqueEdges) <==> Labels.LabelHorizon(Closes(normal), h) == Err(Labels.NonUniqueEdges)
    ensures Labels.LabelHorizon(Closes(normal), h).Ok? ==>
              o == PlanMerged(ticker, h, MergeFrame(normal, fuzzy, Labels.LabelHorizon(Closes(normal), h).value))
    ensures o.Trained? ==> |o.jobs| == 2 && o.jobs[0].y == o.jobs[1].y && o.jobs[0].split == o.jobs[1].split
    ensures o.Trained? ==> forall j :: j in o.jobs ==> IsJobOf(j, ticker, h)
    ensures o.Trained? ==> 0 < o.jobs[0].split < |o.jobs[0].y|
    ensures o.Trained? ==> forall t :: 0 <= t < |o.jobs[0].y| ==> o.jobs[0].y[t] <= 2
  {
    var lab := Labels.LabelHorizon(Closes(normal), h);
    if lab.Err? then
      (if lab.error == Labels.TooFewRows then Skipped(TooFewRows) else Failed(NonUniqueEdges))
    else
      PlanLabelled(ticker, normal, fuzzy, h, lab.value)
  }

  /** A labelled horizon: merge, drop incomplete rows, then the two jobs. */
  function PlanLabelled(ticker: string, normal: seq<NormalRow>, fuzzy: seq<FuzzyRow>, h: nat, lab: Labels.Labelled): (o: Outcome)
    requires |lab.labels| <= |normal|
    requires forall t :: 0 <= t < |lab.labels| ==> lab.labels[t] <= 2
    ensures o == PlanMerged(ticker, h, MergeFrame(normal, fuzzy, lab))
    ensures !o.Skipped? || o.why == EmptyMerge
    ensures o.Trained? ==> |o.jobs| == 2 && o.jobs[0].y == o.jobs[1].y && o.jobs[0].split == o.jobs[1].split
    ensures o.Trained? ==> forall j :: j in o.jobs ==> IsJobOf(j, ticker, h)
    ensures o.Trained? ==> 0 < o.jobs[0].split < |o.jobs[0].y|
    ensures o.Trained? ==> forall t :: 0 <= t < |o.jobs[0].y| ==> o.jobs[0].y[t] <= 2
  {
    var ms := MergeFrame(normal, fuzzy, lab);
    var ys := Targets(ms);
    assert forall t :: 0 <= t < |ys| ==> ys[t] <= 2 by {
      assert forall t :: 0 <= t < |ms| ==> ms[t].target <= 2;
    }
    PlanMerged(ticker, h, ms)
  }

  /** The part of a horizon after the merge: the layout check, then the two jobs. */
  function PlanMerged(ticker: string, h: nat, merged: seq<MergedRow>): (o: Outcome)
    requires forall t :: 0 <= t < |merged| ==> merged[t].target <= 2
    ensures o.Skipped? ==> o.why == EmptyMerge
    ensures o.Skipped? <==> |merged| == 0
    ensures o.Failed? <==> |merged| > 0 && CvFolds(Labels.SplitIndex(|merged|), h).Err?
    ensures o.Failed? ==> o.err == Cv(CvFolds(Labels.SplitIndex(|merged|), h).error)
    ensures o.Trained? ==> |o.jobs| == 2 && o.jobs[0].y == o.jobs[1].y == Targets(merged)
    ensures o.Trained? ==> o.jobs[0].split == o.jobs[1].split == Labels.SplitIndex(|merged|)
    ensures o.Trained? ==> forall j :: j in o.jobs ==> IsJobOf(j, ticker, h)
    ensures o.Trained? ==> NSplits + 1 <= o.jobs[0].split < |o.jobs[0].y|
  {
    if |merged| == 0 then Skipped(EmptyMerge)
    else
      var split := Labels.SplitIndex(|merged|);
      var cv := CvFolds(split, h);
      if cv.Err? then Failed(Cv(cv.error))
      else Trained(MakeJobs(ticker, h, merged))
  }

  /** Every merged target is one of the labels, so lies in {0, 1, 2}. */
  lemma LabelsOfMerged(fuzzy: seq<FuzzyRow>, rows: seq<TargetRow>, merged: seq<MergedRow>)
    requires forall j :: 0 <= j < |rows| ==> rows[j].target <= 2
    requires forall m :: m in merged ==> m in InnerMerge(fuzzy, rows)
    ensures forall t :: 0 <= t < |merged| ==> merged[t].target <= 2
  {
    forall t | 0 <= t < |merged|
      ensures merged[t].target <= 2
    {
      assert merged[t] in merged;
      assert FromPair(fuzzy, rows, merged[t]);
    }
  }

  // ---------------------------------------------------------------------------
  // the ticker loop
  // ---------------------------------------------------------------------------

  /** Position of the first failed outcome, or the length when none failed. */
  function FirstFailure(os: seq<Outcome>): (k: nat)
    ensures k <= |os|
    ensures forall j :: 0 <= j < k ==> !os[j].Failed?
    ensures k < |os| ==> os[k].Failed?
    decreases |os|
  {
    if |os| == 0 || os[0].Failed? then 0
    else
      assert forall j :: 1 <= j < |os| ==> os[j] == os[1..][j - 1];
      1 + FirstFailure(os[1..])
  }

  /** The jobs an outcome contributes on its own. */
  function JobsOf(o: Outcome): seq<Job> {
    if o.Trained? then o.jobs else []
  }

  /**
   * The jobs of a ticker's horizons, in order, and whether an exception
   * ended the ticker: the first failure abandons every later horizon.
   */
  function Collect(os: seq<Outcome>): (r: (seq<Job>, bool))
    ensures r.0 == Seqs.FlatMap(JobsOf, os[..FirstFailure(os)])
    ensures forall j :: j in r.0 ==> exists k :: 0 <= k < |os| && os[k].Trained? && j in os[k].jobs
    ensures r.1 <==> exists k :: 0 <= k < |os| && os[k].Failed?
    ensures r.1 <==> FirstFailure(os) < |os|
    decreases |os|
  {
    if |os| == 0 then ([], false)
    else
      var rest := Collect(os[1..]);
      assert forall k :: 1 <= k < |os| ==> os[k] == os[1..][k - 1];
      if os[0].Failed? then
        assert os[..0] == [];
        ([], true)
      else
        var c := FirstFailure(os);
        assert os[..c][1..] == os[1..][..c - 1];
        Seqs.FlatMapCons(JobsOf, os[..c]);
        if os[0].Trained? then (os[0].jobs + rest.0, rest.1)
        else rest
  }

  /**
   * Every job of a trained horizon reached before the first failure is
   * collected, and nothing else is.
   */
  lemma CollectMembers(os: seq<Outcome>, j: Job)
    ensures j in Collect(os).0 <==> exists k :: 0 <= k < FirstFailure(os) && os[k].Trained? && j in os[k].jobs
  {
    var c := FirstFailure(os);
    var pre := os[..c];
    Seqs.FlatMapMembership(JobsOf, pre, j);
    if j in Collect(os).0 {
      var i :| 0 <= i < |pre| && j in JobsOf(pre[i]);
      assert pre[i] == os[i];
    }
    if exists k :: 0 <= k < c && os[k].Trained? && j in os[k].jobs {
      var k :| 0 <= k < c && os[k].Trained? && j in os[k].jobs;
      assert pre[k] == os[k] && j in JobsOf(pre[k]);
    }
  }

  /** Once outcome k is a failure, nothing from k on produces a job. */
  lemma {:induction false} StopsAtFailure(os: seq<Outcome>, k: nat)
    requires k < |os| && os[k].Failed?
    ensures Collect(os).0 == Collect(os[..k]).0
    decreases |os|
  {
    if k > 0 {
      assert os[1..][k - 1] == os[k];
      StopsAtFailure(os[1..], k - 1);
      assert os[..k][1..] == os[1..][..k - 1];
    } else {
      assert os[..k] == [];
    }
  }

  /** A job trained for this ticker and horizon. */
  predicate IsJobOf(j: Job, ticker: string, h: nat) {
    j.name == JobName(j.kind, ticker, h)
  }

  /** The outcome of each horizon, in order. */
  function PlanAll(ticker: string, normal: seq<NormalRow>, fuzzy: seq<FuzzyRow>, hs: seq<nat>): (os: seq<Outcome>)
    requires Labels.Positive(Closes(normal))
    ensures |os| == |hs|
    ensures forall k :: 0 <= k < |hs| ==> os[k] == PlanHorizon(ticker, normal, fuzzy, hs[k])
  {
    seq(|hs|, k requires 0 <= k < |hs| => PlanHorizon(ticker, normal, fuzzy, hs[k]))
  }

  /** One ticker over the horizons 1, 7 and 30. */
  function ProcessTicker(ticker: string, normal: seq<NormalRow>, fuzzy: seq<FuzzyRow>): (jobs: seq<Job>)
    requires Labels.Positive(Closes(normal))
    ensures forall j :: j in jobs ==> exists k :: 0 <= k < |Labels.Horizons| && IsJobOf(j, ticker, Labels.Horizons[k])
    ensures var os := PlanAll(ticker, normal, fuzzy, Labels.Horizons);
            jobs == Seqs.FlatMap(JobsOf, os[..FirstFailure(os)])
  {
    var os := PlanAll(ticker, normal, fuzzy, Labels.Horizons);
    forall j | j in Collect(os).0
      ensures exists k :: 0 <= k < |Labels.Horizons| && IsJobOf(j, ticker, Labels.Horizons[k])
    {
      var k :| 0 <= k < |os| && os[k].Trained? && j in os[k].jobs;
      assert IsJobOf(j, ticker, Labels.Horizons[k]);
    }
    Collect(os).0
  }

  const NormalSuffix: string := "_normal_train.csv"
  const FuzzySuffix: string := "_fuzzy_train.csv"

  /** The tickers trained, in listing order: normal files whose fuzzy partner exists. */
  function SelectTickers(normalFiles: seq<string>, fuzzyFiles: seq<string>): (ts: seq<(string, string)>)
    ensures forall p :: p in ts <==> exists f :: (f in normalFiles && Text.EndsWith(f, NormalSuffix)
                                                  && p == (f, Text.FirstField(f, '_'))
                                                  && Text.FirstField(f, '_') + FuzzySuffix in fuzzyFiles)
    decreases |normalFiles|
  {
    if |normalFiles| == 0 then []
    else
      var f := normalFiles[0];
      var rest := SelectTickers(normalFiles[1..], fuzzyFiles);
      assert normalFiles == [f] + normalFiles[1..];
      if Text.EndsWith(f, NormalSuffix) && Text.FirstField(f, '_') + FuzzySuffix in fuzzyFiles
      then [(f, Text.FirstField(f, '_'))] + rest
      else rest
  }

  /**
   * The selection keeps listing order: selecting from two listings one after
   * the other is selecting from their concatenation.
   */
  lemma {:induction false} SelectTickersAppend(a: seq<string>, b: seq<string>, fuzzyFiles: seq<string>)
    ensures SelectTickers(a + b, fuzzyFiles) == SelectTickers(a, fuzzyFiles) + SelectTickers(b, fuzzyFiles)
    decreases |a|
  {
    if |a| > 0 {
      assert (a + b)[0] == a[0] && (a + b)[1..] == a[1..] + b;
      SelectTickersAppend(a[1..], b, fuzzyFiles);
    } else {
      assert a + b == b;
    }
  }

  /** A single listed file is selected exactly when it is a normal file with a fuzzy partner. */
  lemma SelectOne(f: string, fuzzyFiles: seq<string>)
    ensures SelectTickers([f], fuzzyFiles) ==
      if Text.EndsWith(f, NormalSuffix) && Text.FirstField(f, '_') + FuzzySuffix in fuzzyFiles
      then [(f, Text.FirstField(f, '_'))] else []
  {
    assert [f][1..] == [];
  }

  /** The contents of the training folders. */
  datatype Folders = Folders(
    normalFiles: Option<seq<string>>,
    fuzzyFiles: seq<string>,
    normalData: string -> PricedRows,
    fuzzyData: string -> seq<FuzzyRow>)

  /** A normal training file: every close is strictly positive. */
  type PricedRows = rows: seq<NormalRow> | Labels.Positive(Closes(rows))

  /** Every job of the whole run, ticker by ticker; nothing without the normal folder. */
  function Run(d: Folders): (jobs: seq<Job>)
    ensures d.normalFiles.None? ==> jobs == []
    ensures d.normalFiles.Some? ==> jobs == RunTickers(SelectTickers(d.normalFiles.value, d.fuzzyFiles), d)
  {
    match d.normalFiles
    case None => []
    case Some(files) => RunTickers(SelectTickers(files, d.fuzzyFiles), d)
  }

  /** The tickers' jobs, concatenated in listing order. */
  function RunTickers(ts: seq<(string, string)>, d: Folders): (jobs: seq<Job>)
    ensures forall j :: j in jobs <==> exists i :: 0 <= i < |ts| && j in JobsFor(d)(ts[i])
  {
    forall j ensures j in Seqs.FlatMap(JobsFor(d), ts) <==> exists i :: 0 <= i < |ts| && j in JobsFor(d)(ts[i]) {
      Seqs.FlatMapMembership(JobsFor(d), ts, j);
    }
    Seqs.FlatMap(JobsFor(d), ts)
  }

  /** The jobs of one selected (file, ticker) pair. */
  function TickerJobs(p: (string, string), d: Folders): seq<Job>
  {
    ProcessTicker(p.1, d.normalData(p.0), d.fuzzyData(p.1 + FuzzySuffix))
  }

  function JobsFor(d: Folders): ((string, string)) -> seq<Job> {
    p => TickerJobs(p, d)
  }

  /** A failing ticker loses only its own jobs: the tickers after it are processed as usual. */
  lemma RunTickersSplits(ts: seq<(string, string)>, k: nat, d: Folders)
    requires k <= |ts|
    ensures RunTickers(ts, d) == RunTickers(ts[..k], d) + RunTickers(ts[k..], d)
  {
    Seqs.FlatMapSplit(JobsFor(d), ts, k);
  }
}
