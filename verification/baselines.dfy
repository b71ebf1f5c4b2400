/**
 * The two benchmark scripts: the same target construction as the training
 * script, a majority-class predictor and a persistence ("random walk")
 * predictor, each with deterministic one-hot probability rows. The metric
 * computations and the report file are left to the caller.
 */
module Baselines {
  import opened Wrappers
  import Text
  import Stats
  import Labels
  import Seqs

  /** Number of rows of ys holding class c. */
  function Count(ys: seq<nat>, c: nat): (n: nat)
    ensures n <= |ys|
    ensures n > 0 <==> c in ys
    ensures n == multiset(ys)[c]
    decreases |ys|
  {
    if |ys| == 0 then 0
    else
      assert ys == [ys[0]] + ys[1..];
      (if ys[0] == c then 1 else 0) + Count(ys[1..], c)
  }

  predicate IsLabels(ys: seq<nat>) {
    forall t :: 0 <= t < |ys| ==> ys[t] <= 2
  }

  /**
   * `ys.mode()[0]`: a most frequent class, the smallest one on a tie
   * (pandas returns the modes sorted).
   */
  function MajorityClass(ys: seq<nat>): (m: nat)
    requires |ys| > 0 && IsLabels(ys)
    ensures m <= 2 && m in ys
    ensures forall c :: Count(ys, c) <= Count(ys, m)
    ensures forall c: nat :: c < m ==> Count(ys, c) < Count(ys, m)
  {
    assert ys[0] in ys;
    forall c | c > 2 ensures Count(ys, c) == 0 {
      assert c !in ys;
    }
    if Count(ys, 0) >= Count(ys, 1) && Count(ys, 0) >= Count(ys, 2) then 0
    else if Count(ys, 1) >= Count(ys, 2) then 1
    else 2
  }

  /** A probability row putting all mass on class k. */
  function OneHot(k: nat): (p: seq<real>)
    requires k <= 2
    ensures |p| == 3 && p[k] == 1.0
    ensures forall c :: 0 <= c < 3 && c != k ==> p[c] == 0.0
  {
    seq(3, c requires 0 <= c < 3 => if c == k then 1.0 else 0.0)
  }

  /** Every one-hot row is a probability distribution. */
  lemma OneHotSumsToOne(k: nat)
    requires k <= 2
    ensures Stats.Sum(OneHot(k)) == 1.0
    ensures forall c :: 0 <= c < 3 ==> 0.0 <= OneHot(k)[c] <= 1.0
  {
    var p := OneHot(k);
    assert Stats.Sum(p[2..]) == p[2] by {
      assert p[2..][1..] == [];
    }
    assert Stats.Sum(p[1..]) == p[1] + p[2] by {
      assert p[1..][1..] == p[2..];
    }
  }

  /** One one-hot row per prediction. */
  function OneHotRows(preds: seq<nat>): (rows: seq<seq<real>>)
    requires IsLabels(preds)
    ensures |rows| == |preds|
    ensures forall i :: 0 <= i < |preds| ==> rows[i] == OneHot(preds[i])
  {
    seq(|preds|, i requires 0 <= i < |preds| => OneHot(preds[i]))
  }

  /** The majority baseline: the train mode repeated for every test row. */
  function MajorityPredictions(ytrain: seq<nat>, ntest: nat): (preds: seq<nat>)
    requires |ytrain| > 0 && IsLabels(ytrain)
    ensures |preds| == ntest && IsLabels(preds)
    ensures forall i :: 0 <= i < ntest ==> preds[i] == MajorityClass(ytrain)
  {
    seq(ntest, i => MajorityClass(ytrain))
  }

  /**
   * The persistence baseline for test rows [split, m) of the m kept rows:
   * the class of the past h-step return `pct_change(h)` of the kept closes,
   * or the majority class where that return is missing.
   */
  function PersistencePredictions(kept: seq<real>, h: nat, c: Labels.Cutoffs, split: nat, majority: nat): (preds: seq<nat>)
    requires Labels.Positive(kept) && split <= |kept| && c.low < c.high && majority <= 2
    ensures |preds| == |kept| - split && IsLabels(preds)
    ensures forall i :: 0 <= i < |preds| && split + i < h ==> preds[i] == majority
    ensures forall i :: 0 <= i < |preds| && h <= split + i ==>
              preds[i] == Labels.Label(Labels.Growth(kept, split + i - h, split + i), c)
  {
    var past := Labels.PctChange(kept, h)[split..];
    seq(|past|, i requires 0 <= i < |past| => SignalOr(past[i], c, majority))
  }

  /** `pd.cut(ret_passado).fillna(majority)` for one row. */
  function SignalOr(past: Option<real>, c: Labels.Cutoffs, majority: nat): (k: nat)
    requires c.low < c.high && majority <= 2
    ensures k <= 2
    ensures past.None? ==> k == majority
    ensures past.Some? ==> k == Labels.Label(past.value, c)
  {
    match past
    case Some(v) => Labels.Label(v, c)
    case None => majority
  }

  /** Everything one benchmark horizon produces. */
  datatype Benchmarks = Benchmarks(
    cutoffs: Labels.Cutoffs, ytrain: seq<nat>, ytest: seq<nat>,
    majority: seq<nat>, majorityProbs: seq<seq<real>>,
    persistence: seq<nat>, persistenceProbs: seq<seq<real>>)

  /** Growth over rows of a prefix is growth over the same rows of the whole series. */
  lemma GrowthOfPrefix(close: seq<real>, m: nat, a: nat, b: nat)
    requires Labels.Positive(close) && a < m && b < m <= |close|
    ensures Labels.Positive(close[..m])
    ensures Labels.Growth(close[..m], a, b) == Labels.Growth(close, a, b)
  {
    assert close[..m][a] == close[a] && close[..m][b] == close[b];
  }

  /**
   * Both baselines over a labelled frame of `close`. The past returns are
   * taken over the rows kept after `dropna`, the first |labels| closes.
   */
  function BenchmarksOf(close: seq<real>, h: nat, l: Labels.Labelled): (b: Benchmarks)
    requires Labels.Positive(close) && l.cutoffs.low < l.cutoffs.high
    requires 0 < l.split <= |l.labels| <= |close| && IsLabels(l.labels)
    ensures b.cutoffs == l.cutoffs && b.ytrain + b.ytest == l.labels && |b.ytrain| == l.split
    ensures IsLabels(b.ytrain) && IsLabels(b.ytest) && IsLabels(b.majority) && IsLabels(b.persistence)
    ensures |b.majority| == |b.persistence| == |b.majorityProbs| == |b.persistenceProbs| == |b.ytest|
    ensures forall i :: 0 <= i < |b.ytest| && h <= l.split + i ==>
              b.persistence[i] == Labels.Label(Labels.Growth(close, l.split + i - h, l.split + i), l.cutoffs)
    ensures forall i :: 0 <= i < |b.ytest| && l.split + i < h ==> b.persistence[i] == MajorityClass(b.ytrain)
    ensures forall i :: 0 <= i < |b.ytest| ==>
              b.majority[i] == MajorityClass(b.ytrain)
              && b.majorityProbs[i] == OneHot(MajorityClass(b.ytrain))
              && b.persistenceProbs[i] == OneHot(b.persistence[i])
  {
    var m := |l.labels|;
    var kept := close[..m];
    var ytrain := l.labels[..l.split];
    var ytest := l.labels[l.split..];
    assert ytrain + ytest == l.labels;
    var maj := MajorityClass(ytrain);
    var majority := MajorityPredictions(ytrain, |ytest|);
    assert Labels.Positive(kept);
    var persistence := PersistencePredictions(kept, h, l.cutoffs, l.split, maj);
    forall i | 0 <= i < |ytest| && h <= l.split + i
      ensures persistence[i] == Labels.Label(Labels.Growth(close, l.split + i - h, l.split + i), l.cutoffs)
    {
      GrowthOfPrefix(close, m, l.split + i - h, l.split + i);
    }
    Benchmarks(l.cutoffs, ytrain, ytest, majority, OneHotRows(majority), persistence, OneHotRows(persistence))
  }

  /** One horizon: targets as in training, then both baselines over the test rows. */
  function BenchmarkHorizon(close: seq<real>, h: nat): (r: Result<Benchmarks, Labels.Skip>)
    requires Labels.Positive(close)
    ensures r == Err(Labels.TooFewRows) <==> |close| < Labels.MinRows + h
    ensures r == Err(Labels.NonUniqueEdges) <==>
              |close| >= Labels.MinRows + h
              && Labels.TertileCutoffs(Labels.ForwardReturns(close, h)[..Labels.SplitIndex(|close| - h)]).Err?
    ensures r.Ok? ==> (Labels.LabelHorizon(close, h).Ok?
                       && r.value == BenchmarksOf(close, h, Labels.LabelHorizon(close, h).value))
  {
    var lab := Labels.LabelHorizon(close, h);
    if lab.Err? then Err(lab.error)
    else Ok(BenchmarksOf(close, h, lab.value))
  }

  /** Both baselines are scored against the very labels the training script would build. */
  lemma BenchmarksMatchTraining(close: seq<real>, h: nat)
    requires Labels.Positive(close) && BenchmarkHorizon(close, h).Ok?
    ensures Labels.LabelHorizon(close, h).Ok?
    ensures BenchmarkHorizon(close, h).value.ytrain + BenchmarkHorizon(close, h).value.ytest
            == Labels.LabelHorizon(close, h).value.labels
  {
    var l := Labels.LabelHorizon(close, h).value;
    assert l.labels[..l.split] + l.labels[l.split..] == l.labels;
  }

  /**
   * Every test row of b is predicted from its own past h-step return of
   * `close`: the persistence baseline never uses the majority fall-back.
   */
  predicate PredictsFromPast(close: seq<real>, h: nat, b: Benchmarks) {
    && Labels.Positive(close)
    && b.cutoffs.low < b.cutoffs.high
    && |b.persistence| == |b.ytest|
    && |b.ytrain| + |b.ytest| <= |close|
    && forall i :: 0 <= i < |b.ytest| ==>
         h <= |b.ytrain| + i
         && b.persistence[i] == Labels.Label(Labels.Growth(close, |b.ytrain| + i - h, |b.ytrain| + i), b.cutoffs)
  }

  /**
   * For the horizons the scripts use, every test row has a past return, so
   * the persistence baseline never falls back to the majority class.
   */
  lemma ScriptHorizonsNeverFallBack(close: seq<real>, h: nat)
    requires Labels.Positive(close) && h in Labels.Horizons && BenchmarkHorizon(close, h).Ok?
    ensures PredictsFromPast(close, h, BenchmarkHorizon(close, h).value)
  {
    var l := Labels.LabelHorizon(close, h).value;
    Labels.SplitBothSides(|l.rets|);
    assert h <= 30 < l.split;
    NoFallBackPastSplit(close, h, l);
  }

  /** Once the split is at least h rows in, every test row has a past return. */
  lemma NoFallBackPastSplit(close: seq<real>, h: nat, l: Labels.Labelled)
    requires Labels.Positive(close) && l.cutoffs.low < l.cutoffs.high
    requires 0 < l.split <= |l.labels| <= |close| && IsLabels(l.labels) && h <= l.split
    ensures PredictsFromPast(close, h, BenchmarksOf(close, h, l))
  {
  }

  // ---------------------------------------------------------------------------
  // the two scripts
  // ---------------------------------------------------------------------------

  datatype Pipeline = NormalPipeline | FuzzyPipeline

  function Suffix(p: Pipeline): string {
    match p
    case NormalPipeline => "_normal_train.csv"
    case FuzzyPipeline => "_fuzzy_train.csv"
  }

  /** A close column as read; the model assumes every close is strictly positive. */
  type PriceSeries = close: seq<real> | Labels.Positive(close)

  /** A training file as read: its close column, when it has one. */
  datatype Frame = Frame(close: Option<PriceSeries>)

  datatype Report = Report(ticker: string, h: nat, bench: Benchmarks)

  /** How a script ends: every report written so far, and whether it stopped on an uncaught error. */
  datatype RunResult = RunResult(reports: seq<Report>, crashed: bool)

  /** Position of the first horizon whose cut raised, or the length when none did. */
  function FirstCrash(os: seq<Result<Benchmarks, Labels.Skip>>): (k: nat)
    ensures k <= |os|
    ensures forall j :: 0 <= j < k ==> os[j] != Err(Labels.NonUniqueEdges)
    ensures k < |os| ==> os[k] == Err(Labels.NonUniqueEdges)
    decreases |os|
  {
    if |os| == 0 || os[0] == Err(Labels.NonUniqueEdges) then 0
    else
      assert forall j :: 1 <= j < |os| ==> os[j] == os[1..][j - 1];
      1 + FirstCrash(os[1..])
  }

  /** The report one (horizon, outcome) pair writes on its own: one when it was benchmarked. */
  function ReportOf(ticker: string, attempt: (nat, Result<Benchmarks, Labels.Skip>)): seq<Report> {
    if attempt.1.Ok? then [Report(ticker, attempt.0, attempt.1.value)] else []
  }

  function ReportFor(ticker: string): ((nat, Result<Benchmarks, Labels.Skip>)) -> seq<Report> {
    attempt => ReportOf(ticker, attempt)
  }

  /**
   * The reports of one file's horizons; a duplicate bin edge is an uncaught
   * error. The reports are those of the benchmarked horizons before the
   * first such error, in horizon order.
   */
  function RunHorizons(ticker: string, hs: seq<nat>, os: seq<Result<Benchmarks, Labels.Skip>>): (r: RunResult)
    requires |os| == |hs|
    ensures r.reports == Seqs.FlatMap(ReportFor(ticker), Seqs.Zip(hs, os)[..FirstCrash(os)])
    ensures forall rep :: rep in r.reports ==>
              rep.ticker == ticker && exists k :: 0 <= k < |os| && hs[k] == rep.h && os[k] == Ok(rep.bench)
    ensures r.crashed <==> exists k :: 0 <= k < |os| && os[k] == Err(Labels.NonUniqueEdges)
    ensures r.crashed <==> FirstCrash(os) < |os|
    ensures (forall k :: 0 <= k < |os| ==> os[k].Ok?) ==> |r.reports| == |hs| && !r.crashed
    decreases |hs|
  {
    if |hs| == 0 then
      assert Seqs.Zip(hs, os)[..0] == [];
      RunResult([], false)
    else if os[0] == Err(Labels.NonUniqueEdges) then
      assert Seqs.Zip(hs, os)[..0] == [];
      RunResult([], true)
    else
      var rest := RunHorizons(ticker, hs[1..], os[1..]);
      var here := ReportOf(ticker, (hs[0], os[0]));
      ReportsStep(ticker, hs, os);
      forall rep | rep in here + rest.reports
        ensures rep.ticker == ticker && exists k :: 0 <= k < |os| && hs[k] == rep.h && os[k] == Ok(rep.bench)
      {
        if rep in here {
          assert hs[0] == rep.h && os[0] == Ok(rep.bench);
        } else {
          var k :| 0 <= k < |os[1..]| && hs[1..][k] == rep.h && os[1..][k] == Ok(rep.bench);
          assert hs[k + 1] == rep.h && os[k + 1] == Ok(rep.bench);
        }
      }
      assert rest.crashed <==> exists k :: 0 <= k < |os| && os[k] == Err(Labels.NonUniqueEdges) by {
        if exists k :: 0 <= k < |os| && os[k] == Err(Labels.NonUniqueEdges) {
          var k :| 0 <= k < |os| && os[k] == Err(Labels.NonUniqueEdges);
          assert os[1..][k - 1] == os[k];
        }
        if rest.crashed {
          var k :| 0 <= k < |os[1..]| && os[1..][k] == Err(Labels.NonUniqueEdges);
          assert os[k + 1] == os[1..][k];
        }
      }
      assert forall k :: 0 <= k < |os[1..]| ==> os[1..][k] == os[k + 1];
      RunResult(here + rest.reports, rest.crashed)
  }

  /** Before the first crash, the reports are the first horizon's report, then the rest's. */
  lemma {:induction false} ReportsStep(ticker: string, hs: seq<nat>, os: seq<Result<Benchmarks, Labels.Skip>>)
    requires |os| == |hs| && |os| > 0 && os[0] != Err(Labels.NonUniqueEdges)
    ensures FirstCrash(os) == 1 + FirstCrash(os[1..])
    ensures Seqs.FlatMap(ReportFor(ticker), Seqs.Zip(hs, os)[..FirstCrash(os)])
            == ReportOf(ticker, (hs[0], os[0]))
               + Seqs.FlatMap(ReportFor(ticker), Seqs.Zip(hs[1..], os[1..])[..FirstCrash(os[1..])])
  {
    var c := FirstCrash(os);
    var z := Seqs.Zip(hs, os);
    assert z[..c][1..] == Seqs.Zip(hs[1..], os[1..])[..c - 1];
    Seqs.FlatMapCons(ReportFor(ticker), z[..c]);
  }

  /** The benchmark outcome of every horizon. */
  function BenchmarkAll(close: seq<real>, hs: seq<nat>): (os: seq<Result<Benchmarks, Labels.Skip>>)
    requires Labels.Positive(close)
    ensures |os| == |hs| && forall k :: 0 <= k < |hs| ==> os[k] == BenchmarkHorizon(close, hs[k])
  {
    seq(|hs|, k requires 0 <= k < |hs| => BenchmarkHorizon(close, hs[k]))
  }

  /**
   * What one listed file adds: nothing unless it carries the script's suffix;
   * without a close column the fuzzy script skips it and the normal script
   * raises; otherwise its horizons under the ticker before the first `_`.
   */
  function FileRun(p: Pipeline, f: string, data: string -> Frame): (r: RunResult)
    ensures !Text.EndsWith(f, Suffix(p)) ==> r == RunResult([], false)
    ensures Text.EndsWith(f, Suffix(p)) && data(f).close.None? ==> r == RunResult([], p == NormalPipeline)
    ensures Text.EndsWith(f, Suffix(p)) && data(f).close.Some? ==>
              var close := data(f).close.value;
              r == RunHorizons(Text.FirstField(f, '_'), Labels.Horizons, BenchmarkAll(close, Labels.Horizons))
    ensures forall rep :: rep in r.reports ==> FromFile(p, f, data, rep)
  {
    if !Text.EndsWith(f, Suffix(p)) then RunResult([], false)
    else
      match data(f).close
      case None => RunResult([], p == NormalPipeline)
      case Some(close) =>
        var os := BenchmarkAll(close, Labels.Horizons);
        RunHorizons(Text.FirstField(f, '_'), Labels.Horizons, os)
  }

  /**
   * rep was written for file f: f carries the script's suffix, rep's ticker
   * is the one before f's first `_`, and rep's benchmarks are those of f's
   * close column at rep's horizon.
   */
  predicate FromFile(p: Pipeline, f: string, data: string -> Frame, rep: Report) {
    && Text.EndsWith(f, Suffix(p))
    && rep.ticker == Text.FirstField(f, '_')
    && data(f).close.Some?
    && BenchmarkHorizon(data(f).close.value, rep.h) == Ok(rep.bench)
  }

  function FileRunFor(p: Pipeline, data: string -> Frame): string -> RunResult {
    f => FileRun(p, f, data)
  }

  function ReportsOf(run: string -> RunResult): string -> seq<Report> {
    f => run(f).reports
  }

  /** Position of the first file whose processing raised, or the length when none did. */
  function FirstCrashed(run: string -> RunResult, files: seq<string>): (k: nat)
    ensures k <= |files|
    ensures forall j :: 0 <= j < k ==> !run(files[j]).crashed
    ensures k < |files| ==> run(files[k]).crashed
    decreases |files|
  {
    if |files| == 0 || run(files[0]).crashed then 0
    else
      assert forall j :: 1 <= j < |files| ==> files[j] == files[1..][j - 1];
      1 + FirstCrashed(run, files[1..])
  }

  /**
   * The file loop of a script, each file handled by `run`: any crash ends
   * the loop but keeps the reports already written.
   */
  function RunAll(run: string -> RunResult, files: seq<string>): (r: RunResult)
    ensures var c := FirstCrashed(run, files);
            r.reports == Seqs.FlatMap(ReportsOf(run), files[..c])
                         + (if c < |files| then run(files[c]).reports else [])
    ensures r.crashed <==> FirstCrashed(run, files) < |files|
    ensures forall rep :: rep in r.reports ==> exists f :: f in files && rep in run(f).reports
    decreases |files|
  {
    if |files| == 0 then
      assert files[..0] == [];
      RunResult([], false)
    else if run(files[0]).crashed then
      assert files[..0] == [] && files[0] in files;
      run(files[0])
    else
      var here := run(files[0]);
      var rest := RunAll(run, files[1..]);
      FilesStep(run, files);
      forall rep | rep in here.reports + rest.reports
        ensures exists f :: f in files && rep in run(f).reports
      {
        if rep in here.reports {
          assert files[0] in files;
        } else {
          var f :| f in files[1..] && rep in run(f).reports;
          assert f in files;
        }
      }
      RunResult(here.reports + rest.reports, rest.crashed)
  }

  /** Past a file that did not crash, the reports are its own, then the rest's. */
  lemma {:induction false} FilesStep(run: string -> RunResult, files: seq<string>)
    requires |files| > 0 && !run(files[0]).crashed
    ensures FirstCrashed(run, files) == 1 + FirstCrashed(run, files[1..])
    ensures Seqs.FlatMap(ReportsOf(run), files[..FirstCrashed(run, files)])
            == run(files[0]).reports + Seqs.FlatMap(ReportsOf(run), files[1..][..FirstCrashed(run, files[1..])])
    ensures FirstCrashed(run, files) < |files| ==>
              files[FirstCrashed(run, files)] == files[1..][FirstCrashed(run, files[1..])]
  {
    var c := FirstCrashed(run, files);
    assert files[..c][1..] == files[1..][..c - 1];
    Seqs.FlatMapCons(ReportsOf(run), files[..c]);
  }

  /**
   * The files of one script in listing order. A file without a close column
   * is skipped by the fuzzy script and stops the normal script; any crash
   * ends the run but keeps the reports already written. Every report comes
   * from a listed file, with that file's benchmarks.
   */
  function RunFiles(p: Pipeline, files: seq<string>, data: string -> Frame): (r: RunResult)
    ensures var c := FirstCrashed(FileRunFor(p, data), files);
            r.reports == Seqs.FlatMap(ReportsOf(FileRunFor(p, data)), files[..c])
                         + (if c < |files| then FileRun(p, files[c], data).reports else [])
    ensures r.crashed <==> FirstCrashed(FileRunFor(p, data), files) < |files|
    ensures forall rep :: rep in r.reports ==> exists f :: f in files && FromFile(p, f, data, rep)
  {
    var r := RunAll(FileRunFor(p, data), files);
    forall rep | rep in r.reports
      ensures exists f :: f in files && FromFile(p, f, data, rep)
    {
      var f :| f in files && rep in FileRunFor(p, data)(f).reports;
      assert FromFile(p, f, data, rep);
    }
    r
  }

  /** In the fuzzy script a file without a close column changes nothing. */
  lemma FuzzySkipsMissingClose(files: seq<string>, data: string -> Frame)
    requires |files| > 0 && data(files[0]).close.None?
    ensures RunFiles(FuzzyPipeline, files, data) == RunFiles(FuzzyPipeline, files[1..], data)
  {
  }

  /** In the normal script a file without a close column stops the run before any report. */
  lemma NormalStopsOnMissingClose(files: seq<string>, data: string -> Frame)
    requires |files| > 0 && data(files[0]).close.None?
    requires Text.EndsWith(files[0], Suffix(NormalPipeline))
    ensures RunFiles(NormalPipeline, files, data) == RunResult([], true)
  {
  }

  /** A whole script: nothing at all when the training folder is missing. */
  function RunScript(p: Pipeline, folder: Option<seq<string>>, data: string -> Frame): (r: RunResult)
    ensures folder.None? ==> r == RunResult([], false)
    ensures folder.Some? ==> r == RunFiles(p, folder.value, data)
  {
    match folder
    case None => RunResult([], false)
    case Some(files) => RunFiles(p, files, data)
  }
}
