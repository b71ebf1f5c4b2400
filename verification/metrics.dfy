/**
 * The bar charts over the results log: accuracy and log loss in one
 * script, macro F1 in another. Each captured block names a model
 * `KIND_TICKER_Hn`; the chart groups them by `TICKER_Hn` in ascending
 * order and draws one NORMAL and one FUZZY bar per group, taking the first
 * block of each type and 0 when there is none.
 */
module Metrics {
  import opened Wrappers
  import opened Text
  import Training

  // ---------------------------------------------------------------------------
  // Names
  // ---------------------------------------------------------------------------

  /** `'Fuzzy' if 'FUZZY' in nome_completo else 'Normal'`. */
  function ParseKind(name: string): (k: Training.Kind)
    ensures k == Training.Fuzzy <==> Contains(name, "FUZZY")
  {
    if Contains(name, "FUZZY") then Training.Fuzzy else Training.Normal
  }

  /** `"_".join(partes[1:]) if len(partes) > 1 else partes[0]`. */
  function Id(name: string): (id: string)
    ensures '_' !in name ==> id == name
    ensures '_' in name ==> name == FirstField(name, '_') + "_" + id
  {
    AfterFirstField(name, '_')
  }

  /** The id of a trained model's name is its ticker and horizon. */
  lemma IdOfJobName(k: Training.Kind, ticker: string, h: nat)
    ensures Id(Training.JobName(k, ticker, h)) == ticker + "_H" + ShowNat(h)
  {
    var name := Training.JobName(k, ticker, h);
    var kind := Training.KindName(k);
    var rest := ticker + "_H" + ShowNat(h);
    assert name == kind + "_" + rest;
    assert name[|kind|] == '_';
    var id := Id(name);
    assert name == kind + "_" + id;
    assert id == name[|kind| + 1..];
    assert rest == name[|kind| + 1..];
  }

  /**
   * `FUZZY` cannot straddle the underscores around the ticker, so a NORMAL
   * name contains it only through its ticker.
   */
  lemma NoFuzzyInNormalName(ticker: string, tail: string)
    requires !Contains(ticker, "FUZZY")
    requires |tail| > 0 && tail[0] == '_'
    requires forall j :: 0 <= j < |tail| ==> tail[j] != 'F'
    ensures !Contains("NORMAL_" + ticker + tail, "FUZZY")
  {
    var name := "NORMAL_" + ticker + tail;
    ContainsAt(ticker, "FUZZY");
    forall i | 0 <= i <= |name| - 5 ensures !OccursAt(name, "FUZZY", i) {
      NoFuzzyAt(ticker, tail, i);
    }
    ContainsAt(name, "FUZZY");
  }

  lemma NoFuzzyAt(ticker: string, tail: string, i: int)
    requires forall j :: !OccursAt(ticker, "FUZZY", j)
    requires |tail| > 0 && tail[0] == '_'
    requires forall j :: 0 <= j < |tail| ==> tail[j] != 'F'
    requires 0 <= i <= 7 + |ticker| + |tail| - 5
    ensures !OccursAt("NORMAL_" + ticker + tail, "FUZZY", i)
  {
    var name := "NORMAL_" + ticker + tail;
    var p := 7 + |ticker|;
    var w := name[i..i + 5];
    assert w[0] == name[i];
    if i < 7 {
      assert name[i] == "NORMAL_"[i] != 'F';
    } else if i >= p {
      assert name[i] == tail[i - p] != 'F';
    } else if i + 5 <= p {
      assert w == ticker[i - 7..i - 7 + 5];
      assert !OccursAt(ticker, "FUZZY", i - 7);
    } else {
      assert w[p - i] == name[p] == tail[0];
    }
  }

  /**
   * The type of a trained model's name is read back correctly, unless a
   * NORMAL model's ticker itself contains `FUZZY`.
   */
  lemma KindOfJobName(k: Training.Kind, ticker: string, h: nat)
    requires k == Training.Fuzzy || !Contains(ticker, "FUZZY")
    ensures ParseKind(Training.JobName(k, ticker, h)) == k
  {
    var name := Training.JobName(k, ticker, h);
    if k == Training.Fuzzy {
      assert OccursAt(name, "FUZZY", 0);
      ContainsAt(name, "FUZZY");
    } else {
      var tail := "_H" + ShowNat(h);
      assert name == "NORMAL_" + ticker + tail;
      forall j | 0 <= j < |tail| ensures tail[j] != 'F' {
        if j >= 2 {
          assert tail[j] == ShowNat(h)[j - 2];
        }
      }
      NoFuzzyInNormalName(ticker, tail);
    }
  }

  // ---------------------------------------------------------------------------
  // Bars
  // ---------------------------------------------------------------------------

  /** One captured block, reduced to the model name and one metric. */
  datatype Record = Record(name: string, value: real)

  function RecordIds(rs: seq<Record>): (ids: seq<string>)
    ensures |ids| == |rs|
    ensures forall i :: 0 <= i < |rs| ==> ids[i] == Id(rs[i].name)
  {
    seq(|rs|, i requires 0 <= i < |rs| => Id(rs[i].name))
  }

  /** `sorted(list(set(d['id'] for d in dados)))`. */
  function Ids(rs: seq<Record>): (ids: seq<string>)
    ensures Ascending(ids)
    ensures forall x :: x in ids <==> exists i :: 0 <= i < |rs| && Id(rs[i].name) == x
    ensures |rs| > 0 ==> |ids| > 0
  {
    var all := RecordIds(rs);
    RecordIdsMembership(rs);
    SortedUnique(all)
  }

  lemma RecordIdsMembership(rs: seq<Record>)
    ensures forall x :: x in RecordIds(rs) <==> exists i :: 0 <= i < |rs| && Id(rs[i].name) == x
    ensures |rs| > 0 ==> RecordIds(rs)[0] in RecordIds(rs)
  {
    var all := RecordIds(rs);
    forall x ensures x in all <==> exists i :: 0 <= i < |rs| && Id(rs[i].name) == x {
      if x in all {
        var i :| 0 <= i < |all| && all[i] == x;
      }
    }
  }

  predicate Matches(r: Record, id: string, k: Training.Kind) {
    Id(r.name) == id && ParseKind(r.name) == k
  }

  /** `next((d[m] for d in dados if d['id'] == id and d['tipo'] == k), 0)`. */
  function Bar(rs: seq<Record>, id: string, k: Training.Kind): (v: real)
    ensures (forall j :: 0 <= j < |rs| ==> !Matches(rs[j], id, k)) ==> v == 0.0
    ensures forall i ::
              (0 <= i < |rs| && Matches(rs[i], id, k) && (forall j :: 0 <= j < i ==> !Matches(rs[j], id, k)))
              ==> v == rs[i].value
    decreases |rs|
  {
    if |rs| == 0 then 0.0
    else if Matches(rs[0], id, k) then rs[0].value
    else
      var v := Bar(rs[1..], id, k);
      assert forall i :: 1 <= i < |rs| ==> rs[1..][i - 1] == rs[i];
      v
  }

  /** Later blocks of the same id and type never change a bar. */
  lemma {:induction false} BarIgnoresLater(rs: seq<Record>, more: seq<Record>, id: string, k: Training.Kind)
    requires exists i :: 0 <= i < |rs| && Matches(rs[i], id, k)
    ensures Bar(rs + more, id, k) == Bar(rs, id, k)
    decreases |rs|
  {
    if !Matches(rs[0], id, k) {
      var i :| 0 <= i < |rs| && Matches(rs[i], id, k);
      assert rs[1..][i - 1] == rs[i];
      assert (rs + more)[1..] == rs[1..] + more;
      BarIgnoresLater(rs[1..], more, id, k);
    }
  }

  /** The x axis and the two bar series of one chart. */
  datatype Chart = Chart(ids: seq<string>, normal: seq<real>, fuzzy: seq<real>)

  function ChartOf(rs: seq<Record>): (c: Chart)
    ensures c.ids == Ids(rs)
    ensures |c.normal| == |c.ids| && |c.fuzzy| == |c.ids|
    ensures forall i :: 0 <= i < |c.ids| ==> c.normal[i] == Bar(rs, c.ids[i], Training.Normal)
    ensures forall i :: 0 <= i < |c.ids| ==> c.fuzzy[i] == Bar(rs, c.ids[i], Training.Fuzzy)
  {
    var ids := Ids(rs);
    Chart(ids,
          seq(|ids|, i requires 0 <= i < |ids| => Bar(rs, ids[i], Training.Normal)),
          seq(|ids|, i requires 0 <= i < |ids| => Bar(rs, ids[i], Training.Fuzzy)))
  }

  /** A non-zero bar shows the metric of a block of its id and type. */
  lemma NonZeroBarHasBlock(rs: seq<Record>, i: int, k: Training.Kind)
    requires 0 <= i < |Ids(rs)|
    ensures var v := Bar(rs, Ids(rs)[i], k);
      v != 0.0 ==> exists j :: 0 <= j < |rs| && Matches(rs[j], Ids(rs)[i], k) && rs[j].value == v
  {
    var id := Ids(rs)[i];
    var v := Bar(rs, id, k);
    if v != 0.0 {
      var j := FirstMatch(rs, id, k);
      assert Matches(rs[j], id, k) && rs[j].value == v;
    }
  }

  /** The first block matching `id` and `k`, given that one does. */
  function FirstMatch(rs: seq<Record>, id: string, k: Training.Kind): (j: nat)
    requires exists i :: 0 <= i < |rs| && Matches(rs[i], id, k)
    ensures j < |rs| && Matches(rs[j], id, k)
    ensures forall i :: 0 <= i < j ==> !Matches(rs[i], id, k)
    decreases |rs|
  {
    if Matches(rs[0], id, k) then 0
    else
      MatchInRest(rs, id, k);
      var j := FirstMatch(rs[1..], id, k);
      assert rs[1..][j] == rs[j + 1];
      assert forall i :: 1 <= i <= j ==> rs[1..][i - 1] == rs[i];
      1 + j
  }

  lemma MatchInRest(rs: seq<Record>, id: string, k: Training.Kind)
    requires exists i :: 0 <= i < |rs| && Matches(rs[i], id, k)
    requires |rs| > 0 && !Matches(rs[0], id, k)
    ensures exists i :: 0 <= i < |rs[1..]| && Matches(rs[1..][i], id, k)
  {
    var i :| 0 <= i < |rs| && Matches(rs[i], id, k);
    assert rs[1..][i - 1] == rs[i];
  }

  /**
   * `add_labels_centro_vertical`: a bar of height `h` gets its value
   * written at half its height, and a bar of height 0 or less gets none.
   */
  function LabelPosition(h: real): (pos: Option<real>)
    ensures pos.Some? <==> h > 0.0
    ensures pos.Some? ==> 0.0 < pos.value < h && pos.value + pos.value == h
  {
    if h > 0.0 then Some(h / 2.0) else None
  }

  // ---------------------------------------------------------------------------
  // The two scripts
  // ---------------------------------------------------------------------------

  /** One block of the accuracy pattern: name, accuracy (%) and log loss. */
  datatype Scores = Scores(name: string, accuracy: real, logLoss: real)

  function LossRecords(bs: seq<Scores>): (rs: seq<Record>)
    ensures |rs| == |bs|
    ensures forall i :: 0 <= i < |bs| ==> rs[i] == Record(bs[i].name, bs[i].logLoss)
  {
    seq(|bs|, i requires 0 <= i < |bs| => Record(bs[i].name, bs[i].logLoss))
  }

  function AccuracyRecords(bs: seq<Scores>): (rs: seq<Record>)
    ensures |rs| == |bs|
    ensures forall i :: 0 <= i < |bs| ==> rs[i] == Record(bs[i].name, bs[i].accuracy)
  {
    seq(|bs|, i requires 0 <= i < |bs| => Record(bs[i].name, bs[i].accuracy))
  }

  /**
   * `acuracia_logloss.py`: the log-loss chart and the accuracy chart, or
   * nothing when the log is missing (`None`) or holds no block. `extract`
   * stands for the regular-expression search.
   */
  function AccuracyReport(log: Option<string>, extract: string -> seq<Scores>): (r: Option<(Chart, Chart)>)
    ensures r.None? <==> log.None? || |extract(log.value)| == 0
    ensures r.Some? ==> |r.value.0.ids| > 0 && r.value.0.ids == r.value.1.ids
    ensures r.Some? ==>
      var bs := extract(log.value);
      && r.value.0 == ChartOf(LossRecords(bs))
      && r.value.1 == ChartOf(AccuracyRecords(bs))
  {
    match log
    case None => None
    case Some(text) =>
      var bs := extract(text);
      if |bs| == 0 then None
      else
        var loss := LossRecords(bs);
        var acc := AccuracyRecords(bs);
        assert RecordIds(loss) == RecordIds(acc);
        Some((ChartOf(loss), ChartOf(acc)))
  }

  /** `f1_score.py`: the macro-F1 chart, or nothing as above. */
  function F1Report(log: Option<string>, extract: string -> seq<Record>): (r: Option<Chart>)
    ensures r.None? <==> log.None? || |extract(log.value)| == 0
    ensures r.Some? ==> |r.value.ids| > 0 && r.value == ChartOf(extract(log.value))
  {
    match log
    case None => None
    case Some(text) =>
      var rs := extract(text);
      if |rs| == 0 then None else Some(ChartOf(rs))
  }
}
