/**
 * The confusion-matrix comparison over the results log: the log is cut
 * down to ASCII, every results block with exactly nine integers becomes a
 * 3x3 matrix filed under `TICKER_Hn` and its model type (a later block
 * overwrites an earlier one), and one comparison is produced per key that
 * has both a NORMAL and a FUZZY matrix, in ascending key order.
 */
module Confusion {
  import opened Wrappers
  import opened Text
  import opened LastWriter
  import Seqs

  // ---------------------------------------------------------------------------
  // ASCII filter
  // ---------------------------------------------------------------------------

  predicate IsAscii(c: char) {
    c as int < 128
  }

  /** `"".join(i for i in s if ord(i) < 128)`. */
  function AsciiOnly(s: string): (r: string)
    ensures |r| <= |s|
    ensures forall i :: 0 <= i < |r| ==> IsAscii(r[i])
    ensures forall c :: c in r <==> c in s && IsAscii(c)
    decreases |s|
  {
    if |s| == 0 then ""
    else
      assert s == [s[0]] + s[1..];
      (if IsAscii(s[0]) then [s[0]] else []) + AsciiOnly(s[1..])
  }

  /** The filter works character by character, so it distributes over `+`. */
  lemma {:induction false} AsciiOnlyAppend(a: string, b: string)
    ensures AsciiOnly(a + b) == AsciiOnly(a) + AsciiOnly(b)
    decreases |a|
  {
    if |a| > 0 {
      assert (a + b)[1..] == a[1..] + b;
      AsciiOnlyAppend(a[1..], b);
    } else {
      assert a + b == b;
    }
  }

  /** Text that is already ASCII passes through unchanged. */
  lemma {:induction false} AsciiOnlyKeepsAscii(s: string)
    requires forall i :: 0 <= i < |s| ==> IsAscii(s[i])
    ensures AsciiOnly(s) == s
    decreases |s|
  {
    if |s| > 0 {
      AsciiOnlyKeepsAscii(s[1..]);
    }
  }

  /** Filtering twice is filtering once. */
  lemma AsciiOnlyIdempotent(s: string)
    ensures AsciiOnly(AsciiOnly(s)) == AsciiOnly(s)
  {
    AsciiOnlyKeepsAscii(AsciiOnly(s));
  }

  // ---------------------------------------------------------------------------
  // re.findall(r"\d+", body)
  // ---------------------------------------------------------------------------

  /** The longest run of digits at the start of `s`. */
  function LeadingDigits(s: string): (d: string)
    ensures |d| <= |s| && d == s[..|d|]
    ensures AllDigits(d)
    ensures |d| < |s| ==> !IsDigit(s[|d|])
    decreases |s|
  {
    if |s| == 0 || !IsDigit(s[0]) then ""
    else [s[0]] + LeadingDigits(s[1..])
  }

  /** The digit characters of `s`, in order. */
  function DigitsOf(s: string): (r: string)
    ensures AllDigits(r)
    decreases |s|
  {
    if |s| == 0 then ""
    else (if IsDigit(s[0]) then [s[0]] else []) + DigitsOf(s[1..])
  }

  /**
   * The maximal runs of ASCII digits, left to right. The text has been
   * cut down to ASCII before, so `\d` sees only ASCII digits.
   */
  function DigitRuns(s: string): (toks: seq<string>)
    ensures forall i :: 0 <= i < |toks| ==> |toks[i]| > 0 && AllDigits(toks[i])
    decreases |s|
  {
    if |s| == 0 then []
    else if !IsDigit(s[0]) then DigitRuns(s[1..])
    else
      var d := LeadingDigits(s);
      [d] + DigitRuns(s[|d|..])
  }

  lemma {:induction false} DigitsOfAppend(a: string, b: string)
    ensures DigitsOf(a + b) == DigitsOf(a) + DigitsOf(b)
    decreases |a|
  {
    if |a| > 0 {
      assert (a + b)[1..] == a[1..] + b;
      DigitsOfAppend(a[1..], b);
    } else {
      assert a + b == b;
    }
  }

  lemma {:induction false} DigitsOfDigits(d: string)
    requires AllDigits(d)
    ensures DigitsOf(d) == d
    decreases |d|
  {
    if |d| > 0 {
      DigitsOfDigits(d[1..]);
    }
  }

  /** Together the runs hold every digit of the text and nothing else. */
  lemma {:induction false} RunsCoverDigits(s: string)
    ensures Seqs.Concat(DigitRuns(s)) == DigitsOf(s)
    decreases |s|
  {
    if |s| > 0 {
      if !IsDigit(s[0]) {
        RunsCoverDigits(s[1..]);
      } else {
        var d := LeadingDigits(s);
        assert s == d + s[|d|..];
        RunsCoverDigits(s[|d|..]);
        DigitsOfAppend(d, s[|d|..]);
        DigitsOfDigits(d);
        assert DigitRuns(s) == [d] + DigitRuns(s[|d|..]);
      }
    }
  }

  /** The leading run of a digit block followed by a non-digit is the block. */
  lemma {:induction false} LeadingDigitsOfRun(d: string, rest: string)
    requires AllDigits(d)
    requires |rest| == 0 || !IsDigit(rest[0])
    ensures LeadingDigits(d + rest) == d
    decreases |d|
  {
    if |d| > 0 {
      assert (d + rest)[1..] == d[1..] + rest;
      LeadingDigitsOfRun(d[1..], rest);
    } else {
      assert d + rest == rest;
    }
  }

  /** Numbers written with a non-digit separator are read back one by one. */
  lemma {:induction false} RunsOfJoin(toks: seq<string>, sep: char)
    requires !IsDigit(sep)
    requires forall i :: 0 <= i < |toks| ==> |toks[i]| > 0 && AllDigits(toks[i])
    ensures DigitRuns(Join(toks, sep)) == toks
    decreases |toks|
  {
    if |toks| == 1 {
      LeadingDigitsOfRun(toks[0], "");
      assert toks[0] + "" == toks[0];
      assert toks[0][|toks[0]|..] == "";
    } else if |toks| > 1 {
      var d := toks[0];
      var tail := Join(toks[1..], sep);
      var s := d + [sep] + tail;
      assert s == d + ([sep] + tail);
      LeadingDigitsOfRun(d, [sep] + tail);
      assert s[|d|..] == [sep] + tail;
      assert ([sep] + tail)[1..] == tail;
      RunsOfJoin(toks[1..], sep);
      assert toks == [d] + toks[1..];
    }
  }

  /** `[int(n) for n in re.findall(r"\d+", body)]`. */
  function Numbers(body: string): (nums: seq<nat>)
    ensures |nums| == |DigitRuns(body)|
    ensures forall i :: 0 <= i < |nums| ==> nums[i] == ParseNat(DigitRuns(body)[i])
  {
    var runs := DigitRuns(body);
    seq(|runs|, i requires 0 <= i < |runs| => ParseNat(runs[i]))
  }

  /** Numbers rendered in decimal and separated by a non-digit are read back. */
  lemma NumbersOfRendered(ns: seq<nat>, sep: char)
    requires !IsDigit(sep)
    ensures Numbers(Join(seq(|ns|, i requires 0 <= i < |ns| => ShowNat(ns[i])), sep)) == ns
  {
    var toks := seq(|ns|, i requires 0 <= i < |ns| => ShowNat(ns[i]));
    RunsOfJoin(toks, sep);
    forall i | 0 <= i < |ns| ensures ParseNat(toks[i]) == ns[i] {
      ParseShow(ns[i]);
    }
  }

  // ---------------------------------------------------------------------------
  // 3x3 matrices
  // ---------------------------------------------------------------------------

  type Matrix = seq<seq<nat>>

  /** `np.array(nums).reshape(3, 3)`: row-major. */
  function Reshape3(nums: seq<nat>): (m: Matrix)
    requires |nums| == 9
    ensures |m| == 3
    ensures forall i :: 0 <= i < 3 ==> |m[i]| == 3
    ensures forall i, j :: 0 <= i < 3 && 0 <= j < 3 ==> m[i][j] == nums[3 * i + j]
  {
    [nums[0..3], nums[3..6], nums[6..9]]
  }

  /** Reading a reshaped matrix row by row gives the numbers back. */
  lemma FlattenReshape(nums: seq<nat>)
    requires |nums| == 9
    ensures Seqs.Concat(Reshape3(nums)) == nums
  {
    var m: seq<seq<nat>> := Reshape3(nums);
    var last: seq<seq<nat>> := m[2..];
    assert last[1..] == [];
    assert Seqs.Concat(m[2..]) == nums[6..9];
    assert Seqs.Concat(m[1..]) == nums[3..6] + nums[6..9];
    assert nums == nums[0..3] + nums[3..6] + nums[6..9];
  }

  // ---------------------------------------------------------------------------
  // The table of matrices
  // ---------------------------------------------------------------------------

  /** One match of the results pattern: model type, ticker, horizon, matrix text. */
  datatype Block = Block(tipo: string, ativo: string, horiz: string, body: string)

  /** `f"{ativo.strip().upper()}_{horiz.strip().upper()}"`. */
  function Key(b: Block): (k: string)
    ensures k == Upper(Strip(b.ativo)) + "_" + Upper(Strip(b.horiz))
    ensures |k| == |Strip(b.ativo)| + 1 + |Strip(b.horiz)|
  {
    Upper(Strip(b.ativo)) + "_" + Upper(Strip(b.horiz))
  }

  /** A block is kept only when its matrix text holds exactly nine numbers. */
  predicate Valid(b: Block) {
    |Numbers(b.body)| == 9
  }

  /** The assignment `comparativo[chave][tipo] = matriz` block `b` performs, if kept. */
  function ToWrite(b: Block): (w: Option<Write<string, Matrix>>)
    ensures w.Some? <==> Valid(b)
    ensures w.Some? ==> w.value.key == Key(b) && w.value.kind == Upper(b.tipo)
    ensures w.Some? ==> |w.value.value| == 3 && Seqs.Concat(w.value.value) == Numbers(b.body)
  {
    if Valid(b) then
      FlattenReshape(Numbers(b.body));
      Some(Write(Key(b), Upper(b.tipo), Reshape3(Numbers(b.body))))
    else None
  }

  function Writes(bs: seq<Block>): (ws: seq<Option<Write<string, Matrix>>>)
    ensures |ws| == |bs|
    ensures forall i :: 0 <= i < |bs| ==> ws[i] == ToWrite(bs[i])
  {
    seq(|bs|, i requires 0 <= i < |bs| => ToWrite(bs[i]))
  }

  // ---------------------------------------------------------------------------
  // The comparisons
  // ---------------------------------------------------------------------------

  const NormalKind := "NORMAL"
  const FuzzyKind := "FUZZY"

  predicate Both(entries: map<string, map<string, Matrix>>, k: string) {
    k in entries && NormalKind in entries[k] && FuzzyKind in entries[k]
  }

  /** Putting the head of an ascending list before some of its later keys stays ascending. */
  lemma PrependAscending(ks: seq<string>, rest: seq<string>)
    requires Ascending(ks) && |ks| > 0 && Ascending(rest)
    requires forall y :: y in rest ==> y in ks[1..]
    ensures Ascending([ks[0]] + rest)
  {
    forall y | y in rest ensures Less(ks[0], y) {
      HeadBelowRest(ks, y);
    }
    forall i, j | 0 <= i < j < |rest| + 1 ensures Less(([ks[0]] + rest)[i], ([ks[0]] + rest)[j]) {
      if i == 0 {
        assert ([ks[0]] + rest)[j] == rest[j - 1];
        assert rest[j - 1] in rest;
      } else {
        assert ([ks[0]] + rest)[i] == rest[i - 1];
        assert ([ks[0]] + rest)[j] == rest[j - 1];
      }
    }
  }

  /** The keys of `ks`, in order, that hold both model types. */
  function PairedFrom(ks: seq<string>, entries: map<string, map<string, Matrix>>): (r: seq<string>)
    ensures forall k :: k in r <==> k in ks && Both(entries, k)
    ensures Ascending(ks) ==> Ascending(r)
    decreases |ks|
  {
    if |ks| == 0 then []
    else
      var rest := PairedFrom(ks[1..], entries);
      assert forall k :: k in ks <==> k == ks[0] || k in ks[1..] by {
        assert ks == [ks[0]] + ks[1..];
      }
      if Both(entries, ks[0]) then
        if Ascending(ks) then PrependAscending(ks, rest); [ks[0]] + rest else
        [ks[0]] + rest
      else rest
  }

  /** `[k for k in sorted(comparativo.keys()) if 'NORMAL' in ... and 'FUZZY' in ...]`. */
  function PairedKeys(t: Table<string, Matrix>): (r: seq<string>)
    requires Consistent(t)
    ensures Ascending(r)
    ensures forall k :: k in r <==> Both(t.entries, k)
  {
    PairedFrom(SortedUnique(t.order), t.entries)
  }

  /** An ascending list has as many distinct elements as positions. */
  lemma {:induction false} AscendingCard(s: seq<string>)
    requires Ascending(s)
    ensures |set x | x in s| == |s|
    decreases |s|
  {
    if |s| > 0 {
      var front := s[..|s| - 1];
      assert Ascending(front);
      AscendingCard(front);
      assert (set x | x in s) == (set x | x in front) + {s[|s| - 1]} by {
        assert s == front + [s[|s| - 1]];
      }
      forall i | 0 <= i < |front| ensures front[i] != s[|s| - 1] {
        assert Less(s[i], s[|s| - 1]);
        LessIrreflexive(s[i]);
      }
    }
  }

  /** The number of comparisons is the number of keys holding both types. */
  lemma PairedCount(t: Table<string, Matrix>)
    requires Consistent(t)
    ensures |PairedKeys(t)| == |set k | k in t.entries && Both(t.entries, k)|
  {
    var r := PairedKeys(t);
    AscendingCard(r);
    assert (set x | x in r) == (set k | k in t.entries && Both(t.entries, k));
  }

  /** One generated figure: a key with its NORMAL and its FUZZY matrix. */
  datatype Comparison = Comparison(key: string, normal: Matrix, fuzzy: Matrix)

  function Comparisons(t: Table<string, Matrix>): (cs: seq<Comparison>)
    requires Consistent(t)
    ensures |cs| == |PairedKeys(t)|
    ensures forall i :: 0 <= i < |cs| ==>
      (var k := PairedKeys(t)[i];
       && cs[i].key == k
       && cs[i].normal == t.entries[k][NormalKind]
       && cs[i].fuzzy == t.entries[k][FuzzyKind])
  {
    var ks := PairedKeys(t);
    seq(|ks|, i requires 0 <= i < |ks| => Comparison(ks[i], t.entries[ks[i]][NormalKind], t.entries[ks[i]][FuzzyKind]))
  }

  /**
   * Comparison `c` shows, for its key, the matrices of the last NORMAL and
   * the last FUZZY assignment under that key.
   */
  predicate FromLastWriters(ws: seq<Option<Write<string, Matrix>>>, c: Comparison) {
    && LastHit(ws, c.key, NormalKind).Some?
    && LastHit(ws, c.key, FuzzyKind).Some?
    && c.normal == ws[LastHit(ws, c.key, NormalKind).value].value.value
    && c.fuzzy == ws[LastHit(ws, c.key, FuzzyKind).value].value.value
  }

  /** Every figure shows the last matrices written under its key. */
  lemma ComparisonSourced(ws: seq<Option<Write<string, Matrix>>>, i: int)
    requires 0 <= i < |Comparisons(Build(ws))|
    ensures FromLastWriters(ws, Comparisons(Build(ws))[i])
  {
    var t := Build(ws);
    var k := PairedKeys(t)[i];
    assert k in PairedKeys(t);
    BuildLastWriter(ws, k, NormalKind);
    BuildLastWriter(ws, k, FuzzyKind);
  }

  /**
   * The whole script. `log` is the file's text (`None` when it does not
   * exist) and `extract` stands for the regular-expression search that
   * turns text into blocks.
   */
  function Report(log: Option<string>, extract: string -> seq<Block>): (r: Option<seq<Comparison>>)
    ensures r.None? <==> log.None?
    ensures r.Some? ==>
      var ws := Writes(extract(AsciiOnly(log.value)));
      && |r.value| == |set k | k in Build(ws).entries && Both(Build(ws).entries, k)|
      && (forall i, j :: 0 <= i < j < |r.value| ==> Less(r.value[i].key, r.value[j].key))
      && (forall i :: 0 <= i < |r.value| ==> FromLastWriters(ws, r.value[i]))
  {
    match log
    case None => None
    case Some(text) =>
      var ws := Writes(extract(AsciiOnly(text)));
      var t := Build(ws);
      PairedCount(t);
      forall i | 0 <= i < |Comparisons(t)| ensures FromLastWriters(ws, Comparisons(t)[i]) {
        ComparisonSourced(ws, i);
      }
      Some(Comparisons(t))
  }
}
