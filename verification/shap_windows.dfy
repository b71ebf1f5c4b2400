/**
 * How the SHAP scripts cut the test rows into time windows and pick the
 * SHAP values they plot: `np.array_split` into four contiguous windows
 * T1..T4, the last ten rows newest-first labelled T-0..T-9, and the
 * class-1 slice of CatBoost's SHAP array without the bias column.
 */
module ShapWindows {
  import opened Wrappers
  import opened Text
  import Seqs
  import Stats

  // ---------------------------------------------------------------------------
  // np.array_split
  // ---------------------------------------------------------------------------

  /** `N_JANELAS`. */
  const Windows: nat := 4

  /** The size of chunk `i` when `len` rows are split into `n` chunks. */
  function ChunkSize(len: nat, n: nat, i: nat): nat
    requires n > 0
  {
    len / n + (if i < len % n then 1 else 0)
  }

  /**
   * Where chunk `i` starts: the sizes of the chunks before it added up,
   * which is `i * (len / n)` plus one for each longer chunk before it.
   */
  function ChunkStart(len: nat, n: nat, i: nat): (s: nat)
    requires n > 0
    ensures s == i * (len / n) + (if i < len % n then i else len % n)
    decreases i
  {
    if i == 0 then 0
    else
      var s := ChunkStart(len, n, i - 1) + ChunkSize(len, n, i - 1);
      assert (i - 1) * (len / n) + len / n == i * (len / n);
      s
  }

  /** No chunk starts past the end; the last one ends exactly there. */
  lemma ChunkStartBounded(len: nat, n: nat, i: nat)
    requires n > 0 && i <= n
    ensures ChunkStart(len, n, i) <= len
    ensures i == n ==> ChunkStart(len, n, i) == len
  {
    assert i * (len / n) <= n * (len / n) by {
      MulLeftMonotone(i, n, len / n);
    }
    assert n * (len / n) + len % n == len;
  }

  lemma MulLeftMonotone(a: nat, b: nat, c: nat)
    requires a <= b
    ensures a * c <= b * c
  {
  }

  /** The first `m` chunks of `xs`. */
  function Chunks<T>(xs: seq<T>, n: nat, m: nat): (cs: seq<seq<T>>)
    requires 0 < n && m <= n
    ensures |cs| == m
    ensures ChunkStart(|xs|, n, m) <= |xs| && Seqs.Concat(cs) == xs[..ChunkStart(|xs|, n, m)]
    ensures forall i :: 0 <= i < m ==> |cs[i]| == ChunkSize(|xs|, n, i)
    decreases m
  {
    ChunkStartBounded(|xs|, n, m);
    if m == 0 then []
    else
      var front := Chunks(xs, n, m - 1);
      var a := ChunkStart(|xs|, n, m - 1);
      var b := ChunkStart(|xs|, n, m);
      var cs := front + [xs[a..b]];
      Seqs.ConcatSnoc(front, xs[a..b]);
      assert xs[..a] + xs[a..b] == xs[..b];
      cs
  }

  /**
   * `np.array_split(xs, n)`: `n` contiguous pieces that put back together
   * give `xs`, the first `len % n` of them one row longer than the rest.
   */
  function ArraySplit<T>(xs: seq<T>, n: nat): (cs: seq<seq<T>>)
    requires n > 0
    ensures |cs| == n
    ensures Seqs.Concat(cs) == xs
    ensures forall i :: 0 <= i < n ==> |cs[i]| == |xs| / n + (if i < |xs| % n then 1 else 0)
  {
    ChunkStartBounded(|xs|, n, n);
    Chunks(xs, n, n)
  }

  /** No two windows differ in size by more than one row. */
  lemma WindowsBalanced<T>(xs: seq<T>, n: nat, i: nat, j: nat)
    requires n > 0 && i < n && j < n
    ensures |ArraySplit(xs, n)[i]| <= |ArraySplit(xs, n)[j]| + 1
  {
  }

  /** `f"T{i+1}"`: the name of window `i`. */
  function WindowName(i: nat): (name: string)
    ensures |name| >= 2 && name[0] == 'T' && name[1..] == ShowNat(i + 1)
  {
    "T" + ShowNat(i + 1)
  }

  /** Different windows get different names. */
  lemma WindowNamesDistinct(i: nat, j: nat)
    requires WindowName(i) == WindowName(j)
    ensures i == j
  {
    ShowNatInjective(i + 1, j + 1);
  }

  /** Single-digit numbers compare as their digits do. */
  lemma ShowDigitOrder(i: nat, j: nat)
    requires i < j < 10
    ensures Less(ShowNat(i), ShowNat(j))
  {
    assert ShowNat(i) == [DigitChar(i)] && ShowNat(j) == [DigitChar(j)];
    assert ShowNat(i)[1..] == [] && ShowNat(j)[1..] == [];
  }

  /**
   * `groupby(level=0)` sorts the row labels; for up to nine windows that
   * order is the time order `T1 < T2 < ...`.
   */
  lemma WindowNamesAscending(i: nat, j: nat)
    requires i < j < 9
    ensures Less(WindowName(i), WindowName(j))
  {
    ShowDigitOrder(i + 1, j + 1);
    LessCommonPrefix("T", ShowNat(i + 1), ShowNat(j + 1));
  }

  // ---------------------------------------------------------------------------
  // The local window: df.tail(10).iloc[::-1]
  // ---------------------------------------------------------------------------

  /** `ULTIMAS_N`. */
  const LocalRows: nat := 10

  /** `xs.tail(n).iloc[::-1]`: the last `n` rows, newest first. */
  function NewestFirst<T>(xs: seq<T>, n: nat): (r: seq<T>)
    ensures |r| == if n < |xs| then n else |xs|
    ensures forall i :: 0 <= i < |r| ==> r[i] == xs[|xs| - 1 - i]
  {
    Stats.Reverse(Stats.Tail(xs, n))
  }

  /** `f"T-{i}"`: row `i` of the local window is `i` rows before the newest. */
  function LocalLabel(i: nat): (name: string)
    ensures |name| >= 3 && name[..2] == "T-" && name[2..] == ShowNat(i)
  {
    "T-" + ShowNat(i)
  }

  function LocalLabels(): (ls: seq<string>)
    ensures |ls| == LocalRows
    ensures forall i :: 0 <= i < LocalRows ==> ls[i] == LocalLabel(i)
  {
    seq(LocalRows, i requires 0 <= i < LocalRows => LocalLabel(i))
  }

  /**
   * `groupby(level=0)` sorts the row labels, and `T-0 < T-1 < ... < T-9`
   * already: the sorted rows stay newest first.
   */
  lemma LocalLabelsAscending()
    ensures Ascending(LocalLabels())
  {
    var ls := LocalLabels();
    forall i, j | 0 <= i < j < |ls| ensures Less(ls[i], ls[j]) {
      ShowDigitOrder(i, j);
      LessCommonPrefix("T-", ShowNat(i), ShowNat(j));
    }
  }

  /** The labels of the local window are pairwise distinct. */
  lemma LocalLabelsDistinct(i: nat, j: nat)
    requires LocalLabel(i) == LocalLabel(j)
    ensures i == j
  {
    assert LocalLabel(i)[2..] == LocalLabel(j)[2..];
    ShowNatInjective(i, j);
  }

  // ---------------------------------------------------------------------------
  // The SHAP array and its class-1 slice
  // ---------------------------------------------------------------------------

  /**
   * `model.get_feature_importance(..., type='ShapValues')`: a 2-D array
   * `[row][column]`, or a 3-D array `[row][b][c]`, with its shape.
   */
  datatype ShapArray =
    | Flat(rows: seq<seq<real>>, width: nat)
    | Cube(cells: seq<seq<seq<real>>>, mid: nat, last: nat)

  /** The array really has the shape it states. */
  ghost predicate WellShaped(sv: ShapArray) {
    match sv
    case Flat(rows, w) => forall r :: 0 <= r < |rows| ==> |rows[r]| == w
    case Cube(cells, b, c) =>
      forall r :: 0 <= r < |cells| ==> |cells[r]| == b && forall m :: 0 <= m < b ==> |cells[r][m]| == c
  }

  /** The arrays CatBoost returns: always of the shape they state. */
  type Shap = sv: ShapArray | WellShaped(sv) witness Flat([], 0)

  function RowCount(sv: ShapArray): nat {
    match sv
    case Flat(rows, _) => |rows|
    case Cube(cells, _, _) => |cells|
  }

  /**
   * The class-1 SHAP values of the first `m` columns, with the bias column
   * left out:
   *   3-D with `b == m + 1`: `sv[:, :m, 1]` (feature axis in the middle),
   *   other 3-D:           `sv[:, 1, :m]` (class axis in the middle),
   *   2-D:                 `sv[:, :m]`.
   * `None` when the index `1` is out of range or the slice has fewer than
   * `m` columns: the frame built from it then raises, and the handler
   * skips the ticker and type.
   */
  function ClassOneSlice(sv: Shap, m: nat): (vals: Option<seq<seq<real>>>)
    ensures vals.Some? <==> match sv
      case Flat(_, w) => w >= m
      case Cube(_, b, c) => if b == m + 1 then c >= 2 else b >= 2 && c >= m
    ensures vals.Some? ==> |vals.value| == RowCount(sv)
    ensures vals.Some? ==> forall r :: 0 <= r < |vals.value| ==> |vals.value[r]| == m
    ensures vals.Some? && sv.Flat? ==>
      forall r, j :: 0 <= r < |vals.value| && 0 <= j < m ==> vals.value[r][j] == sv.rows[r][j]
    ensures vals.Some? && sv.Cube? && sv.mid == m + 1 ==>
      forall r, j :: 0 <= r < |vals.value| && 0 <= j < m ==> vals.value[r][j] == sv.cells[r][j][1]
    ensures vals.Some? && sv.Cube? && sv.mid != m + 1 ==>
      forall r, j :: 0 <= r < |vals.value| && 0 <= j < m ==> vals.value[r][j] == sv.cells[r][1][j]
  {
    match sv
    case Flat(rows, w) =>
      if w >= m then Some(seq(|rows|, r requires 0 <= r < |rows| => rows[r][..m])) else None
    case Cube(cells, b, c) =>
      if b == m + 1 then
        if c >= 2 then
          Some(seq(|cells|, r requires 0 <= r < |cells| =>
            seq(m, j requires 0 <= j < m => cells[r][j][1])))
        else None
      else if b >= 2 && c >= m then
        Some(seq(|cells|, r requires 0 <= r < |cells| => cells[r][1][..m]))
      else None
  }

  /**
   * Two 3-D arrays of one shape that agree on every entry of the first `m`
   * features, and may differ on anything else: the bias entry, and in the
   * class-by-feature layout the columns past `m`.
   */
  predicate AgreeOnFeatures(a: Shap, b: Shap, m: nat)
    requires a.Cube? && b.Cube?
  {
    && a.mid == b.mid && a.last == b.last && |a.cells| == |b.cells|
    && (a.mid == m + 1 ==>
         forall r, j, c :: 0 <= r < |a.cells| && 0 <= j < m && 0 <= c < a.last ==>
           a.cells[r][j][c] == b.cells[r][j][c])
    && (a.mid != m + 1 ==>
         forall r, c, j :: 0 <= r < |a.cells| && 0 <= c < a.mid && 0 <= j < m && j < a.last ==>
           a.cells[r][c][j] == b.cells[r][c][j])
  }

  /**
   * The bias entry is never plotted: rewriting it, or anything else past
   * the first `m` features, leaves the class-1 slice unchanged.
   */
  lemma BiasNeverSelected(a: Shap, b: Shap, m: nat)
    requires a.Cube? && b.Cube? && AgreeOnFeatures(a, b, m)
    ensures ClassOneSlice(a, m) == ClassOneSlice(b, m)
  {
    var va, vb := ClassOneSlice(a, m), ClassOneSlice(b, m);
    if va.Some? {
      assert vb.Some? && |va.value| == |vb.value|;
      forall r | 0 <= r < |va.value| ensures va.value[r] == vb.value[r] {
        assert |va.value[r]| == |vb.value[r]| == m;
        forall j | 0 <= j < m ensures va.value[r][j] == vb.value[r][j] {
          if a.mid == m + 1 {
            assert va.value[r][j] == a.cells[r][j][1];
          } else {
            assert va.value[r][j] == a.cells[r][1][j];
          }
        }
      }
      assert va.value == vb.value;
    }
  }

  /**
   * `pd.DataFrame(vals, columns=cols, index=labels)`: `None` (the
   * constructor raises) unless there is one row per label.
   */
  function LabelledRows(vals: seq<seq<real>>, labels: seq<string>): (r: Option<seq<(string, seq<real>)>>)
    ensures r.Some? <==> |vals| == |labels|
    ensures r.Some? ==> |r.value| == |vals|
    ensures r.Some? ==> forall i :: 0 <= i < |vals| ==> r.value[i] == (labels[i], vals[i])
  {
    if |vals| == |labels| then Some(seq(|vals|, i requires 0 <= i < |vals| => (labels[i], vals[i])))
    else None
  }

  /**
   * The local frame: SHAP is computed on the newest-first window, one SHAP
   * row per input row, so the frame exists exactly when the test file has
   * at least ten rows, and its row `T-i` comes from the row `i` places
   * before the newest.
   */
  lemma LocalFrameNeedsTenRows<T>(xs: seq<T>, vals: seq<seq<real>>)
    requires |vals| == |NewestFirst(xs, LocalRows)|
    ensures LabelledRows(vals, LocalLabels()).Some? <==> |xs| >= LocalRows
    ensures |xs| >= LocalRows ==>
      forall i :: 0 <= i < LocalRows ==> NewestFirst(xs, LocalRows)[i] == xs[|xs| - 1 - i]
  {
  }
}
