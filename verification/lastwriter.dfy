/**
 * The two-level Python dict both the confusion-matrix script and the SHAP
 * scripts fill in a loop: `d.setdefault(key, {})[kind] = value`, keys kept
 * in insertion order, a later assignment to the same key and kind
 * overwriting an earlier one.
 */
module LastWriter {
  import opened Wrappers

  /** One assignment `d[key][kind] = value`. */
  datatype Write<K, V> = Write(key: K, kind: string, value: V)

  /** Assignment `w` (when there is one) writes `kind` under `k`. */
  predicate Hits<K(==, !new), V>(w: Option<Write<K, V>>, k: K, kind: string) {
    w.Some? && w.value.key == k && w.value.kind == kind
  }

  /** The dict: its keys in insertion order and its entries. */
  datatype Table<K(==), V> = Table(order: seq<K>, entries: map<K, map<string, V>>)

  ghost predicate Consistent<K(!new), V>(t: Table<K, V>) {
    && (forall k :: k in t.order <==> k in t.entries)
    && (forall i, j :: 0 <= i < j < |t.order| ==> t.order[i] != t.order[j])
  }

  /** One turn of the loop; `None` stands for an input the loop skips. */
  function Insert<K(==, !new), V>(t: Table<K, V>, w: Option<Write<K, V>>): (r: Table<K, V>)
    requires Consistent(t)
    ensures Consistent(r)
    ensures forall k :: k in r.entries <==> k in t.entries || (w.Some? && k == w.value.key)
    ensures |t.order| <= |r.order| && r.order[..|t.order|] == t.order
  {
    match w
    case None => t
    case Some(Write(k, kind, v)) =>
      var inner := if k in t.entries then t.entries[k] else map[];
      var order := if k in t.entries then t.order else t.order + [k];
      Table(order, t.entries[k := inner[kind := v]])
  }

  /** The dict after the loop over the assignments `ws`. */
  function Build<K(==, !new), V>(ws: seq<Option<Write<K, V>>>): (t: Table<K, V>)
    ensures Consistent(t)
    ensures forall k :: k in t.entries <==> exists i :: 0 <= i < |ws| && ws[i].Some? && ws[i].value.key == k
    decreases |ws|
  {
    if |ws| == 0 then Table([], map[])
    else
      var front := ws[..|ws| - 1];
      var t := Insert(Build(front), ws[|ws| - 1]);
      assert forall i :: 0 <= i < |front| ==> front[i] == ws[i];
      t
  }

  /** The position of the last assignment that writes `kind` under `k`, if any. */
  function LastHit<K(==, !new), V>(ws: seq<Option<Write<K, V>>>, k: K, kind: string): (r: Option<nat>)
    ensures r.Some? ==> r.value < |ws| && Hits(ws[r.value], k, kind)
    ensures r.Some? ==> forall j :: r.value < j < |ws| ==> !Hits(ws[j], k, kind)
    ensures r.None? ==> forall j :: 0 <= j < |ws| ==> !Hits(ws[j], k, kind)
    decreases |ws|
  {
    if |ws| == 0 then None
    else if Hits(ws[|ws| - 1], k, kind) then Some(|ws| - 1)
    else
      var r := LastHit(ws[..|ws| - 1], k, kind);
      assert forall j :: 0 <= j < |ws| - 1 ==> ws[..|ws| - 1][j] == ws[j];
      r
  }

  /**
   * Last writer wins: the dict holds a value of kind `kind` under `k`
   * exactly when some assignment writes one, and it is the last such one's.
   */
  lemma {:induction false} BuildLastWriter<K(!new), V>(ws: seq<Option<Write<K, V>>>, k: K, kind: string)
    ensures var t := Build(ws);
      (k in t.entries && kind in t.entries[k]) <==> LastHit(ws, k, kind).Some?
    ensures var t := Build(ws);
      k in t.entries && kind in t.entries[k] ==>
        t.entries[k][kind] == ws[LastHit(ws, k, kind).value].value.value
    decreases |ws|
  {
    if |ws| > 0 {
      var front := ws[..|ws| - 1];
      BuildLastWriter(front, k, kind);
      assert forall j :: 0 <= j < |front| ==> front[j] == ws[j];
    }
  }

  /** The position of the first assignment to key `k`, if any. */
  function FirstKeyed<K(==, !new), V>(ws: seq<Option<Write<K, V>>>, k: K): (r: Option<nat>)
    ensures r.Some? ==> r.value < |ws| && ws[r.value].Some? && ws[r.value].value.key == k
    ensures r.Some? ==> forall j :: 0 <= j < r.value ==> !(ws[j].Some? && ws[j].value.key == k)
    ensures r.None? ==> forall j :: 0 <= j < |ws| ==> !(ws[j].Some? && ws[j].value.key == k)
    decreases |ws|
  {
    if |ws| == 0 then None
    else
      var front := ws[..|ws| - 1];
      var r := FirstKeyed(front, k);
      assert forall j :: 0 <= j < |front| ==> front[j] == ws[j];
      if r.Some? then r
      else if ws[|ws| - 1].Some? && ws[|ws| - 1].value.key == k then Some(|ws| - 1)
      else None
  }

  /** Keys are iterated in the order of their first assignment. */
  lemma {:induction false} BuildOrder<K(!new), V>(ws: seq<Option<Write<K, V>>>, i: int, j: int)
    requires 0 <= i < j < |Build(ws).order|
    ensures FirstKeyed(ws, Build(ws).order[i]).Some?
    ensures FirstKeyed(ws, Build(ws).order[j]).Some?
    ensures FirstKeyed(ws, Build(ws).order[i]).value < FirstKeyed(ws, Build(ws).order[j]).value
    decreases |ws|
  {
    var front := ws[..|ws| - 1];
    var t0 := Build(front);
    var t := Build(ws);
    assert t == Insert(t0, ws[|ws| - 1]);
    var a := t.order[i];
    var b := t.order[j];
    if j < |t0.order| {
      BuildOrder(front, i, j);
      assert t0.order[i] == a && t0.order[j] == b;
    } else {
      assert j == |t0.order| && b !in t0.entries;
      assert a == t0.order[i] && a in t0.entries;
      assert FirstKeyed(front, a).Some?;
      assert FirstKeyed(front, b).None?;
    }
  }
}
