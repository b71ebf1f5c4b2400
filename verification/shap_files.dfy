/**
 * The file handling the five SHAP scripts share: the test file of a
 * ticker, the pairing of saved `.cbm` model files by ticker and horizon,
 * the order in which the (ticker, horizon, type) tasks run, and the
 * per-pair output folder.
 */
module ShapFiles {
  import opened Wrappers
  import opened Text
  import opened LastWriter
  import Training

  // ---------------------------------------------------------------------------
  // carregar_dados: the test file of a ticker
  // ---------------------------------------------------------------------------

  /** `dados_normalizados/<sub>/test`, `sub` chosen by the model type. */
  function DataFolder(k: Training.Kind): (path: seq<string>)
    ensures |path| == 2 && path[1] == "test"
    ensures path[0] == "normal" <==> k == Training.Normal
    ensures path[0] == "fuzzy" <==> k == Training.Fuzzy
  {
    [if k == Training.Normal then "normal" else "fuzzy", "test"]
  }

  /** `ativo.upper() in f.upper() and f.endswith(".csv")`. */
  predicate IsTestFileFor(f: string, ticker: string) {
    Contains(Upper(f), Upper(ticker)) && EndsWith(f, ".csv")
  }

  function FirstTestFile(fs: seq<string>, ticker: string): (r: Option<nat>)
    ensures r.Some? ==> r.value < |fs| && IsTestFileFor(fs[r.value], ticker)
    ensures r.Some? ==> forall j :: 0 <= j < r.value ==> !IsTestFileFor(fs[j], ticker)
    ensures r.None? ==> forall j :: 0 <= j < |fs| ==> !IsTestFileFor(fs[j], ticker)
    decreases |fs|
  {
    if |fs| == 0 then None
    else if IsTestFileFor(fs[0], ticker) then Some(0)
    else
      var r := FirstTestFile(fs[1..], ticker);
      assert forall j :: 1 <= j < |fs| ==> fs[1..][j - 1] == fs[j];
      if r.Some? then Some(r.value + 1) else None
  }

  /**
   * The file `carregar_dados` reads: the first entry of the folder listing
   * (`None` when the folder does not exist) that names the ticker, in any
   * case, and ends in `.csv`; `None` when there is none.
   */
  function FindTestFile(listing: Option<seq<string>>, ticker: string): (r: Option<string>)
    ensures listing.None? ==> r.None?
    ensures listing.Some? ==>
      (r.None? <==> forall j :: 0 <= j < |listing.value| ==> !IsTestFileFor(listing.value[j], ticker))
    ensures r.Some? ==> listing.Some?
    ensures r.Some? ==>
      exists i :: 0 <= i < |listing.value| && listing.value[i] == r.value && IsTestFileFor(r.value, ticker) &&
        forall j :: 0 <= j < i ==> !IsTestFileFor(listing.value[j], ticker)
  {
    match listing
    case None => None
    case Some(fs) =>
      match FirstTestFile(fs, ticker)
      case None => None
      case Some(i) => Some(fs[i])
  }

  /** The lookup ignores the case of the ticker. */
  lemma FindTestFileIgnoresCase(listing: Option<seq<string>>, ticker: string)
    ensures FindTestFile(listing, Upper(ticker)) == FindTestFile(listing, ticker)
  {
    UpperIdempotent(ticker);
    assert forall f :: IsTestFileFor(f, Upper(ticker)) == IsTestFileFor(f, ticker);
  }

  // ---------------------------------------------------------------------------
  // Pairing the model files
  // ---------------------------------------------------------------------------

  /** (ticker, horizon) as read from a model file name. */
  type ModelKey = (string, string)

  /** `[f for f in os.listdir(PASTA_MODELOS) if f.endswith('.cbm')]`. */
  function ModelFiles(listing: seq<string>): (fs: seq<string>)
    ensures forall f :: f in fs <==> f in listing && EndsWith(f, ".cbm")
    decreases |listing|
  {
    if |listing| == 0 then []
    else
      assert listing == [listing[0]] + listing[1..];
      (if EndsWith(listing[0], ".cbm") then [listing[0]] else []) + ModelFiles(listing[1..])
  }

  /** `f.replace(".cbm", "").split("_")`. */
  function NameParts(f: string): (p: seq<string>)
    ensures |p| >= 1
    ensures forall i :: 0 <= i < |p| ==> '_' !in p[i]
  {
    Split(RemoveAll(f, ".cbm"), '_')
  }

  /**
   * The assignment `pares[(p[2], p[3])][p[1]] = f` a model file makes, or
   * `None` for a name with fewer than four parts.
   */
  function ParseModelFile(f: string): (w: Option<Write<ModelKey, string>>)
    ensures w.Some? <==> |NameParts(f)| >= 4
    ensures w.Some? ==> w.value.value == f
    ensures w.Some? ==>
      w.value.key == (NameParts(f)[2], NameParts(f)[3]) && w.value.kind == NameParts(f)[1]
    ensures w.Some? ==> '_' !in w.value.key.0 && '_' !in w.value.key.1 && '_' !in w.value.kind
  {
    var p := NameParts(f);
    if |p| >= 4 then Some(Write((p[2], p[3]), p[1], f)) else None
  }

  /** `catboost_{KIND}_{ticker}_H{h}.cbm`, the name the training script saves under. */
  function SavedModelName(k: Training.Kind, ticker: string, h: nat): (name: string)
    ensures EndsWith(name, ".cbm")
  {
    "catboost_" + Training.JobName(k, ticker, h) + ".cbm"
  }

  /**
   * A model saved by the training script is filed under its own ticker,
   * horizon label and type, provided the ticker has no `_` and no `.`.
   */
  lemma ParseSavedModel(k: Training.Kind, ticker: string, h: nat)
    requires '_' !in ticker && '.' !in ticker
    ensures ParseModelFile(SavedModelName(k, ticker, h)) ==
      Some(Write((ticker, "H" + ShowNat(h)), Training.KindName(k), SavedModelName(k, ticker, h)))
  {
    var kind := Training.KindName(k);
    var hz := "H" + ShowNat(h);
    var parts := ["catboost", kind, ticker, hz];
    var name := SavedModelName(k, ticker, h);
    var stem := Join(parts, '_');
    assert name == stem + ".cbm" by {
      JoinFour("catboost", kind, ticker, hz);
    }
    assert NameParts(name) == parts by {
      HorizonLabelPlain(h);
      assert forall i :: 0 <= i < |parts| ==> '_' !in parts[i] && '.' !in parts[i];
      JoinPlain(parts, '_', '.');
      RemoveTrailing(stem, ".cbm");
      SplitJoin(parts, '_');
    }
  }

  /** Joining pieces free of `c` with a separator other than `c` gives a string free of `c`. */
  lemma {:induction false} JoinPlain(parts: seq<string>, sep: char, c: char)
    requires sep != c
    requires forall i :: 0 <= i < |parts| ==> c !in parts[i]
    ensures c !in Join(parts, sep)
    decreases |parts|
  {
    if |parts| > 1 {
      JoinPlain(parts[1..], sep, c);
    }
  }

  /** `H<digits>` holds neither `.` nor `_`. */
  lemma HorizonLabelPlain(h: nat)
    ensures '.' !in "H" + ShowNat(h) && '_' !in "H" + ShowNat(h)
  {
    var hz := "H" + ShowNat(h);
    forall i | 0 <= i < |hz| ensures hz[i] != '.' && hz[i] != '_' {
      if i > 0 {
        assert hz[i] == ShowNat(h)[i - 1];
      }
    }
  }

  lemma JoinFour(a: string, b: string, c: string, d: string)
    ensures Join([a, b, c, d], '_') == a + "_" + b + "_" + c + "_" + d
  {
    var parts := [a, b, c, d];
    assert parts[1..] == [b, c, d] && parts[2..] == [c, d] && parts[3..] == [d];
    assert Join([d], '_') == d;
    assert Join([c, d], '_') == c + "_" + d by { assert [c, d][1..] == [d]; }
    assert Join([b, c, d], '_') == b + "_" + (c + "_" + d) by { assert [b, c, d][1..] == [c, d]; }
  }

  /** The `pares` dict built from a listing of the models folder. */
  function Pairs(listing: seq<string>): (t: Table<ModelKey, string>)
    ensures Consistent(t)
  {
    var fs := ModelFiles(listing);
    Build(seq(|fs|, i requires 0 <= i < |fs| => ParseModelFile(fs[i])))
  }

  // ---------------------------------------------------------------------------
  // Tasks and output folders
  // ---------------------------------------------------------------------------

  /** One turn of the inner loop: a pair, a type present in it, and its model file. */
  datatype Task = Task(key: ModelKey, kind: Training.Kind, model: string)

  /** The types of one pair, NORMAL before FUZZY, skipping the absent one. */
  function TasksOf(key: ModelKey, mods: map<string, string>): (ts: seq<Task>)
    ensures forall t :: t in ts <==>
      t.key == key && Training.KindName(t.kind) in mods && t.model == mods[Training.KindName(t.kind)]
    ensures |ts| <= 2
    ensures |ts| == 2 ==> ts[0].kind == Training.Normal && ts[1].kind == Training.Fuzzy
  {
    (if "NORMAL" in mods then [Task(key, Training.Normal, mods["NORMAL"])] else []) +
    (if "FUZZY" in mods then [Task(key, Training.Fuzzy, mods["FUZZY"])] else [])
  }

  /** `for (ativo, horiz), mods in pares.items(): for tipo in ["NORMAL", "FUZZY"]`. */
  function Tasks(t: Table<ModelKey, string>, keys: seq<ModelKey>): (ts: seq<Task>)
    requires forall k :: k in keys ==> k in t.entries
    ensures forall task :: task in ts <==>
      task.key in keys && Training.KindName(task.kind) in t.entries[task.key] &&
      task.model == t.entries[task.key][Training.KindName(task.kind)]
    decreases |keys|
  {
    if |keys| == 0 then []
    else
      assert forall k :: k in keys <==> k == keys[0] || k in keys[1..] by {
        assert keys == [keys[0]] + keys[1..];
      }
      TasksOf(keys[0], t.entries[keys[0]]) + Tasks(t, keys[1..])
  }

  /**
   * Every task runs the last model file saved for its pair and type, and
   * every such file gets a task.
   */
  lemma TasksRunLastModel(listing: seq<string>, task: Task)
    ensures var t := Pairs(listing);
      var fs := ModelFiles(listing);
      var ws := seq(|fs|, i requires 0 <= i < |fs| => ParseModelFile(fs[i]));
      var kind := Training.KindName(task.kind);
      task in Tasks(t, t.order) <==>
        && LastHit(ws, task.key, kind).Some?
        && task.model == fs[LastHit(ws, task.key, kind).value]
  {
    var t := Pairs(listing);
    var fs := ModelFiles(listing);
    var ws := seq(|fs|, i requires 0 <= i < |fs| => ParseModelFile(fs[i]));
    BuildLastWriter(ws, task.key, Training.KindName(task.kind));
  }

  /** `f"{ativo}_{horiz}"`: the folder of one pair's figures. */
  function OutputFolder(key: ModelKey): (folder: string)
    ensures StartsWith(folder, key.0) && EndsWith(folder, key.1)
    ensures |folder| == |key.0| + 1 + |key.1| && folder[|key.0|] == '_'
  {
    key.0 + "_" + key.1
  }

  /** Distinct pairs never share a folder, since parsed names hold no `_`. */
  lemma OutputFolderInjective(a: ModelKey, b: ModelKey)
    requires '_' !in a.0 && '_' !in b.0
    requires OutputFolder(a) == OutputFolder(b)
    ensures a == b
  {
    var s := OutputFolder(a);
    assert s == a.0 + ("_" + a.1) && s == b.0 + ("_" + b.1);
    Training.FirstFieldOfPrefixed(a.0, "_" + a.1);
    Training.FirstFieldOfPrefixed(b.0, "_" + b.1);
    assert a.0 == b.0;
    assert a.1 == s[|a.0| + 1..] == b.1;
  }
}
