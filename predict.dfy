/** `predict_action` (actionPredictor/predict.py): the one-hot feature rows
    built from the recent actions, and the decoding of a predicted class
    number back to an action name through `FUNCTION_MAP`. The feature names
    (read from a file in the source) and the model's predictions are
    parameters. */
module Predict {
  import opened Optional
  import opened PyText
  import opened SetFacts

  /** `list(FUNCTION_MAP.keys())`, in insertion order. */
  function FunctionNames(): seq<string>
  {
    ["None", "open_editor", "add_service", "close_editor", "view_last_invoice", "list_services",
     "view_current_invoice", "copy_previous_data", "list_customers", "add_customer",
     "edit_customer", "update_tax"]
  }

  /** `FUNCTION_MAP`: action name to class number. */
  function FunctionMap(): map<string, int>
  {
    map["None" := 0, "open_editor" := 1, "add_service" := 2, "close_editor" := 3,
        "view_last_invoice" := 4, "list_services" := 5, "view_current_invoice" := 6,
        "copy_previous_data" := 7, "list_customers" := 8, "add_customer" := 9,
        "edit_customer" := 10, "update_tax" := 11]
  }

  /** Each name's class number is its position among the keys, and the keys
      are distinct. */
  lemma FunctionMapIsPositions()
    ensures |FunctionNames()| == 12
    ensures FunctionMap().Keys == set n | n in FunctionNames()
    ensures forall i :: 0 <= i < 12 ==> FunctionMap()[FunctionNames()[i]] == i
    ensures forall i, j :: 0 <= i < j < 12 ==> FunctionNames()[i] != FunctionNames()[j]
  {
  }

  /** `int(x)` for a float: truncation toward zero. */
  function Truncate(x: real): int
  {
    if x >= 0.0 then x.Floor else -((-x).Floor)
  }

  /** `list(FUNCTION_MAP.keys())[n]` with Python's negative indexing; `None`
      is the `IndexError`. */
  function DecodeIndex(n: int): Option<string>
  {
    var names := FunctionNames();
    if 0 <= n < |names| then Some(names[n])
    else if -|names| <= n < 0 then Some(names[|names| + n])
    else None
  }

  /** The action name of one prediction. */
  function Decode(prediction: real): Option<string>
  {
    DecodeIndex(Truncate(prediction))
  }

  /** Decoding a name's class number gives the name back. */
  lemma DecodeEncode(name: string)
    requires name in FunctionMap()
    ensures DecodeIndex(FunctionMap()[name]) == Some(name)
  {
    FunctionMapIsPositions();
    var i :| 0 <= i < 12 && FunctionNames()[i] == name;
  }

  /** Every class number 0..11 decodes to a key whose number it is. */
  lemma EncodeDecode(n: int)
    requires 0 <= n < 12
    ensures DecodeIndex(n).Some? && DecodeIndex(n).value in FunctionMap()
    ensures FunctionMap()[DecodeIndex(n).value] == n
  {
    FunctionMapIsPositions();
  }

  /** Any prediction in [0, 12) decodes to a key of `FUNCTION_MAP`. */
  lemma DecodeInRange(prediction: real)
    requires 0.0 <= prediction < 12.0
    ensures Decode(prediction).Some? && Decode(prediction).value in FunctionMap()
  {
    EncodeDecode(Truncate(prediction));
  }

  /** `[list(FUNCTION_MAP.keys())[int(pred)] for pred in predictions]`; `None`
      when some prediction is out of range and the comprehension raises. */
  function DecodeAll(predictions: seq<real>): Option<seq<string>>
  {
    if predictions == [] then Some([])
    else match (Decode(predictions[0]), DecodeAll(predictions[1..]))
      case (Some(a), Some(rest)) => Some([a] + rest)
      case _ => None
  }

  /** The list decodes exactly when every prediction does, element by element. */
  lemma {:induction false} DecodeAllElementwise(predictions: seq<real>)
    ensures DecodeAll(predictions).Some? <==> forall i :: 0 <= i < |predictions| ==> Decode(predictions[i]).Some?
    ensures DecodeAll(predictions).Some? ==>
      |DecodeAll(predictions).value| == |predictions|
      && forall i :: 0 <= i < |predictions| ==> DecodeAll(predictions).value[i] == Decode(predictions[i]).value
  {
    if predictions != [] {
      var tail := predictions[1..];
      DecodeAllElementwise(tail);
      assert forall i :: 1 <= i < |predictions| ==> predictions[i] == tail[i - 1];
    }
  }

  /** `f'last_action_{i+1}_{act}'` for the 0-based position `i`. */
  function FeatureKey(i: nat, act: string): string
  {
    "last_action_" + NatToString(i + 1) + "_" + act
  }

  /** `{col: False for col in feature_names}`. */
  function AllFalse(names: seq<string>): map<string, bool>
  {
    map k | k in names :: false
  }

  /** The row after the first `n` actions have set their keys. */
  function RowUpTo(acts: seq<string>, names: seq<string>, n: nat): map<string, bool>
    requires n <= |acts|
  {
    if n == 0 then AllFalse(names)
    else
      var row := RowUpTo(acts, names, n - 1);
      var key := FeatureKey(n - 1, acts[n - 1]);
      if key in row then row[key := true] else row
  }

  /** The row built for one list of recent actions. */
  function Row(acts: seq<string>, names: seq<string>): map<string, bool>
  {
    RowUpTo(acts, names, |acts|)
  }

  /** The keys the first `n` actions name. */
  function ActiveKeys(acts: seq<string>, n: nat): set<string>
    requires n <= |acts|
  {
    if n == 0 then {} else ActiveKeys(acts, n - 1) + {FeatureKey(n - 1, acts[n - 1])}
  }

  lemma {:induction false} ActiveKeysMembers(acts: seq<string>, n: nat, k: string)
    requires n <= |acts|
    ensures k in ActiveKeys(acts, n) <==> exists i :: 0 <= i < n && FeatureKey(i, acts[i]) == k
  {
    if n > 0 {
      ActiveKeysMembers(acts, n - 1, k);
    }
  }

  lemma {:induction false} ActiveKeysCount(acts: seq<string>, n: nat)
    requires n <= |acts|
    ensures |ActiveKeys(acts, n)| <= n
  {
    if n > 0 {
      ActiveKeysCount(acts, n - 1);
    }
  }

  /** A row's keys are exactly the feature names, and a key is `True` exactly
      when some action's positional key equals it. */
  lemma {:induction false} RowEntries(acts: seq<string>, names: seq<string>, n: nat)
    requires n <= |acts|
    ensures RowUpTo(acts, names, n).Keys == set k | k in names
    ensures forall k :: k in RowUpTo(acts, names, n) ==>
      (RowUpTo(acts, names, n)[k] <==> k in ActiveKeys(acts, n))
  {
    if n > 0 {
      RowEntries(acts, names, n - 1);
    }
  }

  /** A key is `True` only if it is a feature name equal to
      `last_action_{i+1}_{acts[i]}` for some position `i`; every feature name
      that equals such a key is `True`. */
  lemma RowOneHot(acts: seq<string>, names: seq<string>, k: string)
    ensures k in Row(acts, names) <==> k in names
    ensures k in Row(acts, names) ==>
      (Row(acts, names)[k] <==> exists i :: 0 <= i < |acts| && FeatureKey(i, acts[i]) == k)
  {
    RowEntries(acts, names, |acts|);
    ActiveKeysMembers(acts, |acts|, k);
  }

  /** At most `|acts|` entries of a row are `True`. */
  lemma RowTrueCount(acts: seq<string>, names: seq<string>)
    ensures |set k | k in Row(acts, names) && Row(acts, names)[k]| <= |acts|
  {
    var row := Row(acts, names);
    RowEntries(acts, names, |acts|);
    var trueKeys := set k | k in row && row[k];
    assert trueKeys <= ActiveKeys(acts, |acts|);
    SubsetCardinality(trueKeys, ActiveKeys(acts, |acts|));
    ActiveKeysCount(acts, |acts|);
  }

  /** The row-building loop of `predict_action`: one row per entry of
      `last_actions`, in order. */
  method BuildRows(lastActions: seq<seq<string>>, featureNames: seq<string>) returns (rows: seq<map<string, bool>>)
    ensures |rows| == |lastActions|
    ensures forall r :: 0 <= r < |rows| ==> rows[r] == Row(lastActions[r], featureNames)
  {
    rows := [];
    var j := 0;
    while j < |lastActions|
      invariant 0 <= j <= |lastActions|
      invariant |rows| == j
      invariant forall r :: 0 <= r < j ==> rows[r] == Row(lastActions[r], featureNames)
    {
      var acts := lastActions[j];
      var row := map col | col in featureNames :: false;
      var i := 0;
      while i < |acts|
        invariant 0 <= i <= |acts|
        invariant row == RowUpTo(acts, featureNames, i)
      {
        var key := FeatureKey(i, acts[i]);
        if key in row {
          row := row[key := true];
        }
        i := i + 1;
      }
      rows := rows + [row];
      j := j + 1;
    }
  }
}
