/** Validation of the query parameters of the comparison and commit-list
    endpoints (`check_input_params`, api_utils.py). */
module ApiParams {

  import opened Wrappers
  import opened Text
  import opened PyValues
  import opened Seqs

  /** The result size used when the caller passes `size` as None. */
  const MaxResultSize: int := 10000

  const RequiredKeys: seq<string> := ["startTime", "endTime", "models", "engineVersion"]

  /** The processed parameters: the model list is split and trimmed. */
  datatype Params = Params(startTime: Value, endTime: Value, models: seq<string>, engineVersion: Value, size: Value)

  /** Why the parameters were refused (the function returns `False` with a
      message in each of these cases). */
  datatype Rejection =
    | MissingParams(keys: seq<string>)
    | EmptyModels
    | InvalidEngineVersion(version: Value)
    | InvalidTimeRange

  datatype Checked = Accepted(params: Params) | Rejected(reason: Rejection)

  /** A required key counts as missing when absent or None. */
  predicate Absent(params: map<string, Value>, k: string)
  {
    k !in params || params[k] == Nil
  }

  /** The keys of `keys` that are missing, in the order of `keys`. */
  function MissingKeys(params: map<string, Value>, keys: seq<string>): (r: seq<string>)
    ensures forall k :: k in r <==> k in keys && Absent(params, k)
    ensures r == [] <==> forall k :: k in keys ==> !Absent(params, k)
    ensures IsSubseq(r, keys)
  {
    if keys == [] then []
    else
      var last := keys[|keys| - 1];
      var front := MissingKeys(params, keys[..|keys| - 1]);
      assert keys == keys[..|keys| - 1] + [last];
      if Absent(params, last) then
        SubseqSnoc(front, keys[..|keys| - 1], last);
        front + [last]
      else
        SubseqExtend(front, keys[..|keys| - 1], last);
        front
  }

  /** The stripped pieces that are not empty. */
  function NonBlank(parts: seq<string>): (r: seq<string>)
    ensures |r| <= |parts|
  {
    if parts == [] then []
    else
      var m := Strip(parts[0]);
      (if m != "" then [m] else []) + NonBlank(parts[1..])
  }

  /** `[m.strip() for m in s.split(",") if m.strip()]`. */
  function ModelList(s: string): seq<string>
  {
    NonBlank(Split(s, ','))
  }

  /** What the model list holds: each name is non-empty, free of commas and
      of surrounding white space. */
  lemma {:induction false} NonBlankNames(parts: seq<string>)
    requires forall k :: 0 <= k < |parts| ==> ',' !in parts[k]
    ensures forall i :: 0 <= i < |NonBlank(parts)| ==>
      var m := NonBlank(parts)[i];
      m != "" && Strip(m) == m && ',' !in m
  {
    if parts != [] {
      NonBlankNames(parts[1..]);
      StripIdempotent(parts[0]);
      StripSpec(parts[0]);
    }
  }

  /** The list is empty exactly when every piece is blank. */
  lemma {:induction false} NonBlankEmpty(parts: seq<string>)
    ensures NonBlank(parts) == [] <==> forall k :: 0 <= k < |parts| ==> Strip(parts[k]) == ""
  {
    if parts != [] {
      NonBlankEmpty(parts[1..]);
      if Strip(parts[0]) == "" {
        forall k | 0 < k < |parts| ensures parts[k] == parts[1..][k - 1] {
        }
      }
    }
  }

  lemma ModelListSpec(s: string)
    ensures forall i :: 0 <= i < |ModelList(s)| ==>
      var m := ModelList(s)[i];
      m != "" && Strip(m) == m && ',' !in m
    ensures ModelList(s) == [] <==> forall k :: 0 <= k < |Split(s, ',')| ==> Strip(Split(s, ',')[k]) == ""
  {
    assert ModelList(s) == NonBlank(Split(s, ','));
    NonBlankNames(Split(s, ','));
    NonBlankEmpty(Split(s, ','));
  }

  /** A list of names that are non-empty, trimmed and comma-free survives
      joining with commas and splitting again. */
  lemma ModelListJoin(models: seq<string>)
    requires models != []
    requires forall i :: 0 <= i < |models| ==> models[i] != "" && Strip(models[i]) == models[i] && ',' !in models[i]
    ensures ModelList(Join(models, ',')) == models
  {
    SplitJoin(models, ',');
    NonBlankKeeps(models);
  }

  lemma {:induction false} NonBlankKeeps(parts: seq<string>)
    requires forall i :: 0 <= i < |parts| ==> parts[i] != "" && Strip(parts[i]) == parts[i]
    ensures NonBlank(parts) == parts
  {
    if parts != [] {
      NonBlankKeeps(parts[1..]);
    }
  }

  /** A string made only of commas and white space (such as `",,"`) gives
      no model names. */
  lemma OnlySeparators(s: string)
    requires forall k :: 0 <= k < |s| ==> s[k] == ',' || IsSpace(s[k])
    ensures ModelList(s) == []
  {
    var parts := Split(s, ',');
    JoinSplit(s, ',');
    ModelListSpec(s);
    forall k | 0 <= k < |parts| ensures Strip(parts[k]) == "" {
      JoinPieceInside(parts, ',', k);
      var p := parts[k];
      forall j | 0 <= j < |p| ensures IsSpace(p[j]) {
        assert p[j] in Join(parts, ',');
        assert p[j] != ',';
      }
      StripSpec(p);
    }
  }

  /** Each piece joined into a string occurs in it. */
  lemma {:induction false} JoinPieceInside(parts: seq<string>, sep: char, k: nat)
    requires k < |parts|
    ensures forall c :: c in parts[k] ==> c in Join(parts, sep)
  {
    if |parts| > 1 {
      assert Join(parts, sep) == parts[0] + [sep] + Join(parts[1..], sep);
      if k > 0 {
        JoinPieceInside(parts[1..], sep, k - 1);
      }
    }
  }

  /** Python `a > b` for the values a request can carry: numbers compare by
      value, strings by code points, two lists element by element; any
      other pair raises TypeError. */
  function Greater(a: Value, b: Value): (r: Result<bool>)
    decreases a, 1, 0
    ensures Numeric(a).Some? && Numeric(b).Some? ==> r == Ok(Numeric(a).value > Numeric(b).value)
    ensures a.Str? && b.Str? ==> r == Ok(LexLess(b.s, a.s))
    ensures !(a.List? && b.List?) && !(a.Str? && b.Str?) && !(Numeric(a).Some? && Numeric(b).Some?) ==> r == Raise(TypeError)
    ensures r.Raise? ==> r.exc == TypeError
  {
    match (Numeric(a), Numeric(b))
    case (Some(x), Some(y)) => Ok(x > y)
    case _ =>
      if a.Str? && b.Str? then Ok(LexLess(b.s, a.s))
      else if a.List? && b.List? then ListGreater(a, b, 0)
      else Raise(TypeError)
  }

  /** The list comparison from index `i` on: the first pair of items that
      are not `==` decides by `>`; when one list runs out first, the longer
      one is greater. */
  function ListGreater(a: Value, b: Value, i: nat): (r: Result<bool>)
    requires a.List? && b.List?
    decreases a, 0, |a.elems| - i
    ensures r.Raise? ==> r.exc == TypeError
  {
    if i >= |a.elems| || i >= |b.elems| then Ok(|a.elems| > |b.elems|)
    else if Equal(a.elems[i], b.elems[i]) then ListGreater(a, b, i + 1)
    else Greater(a.elems[i], b.elems[i])
  }

  /** Two lists agreeing item by item up to the shorter one's length
      compare by length. */
  lemma {:induction false} ListGreaterPrefix(a: Value, b: Value, i: nat)
    requires a.List? && b.List? && i <= |a.elems| && i <= |b.elems|
    requires forall j | i <= j < |a.elems| && j < |b.elems| :: Equal(a.elems[j], b.elems[j])
    ensures ListGreater(a, b, i) == Ok(|a.elems| > |b.elems|)
    decreases |a.elems| - i
  {
    if i < |a.elems| && i < |b.elems| {
      ListGreaterPrefix(a, b, i + 1);
    }
  }

  /** When item `k` is the first pair that is not `==`, the lists compare as
      those two items do. */
  lemma {:induction false} ListGreaterFirstDiff(a: Value, b: Value, i: nat, k: nat)
    requires a.List? && b.List? && i <= k < |a.elems| && k < |b.elems|
    requires forall j | i <= j < k :: Equal(a.elems[j], b.elems[j])
    requires !Equal(a.elems[k], b.elems[k])
    ensures ListGreater(a, b, i) == Greater(a.elems[k], b.elems[k])
    decreases k - i
  {
    if i < k {
      ListGreaterFirstDiff(a, b, i + 1, k);
    }
  }

  /** `a > b` on two lists: equal prefixes compare by length, otherwise the
      first unequal pair decides. */
  lemma ListsCompared(xs: seq<Value>, ys: seq<Value>)
    ensures (forall j | 0 <= j < |xs| && j < |ys| :: Equal(xs[j], ys[j])) ==>
      Greater(List(xs), List(ys)) == Ok(|xs| > |ys|)
    ensures forall k | 0 <= k < |xs| && k < |ys| && !Equal(xs[k], ys[k]) && (forall j | 0 <= j < k :: Equal(xs[j], ys[j])) ::
      Greater(List(xs), List(ys)) == Greater(xs[k], ys[k])
  {
    if forall j | 0 <= j < |xs| && j < |ys| :: Equal(xs[j], ys[j]) {
      ListGreaterPrefix(List(xs), List(ys), 0);
    }
    forall k | 0 <= k < |xs| && k < |ys| && !Equal(xs[k], ys[k]) && (forall j | 0 <= j < k :: Equal(xs[j], ys[j]))
      ensures Greater(List(xs), List(ys)) == Greater(xs[k], ys[k])
    {
      ListGreaterFirstDiff(List(xs), List(ys), 0, k);
    }
  }

  /** No value is greater than itself: `a > a` is False or raises. */
  lemma {:induction false} GreaterIrreflexive(a: Value)
    ensures Greater(a, a) != Ok(true)
  {
    if a.List? {
      forall j | 0 <= j < |a.elems| ensures Equal(a.elems[j], a.elems[j]) {
        EqualReflexive(a.elems[j]);
      }
      ListGreaterPrefix(a, a, 0);
    } else if a.Str? {
      LexLessIrreflexive(a.s);
    }
  }

  /** `v in [0, 1, 2]`: equality with a Python int, so `1.0` and `True`
      are accepted too. */
  predicate EngineAllowed(v: Value)
  {
    match Numeric(v)
    case Some(x) => x == 0.0 || x == 1.0 || x == 2.0
    case None => false
  }

  /** `check_input_params`: a refusal, the processed parameters, or an
      exception (a `models` value that is not a string has no `split`; a
      dictionary without a `size` key raises KeyError). The final
      emptiness test of the source is never reached: the model list was
      already found non-empty. */
  function CheckInputParams(params: map<string, Value>): (r: Result<Checked>)
    ensures (r.Ok? && r.value.Rejected? && r.value.reason.MissingParams?) <==> MissingKeys(params, RequiredKeys) != []
  {
    var missing := MissingKeys(params, RequiredKeys);
    if missing != [] then Ok(Rejected(MissingParams(missing)))
    else
      RequiredIn(params);
      if !params["models"].Str? then Raise(AttributeError)
    else
      var models := ModelList(params["models"].s);
      if models == [] then Ok(Rejected(EmptyModels))
      else if "size" !in params then Raise(KeyError("size"))
      else
        var size := if params["size"] == Nil then Int(MaxResultSize) else params["size"];
        var p := Params(params["startTime"], params["endTime"], models, params["engineVersion"], size);
        if !EngineAllowed(p.engineVersion) then Ok(Rejected(InvalidEngineVersion(p.engineVersion)))
        else match Greater(p.startTime, p.endTime)
          case Raise(e) => Raise(e)
          case Ok(later) => if later then Ok(Rejected(InvalidTimeRange)) else Ok(Accepted(p))
  }

  /** With no required key missing, each can be looked up. */
  lemma RequiredIn(params: map<string, Value>)
    requires MissingKeys(params, RequiredKeys) == []
    ensures "startTime" in params && "endTime" in params && "models" in params && "engineVersion" in params
  {
    assert RequiredKeys[0] in RequiredKeys && RequiredKeys[1] in RequiredKeys;
    assert RequiredKeys[2] in RequiredKeys && RequiredKeys[3] in RequiredKeys;
  }

  /** The check refuses for missing keys exactly when some required key is
      absent or None, and then names every such key in the order
      startTime, endTime, models, engineVersion. */
  lemma MissingParamsExactly(params: map<string, Value>)
    ensures var r := CheckInputParams(params);
      (r.Ok? && r.value.Rejected? && r.value.reason.MissingParams?) <==>
      (exists k :: k in RequiredKeys && Absent(params, k))
    ensures var r := CheckInputParams(params);
      r.Ok? && r.value.Rejected? && r.value.reason.MissingParams? ==>
      var ks := r.value.reason.keys;
      IsSubseq(ks, RequiredKeys) && forall k :: k in ks <==> k in RequiredKeys && Absent(params, k)
  {
    var missing := MissingKeys(params, RequiredKeys);
    if exists k :: k in RequiredKeys && Absent(params, k) {
      var k :| k in RequiredKeys && Absent(params, k);
      assert k in missing;
    }
  }

  /** What acceptance guarantees: every required key present, an engine
      version among 0, 1, 2, a start no later than the end, a non-empty
      list of trimmed names, and the default size for a None size. */
  lemma AcceptedSpec(params: map<string, Value>)
    requires CheckInputParams(params).Ok? && CheckInputParams(params).value.Accepted?
    ensures var p := CheckInputParams(params).value.params;
      && (forall k :: k in RequiredKeys ==> k in params && params[k] != Nil)
      && p.startTime == params["startTime"] && p.endTime == params["endTime"]
      && p.engineVersion == params["engineVersion"] && EngineAllowed(p.engineVersion)
      && Greater(p.startTime, p.endTime) == Ok(false)
      && params["models"].Str? && p.models == ModelList(params["models"].s) && p.models != []
      && (forall i :: 0 <= i < |p.models| ==> p.models[i] != "" && Strip(p.models[i]) == p.models[i])
      && "size" in params
      && p.size == (if params["size"] == Nil then Int(MaxResultSize) else params["size"])
  {
    var missing := MissingKeys(params, RequiredKeys);
    forall k | k in RequiredKeys ensures k in params && params[k] != Nil {
      assert k !in missing;
    }
    ModelListSpec(params["models"].s);
  }

  /** The engine version is judged before the time range: a bad version is
      reported even when the range is also reversed. */
  lemma EngineBeforeRange(params: map<string, Value>)
    requires forall k :: k in RequiredKeys ==> k in params && params[k] != Nil
    requires params["models"].Str? && ModelList(params["models"].s) != [] && "size" in params
    requires !EngineAllowed(params["engineVersion"])
    ensures CheckInputParams(params) == Ok(Rejected(InvalidEngineVersion(params["engineVersion"])))
  {
  }

  /** Only separators in `models` is refused as an empty model list. */
  lemma SeparatorsRefused(params: map<string, Value>)
    requires forall k :: k in RequiredKeys ==> k in params && params[k] != Nil
    requires params["models"].Str?
    requires forall k :: 0 <= k < |params["models"].s| ==> params["models"].s[k] == ',' || IsSpace(params["models"].s[k])
    ensures CheckInputParams(params) == Ok(Rejected(EmptyModels))
  {
    OnlySeparators(params["models"].s);
  }

  /** Once the earlier checks pass, the comparison `startTime > endTime`
      alone decides: True refuses the range, False accepts, and its
      TypeError escapes. */
  lemma RangeDecides(params: map<string, Value>)
    requires forall k :: k in RequiredKeys ==> k in params && params[k] != Nil
    requires params["models"].Str? && ModelList(params["models"].s) != []
    requires "size" in params && EngineAllowed(params["engineVersion"])
    ensures CheckInputParams(params) == Ok(Rejected(InvalidTimeRange)) <==> Greater(params["startTime"], params["endTime"]) == Ok(true)
    ensures CheckInputParams(params).Ok? && CheckInputParams(params).value.Accepted? <==> Greater(params["startTime"], params["endTime"]) == Ok(false)
    ensures CheckInputParams(params).Raise? <==> Greater(params["startTime"], params["endTime"]).Raise?
  {
    assert MissingKeys(params, RequiredKeys) == [];
  }

  /** Times given as lists compare item by item: `[2]` after `[1]` is a
      reversed range, and `[1]` against `[1]` is accepted. */
  lemma ListTimes(models: string)
    requires ModelList(models) != []
    ensures var p := map["startTime" := List([Int(2)]), "endTime" := List([Int(1)]), "models" := Str(models), "engineVersion" := Int(0), "size" := Nil];
      CheckInputParams(p) == Ok(Rejected(InvalidTimeRange))
    ensures var p := map["startTime" := List([Int(1)]), "endTime" := List([Int(1)]), "models" := Str(models), "engineVersion" := Int(0), "size" := Nil];
      CheckInputParams(p).Ok? && CheckInputParams(p).value.Accepted?
  {
    var p := map["startTime" := List([Int(2)]), "endTime" := List([Int(1)]), "models" := Str(models), "engineVersion" := Int(0), "size" := Nil];
    var q := p["startTime" := List([Int(1)])];
    ListGreaterFirstDiff(List([Int(2)]), List([Int(1)]), 0, 0);
    ListGreaterPrefix(List([Int(1)]), List([Int(1)]), 0);
    RangeDecides(p);
    RangeDecides(q);
  }
}
