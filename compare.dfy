/** The before/after comparison endpoint
    (`process_data_details_compare_response`, api_utils.py): keep the hits
    with a model, a merge time and a usable timestamp, group them by model,
    pick for each model the record nearest the start and the record nearest
    the end, order the two by time and render the pair. */
module CompareEngine {

  import opened Wrappers
  import opened PyValues
  import opened FixedPoint
  import opened Calendar
  import opened Strptime
  import opened EsResponse
  import opened Records
  import opened Grouping
  import opened Seqs

  /** A kept record, `{**source, "time_stamp": ts}`: the source fields and
      the timestamp added under `time_stamp`. */
  datatype Stamped = Stamped(fields: map<string, Value>, ts: int)

  function AsValue(d: Stamped): Value
  {
    Dict(d.fields["time_stamp" := Int(d.ts)])
  }

  function ModelOf(d: Stamped): Value
  {
    SafeGet(AsValue(d), "model_name", Nil)
  }

  /** What one hit contributes in step 1: nothing when its model or merge
      time is falsy or its timestamp is None or 0, the stamped record
      otherwise. */
  function Stamp(hit: Value): (r: Result<Option<Stamped>>)
    ensures r.Ok? && r.value.Some? ==>
      var d := r.value.value;
      && SourceOf(hit) == Ok(Dict(d.fields))
      && Truthy(Get(d.fields, "model_name", Nil)) && Truthy(Get(d.fields, "merged_at", Nil))
      && d.ts != 0 && IsoTimestamp(Get(d.fields, "merged_at", Nil)) == Ok(Some(d.ts))
  {
    match SourceOf(hit)
    case Raise(e) => Raise(e)
    case Ok(source) =>
      var model, merged := SafeGet(source, "model_name", Nil), SafeGet(source, "merged_at", Nil);
      if !Truthy(model) || !Truthy(merged) then Ok(None)
      else match IsoTimestamp(merged)
        case Raise(e) => Raise(e)
        case Ok(None) => Ok(None)
        case Ok(Some(t)) => if t == 0 then Ok(None) else Ok(Some(Stamped(source.fields, t)))
  }

  /** The records step 1 keeps, in hit order; the first hit that raises
      ends the call. */
  function ValidOf(hits: seq<Value>): (r: Result<seq<Stamped>>)
    ensures r.Ok? ==> |r.value| <= |hits|
    ensures r.Ok? ==> forall j :: 0 <= j < |r.value| ==>
      var d := r.value[j];
      Truthy(Get(d.fields, "model_name", Nil)) && d.ts != 0 &&
      IsoTimestamp(Get(d.fields, "merged_at", Nil)) == Ok(Some(d.ts))
  {
    if hits == [] then Ok([])
    else match ValidOf(hits[..|hits| - 1])
      case Raise(e) => Raise(e)
      case Ok(kept) =>
        match Stamp(hits[|hits| - 1])
        case Raise(e) => Raise(e)
        case Ok(None) => Ok(kept)
        case Ok(Some(d)) => Ok(kept + [d])
  }

  /** Once a prefix of the hits raises, the whole list raises the same. */
  lemma {:induction false} ValidOfRaises(hits: seq<Value>, i: nat)
    requires i <= |hits| && ValidOf(hits[..i]).Raise?
    ensures ValidOf(hits) == ValidOf(hits[..i])
    decreases |hits| - i
  {
    if i < |hits| {
      assert hits[..i + 1][..i] == hits[..i];
      ValidOfRaises(hits, i + 1);
    } else {
      assert hits[..i] == hits;
    }
  }

  /** A hit whose stamped record is kept appears among the kept records. */
  lemma {:induction false} ValidOfKeeps(hits: seq<Value>, i: nat)
    requires i < |hits| && ValidOf(hits).Ok? && Stamp(hits[i]).Ok? && Stamp(hits[i]).value.Some?
    ensures Stamp(hits[i]).value.value in ValidOf(hits).value
  {
    var front := hits[..|hits| - 1];
    if i < |hits| - 1 {
      assert front[i] == hits[i];
      ValidOfKeeps(front, i);
    }
  }

  /** A record merged at the epoch itself has timestamp 0 and is dropped
      like one without a timestamp. */
  lemma EpochRecordDropped(hit: Value, source: map<string, Value>, dt: DateTime)
    requires SourceOf(hit) == Ok(Dict(source))
    requires Valid(dt) && EpochSeconds(dt) == 0
    requires Truthy(Get(source, "model_name", Nil)) && Get(source, "merged_at", Nil) == Str(Render(IsoFormat, dt))
    ensures Stamp(hit) == Ok(None)
  {
    IsoTimestampRoundTrip(dt);
    var merged := SafeGet(Dict(source), "merged_at", Nil);
    assert IsoTimestamp(merged) == Ok(Some(0));
  }

  /** The epoch is 1970-01-01 00:00:00. */
  lemma EpochStart()
    ensures Valid(DateTime(1970, 1, 1, 0, 0, 0)) && EpochSeconds(DateTime(1970, 1, 1, 0, 0, 0)) == 0
  {
  }

  /** Step 2's keys: the model of each kept record, which must be hashable. */
  function KeyedOf(data: seq<Stamped>): (r: Result<seq<Keyed<Stamped>>>)
    ensures r.Ok? ==> |r.value| == |data| && ItemsOf(r.value) == data
    ensures r.Ok? ==> forall j :: 0 <= j < |data| ==>
      r.value[j].keyValue == ModelOf(data[j]) && HashKey(ModelOf(data[j])) == Some(r.value[j].key)
    ensures r.Raise? ==> r.exc == TypeError
  {
    if data == [] then Ok([])
    else match KeyedOf(data[..|data| - 1])
      case Raise(e) => Raise(e)
      case Ok(xs) =>
        var d := data[|data| - 1];
        match HashKey(ModelOf(d))
        case None => Raise(TypeError)
        case Some(k) =>
          assert data == data[..|data| - 1] + [d];
          assert ItemsOf(xs + [Keyed(k, ModelOf(d), d)]) == ItemsOf(xs) + [d];
          Ok(xs + [Keyed(k, ModelOf(d), d)])
  }

  lemma {:induction false} KeyedOfRaises(data: seq<Stamped>, i: nat)
    requires i <= |data| && KeyedOf(data[..i]).Raise?
    ensures KeyedOf(data) == KeyedOf(data[..i])
    decreases |data| - i
  {
    if i < |data| {
      assert data[..i + 1][..i] == data[..i];
      KeyedOfRaises(data, i + 1);
    } else {
      assert data[..i] == data;
    }
  }

  lemma KeyedOfStep(data: seq<Stamped>, j: nat, xs: seq<Keyed<Stamped>>)
    requires j < |data| && KeyedOf(data[..j]) == Ok(xs)
    ensures KeyedOf(data[..j + 1]) ==
      match HashKey(ModelOf(data[j]))
      case None => Raise(TypeError)
      case Some(k) => Ok(xs + [Keyed(k, ModelOf(data[j]), data[j])])
  {
    assert data[..j + 1][..j] == data[..j];
  }

  function Dist(d: Stamped, target: real): real
  {
    Abs(d.ts as real - target)
  }

  /** `min(group, key=lambda x: abs(x["time_stamp"] - target))`: the index
      of the first record at the least distance from `target`. */
  function Nearest(group: seq<Stamped>, target: real): (n: nat)
    requires group != []
    ensures n < |group|
    ensures forall j :: 0 <= j < |group| ==> Dist(group[n], target) <= Dist(group[j], target)
    ensures forall j :: 0 <= j < n ==> Dist(group[n], target) < Dist(group[j], target)
  {
    if |group| == 1 then 0
    else
      var m := Nearest(group[..|group| - 1], target);
      assert group[..|group| - 1][m] == group[m];
      if Dist(group[|group| - 1], target) < Dist(group[m], target) then |group| - 1 else m
  }

  /** The two records of a model's row: the records nearest the start and
      the end, the earlier one first. */
  function ChosenPair(group: seq<Stamped>, start: real, end: real): (p: (Stamped, Stamped))
    requires group != []
    ensures p.0.ts <= p.1.ts
    ensures var a, b := group[Nearest(group, start)], group[Nearest(group, end)];
      (p == (a, b) || p == (b, a))
  {
    var a, b := group[Nearest(group, start)], group[Nearest(group, end)];
    if a.ts > b.ts then (b, a) else (a, b)
  }

  function PairRow(group: seq<Stamped>, start: real, end: real): CompareRow
    requires group != []
  {
    var p := ChosenPair(group, start, end);
    MapComparePair(AsValue(p.0), AsValue(p.1))
  }

  function Rows(t: Table<Stamped>, start: real, end: real): (rows: seq<CompareRow>)
    requires Consistent(t) && forall k :: k in t.rows ==> t.rows[k] != []
    ensures |rows| == |t.order|
  {
    seq(|t.order|, i requires 0 <= i < |t.order| => PairRow(t.rows[t.order[i]], start, end))
  }

  /** Step 2: the kept records grouped by model, or TypeError for an
      unhashable model. */
  function GroupStage(valid: seq<Stamped>): (r: Result<Table<Stamped>>)
    ensures r.Ok? ==> Consistent(r.value) && forall k :: k in r.value.rows ==> r.value.rows[k] != []
  {
    match KeyedOf(valid)
    case Raise(e) => Raise(e)
    case Ok(xs) =>
      GroupsNonEmpty(xs);
      Ok(GroupBy(xs))
  }

  /** Step 3: the targets are looked up, then each group gives its row. */
  function PairStage(groups: Table<Stamped>, params: map<string, Value>): Result<seq<CompareRow>>
    requires Consistent(groups) && forall k :: k in groups.rows ==> groups.rows[k] != []
  {
    if "startTime" !in params then Raise(KeyError("startTime"))
    else if "endTime" !in params then Raise(KeyError("endTime"))
    else match (Numeric(params["startTime"]), Numeric(params["endTime"]))
      case (Some(start), Some(end)) => Ok(Rows(groups, start, end))
      case _ => Raise(TypeError)
  }

  /** What the endpoint returns for a response and the request parameters. */
  function CompareSpec(resp: Value, params: map<string, Value>): (r: Result<seq<CompareRow>>)
    ensures r.Ok? && r.value != [] ==>
      "startTime" in params && "endTime" in params && Numeric(params["startTime"]).Some? && Numeric(params["endTime"]).Some?
  {
    match HitsValue(resp)
    case Raise(e) => Raise(e)
    case Ok(hv) =>
      match Iterate(hv)
      case Raise(e) => Raise(e)
      case Ok(hits) =>
        match ValidOf(hits)
        case Raise(e) => Raise(e)
        case Ok(valid) =>
          if valid == [] then Ok([])
          else match GroupStage(valid)
            case Raise(e) => Raise(e)
            case Ok(groups) => PairStage(groups, params)
  }

  /** `process_data_details_compare_response`. */
  method ProcessDataDetailsCompare(resp: Value, params: map<string, Value>) returns (r: Result<seq<CompareRow>>)
    ensures r == CompareSpec(resp, params)
  {
    var hv := HitsValue(resp);
    if hv.Raise? {
      return Raise(hv.exc);
    }
    var it := Iterate(hv.value);
    if it.Raise? {
      return Raise(it.exc);
    }
    var kept := KeepValid(it.value);
    if kept.Raise? {
      return Raise(kept.exc);
    }
    if kept.value == [] {
      return Ok([]);
    }
    var grouped := GroupByModel(kept.value);
    if grouped.Raise? {
      return Raise(grouped.exc);
    }
    var groups := grouped.value;
    // The first `min` raises TypeError for a target that is not a number.
    if "startTime" !in params {
      return Raise(KeyError("startTime"));
    }
    if "endTime" !in params {
      return Raise(KeyError("endTime"));
    }
    var start, end := Numeric(params["startTime"]), Numeric(params["endTime"]);
    if start.None? || end.None? {
      return Raise(TypeError);
    }
    var rows := PairRows(groups, start.value, end.value);
    return Ok(rows);
  }

  /** Step 1: keep the hits with a model, a merge time and a timestamp. */
  method KeepValid(hits: seq<Value>) returns (r: Result<seq<Stamped>>)
    ensures r == ValidOf(hits)
  {
    var valid: seq<Stamped> := [];
    var i := 0;
    while i < |hits|
      invariant 0 <= i <= |hits|
      invariant ValidOf(hits[..i]) == Ok(valid)
    {
      assert hits[..i + 1][..i] == hits[..i];
      var st := Stamp(hits[i]);
      if st.Raise? {
        ValidOfRaises(hits, i + 1);
        return Raise(st.exc);
      }
      if st.value.Some? {
        valid := valid + [st.value.value];
      }
      i := i + 1;
    }
    assert hits[..i] == hits;
    return Ok(valid);
  }

  /** Step 2: group the kept records by model, in first-seen order. */
  method GroupByModel(valid: seq<Stamped>) returns (r: Result<Table<Stamped>>)
    ensures r == GroupStage(valid)
  {
    var groups: Table<Stamped> := Table([], map[], map[]);
    ghost var xs: seq<Keyed<Stamped>> := [];
    var j := 0;
    while j < |valid|
      invariant 0 <= j <= |valid|
      invariant KeyedOf(valid[..j]) == Ok(xs)
      invariant groups == GroupLoop(xs)
    {
      var model := SafeGet(AsValue(valid[j]), "model_name", Nil);
      var key := HashKey(model);
      if key.None? {
        KeyedOfStep(valid, j, xs);
        KeyedOfRaises(valid, j + 1);
        return Raise(TypeError);
      }
      var x := Keyed(key.value, model, valid[j]);
      KeyedOfStep(valid, j, xs);
      GroupLoopSnoc(xs, x);
      if key.value in groups.rows {
        groups := Table(groups.order, groups.keyValues, groups.rows[key.value := groups.rows[key.value] + [valid[j]]]);
      } else {
        groups := Table(groups.order + [key.value], groups.keyValues[key.value := model], groups.rows[key.value := [valid[j]]]);
      }
      xs := xs + [x];
      j := j + 1;
    }
    assert valid[..j] == valid;
    GroupLoopIsGroupBy(xs);
    return Ok(groups);
  }

  /** Step 3: for each model the records nearest the two targets, swapped
      when the first is the later one. */
  method PairRows(groups: Table<Stamped>, start: real, end: real) returns (rows: seq<CompareRow>)
    requires Consistent(groups) && forall k :: k in groups.rows ==> groups.rows[k] != []
    ensures rows == Rows(groups, start, end)
  {
    rows := [];
    var m := 0;
    while m < |groups.order|
      invariant 0 <= m <= |groups.order|
      invariant rows == Rows(groups, start, end)[..m]
    {
      var group := groups.rows[groups.order[m]];
      var older := group[Nearest(group, start)];
      var newer := group[Nearest(group, end)];
      if older.ts > newer.ts {
        older, newer := newer, older;
      }
      assert (older, newer) == ChosenPair(group, start, end);
      ghost var all := Rows(groups, start, end);
      assert all[m] == PairRow(group, start, end);
      assert all[..m + 1] == all[..m] + [all[m]];
      rows := rows + [MapComparePair(AsValue(older), AsValue(newer))];
      m := m + 1;
    }
  }

  /** One row per distinct model, in the order the models first appear
      among the kept records; each row pairs the records nearest the start
      and the end of that model's group, the earlier one first, and the
      first record wins a tie in distance. */
  lemma CompareRowsSpec(valid: seq<Stamped>, xs: seq<Keyed<Stamped>>, params: map<string, Value>)
    requires valid != [] && KeyedOf(valid) == Ok(xs)
    requires PairStage(GroupStage(valid).value, params).Ok?
    ensures "startTime" in params && "endTime" in params
    ensures Numeric(params["startTime"]).Some? && Numeric(params["endTime"]).Some?
    ensures var rows, order := PairStage(GroupStage(valid).value, params).value, FirstSeen(KeysOf(xs));
      && |rows| == |order|
      && (forall k :: k in order <==> k in KeysOf(xs))
      && (forall a, b :: 0 <= a < b < |order| ==> FirstIndex(KeysOf(xs), order[a]) < FirstIndex(KeysOf(xs), order[b]))
      && forall a :: 0 <= a < |order| ==>
        var group := Members(xs, order[a]);
        var start, end := Numeric(params["startTime"]).value, Numeric(params["endTime"]).value;
        group != [] && rows[a] == PairRow(group, start, end)
  {
    var t := GroupBy(xs);
    assert GroupStage(valid) == Ok(t);
    GroupsNonEmpty(xs);
    FirstSeenOrder(KeysOf(xs));
    var start, end := Numeric(params["startTime"]).value, Numeric(params["endTime"]).value;
    var rows := PairStage(t, params).value;
    assert rows == Rows(t, start, end);
    forall a | 0 <= a < |t.order|
      ensures Members(xs, t.order[a]) != [] && rows[a] == PairRow(Members(xs, t.order[a]), start, end)
    {
      assert t.order[a] in KeysOf(xs);
      assert t.rows[t.order[a]] == Members(xs, t.order[a]);
    }
  }

  /** Nothing usable in the response gives no rows, whatever the targets. */
  lemma CompareEmpty(resp: Value, params: map<string, Value>, hits: seq<Value>)
    requires HitsValue(resp).Ok? && Iterate(HitsValue(resp).value) == Ok(hits)
    requires ValidOf(hits) == Ok([])
    ensures CompareSpec(resp, params) == Ok([])
  {
  }

  /** Equal targets pick the same record for both sides, so every metric
      cell of every row is a self pair `x→x`. */
  lemma CompareSameTarget(t: Table<Stamped>, target: real, a: nat, i: nat)
    requires Consistent(t) && forall k :: k in t.rows ==> t.rows[k] != []
    requires a < |t.order| && i < |MetricColumns|
    ensures var p := DecodePair(Rows(t, target, target)[a].metrics[i]);
      p.Some? && p.value.0 == p.value.1
  {
    var group := t.rows[t.order[a]];
    var d := group[Nearest(group, target)];
    assert ChosenPair(group, target, target) == (d, d);
    SelfPair(AsValue(d), i);
  }
}
