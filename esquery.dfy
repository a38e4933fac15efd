/** The search filter of the record store (`build_es_query`, api_utils.py):
    a conjunction of clauses on the model names, the engine version and the
    merge-time range, or `match_all` when there is nothing to filter on. */
module EsQuery {

  import opened Wrappers
  import opened PyValues
  import opened Calendar
  import opened Strptime
  import opened Records

  /** One clause of `query["bool"]["must"]`. */
  datatype Clause =
    | Terms(models: seq<Value>)                  // {"terms": {"source.model_name": models}}
    | Term(engine: Value)                        // {"term": {"source.engine_version": engine}}
    | Range(gte: Option<string>, lte: Option<string>)  // {"range": {"source.merged_at": {...}}}

  /** `{"bool": {"must": clauses}}` or `{"match_all": {}}`. */
  datatype Query = Conjunction(must: seq<Clause>) | MatchAll

  /** The position of a clause kind in the order the function emits them. */
  function Rank(c: Clause): nat
  {
    match c
    case Terms(_) => 0
    case Term(_) => 1
    case Range(_, _) => 2
  }

  /** `model_names and isinstance(model_names, List) and len(model_names) > 0`. */
  predicate FiltersModels(modelNames: Value)
  {
    Truthy(modelNames) && modelNames.List? && |modelNames.elems| > 0
  }

  /** The truth value of an optional integer time. */
  predicate Given(t: Option<int>)
  {
    t.Some? && t.value != 0
  }

  /** `pd.Timestamp(t, unit="s").strftime("%Y-%m-%dT%H:%M:%S")`, the
      instant read as UTC; an instant whose nanoseconds overflow 64 bits is
      refused (pandas raises OutOfBoundsDatetime, a ValueError). */
  function TimestampText(t: int): (r: Result<string>)
    ensures r.Ok? <==> -MaxTimestampSeconds <= t <= MaxTimestampSeconds
    ensures r.Ok? ==> Valid(CivilFromEpoch(t)) && r.value == Render(IsoFormat, CivilFromEpoch(t))
  {
    if t < -MaxTimestampSeconds || t > MaxTimestampSeconds then Raise(ValueError("OutOfBoundsDatetime", []))
    else
      TimestampYears(t);
      Ok(Render(IsoFormat, CivilFromEpoch(t)))
  }

  /** The bound of the range is the instant itself: converting the text back
      the way the record fields are converted gives `t` again. */
  lemma TimestampTextRoundTrip(t: int)
    requires TimestampText(t).Ok?
    ensures IsoTimestamp(Str(TimestampText(t).value)) == Ok(Some(t))
  {
    var dt := CivilFromEpoch(t);
    IsoTimestampRoundTrip(dt);
    EpochOfCivil(t);
  }

  /** The bound a time gives the range: none for a time that is not
      given, otherwise its text. */
  function Bound(t: Option<int>): (r: Result<Option<string>>)
    ensures r.Ok? ==> (r.value.Some? <==> Given(t))
    ensures Given(t) ==> (r.Raise? <==> TimestampText(t.value).Raise?)
    ensures r.Ok? && r.value.Some? ==> Ok(r.value.value) == TimestampText(t.value)
  {
    if !Given(t) then Ok(None)
    else match TimestampText(t.value)
      case Raise(e) => Raise(e)
      case Ok(text) => Ok(Some(text))
  }

  /** The clauses appended one after the other. */
  function Clauses(modelNames: Value, engineVersion: Value, gte: Option<string>, lte: Option<string>): seq<Clause>
  {
    (if FiltersModels(modelNames) then [Terms(modelNames.elems)] else []) +
    (if Truthy(engineVersion) then [Term(engineVersion)] else []) +
    (if gte.Some? || lte.Some? then [Range(gte, lte)] else [])
  }

  /** What `build_es_query` returns. */
  function QuerySpec(modelNames: Value, engineVersion: Value, startTime: Option<int>, endTime: Option<int>): (r: Result<Query>)
    ensures r.Raise? ==> (Given(startTime) && TimestampText(startTime.value).Raise?) || (Given(endTime) && TimestampText(endTime.value).Raise?)
    ensures r.Ok? && r.value.Conjunction? ==> r.value.must != []
  {
    match Bound(startTime)
    case Raise(e) => Raise(e)
    case Ok(gte) =>
      match Bound(endTime)
      case Raise(e) => Raise(e)
      case Ok(lte) =>
        var must := Clauses(modelNames, engineVersion, gte, lte);
        if must == [] then Ok(MatchAll) else Ok(Conjunction(must))
  }

  /** Only a time pandas cannot hold raises. */
  lemma QueryRaises(modelNames: Value, engineVersion: Value, startTime: Option<int>, endTime: Option<int>)
    ensures QuerySpec(modelNames, engineVersion, startTime, endTime).Raise? <==>
      (Given(startTime) && TimestampText(startTime.value).Raise?) ||
      (Given(endTime) && TimestampText(endTime.value).Raise?)
  {
  }

  /** No clause at all gives `match_all`. */
  lemma QueryMatchAll(modelNames: Value, engineVersion: Value, startTime: Option<int>, endTime: Option<int>)
    requires QuerySpec(modelNames, engineVersion, startTime, endTime).Ok?
    ensures QuerySpec(modelNames, engineVersion, startTime, endTime).value.MatchAll? <==>
      !FiltersModels(modelNames) && !Truthy(engineVersion) && !Given(startTime) && !Given(endTime)
  {
  }

  /** The clauses of a conjunction, split into the part each input gives. */
  lemma QueryParts(modelNames: Value, engineVersion: Value, startTime: Option<int>, endTime: Option<int>)
    returns (a: seq<Clause>, b: seq<Clause>, c: seq<Clause>)
    requires QuerySpec(modelNames, engineVersion, startTime, endTime).Ok?
    requires QuerySpec(modelNames, engineVersion, startTime, endTime).value.Conjunction?
    ensures QuerySpec(modelNames, engineVersion, startTime, endTime).value.must == a + b + c
    ensures a == if FiltersModels(modelNames) then [Terms(modelNames.elems)] else []
    ensures b == if Truthy(engineVersion) then [Term(engineVersion)] else []
    ensures var gte, lte := Bound(startTime).value, Bound(endTime).value;
      c == if gte.Some? || lte.Some? then [Range(gte, lte)] else []
    ensures Bound(startTime).Ok? && Bound(endTime).Ok?
  {
    var gte, lte := Bound(startTime).value, Bound(endTime).value;
    a := if FiltersModels(modelNames) then [Terms(modelNames.elems)] else [];
    b := if Truthy(engineVersion) then [Term(engineVersion)] else [];
    c := if gte.Some? || lte.Some? then [Range(gte, lte)] else [];
    assert a + b + c == Clauses(modelNames, engineVersion, gte, lte);
  }

  /** The clauses come in the order terms, term, range. */
  lemma QueryClauseOrder(modelNames: Value, engineVersion: Value, startTime: Option<int>, endTime: Option<int>)
    requires QuerySpec(modelNames, engineVersion, startTime, endTime).Ok?
    requires QuerySpec(modelNames, engineVersion, startTime, endTime).value.Conjunction?
    ensures var must := QuerySpec(modelNames, engineVersion, startTime, endTime).value.must;
      && must != []
      && (forall i, j :: 0 <= i < j < |must| ==> Rank(must[i]) < Rank(must[j]))
  {
    var a, b, c := QueryParts(modelNames, engineVersion, startTime, endTime);
    ClausesAt(a, b, c);
  }

  /** Each kind of clause is present exactly when its input is given. */
  lemma QueryClausePresence(modelNames: Value, engineVersion: Value, startTime: Option<int>, endTime: Option<int>)
    requires QuerySpec(modelNames, engineVersion, startTime, endTime).Ok?
    requires QuerySpec(modelNames, engineVersion, startTime, endTime).value.Conjunction?
    ensures var must := QuerySpec(modelNames, engineVersion, startTime, endTime).value.must;
      && ((exists i :: 0 <= i < |must| && must[i].Terms?) <==> FiltersModels(modelNames))
      && ((exists i :: 0 <= i < |must| && must[i].Term?) <==> Truthy(engineVersion))
      && ((exists i :: 0 <= i < |must| && must[i].Range?) <==> Given(startTime) || Given(endTime))
  {
    var a, b, c := QueryParts(modelNames, engineVersion, startTime, endTime);
    ClausesAt(a, b, c);
    var must := a + b + c;
    if FiltersModels(modelNames) { assert must[0].Terms?; }
    if Truthy(engineVersion) { assert must[|a|].Term?; }
    if Given(startTime) || Given(endTime) { assert must[|a| + |b|].Range?; }
  }

  /** The terms carry the model names and the term the engine version; the
      range has a lower bound exactly for a given start and an upper bound
      exactly for a given end, each the text of its time. */
  lemma QueryClauseValues(modelNames: Value, engineVersion: Value, startTime: Option<int>, endTime: Option<int>)
    requires QuerySpec(modelNames, engineVersion, startTime, endTime).Ok?
    requires QuerySpec(modelNames, engineVersion, startTime, endTime).value.Conjunction?
    ensures var must := QuerySpec(modelNames, engineVersion, startTime, endTime).value.must;
      && (forall i :: 0 <= i < |must| && must[i].Terms? ==> must[i].models == modelNames.elems)
      && (forall i :: 0 <= i < |must| && must[i].Term? ==> must[i].engine == engineVersion)
      && (forall i :: 0 <= i < |must| && must[i].Range? ==>
            && (must[i].gte.Some? <==> Given(startTime))
            && (must[i].lte.Some? <==> Given(endTime))
            && (must[i].gte.Some? ==> Ok(must[i].gte.value) == TimestampText(startTime.value))
            && (must[i].lte.Some? ==> Ok(must[i].lte.value) == TimestampText(endTime.value)))
  {
    var a, b, c := QueryParts(modelNames, engineVersion, startTime, endTime);
    ClausesAt(a, b, c);
  }

  /** Where each kind of clause sits in the concatenation. */
  lemma ClausesAt(a: seq<Clause>, b: seq<Clause>, c: seq<Clause>)
    requires |a| <= 1 && |b| <= 1 && |c| <= 1
    requires forall i :: 0 <= i < |a| ==> a[i].Terms?
    requires forall i :: 0 <= i < |b| ==> b[i].Term?
    requires forall i :: 0 <= i < |c| ==> c[i].Range?
    ensures forall i, j :: 0 <= i < j < |a + b + c| ==> Rank((a + b + c)[i]) < Rank((a + b + c)[j])
    ensures forall i :: 0 <= i < |a + b + c| && (a + b + c)[i].Terms? ==> (a + b + c)[i] == a[0]
    ensures forall i :: 0 <= i < |a + b + c| && (a + b + c)[i].Term? ==> (a + b + c)[i] == b[0]
    ensures forall i :: 0 <= i < |a + b + c| && (a + b + c)[i].Range? ==> (a + b + c)[i] == c[0]
    ensures a != [] ==> (a + b + c)[0].Terms?
    ensures b != [] ==> (a + b + c)[|a|].Term?
    ensures c != [] ==> (a + b + c)[|a| + |b|].Range?
  {
    var must := a + b + c;
    forall i | 0 <= i < |must|
      ensures i < |a| ==> must[i] == a[i] && Rank(must[i]) == 0
      ensures |a| <= i < |a| + |b| ==> must[i] == b[i - |a|] && Rank(must[i]) == 1
      ensures |a| + |b| <= i ==> must[i] == c[i - |a| - |b|] && Rank(must[i]) == 2
    {
    }
  }

  /** `build_es_query`. */
  method BuildEsQuery(modelNames: Value, engineVersion: Value, startTime: Option<int>, endTime: Option<int>)
    returns (r: Result<Query>)
    ensures r == QuerySpec(modelNames, engineVersion, startTime, endTime)
  {
    var must: seq<Clause> := [];
    if Truthy(modelNames) && modelNames.List? && |modelNames.elems| > 0 {
      must := must + [Terms(modelNames.elems)];
    }
    if Truthy(engineVersion) {
      must := must + [Term(engineVersion)];
    }
    ghost var front := must;
    assert front == (if FiltersModels(modelNames) then [Terms(modelNames.elems)] else []) +
                    (if Truthy(engineVersion) then [Term(engineVersion)] else []);
    var from: Option<string> := None;
    var to: Option<string> := None;
    if Given(startTime) || Given(endTime) {
      if Given(startTime) {
        var text := TimestampText(startTime.value);
        if text.Raise? {
          QuerySpecRaises(modelNames, engineVersion, startTime, endTime);
          return Raise(text.exc);
        }
        from := Some(text.value);
      }
      if Given(endTime) {
        var text := TimestampText(endTime.value);
        if text.Raise? {
          QuerySpecRaises(modelNames, engineVersion, startTime, endTime);
          return Raise(text.exc);
        }
        to := Some(text.value);
      }
      must := must + [Range(from, to)];
    }
    assert Bound(startTime) == Ok(from) && Bound(endTime) == Ok(to);
    assert must == front + (if from.Some? || to.Some? then [Range(from, to)] else []);
    assert must == Clauses(modelNames, engineVersion, from, to);
    QuerySpecOk(modelNames, engineVersion, startTime, endTime, from, to);
    if must == [] {
      return Ok(MatchAll);
    }
    return Ok(Conjunction(must));
  }

  lemma QuerySpecOk(modelNames: Value, engineVersion: Value, startTime: Option<int>, endTime: Option<int>,
                    gte: Option<string>, lte: Option<string>)
    requires Bound(startTime) == Ok(gte) && Bound(endTime) == Ok(lte)
    ensures var must := Clauses(modelNames, engineVersion, gte, lte);
      QuerySpec(modelNames, engineVersion, startTime, endTime) == if must == [] then Ok(MatchAll) else Ok(Conjunction(must))
  {
  }

  lemma QuerySpecRaises(modelNames: Value, engineVersion: Value, startTime: Option<int>, endTime: Option<int>)
    ensures Given(startTime) && TimestampText(startTime.value).Raise? ==>
      QuerySpec(modelNames, engineVersion, startTime, endTime) == Raise(TimestampText(startTime.value).exc)
    ensures Given(endTime) && TimestampText(endTime.value).Raise? && (Given(startTime) ==> TimestampText(startTime.value).Ok?) ==>
      QuerySpec(modelNames, engineVersion, startTime, endTime) == Raise(TimestampText(endTime.value).exc)
  {
  }
}
