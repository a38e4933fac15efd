/** The local data server (data/main.py): it loads the aggregated metrics
    file, normalises each record (commit id, a second-resolution timestamp
    from `pr_date` and `pr_time`, model name, engine version), filters the
    records by time range, engine version and model, and answers three
    endpoints: commits grouped by model, the raw records of one model, and
    one model's records mapped onto fixed response fields. Whether the file
    exists and what JSON it holds are inputs here. */
module LocalServer {

  import opened Wrappers
  import opened PyValues
  import opened Calendar
  import opened Strptime
  import opened Seqs
  import opened Grouping

  const MetricsFilePath: string := "metrics_total.json"

  /** One preprocessed record: the original record (a dictionary) and the
      fields read from its `source`. */
  datatype Processed = Processed(raw: map<string, Value>, commitId: Value, prTimestamp: int,
                                 modelName: Value, engineVersion: Value)

  // ---------------------------------------------------------------------
  // load_and_preprocess_metrics
  // ---------------------------------------------------------------------

  /** `pr_timestamp`: the seconds since the epoch of
      `strptime(f"{pr_date} {pr_time}", "%Y-%m-%d %H:%M:%S")`, or 0 when
      `pr_date` is falsy or the text does not parse. The text of a value
      that is not a string never has the date-and-time shape (it is `None`,
      `True`, a number, or a bracketed list or dictionary), so only strings
      are parsed. */
  function PrTimestamp(date: Value, time: Value): (r: int)
    ensures !Truthy(date) ==> r == 0
    ensures r != 0 ==> date.Str? && time.Str? && Parse(date.s + " " + time.s, SpacedFormat).Some?
  {
    if !Truthy(date) || !date.Str? || !time.Str? then 0
    else SpacedSeconds(date.s + " " + time.s)
  }

  /** The seconds of a `%Y-%m-%d %H:%M:%S` text, 0 when it does not parse. */
  function SpacedSeconds(text: string): int
  {
    match Parse(text, SpacedFormat)
    case None => 0
    case Some(dt) => EpochSeconds(dt)
  }

  /** A date written `YYYY-MM-DD` and a time written `HH:MM:SS` give the
      instant they name, which converts back to the same date and time. */
  lemma PrTimestampRendered(dt: DateTime)
    requires Valid(dt)
    ensures PrTimestamp(Str(Render(DashedDate, dt)), Str(Render(ColonTime, dt))) == EpochSeconds(dt)
    ensures CivilFromEpoch(PrTimestamp(Str(Render(DashedDate, dt)), Str(Render(ColonTime, dt)))) == dt
  {
    var date, time := Render(DashedDate, dt), Render(ColonTime, dt);
    SpacedText(dt);
    SpacedRoundTrip(dt);
    assert SpacedSeconds(date + " " + time) == EpochSeconds(dt);
    assert date != "" by {
      assert DashedDate == [Field(Year)] + DashedDate[1..];
      RenderAppend([Field(Year)], DashedDate[1..], dt);
    }
    PrTimestampOfStrings(date, time);
    CivilOfEpoch(dt);
  }

  lemma PrTimestampOfStrings(date: string, time: string)
    requires date != ""
    ensures PrTimestamp(Str(date), Str(time)) == SpacedSeconds(date + " " + time)
  {
  }

  lemma SpacedText(dt: DateTime)
    requires Renderable(dt)
    ensures Render(SpacedFormat, dt) == Render(DashedDate, dt) + " " + Render(ColonTime, dt)
  {
    assert SpacedFormat == DashedDate + [Blank] + ColonTime;
    RenderAppend(DashedDate + [Blank], ColonTime, dt);
    RenderAppend(DashedDate, [Blank], dt);
    assert Render([Blank], dt) == " ";
  }

  lemma SpacedRoundTrip(dt: DateTime)
    requires Valid(dt)
    ensures Parse(Render(SpacedFormat, dt), SpacedFormat) == Some(dt)
  {
    IsoWellFormed();
    assert Filled(SpacedFormat, dt) == dt by {
      assert SpacedFormat[0] == Field(Year) && SpacedFormat[2] == Field(Month) && SpacedFormat[4] == Field(Day);
      assert SpacedFormat[6] == Field(Hour) && SpacedFormat[8] == Field(Minute) && SpacedFormat[10] == Field(Second);
    }
    ParseRender(SpacedFormat, dt);
  }

  /** Without `pr_time` the record is dated at midnight. */
  lemma PrTimestampMidnight(dt: DateTime)
    requires Valid(dt) && dt.hour == 0 && dt.minute == 0 && dt.second == 0
    ensures PrTimestamp(Str(Render(DashedDate, dt)), Str("00:00:00")) == EpochSeconds(dt)
  {
    MidnightText(dt);
    PrTimestampRendered(dt);
  }

  lemma MidnightText(dt: DateTime)
    requires Renderable(dt) && dt.hour == 0 && dt.minute == 0 && dt.second == 0
    ensures Render(ColonTime, dt) == "00:00:00"
  {
    assert ColonTime == [Field(Hour), Literal(':')] + [Field(Minute), Literal(':')] + [Field(Second)];
    RenderAppend([Field(Hour), Literal(':')] + [Field(Minute), Literal(':')], [Field(Second)], dt);
    RenderAppend([Field(Hour), Literal(':')], [Field(Minute), Literal(':')], dt);
  }

  /** The per-record normalisation: a record that is not a dictionary, or
      whose `source` is not one, has no `get` (AttributeError). */
  function ProcessItem(item: Value): (r: Result<Processed>)
    ensures r.Ok? <==> item.Dict? && Get(item.fields, "source", Dict(map[])).Dict?
    ensures r.Raise? ==> r.exc == AttributeError
  {
    if !item.Dict? then Raise(AttributeError)
    else
      var source := Get(item.fields, "source", Dict(map[]));
      if !source.Dict? then Raise(AttributeError)
      else
        var s := source.fields;
        Ok(Processed(item.fields,
                     Get(s, "commit_id", Str("unknown_commit")),
                     PrTimestamp(Get(s, "pr_date", Str("")), Get(s, "pr_time", Str("00:00:00"))),
                     Get(s, "model_name", Str("unknown_model")),
                     Get(s, "engineVersion", Int(0))))
  }

  /** The defaults of the normalisation: a missing commit id, model name or
      engine version reads as `unknown_commit`, `unknown_model` and 0; a
      record without a date is dated 0, and the record itself is kept. */
  lemma ProcessItemDefaults(item: map<string, Value>)
    requires ProcessItem(Dict(item)).Ok?
    ensures var p, s := ProcessItem(Dict(item)).value, Get(item, "source", Dict(map[])).fields;
      && p.raw == item
      && ("commit_id" !in s ==> p.commitId == Str("unknown_commit"))
      && ("commit_id" in s ==> p.commitId == s["commit_id"])
      && ("model_name" !in s ==> p.modelName == Str("unknown_model"))
      && ("model_name" in s ==> p.modelName == s["model_name"])
      && ("engineVersion" !in s ==> p.engineVersion == Int(0))
      && ("engineVersion" in s ==> p.engineVersion == s["engineVersion"])
      && ("pr_date" !in s ==> p.prTimestamp == 0)
  {
  }

  /** `for item in raw_data` after a dictionary is wrapped into a list: a
      list gives its elements; the characters of a non-empty string have no
      `get`; anything else is not iterable. */
  function Items(document: Value): (r: Result<seq<Value>>)
    ensures document.Dict? ==> r == Ok([document])
    ensures document.List? ==> r == Ok(document.elems)
  {
    match document
    case Dict(_) => Ok([document])
    case List(elems) => Ok(elems)
    case Str(s) => if s == "" then Ok([]) else Raise(AttributeError)
    case _ => Raise(TypeError)
  }

  /** The records normalised one after the other; the first failure
      escapes. */
  function ProcessAll(items: seq<Value>): Result<seq<Processed>>
  {
    if items == [] then Ok([])
    else match ProcessAll(items[..|items| - 1])
      case Raise(e) => Raise(e)
      case Ok(done) =>
        match ProcessItem(items[|items| - 1])
        case Raise(e) => Raise(e)
        case Ok(p) => Ok(done + [p])
  }

  /** Every record is normalised on its own, in order; the list fails
      exactly when some record fails. */
  lemma {:induction false} ProcessAllSpec(items: seq<Value>)
    ensures ProcessAll(items).Ok? <==> forall i :: 0 <= i < |items| ==> ProcessItem(items[i]).Ok?
    ensures ProcessAll(items).Ok? ==>
      |ProcessAll(items).value| == |items| &&
      forall i :: 0 <= i < |items| ==> ProcessAll(items).value[i] == ProcessItem(items[i]).value
  {
    if items != [] {
      var front := items[..|items| - 1];
      ProcessAllSpec(front);
      assert forall i :: 0 <= i < |front| ==> front[i] == items[i];
    }
  }

  lemma {:induction false} ProcessAllRaises(items: seq<Value>, j: nat)
    requires j <= |items| && ProcessAll(items[..j]).Raise?
    ensures ProcessAll(items) == ProcessAll(items[..j])
    decreases |items| - j
  {
    if j < |items| {
      assert items[..j + 1][..j] == items[..j];
      ProcessAllRaises(items, j + 1);
    } else {
      assert items[..j] == items;
    }
  }

  /** `load_and_preprocess_metrics` on the file's existence and its parsed
      JSON (None when it is not valid JSON). */
  function Preprocessed(fileExists: bool, document: Option<Value>): Result<seq<Processed>>
  {
    if !fileExists then Raise(FileNotFound(MetricsFilePath))
    else if document.None? then Raise(ValueError("metrics.json format error", []))
    else match Items(document.value)
      case Raise(e) => Raise(e)
      case Ok(items) => ProcessAll(items)
  }

  /** A file holding one dictionary is read as a one-record list. */
  lemma PreprocessedDict(record: map<string, Value>)
    requires ProcessItem(Dict(record)).Ok?
    ensures Preprocessed(true, Some(Dict(record))) == Ok([ProcessItem(Dict(record)).value])
  {
    var items := [Dict(record)];
    assert items[..0] == [];
    assert ProcessAll(items[..0]) == Ok([]);
    assert ProcessAll(items) == Ok([] + [ProcessItem(Dict(record)).value]);
    assert Items(Dict(record)) == Ok(items);
    assert [] + [ProcessItem(Dict(record)).value] == [ProcessItem(Dict(record)).value];
    assert Preprocessed(true, Some(Dict(record))) == ProcessAll(items);
  }

  method LoadAndPreprocessMetrics(fileExists: bool, document: Option<Value>) returns (r: Result<seq<Processed>>)
    ensures r == Preprocessed(fileExists, document)
  {
    if !fileExists {
      return Raise(FileNotFound(MetricsFilePath));
    }
    if document.None? {
      return Raise(ValueError("metrics.json format error", []));
    }
    var rawData := Items(document.value);
    if rawData.Raise? {
      return Raise(rawData.exc);
    }
    var items := rawData.value;
    var processedData: seq<Processed> := [];
    var j := 0;
    while j < |items|
      invariant 0 <= j <= |items|
      invariant ProcessAll(items[..j]) == Ok(processedData)
    {
      assert items[..j + 1][..j] == items[..j];
      var p := ProcessItem(items[j]);
      if p.Raise? {
        ProcessAllRaises(items, j + 1);
        return Raise(p.exc);
      }
      processedData := processedData + [p.value];
      j := j + 1;
    }
    assert items[..j] == items;
    return Ok(processedData);
  }

  // ---------------------------------------------------------------------
  // filter_data
  // ---------------------------------------------------------------------

  /** The three conditions a record must pass: its timestamp in the closed
      range, its engine version equal (Python numeric equality), and its
      model equal unless `models` is `all`. */
  predicate Matches(item: Processed, startTime: int, endTime: int, models: string, engineVersion: int)
  {
    && startTime <= item.prTimestamp <= endTime
    && Numeric(item.engineVersion) == Some(engineVersion as real)
    && (models == "all" || item.modelName == Str(models))
  }

  function Filtered(data: seq<Processed>, startTime: int, endTime: int, models: string, engineVersion: int): (r: seq<Processed>)
    ensures |r| <= |data|
    ensures forall i :: 0 <= i < |r| ==> Matches(r[i], startTime, endTime, models, engineVersion)
  {
    if data == [] then []
    else
      var last := data[|data| - 1];
      Filtered(data[..|data| - 1], startTime, endTime, models, engineVersion) +
        (if Matches(last, startTime, endTime, models, engineVersion) then [last] else [])
  }

  /** The kept records are the matching ones, in their order. */
  lemma {:induction false} FilteredSpec(data: seq<Processed>, startTime: int, endTime: int, models: string, engineVersion: int)
    ensures var r := Filtered(data, startTime, endTime, models, engineVersion);
      && IsSubseq(r, data)
      && (forall x :: x in r <==> x in data && Matches(x, startTime, endTime, models, engineVersion))
  {
    if data != [] {
      var front, last := data[..|data| - 1], data[|data| - 1];
      FilteredSpec(front, startTime, endTime, models, engineVersion);
      var rf := Filtered(front, startTime, endTime, models, engineVersion);
      assert data == front + [last];
      if Matches(last, startTime, endTime, models, engineVersion) {
        SubseqSnoc(rf, front, last);
      } else {
        assert Filtered(data, startTime, endTime, models, engineVersion) == rf;
        SubseqExtend(rf, front, last);
      }
    }
  }

  method FilterData(data: seq<Processed>, startTime: int, endTime: int, models: string, engineVersion: int)
    returns (filtered: seq<Processed>)
    ensures filtered == Filtered(data, startTime, endTime, models, engineVersion)
  {
    filtered := [];
    var j := 0;
    while j < |data|
      invariant 0 <= j <= |data|
      invariant filtered == Filtered(data[..j], startTime, endTime, models, engineVersion)
    {
      assert data[..j + 1][..j] == data[..j];
      var item := data[j];
      j := j + 1;
      if !(startTime <= item.prTimestamp <= endTime) {
        continue;
      }
      if Numeric(item.engineVersion) != Some(engineVersion as real) {
        continue;
      }
      if models != "all" && item.modelName != Str(models) {
        continue;
      }
      filtered := filtered + [item];
    }
    assert data[..j] == data;
  }

  // ---------------------------------------------------------------------
  // The endpoints
  // ---------------------------------------------------------------------

  /** One entry of a commit list. */
  datatype CommitInfo = CommitInfo(branch: Value, device: Value, hash: Value, time: int)

  /** What an endpoint answers. */
  datatype Reply =
    | LoadFailed(exc: PyException)               // {"error": str(e)}
    | SingleModelOnly                            // {"error": ...}: `models == "all"` refused
    | NoMatch(text: string)                      // {"message": ...}
    | CommitGroups(groups: Table<CommitInfo>)    // {model_name: [commit_info, ...], ...}
    | Records(items: seq<map<string, Value>>)    // [detail, ...]

  const NoMatchText: string := "未找到匹配数据"
  const NoDetailsText: string := "未找到匹配的模型详情数据"

  /** The loading errors the endpoints catch and answer with an error. */
  predicate Caught(e: PyException)
  {
    e.FileNotFound? || e.ValueError?
  }

  /** `item["raw"]["source"]`, used through `.get`: a record without a
      `source` (preprocessing read it as `{}`) raises KeyError here. */
  function SourceOf(item: Processed): (r: Result<map<string, Value>>)
    ensures r.Ok? <==> "source" in item.raw && item.raw["source"].Dict?
    ensures r.Ok? ==> r.value == item.raw["source"].fields
    ensures "source" !in item.raw ==> r == Raise(KeyError("source"))
  {
    if "source" !in item.raw then Raise(KeyError("source"))
    else match item.raw["source"]
      case Dict(fields) => Ok(fields)
      case _ => Raise(AttributeError)
  }

  /** One filtered record as a commit-list entry under its model name. */
  function CommitOf(item: Processed): Result<Keyed<CommitInfo>>
  {
    match SourceOf(item)
    case Raise(e) => Raise(e)
    case Ok(s) =>
      var info := CommitInfo(Get(s, "pr_branch", Str("unknown_branch")), Get(s, "device", Str("unknown_device")),
                             Get(s, "commit_id", Str("unknown_hash")), item.prTimestamp);
      match HashKey(item.modelName)
      case None => Raise(TypeError)
      case Some(k) => Ok(Keyed(k, item.modelName, info))
  }

  function CommitsKeyed(items: seq<Processed>): Result<seq<Keyed<CommitInfo>>>
  {
    if items == [] then Ok([])
    else match CommitsKeyed(items[..|items| - 1])
      case Raise(e) => Raise(e)
      case Ok(xs) =>
        match CommitOf(items[|items| - 1])
        case Raise(e) => Raise(e)
        case Ok(x) => Ok(xs + [x])
  }

  /** Each entry comes from the record at the same position: it is filed
      under that record's model name and carries its timestamp. */
  lemma {:induction false} CommitsKeyedSpec(items: seq<Processed>)
    ensures var r := CommitsKeyed(items);
      r.Ok? ==>
      && |r.value| == |items|
      && forall i :: 0 <= i < |items| ==>
           && CommitOf(items[i]) == Ok(r.value[i])
           && r.value[i].keyValue == items[i].modelName
           && Some(r.value[i].key) == HashKey(items[i].modelName)
           && r.value[i].item.time == items[i].prTimestamp
  {
    if items != [] {
      var front := items[..|items| - 1];
      CommitsKeyedSpec(front);
      assert forall i :: 0 <= i < |front| ==> front[i] == items[i];
    }
  }

  lemma CommitsKeyedStep(items: seq<Processed>, j: nat, xs: seq<Keyed<CommitInfo>>)
    requires j < |items| && CommitsKeyed(items[..j]) == Ok(xs)
    ensures CommitsKeyed(items[..j + 1]) ==
      match CommitOf(items[j])
      case Raise(e) => Raise(e)
      case Ok(x) => Ok(xs + [x])
  {
    assert items[..j + 1][..j] == items[..j];
  }

  lemma {:induction false} CommitsKeyedRaises(items: seq<Processed>, j: nat)
    requires j <= |items| && CommitsKeyed(items[..j]).Raise?
    ensures CommitsKeyed(items) == CommitsKeyed(items[..j])
    decreases |items| - j
  {
    if j < |items| {
      assert items[..j + 1][..j] == items[..j];
      CommitsKeyedRaises(items, j + 1);
    } else {
      assert items[..j] == items;
    }
  }

  /** `get_commits_list`. */
  function CommitsList(loaded: Result<seq<Processed>>, startTime: int, endTime: int, models: string,
                       engineVersion: int): Result<Reply>
  {
    match loaded
    case Raise(e) => if Caught(e) then Ok(LoadFailed(e)) else Raise(e)
    case Ok(data) =>
      var filtered := Filtered(data, startTime, endTime, models, engineVersion);
      if filtered == [] then Ok(NoMatch(NoMatchText))
      else match CommitsKeyed(filtered)
        case Raise(e) => Raise(e)
        case Ok(xs) => Ok(CommitGroups(GroupBy(xs)))
  }

  /** The commit lists: grouped by model in the order the models first
      appear, without removing repeats, so the lists add up to the number
      of matching records; no matching record gives the no-data message. */
  lemma CommitsListSpec(data: seq<Processed>, startTime: int, endTime: int, models: string, engineVersion: int)
    ensures var filtered := Filtered(data, startTime, endTime, models, engineVersion);
      filtered == [] <==> CommitsList(Ok(data), startTime, endTime, models, engineVersion) == Ok(NoMatch(NoMatchText))
    ensures var filtered := Filtered(data, startTime, endTime, models, engineVersion);
      var r := CommitsList(Ok(data), startTime, endTime, models, engineVersion);
      r.Ok? && r.value.CommitGroups? ==>
      && CommitsKeyed(filtered).Ok?
      && var t := r.value.groups;
         && t == GroupBy(CommitsKeyed(filtered).value)
         && Consistent(t)
         && t.order == FirstSeen(KeysOf(CommitsKeyed(filtered).value))
         && (forall k :: k in t.rows ==> t.rows[k] != [])
         && TotalSize(t.order, t.rows) == |filtered|
  {
    var filtered := Filtered(data, startTime, endTime, models, engineVersion);
    if filtered != [] && CommitsKeyed(filtered).Ok? {
      var xs := CommitsKeyed(filtered).value;
      CommitsKeyedSpec(filtered);
      GroupsNonEmpty(xs);
      GroupBySizes(xs);
    }
  }

  method GetCommitsList(loaded: Result<seq<Processed>>, startTime: int, endTime: int, models: string,
                        engineVersion: int) returns (r: Result<Reply>)
    ensures r == CommitsList(loaded, startTime, endTime, models, engineVersion)
  {
    if loaded.Raise? {
      if Caught(loaded.exc) {
        return Ok(LoadFailed(loaded.exc));
      }
      return Raise(loaded.exc);
    }
    var filteredData := FilterData(loaded.value, startTime, endTime, models, engineVersion);
    if filteredData == [] {
      return Ok(NoMatch(NoMatchText));
    }
    var result: Table<CommitInfo> := Table([], map[], map[]);
    ghost var xs: seq<Keyed<CommitInfo>> := [];
    var j := 0;
    while j < |filteredData|
      invariant 0 <= j <= |filteredData|
      invariant CommitsKeyed(filteredData[..j]) == Ok(xs)
      invariant result == GroupLoop(xs)
    {
      var item := filteredData[j];
      var modelName := item.modelName;
      CommitsKeyedStep(filteredData, j, xs);
      var source := SourceOf(item);
      if source.Raise? {
        CommitsKeyedRaises(filteredData, j + 1);
        return Raise(source.exc);
      }
      var s := source.value;
      var commitInfo := CommitInfo(Get(s, "pr_branch", Str("unknown_branch")), Get(s, "device", Str("unknown_device")),
                                   Get(s, "commit_id", Str("unknown_hash")), item.prTimestamp);
      var key := HashKey(modelName);
      if key.None? {
        CommitsKeyedRaises(filteredData, j + 1);
        return Raise(TypeError);
      }
      var x := Keyed(key.value, modelName, commitInfo);
      GroupLoopSnoc(xs, x);
      if key.value in result.rows {
        result := Table(result.order, result.keyValues, result.rows[key.value := result.rows[key.value] + [commitInfo]]);
      } else {
        result := Table(result.order + [key.value], result.keyValues[key.value := modelName], result.rows[key.value := [commitInfo]]);
      }
      xs := xs + [x];
      j := j + 1;
    }
    assert filteredData[..j] == filteredData;
    GroupLoopIsGroupBy(xs);
    return Ok(CommitGroups(result));
  }

  /** A compare detail: `{"ID": raw.get("ID", "unknown_id"), **raw.get("source", {})}`;
      a `source` that is not a mapping cannot be unpacked (TypeError). */
  function CompareDetail(item: Processed): (r: Result<map<string, Value>>)
  {
    match Get(item.raw, "source", Dict(map[]))
    case Dict(source) => Ok(map["ID" := Get(item.raw, "ID", Str("unknown_id"))] + source)
    case _ => Raise(TypeError)
  }

  /** Every source field is copied; `ID` is the record's ID (or
      `unknown_id`) unless the source has an `ID` of its own, which wins. */
  lemma CompareDetailSpec(item: Processed)
    requires CompareDetail(item).Ok?
    ensures var d, source := CompareDetail(item).value, Get(item.raw, "source", Dict(map[])).fields;
      && d.Keys == source.Keys + {"ID"}
      && (forall k :: k in source ==> d[k] == source[k])
      && ("ID" !in source ==> d["ID"] == Get(item.raw, "ID", Str("unknown_id")))
  {
  }

  function CompareDetails(items: seq<Processed>): Result<seq<map<string, Value>>>
  {
    if items == [] then Ok([])
    else match CompareDetails(items[..|items| - 1])
      case Raise(e) => Raise(e)
      case Ok(ds) =>
        match CompareDetail(items[|items| - 1])
        case Raise(e) => Raise(e)
        case Ok(d) => Ok(ds + [d])
  }

  lemma {:induction false} CompareDetailsSpec(items: seq<Processed>)
    ensures CompareDetails(items).Ok? <==> forall i :: 0 <= i < |items| ==> CompareDetail(items[i]).Ok?
    ensures CompareDetails(items).Ok? ==>
      |CompareDetails(items).value| == |items| &&
      forall i :: 0 <= i < |items| ==> CompareDetails(items).value[i] == CompareDetail(items[i]).value
  {
    if items != [] {
      var front := items[..|items| - 1];
      CompareDetailsSpec(front);
      assert forall i :: 0 <= i < |front| ==> front[i] == items[i];
    }
  }

  lemma {:induction false} CompareDetailsRaises(items: seq<Processed>, j: nat)
    requires j <= |items| && CompareDetails(items[..j]).Raise?
    ensures CompareDetails(items) == CompareDetails(items[..j])
    decreases |items| - j
  {
    if j < |items| {
      assert items[..j + 1][..j] == items[..j];
      CompareDetailsRaises(items, j + 1);
    } else {
      assert items[..j] == items;
    }
  }

  /** `get_model_detail_list`. */
  function ModelDetailList(models: string, loaded: Result<seq<Processed>>, startTime: int, endTime: int,
                           engineVersion: int): Result<Reply>
  {
    if models == "all" then Ok(SingleModelOnly)
    else match loaded
      case Raise(e) => if Caught(e) then Ok(LoadFailed(e)) else Raise(e)
      case Ok(data) =>
        var filtered := Filtered(data, startTime, endTime, models, engineVersion);
        if filtered == [] then Ok(NoMatch(NoMatchText))
        else match CompareDetails(filtered)
          case Raise(e) => Raise(e)
          case Ok(ds) => Ok(Records(ds))
  }

  method GetModelDetailList(models: string, loaded: Result<seq<Processed>>, startTime: int, endTime: int,
                            engineVersion: int) returns (r: Result<Reply>)
    ensures r == ModelDetailList(models, loaded, startTime, endTime, engineVersion)
  {
    if models == "all" {
      return Ok(SingleModelOnly);
    }
    if loaded.Raise? {
      if Caught(loaded.exc) {
        return Ok(LoadFailed(loaded.exc));
      }
      return Raise(loaded.exc);
    }
    var filteredData := FilterData(loaded.value, startTime, endTime, models, engineVersion);
    if filteredData == [] {
      return Ok(NoMatch(NoMatchText));
    }
    var result: seq<map<string, Value>> := [];
    var j := 0;
    while j < |filteredData|
      invariant 0 <= j <= |filteredData|
      invariant CompareDetails(filteredData[..j]) == Ok(result)
    {
      assert filteredData[..j + 1][..j] == filteredData[..j];
      var detail := CompareDetail(filteredData[j]);
      if detail.Raise? {
        CompareDetailsRaises(filteredData, j + 1);
        return Raise(detail.exc);
      }
      result := result + [detail.value];
      j := j + 1;
    }
    assert filteredData[..j] == filteredData;
    return Ok(Records(result));
  }

  /** `DETAILS_FIELD_MAPPING`: response field, source field, default. */
  const DetailsMapping: seq<(string, string, Value)> := [
    ("time", "pr_timestamp", Int(0)),
    ("model_name", "model_name", Str("unknown_model")),
    ("hash", "commit_id", Str("unknown_hash")),
    ("status", "status", Str("normal")),
    ("requests_per_second", "request_throughput", Float(0.0)),
    ("tokens_per_second", "total_token_throughput", Float(0.0)),
    ("qps", "request_throughput", Float(0.0)),
    ("mean_itl_ms", "avg_itl", Float(0.0)),
    ("mean_tpot_ms", "avg_tpot", Float(0.0)),
    ("mean_ttft_ms", "avg_ttft", Float(0.0)),
    ("p99_itl_ms", "p99_itl", Float(0.0)),
    ("p99_tpot_ms", "p99_tpot", Float(0.0)),
    ("p99_ttft_ms", "p99_ttft", Float(0.0)),
    ("request_throughput_serve_per_sec", "request_throughput", Float(0.0)),
    ("output_throughput_serve_per_sec", "output_token_throughput", Float(0.0)),
    ("total_token_throughput_per_sec", "total_token_throughput", Float(0.0)),
    ("latency", "avg_e2el", Float(0.0))]

  /** The value one mapping entry writes: `time` from the preprocessed
      record, the others from the source with the entry's default. */
  function EntryValue(entry: (string, string, Value), ts: int, source: map<string, Value>): Value
  {
    if entry.0 == "time" then Int(ts) else Get(source, entry.1, entry.2)
  }

  /** The detail after the entries `entries` are written, in order. */
  function Fill(entries: seq<(string, string, Value)>, ts: int, source: map<string, Value>): map<string, Value>
  {
    if entries == [] then map[]
    else
      var last := entries[|entries| - 1];
      Fill(entries[..|entries| - 1], ts, source)[last.0 := EntryValue(last, ts, source)]
  }

  /** No response field is written twice. */
  predicate DistinctFields(entries: seq<(string, string, Value)>)
  {
    forall i, j :: 0 <= i < j < |entries| ==> entries[i].0 != entries[j].0
  }

  /** The response fields of the mapping are distinct. */
  lemma DetailsFieldsDistinct()
    ensures DistinctFields(DetailsMapping)
  {
    var m := DetailsMapping;
    forall i, j | 0 <= i < j < |m| ensures m[i].0 != m[j].0 {
      if |m[i].0| == |m[j].0| {
        assert m[i].0[..] != m[j].0[..];
      }
    }
  }

  /** With distinct fields, the detail holds exactly the entries' response
      fields, each with its own entry's value. */
  lemma {:induction false} FillSpec(entries: seq<(string, string, Value)>, ts: int, source: map<string, Value>)
    requires DistinctFields(entries)
    ensures forall k :: k in Fill(entries, ts, source) <==> exists i :: 0 <= i < |entries| && entries[i].0 == k
    ensures forall i :: 0 <= i < |entries| ==> Fill(entries, ts, source)[entries[i].0] == EntryValue(entries[i], ts, source)
  {
    if entries != [] {
      var front, last := entries[..|entries| - 1], entries[|entries| - 1];
      assert forall i :: 0 <= i < |front| ==> front[i] == entries[i];
      assert DistinctFields(front);
      FillSpec(front, ts, source);
      var d, d0 := Fill(entries, ts, source), Fill(front, ts, source);
      assert d == d0[last.0 := EntryValue(last, ts, source)];
      forall i | 0 <= i < |front|
        ensures d[entries[i].0] == EntryValue(entries[i], ts, source)
      {
        assert entries[i].0 != last.0;
      }
    }
  }

  lemma FillStep(entries: seq<(string, string, Value)>, n: nat, ts: int, source: map<string, Value>)
    requires n < |entries|
    ensures Fill(entries[..n + 1], ts, source) == Fill(entries[..n], ts, source)[entries[n].0 := EntryValue(entries[n], ts, source)]
  {
    assert entries[..n + 1][..n] == entries[..n];
  }

  /** A details item has exactly the response fields of the mapping; its
      `time` (the first field) is the preprocessed timestamp and every other field is the
      source's value, or the mapping's default when the source lacks it. */
  lemma DetailShape(ts: int, source: map<string, Value>)
    ensures var d := Fill(DetailsMapping, ts, source);
      && (forall k :: k in d <==> exists i :: 0 <= i < |DetailsMapping| && DetailsMapping[i].0 == k)
      && d[DetailsMapping[0].0] == Int(ts)
      && (forall i :: 1 <= i < |DetailsMapping| ==>
            var (field, from, default) := DetailsMapping[i];
            d[field] == if from in source then source[from] else default)
  {
    DetailsFieldsDistinct();
    FillSpec(DetailsMapping, ts, source);
    assert DetailsMapping[0].0 == "time";
  }

  /** The inner loop of `get_model_details_list`: one details item. */
  method FillDetail(ts: int, source: map<string, Value>) returns (detailItem: map<string, Value>)
    ensures detailItem == Fill(DetailsMapping, ts, source)
  {
    detailItem := map[];
    var n := 0;
    while n < |DetailsMapping|
      invariant 0 <= n <= |DetailsMapping|
      invariant detailItem == Fill(DetailsMapping[..n], ts, source)
    {
      FillStep(DetailsMapping, n, ts, source);
      var (respField, rawField, defaultVal) := DetailsMapping[n];
      if respField == "time" {
        detailItem := detailItem[respField := Int(ts)];
      } else {
        detailItem := detailItem[respField := Get(source, rawField, defaultVal)];
      }
      n := n + 1;
    }
    assert DetailsMapping[..n] == DetailsMapping;
  }

  function DetailRows(items: seq<Processed>): Result<seq<map<string, Value>>>
  {
    if items == [] then Ok([])
    else match DetailRows(items[..|items| - 1])
      case Raise(e) => Raise(e)
      case Ok(ds) =>
        var item := items[|items| - 1];
        match SourceOf(item)
        case Raise(e) => Raise(e)
        case Ok(s) => Ok(ds + [Fill(DetailsMapping, item.prTimestamp, s)])
  }

  /** One details item per record, in order, each from its record's source. */
  lemma {:induction false} DetailRowsSpec(items: seq<Processed>)
    ensures DetailRows(items).Ok? <==> forall i :: 0 <= i < |items| ==> SourceOf(items[i]).Ok?
    ensures DetailRows(items).Ok? ==>
      |DetailRows(items).value| == |items| &&
      forall i :: 0 <= i < |items| ==>
        DetailRows(items).value[i] == Fill(DetailsMapping, items[i].prTimestamp, SourceOf(items[i]).value)
  {
    if items != [] {
      var front := items[..|items| - 1];
      DetailRowsSpec(front);
      assert forall i :: 0 <= i < |front| ==> front[i] == items[i];
    }
  }

  lemma {:induction false} DetailRowsRaises(items: seq<Processed>, j: nat)
    requires j <= |items| && DetailRows(items[..j]).Raise?
    ensures DetailRows(items) == DetailRows(items[..j])
    decreases |items| - j
  {
    if j < |items| {
      assert items[..j + 1][..j] == items[..j];
      DetailRowsRaises(items, j + 1);
    } else {
      assert items[..j] == items;
    }
  }

  /** `get_model_details_list`. */
  function ModelDetailsList(models: string, loaded: Result<seq<Processed>>, startTime: int, endTime: int,
                            engineVersion: int): Result<Reply>
  {
    if models == "all" then Ok(SingleModelOnly)
    else match loaded
      case Raise(e) => if Caught(e) then Ok(LoadFailed(e)) else Raise(e)
      case Ok(data) =>
        var filtered := Filtered(data, startTime, endTime, models, engineVersion);
        if filtered == [] then Ok(NoMatch(NoDetailsText))
        else match DetailRows(filtered)
          case Raise(e) => Raise(e)
          case Ok(ds) => Ok(Records(ds))
  }

  method GetModelDetailsList(models: string, loaded: Result<seq<Processed>>, startTime: int, endTime: int,
                             engineVersion: int) returns (r: Result<Reply>)
    ensures r == ModelDetailsList(models, loaded, startTime, endTime, engineVersion)
  {
    if models == "all" {
      return Ok(SingleModelOnly);
    }
    if loaded.Raise? {
      if Caught(loaded.exc) {
        return Ok(LoadFailed(loaded.exc));
      }
      return Raise(loaded.exc);
    }
    var filteredData := FilterData(loaded.value, startTime, endTime, models, engineVersion);
    if filteredData == [] {
      return Ok(NoMatch(NoDetailsText));
    }
    var result: seq<map<string, Value>> := [];
    var j := 0;
    while j < |filteredData|
      invariant 0 <= j <= |filteredData|
      invariant DetailRows(filteredData[..j]) == Ok(result)
    {
      assert filteredData[..j + 1][..j] == filteredData[..j];
      var item := filteredData[j];
      var source := SourceOf(item);
      if source.Raise? {
        DetailRowsRaises(filteredData, j + 1);
        return Raise(source.exc);
      }
      var detailItem := FillDetail(item.prTimestamp, source.value);
      result := result + [detailItem];
      j := j + 1;
    }
    assert filteredData[..j] == filteredData;
    return Ok(Records(result));
  }

  /** Both detail endpoints refuse `models == "all"` before loading, and
      every record they answer with matched the filter for that model. */
  lemma DetailEndpointsSingleModel(loaded: Result<seq<Processed>>, startTime: int, endTime: int, models: string,
                                   engineVersion: int)
    ensures models == "all" ==> ModelDetailList(models, loaded, startTime, endTime, engineVersion) == Ok(SingleModelOnly)
    ensures models == "all" ==> ModelDetailsList(models, loaded, startTime, endTime, engineVersion) == Ok(SingleModelOnly)
    ensures loaded.Ok? && models != "all" ==>
      forall x :: x in Filtered(loaded.value, startTime, endTime, models, engineVersion) ==> x.modelName == Str(models)
  {
    if loaded.Ok? {
      FilteredSpec(loaded.value, startTime, endTime, models, engineVersion);
    }
  }
}
