/** The older ingestion script at the repository root (data_processor.py):
    it reads a PR record whose date is `YYYYMMDD` and whose time is the
    tail of a `YYYYMMDDHHMMSS` stamp, merges the CSV and JSON metrics,
    names the CSV latency keys, checks which of a model's three input
    files exist and builds the `{"ID", "source"}` document. Reading files
    is replaced by the values read; whether a path exists is a parameter. */
module Legacy {

  import opened Wrappers
  import opened Text
  import opened PyValues
  import opened Calendar
  import opened Strptime
  import opened Seqs
  import Ingest

  // ---------------------------------------------------------------------
  // merge_metrics
  // ---------------------------------------------------------------------

  /** `{**csv_metrics, **json_metrics}`. */
  function MergeMetrics(csvMetrics: map<string, Value>, jsonMetrics: map<string, Value>): (r: map<string, Value>)
    ensures forall k :: k in r <==> k in csvMetrics || k in jsonMetrics
  {
    csvMetrics + jsonMetrics
  }

  /** A plain union: every key of either side, the JSON value on a
      collision, the CSV value otherwise. */
  lemma MergeMetricsSpec(csvMetrics: map<string, Value>, jsonMetrics: map<string, Value>)
    ensures MergeMetrics(csvMetrics, jsonMetrics).Keys == csvMetrics.Keys + jsonMetrics.Keys
    ensures forall k :: k in jsonMetrics ==> MergeMetrics(csvMetrics, jsonMetrics)[k] == jsonMetrics[k]
    ensures forall k :: k in csvMetrics && k !in jsonMetrics ==> MergeMetrics(csvMetrics, jsonMetrics)[k] == csvMetrics[k]
  {
  }

  // ---------------------------------------------------------------------
  // parse_pr_json
  // ---------------------------------------------------------------------

  const RequiredPrFields: seq<string> := ["pr_id", "commit_id", "pr_date"]

  /** `[f for f in names if f not in pr_data]`; the `in` test raises
      TypeError on a document that is no container. */
  function MissingOf(prData: Value, names: seq<string>): Result<seq<string>>
  {
    if names == [] then Ok([])
    else match MissingOf(prData, names[..|names| - 1])
      case Raise(e) => Raise(e)
      case Ok(front) =>
        match Contains(prData, names[|names| - 1])
        case Raise(e) => Raise(e)
        case Ok(found) => Ok(front + if found then [] else [names[|names| - 1]])
  }

  /** On a dictionary the missing names are the names that are not keys,
      in the order given. */
  lemma {:induction false} MissingOfDict(prData: map<string, Value>, names: seq<string>)
    ensures MissingOf(Dict(prData), names) == Ok(Ingest.Lacking(names, prData))
  {
    if names != [] {
      MissingOfDict(prData, names[..|names| - 1]);
    }
  }

  /** `datetime.strptime(v, "%Y%m%d").strftime("%Y-%m-%d")`. */
  function PrDate(v: Value): (r: Result<string>)
    ensures r.Ok? <==> v.Str? && Parse(v.s, CompactDate).Some?
    ensures r.Raise? ==> r.exc == TypeError || r.exc.ValueError?
  {
    if !v.Str? then Raise(TypeError)
    else match Parse(v.s, CompactDate)
      case None => Raise(ValueError("pr_date must be YYYYMMDD", [v.s]))
      case Some(dt) => Ok(Render(DashedDate, dt))
  }

  /** `s[-6:]`. */
  function LastSix(s: string): (r: string)
    ensures |r| == if |s| < 6 then |s| else 6
    ensures s == s[..|s| - |r|] + r
  {
    if |s| <= 6 then s else s[|s| - 6..]
  }

  /** `pr_time`: None when the field is absent or falsy; otherwise its last
      six characters read as `%H%M%S` and written `%H:%M:%S`. A value that
      is no string cannot be sliced and parsed (TypeError). */
  function PrTime(prData: map<string, Value>): (r: Result<Option<string>>)
    ensures r == Ok(None) <==> "pr_time" !in prData || !Truthy(prData["pr_time"])
    ensures r.Raise? ==> r.exc == TypeError || r.exc.ValueError?
  {
    if "pr_time" !in prData || !Truthy(prData["pr_time"]) then Ok(None)
    else match prData["pr_time"]
      case Str(s) =>
        (match Parse(LastSix(s), CompactTime)
         case None => Raise(ValueError("pr_time must be YYYYMMDDHHMMSS", [s]))
         case Some(dt) => Ok(Some(Render(ColonTime, dt))))
      case _ => Raise(TypeError)
  }

  /** What the validation of a PR record yields: the record, its reformatted
      date and its optional reformatted time. */
  datatype CheckedPr = CheckedPr(fields: map<string, Value>, prDate: string, prTime: Option<string>)

  /** The checks of `parse_pr_json` before the PRInfo is built: the three
      required fields, then the date, then the time. */
  function CheckPr(prData: Value): (r: Result<CheckedPr>)
    ensures r.Ok? ==> prData.Dict? && r.value.fields == prData.fields && "pr_date" in prData.fields
    ensures r.Ok? ==> PrDate(prData.fields["pr_date"]) == Ok(r.value.prDate) && PrTime(prData.fields) == Ok(r.value.prTime)
  {
    match MissingOf(prData, RequiredPrFields)
    case Raise(e) => Raise(e)
    case Ok(missing) =>
      if missing != [] then Raise(ValueError("PR JSON lacks required fields", missing))
      else match Subscript(prData, "pr_date")
        case Raise(e) => Raise(e)
        case Ok(d) =>
          match PrDate(d)
          case Raise(e) => Raise(e)
          case Ok(date) =>
            match PrTime(prData.fields)
            case Raise(e) => Raise(e)
            case Ok(time) => Ok(CheckedPr(prData.fields, date, time))
  }

  /** The PRInfo record of data_models.py at the repository root. */
  datatype PrInfo = PrInfo(prId: Value, commitId: Value, prDate: string, prTime: Option<string>,
                           prBranch: Option<string>, prAuthor: Value, prAuthorEmail: Option<string>,
                           prBody: Option<string>)

  /** `parse_pr_json` as written: the PRInfo call names no `commit_id`, a
      field without a default, so every record that passes the checks ends
      in TypeError. */
  function ParsePrJsonAsWritten(prData: Value): (r: Result<(PrInfo, Value)>)
    ensures r.Raise?
  {
    match CheckPr(prData)
    case Raise(e) => Raise(e)
    case Ok(_) => Raise(TypeError)
  }

  /** `parse_pr_json` with `commit_id=pr_data["commit_id"]` passed to
      PRInfo, as the returned pair and the record type evidently intend. */
  function ParsePrJson(prData: Value): (r: Result<(PrInfo, Value)>)
    ensures r.Ok? ==> CheckPr(prData).Ok? && r.value.0.commitId == r.value.1
    ensures CheckPr(prData).Raise? ==> r == Raise(CheckPr(prData).exc)
  {
    match CheckPr(prData)
    case Raise(e) => Raise(e)
    case Ok(pr) =>
      match Subscript(prData, "pr_id")
      case Raise(e) => Raise(e)
      case Ok(prId) =>
        match Subscript(prData, "commit_id")
        case Raise(e) => Raise(e)
        case Ok(commitId) =>
          Ok((PrInfo(prId, commitId, pr.prDate, pr.prTime, None, Get(pr.fields, "pr_subcommiter", Nil), None, None),
              commitId))
  }

  /** The record as written never returns, whatever the input. */
  lemma ParsePrJsonAsWrittenRaises(prData: Value)
    ensures ParsePrJsonAsWritten(prData).Raise?
    ensures CheckPr(prData).Ok? ==> ParsePrJsonAsWritten(prData) == Raise(TypeError)
  {
  }

  /** A well-formed record shows the difference: as written it raises
      TypeError, corrected it returns the record's own id and date. */
  lemma ParsePrJsonAsWrittenRejectsValid(fields: map<string, Value>, dt: DateTime)
    requires Valid(dt)
    requires "pr_id" in fields && "commit_id" in fields && "pr_time" !in fields
    requires "pr_date" in fields && fields["pr_date"] == Str(Render(CompactDate, dt))
    ensures ParsePrJsonAsWritten(Dict(fields)) == Raise(TypeError)
    ensures ParsePrJson(Dict(fields)).Ok?
    ensures ParsePrJson(Dict(fields)).value.1 == fields["commit_id"]
    ensures ParsePrJson(Dict(fields)).value.0.prId == fields["pr_id"]
    ensures ParsePrJson(Dict(fields)).value.0.prDate == Render(DashedDate, DateOf(dt))
  {
    var prData := Dict(fields);
    assert RequiredPrFields[0] in fields && RequiredPrFields[1] in fields && RequiredPrFields[2] in fields;
    RequiredPresent(fields);
    PrDateRoundTrip(dt);
    assert PrTime(fields) == Ok(None);
    assert CheckPr(prData).Ok?;
  }

  lemma RequiredPresent(fields: map<string, Value>)
    requires forall i :: 0 <= i < |RequiredPrFields| ==> RequiredPrFields[i] in fields
    ensures MissingOf(Dict(fields), RequiredPrFields) == Ok([])
  {
    MissingOfDict(fields, RequiredPrFields);
    Ingest.LackingMembers(RequiredPrFields, fields);
  }

  /** A record lacking required fields raises ValueError naming exactly the
      lacking ones, in the order pr_id, commit_id, pr_date. */
  lemma ParsePrJsonMissing(prData: map<string, Value>)
    requires Ingest.Lacking(RequiredPrFields, prData) != []
    ensures ParsePrJson(Dict(prData)) == Raise(ValueError("PR JSON lacks required fields", Ingest.Lacking(RequiredPrFields, prData)))
    ensures forall f :: f in Ingest.Lacking(RequiredPrFields, prData) <==> f in RequiredPrFields && f !in prData
  {
    MissingOfDict(prData, RequiredPrFields);
    Ingest.LackingMembers(RequiredPrFields, prData);
  }

  /** What the corrected function returns: the raw `commit_id` twice (in
      the record and beside it), the raw `pr_id`, the checked date and
      time, and the submitter as author; it succeeds exactly when the checks
      pass. */
  lemma ParsePrJsonResult(prData: Value)
    ensures ParsePrJson(prData).Ok? <==> CheckPr(prData).Ok?
    ensures ParsePrJson(prData).Ok? ==>
      var (info, commitId) := ParsePrJson(prData).value;
      var pr := CheckPr(prData).value;
      && prData.Dict?
      && (forall i :: 0 <= i < |RequiredPrFields| ==> RequiredPrFields[i] in prData.fields)
      && commitId == prData.fields[RequiredPrFields[1]] && info.commitId == commitId
      && info.prId == prData.fields[RequiredPrFields[0]]
      && info.prDate == pr.prDate && info.prTime == pr.prTime
      && info.prAuthor == Get(prData.fields, "pr_subcommiter", Nil)
  {
    if CheckPr(prData).Ok? {
      var missing := MissingOf(prData, RequiredPrFields);
      assert prData.Dict?;
      MissingOfDict(prData.fields, RequiredPrFields);
      Ingest.LackingMembers(RequiredPrFields, prData.fields);
      assert forall i :: 0 <= i < |RequiredPrFields| ==> RequiredPrFields[i] !in Ingest.Lacking(RequiredPrFields, prData.fields);
      assert RequiredPrFields[0] in prData.fields && RequiredPrFields[1] in prData.fields;
    }
  }

  /** A `YYYYMMDD` date is written `YYYY-MM-DD` for the same day, and
      that text reads back as the same day. */
  lemma PrDateRoundTrip(dt: DateTime)
    requires Valid(dt)
    ensures PrDate(Str(Render(CompactDate, dt))) == Ok(Render(DashedDate, DateOf(dt)))
    ensures Parse(Render(DashedDate, DateOf(dt)), DashedDate) == Some(DateOf(dt))
  {
    CompactDateParse(dt);
    DashedDateParse(DateOf(dt));
  }

  lemma CompactDateParse(dt: DateTime)
    requires Valid(dt)
    ensures Parse(Render(CompactDate, dt), CompactDate) == Some(DateOf(dt))
  {
    IsoWellFormed();
    assert Filled(CompactDate, dt) == DateOf(dt) by {
      assert CompactDate[0] == Field(Year) && CompactDate[1] == Field(Month) && CompactDate[2] == Field(Day);
    }
    ParseRender(CompactDate, dt);
  }

  lemma DashedDateParse(dt: DateTime)
    requires Valid(dt) && dt == DateOf(dt)
    ensures Parse(Render(DashedDate, dt), DashedDate) == Some(dt)
  {
    IsoWellFormed();
    assert Filled(DashedDate, dt) == dt by {
      assert DashedDate[0] == Field(Year) && DashedDate[2] == Field(Month) && DashedDate[4] == Field(Day);
    }
    ParseRender(DashedDate, dt);
  }

  /** The day of `dt` at midnight, what a `%Y%m%d` parse yields. */
  function DateOf(dt: DateTime): DateTime
  {
    DateTime(dt.year, dt.month, dt.day, 0, 0, 0)
  }

  /** The time of `dt` on 1900-01-01, what a `%H%M%S` parse yields. */
  function TimeOf(dt: DateTime): DateTime
  {
    DateTime(1900, 1, 1, dt.hour, dt.minute, dt.second)
  }

  /** Any first part followed by `HHMMSS` gives `HH:MM:SS`. */
  lemma PrTimeRoundTrip(prData: map<string, Value>, stamp: string, dt: DateTime)
    requires Valid(dt) && "pr_time" in prData && prData["pr_time"] == Str(stamp + Render(CompactTime, dt))
    ensures PrTime(prData) == Ok(Some(Render(ColonTime, TimeOf(dt))))
  {
    var hms := Render(CompactTime, dt);
    CompactTimeWidth(dt);
    var s := stamp + hms;
    assert LastSix(s) == hms by {
      assert s[|s| - 6..] == hms;
    }
    IsoWellFormed();
    assert Filled(CompactTime, dt) == TimeOf(dt) by {
      assert CompactTime[0] == Field(Hour) && CompactTime[1] == Field(Minute) && CompactTime[2] == Field(Second);
    }
    ParseRender(CompactTime, dt);
    assert ColonTime[0] == Field(Hour) && ColonTime[2] == Field(Minute) && ColonTime[4] == Field(Second);
    ColonTimeSame(dt, TimeOf(dt));
  }

  lemma CompactTimeWidth(dt: DateTime)
    requires Renderable(dt)
    ensures |Render(CompactTime, dt)| == 6
  {
    assert CompactTime == [Field(Hour)] + [Field(Minute)] + [Field(Second)];
    RenderAppend([Field(Hour)] + [Field(Minute)], [Field(Second)], dt);
    RenderAppend([Field(Hour)], [Field(Minute)], dt);
  }

  lemma ColonTimeSame(a: DateTime, b: DateTime)
    requires Renderable(a) && Renderable(b) && a.hour == b.hour && a.minute == b.minute && a.second == b.second
    ensures Render(ColonTime, a) == Render(ColonTime, b)
  {
    ColonText(a);
    ColonText(b);
  }

  lemma ColonText(dt: DateTime)
    requires Renderable(dt)
    ensures Render(ColonTime, dt) == Two(dt.hour) + ":" + Two(dt.minute) + ":" + Two(dt.second)
  {
    assert ColonTime == [Field(Hour), Literal(':')] + [Field(Minute), Literal(':')] + [Field(Second)];
    RenderAppend([Field(Hour), Literal(':')] + [Field(Minute), Literal(':')], [Field(Second)], dt);
    RenderAppend([Field(Hour), Literal(':')], [Field(Minute), Literal(':')], dt);
  }

  /** Without a truthy `pr_time` the record has no time. */
  lemma PrTimeAbsent(prData: map<string, Value>)
    requires "pr_time" !in prData || !Truthy(prData["pr_time"])
    ensures PrTime(prData) == Ok(None)
  {
  }

  /** Only digits (and, for the day, a space) can make up a `YYYYMMDD`
      date; a text with any other character raises ValueError. */
  lemma PrDateRejects(s: string, k: nat)
    requires k < |s| && !IsDigit(s[k]) && s[k] != ' '
    ensures PrDate(Str(s)).Raise? && PrDate(Str(s)).exc.ValueError?
  {
    if Parse(s, CompactDate).Some? {
      ParsedChars(s, CompactDate);
    }
  }

  // ---------------------------------------------------------------------
  // create_metrics_data: the identifier and the source
  // ---------------------------------------------------------------------

  /** `f"{v}"`: a string stands for itself; the text of any other value is
      Python's `str()`, given as `show`. */
  function Formatted(v: Value, show: Value -> string): string
  {
    if v.Str? then v.s else show(v)
  }

  /** `f"{commit_id}_{model_name}"`. */
  function CompositeId(commitId: Value, modelName: string, show: Value -> string): (id: string)
    ensures commitId.Str? ==> id == commitId.s + "_" + modelName
  {
    Formatted(commitId, show) + "_" + modelName
  }

  /** `asdict(pr_info)`. */
  function PrInfoDict(info: PrInfo): map<string, Value>
  {
    map["pr_id" := info.prId, "commit_id" := info.commitId, "pr_date" := Str(info.prDate),
        "pr_time" := OptionalText(info.prTime), "pr_branch" := OptionalText(info.prBranch),
        "pr_author" := info.prAuthor, "pr_author_email" := OptionalText(info.prAuthorEmail),
        "pr_body" := OptionalText(info.prBody)]
  }

  function OptionalText(t: Option<string>): Value
  {
    match t
    case None => Nil
    case Some(s) => Str(s)
  }

  /** `create_metrics_data` over the corrected PR parse, with the CSV and
      JSON metrics (or the error reading them) as inputs; the three are read
      in the order PR, CSV, JSON. */
  function CreateMetricsData(prData: Value, csvMetrics: Result<map<string, Value>>, jsonMetrics: Result<map<string, Value>>,
                             modelName: string, show: Value -> string): (r: Result<Value>)
    ensures r.Ok? ==> ParsePrJson(prData).Ok? && r.value.Dict? && r.value.fields.Keys == {"ID", "source"}
  {
    match ParsePrJson(prData)
    case Raise(e) => Raise(e)
    case Ok((info, commitId)) =>
      match csvMetrics
      case Raise(e) => Raise(e)
      case Ok(csv) =>
        match jsonMetrics
        case Raise(e) => Raise(e)
        case Ok(json) =>
          Ok(Dict(map["ID" := Str(CompositeId(commitId, modelName, show)),
                      "source" := Dict(PrInfoDict(info) + MergeMetrics(csv, json))]))
  }

  /** The document's ID is the raw `commit_id`, `_` and the model name; its
      source holds the PR fields and the metrics, a metric overriding a PR
      field of the same name. */
  lemma CreateMetricsDataShape(prData: Value, csvMetrics: Result<map<string, Value>>,
                               jsonMetrics: Result<map<string, Value>>, modelName: string, show: Value -> string)
    requires CreateMetricsData(prData, csvMetrics, jsonMetrics, modelName, show).Ok?
    ensures ParsePrJson(prData).Ok? && csvMetrics.Ok? && jsonMetrics.Ok?
    ensures var d := CreateMetricsData(prData, csvMetrics, jsonMetrics, modelName, show).value;
      var (info, commitId) := ParsePrJson(prData).value;
      var metrics := MergeMetrics(csvMetrics.value, jsonMetrics.value);
      && d.Dict? && d.fields.Keys == {"ID", "source"}
      && d.fields["ID"] == Str(CompositeId(commitId, modelName, show))
      && d.fields["source"].Dict?
      && d.fields["source"].fields.Keys == PrInfoDict(info).Keys + metrics.Keys
      && (forall k :: k in metrics ==> d.fields["source"].fields[k] == metrics[k])
      && (forall k :: k in PrInfoDict(info) && k !in metrics ==> d.fields["source"].fields[k] == PrInfoDict(info)[k])
  {
  }

  /** The first input that fails decides the error. */
  lemma CreateMetricsDataErrors(prData: Value, csvMetrics: Result<map<string, Value>>,
                                jsonMetrics: Result<map<string, Value>>, modelName: string, show: Value -> string)
    ensures var r := CreateMetricsData(prData, csvMetrics, jsonMetrics, modelName, show);
      && (ParsePrJson(prData).Raise? ==> r == Raise(ParsePrJson(prData).exc))
      && (ParsePrJson(prData).Ok? && csvMetrics.Raise? ==> r == Raise(csvMetrics.exc))
      && (ParsePrJson(prData).Ok? && csvMetrics.Ok? && jsonMetrics.Raise? ==> r == Raise(jsonMetrics.exc))
  {
  }

  // ---------------------------------------------------------------------
  // check_model_files
  // ---------------------------------------------------------------------

  /** `os.path.join(a, b)`: an absolute `b` replaces `a`; a separator is
      added unless `a` is empty or already ends in one. */
  function PathJoin(a: string, b: string): (r: string)
    ensures |b| <= |r| && r[|r| - |b|..] == b
    ensures !(|b| > 0 && b[0] == '/') ==> a <= r
  {
    if |b| > 0 && b[0] == '/' then b
    else if a == "" || a[|a| - 1] == '/' then a + b
    else a + "/" + b
  }

  /** `os.path.join(*parts)`. */
  function JoinAll(parts: seq<string>): string
    requires parts != []
  {
    if |parts| == 1 then parts[0] else PathJoin(JoinAll(parts[..|parts| - 1]), parts[|parts| - 1])
  }

  /** The keys of `file_paths`, in insertion order. */
  const FileKinds: seq<string> := ["csv_path", "metrics_json_path", "pr_json_path"]

  /** `file_paths.items()`: the CSV and metrics JSON of the model, and the
      PR record shared by every model of the commit. */
  function ModelFilePaths(rootDir: string, dateText: string, commitId: string, modelName: string): seq<(string, string)>
  {
    [(FileKinds[0], JoinAll([rootDir, dateText, commitId, modelName, "gsm8kdataset.csv"])),
     (FileKinds[1], JoinAll([rootDir, dateText, commitId, modelName, "gsm8kdataset.json"])),
     (FileKinds[2], JoinAll([rootDir, dateText, commitId, "pr.json"]))]
  }

  /** `f"{file_type.replace('_path', '')}：{file_path}"`. */
  function MissingEntry(fileType: string, filePath: string): string
  {
    RemoveAll(fileType, "_path") + "：" + filePath
  }

  /** The entries for the paths that do not exist, in order. */
  function MissingEntries(items: seq<(string, string)>, present: string -> bool): seq<string>
  {
    if items == [] then []
    else
      var (fileType, filePath) := items[|items| - 1];
      MissingEntries(items[..|items| - 1], present) + (if !present(filePath) then [MissingEntry(fileType, filePath)] else [])
  }

  /** The entry each path would get if it were missing. */
  function AllEntries(items: seq<(string, string)>): (r: seq<string>)
    ensures |r| == |items| && forall i :: 0 <= i < |items| ==> r[i] == MissingEntry(items[i].0, items[i].1)
  {
    seq(|items|, i requires 0 <= i < |items| => MissingEntry(items[i].0, items[i].1))
  }

  /** The entries list the missing paths, in order, and nothing else: one
      entry for each path that does not exist. */
  lemma MissingEntriesSpec(items: seq<(string, string)>, present: string -> bool)
    ensures var m := MissingEntries(items, present);
      && IsSubseq(m, AllEntries(items))
      && |m| <= |items|
      && (m == [] <==> forall i :: 0 <= i < |items| ==> present(items[i].1))
      && (forall i :: 0 <= i < |items| && !present(items[i].1) ==> MissingEntry(items[i].0, items[i].1) in m)
      && (forall e :: e in m ==> exists i :: 0 <= i < |items| && !present(items[i].1) && e == MissingEntry(items[i].0, items[i].1))
  {
    MissingEntriesSubseq(items, present);
    MissingEntriesMembers(items, present);
  }

  lemma {:induction false} MissingEntriesSubseq(items: seq<(string, string)>, present: string -> bool)
    ensures IsSubseq(MissingEntries(items, present), AllEntries(items))
    ensures |MissingEntries(items, present)| <= |items|
  {
    if items != [] {
      var front, last := items[..|items| - 1], items[|items| - 1];
      var e := MissingEntry(last.0, last.1);
      var mf, af := MissingEntries(front, present), AllEntries(front);
      MissingEntriesSubseq(front, present);
      assert AllEntries(items) == af + [e];
      if !present(last.1) {
        assert MissingEntries(items, present) == mf + [e];
        SubseqSnoc(mf, af, e);
      } else {
        assert MissingEntries(items, present) == mf;
        SubseqExtend(mf, af, e);
      }
    }
  }

  lemma {:induction false} MissingEntriesMembers(items: seq<(string, string)>, present: string -> bool)
    ensures var m := MissingEntries(items, present);
      && (m == [] <==> forall i :: 0 <= i < |items| ==> present(items[i].1))
      && (forall i :: 0 <= i < |items| && !present(items[i].1) ==> MissingEntry(items[i].0, items[i].1) in m)
      && (forall e :: e in m ==> exists i :: 0 <= i < |items| && !present(items[i].1) && e == MissingEntry(items[i].0, items[i].1))
  {
    if items != [] {
      var front, last := items[..|items| - 1], items[|items| - 1];
      var e := MissingEntry(last.0, last.1);
      var mf := MissingEntries(front, present);
      MissingEntriesMembers(front, present);
      assert forall i :: 0 <= i < |front| ==> front[i] == items[i];
      var m := MissingEntries(items, present);
      if !present(last.1) {
        assert m == mf + [e];
        forall x | x in m
          ensures exists i :: 0 <= i < |items| && !present(items[i].1) && x == MissingEntry(items[i].0, items[i].1)
        {
          if x != e {
            assert x in mf;
          } else {
            assert items[|items| - 1] == last;
          }
        }
      } else {
        assert m == mf;
      }
    }
  }

  /** The labels of the missing-file entries. */
  const FileLabels: seq<string> := ["csv", "metrics_json", "pr_json"]

  /** The labels are the kinds without `_path`. */
  lemma FileLabel(i: nat)
    requires i < |FileKinds|
    ensures RemoveAll(FileKinds[i], "_path") == FileLabels[i]
  {
    assert FileLabels[i] + "_path" == FileKinds[i];
    NoPathSuffixInside(FileLabels[i]);
  }

  /** A name in which no `_` is followed by `p` loses exactly the trailing
      `_path`. */
  lemma NoPathSuffixInside(t: string)
    requires forall i :: 0 <= i < |t| && t[i] == '_' ==> i + 1 < |t| && t[i + 1] != 'p'
    ensures RemoveAll(t + "_path", "_path") == t
  {
    var w := "_path";
    assert w[0] == '_' && w[1] == 'p';
    NoOccurrenceInside(t, w);
    RemoveAllTrailing(t, w);
  }

  /** No occurrence of `w` starts inside `t` in `t + w` when the first two
      characters of `w` never follow each other in `t`. */
  lemma NoOccurrenceInside(t: string, w: string)
    requires |w| >= 2
    requires forall i :: 0 <= i < |t| && t[i] == w[0] ==> i + 1 < |t| && t[i + 1] != w[1]
    ensures forall i :: 0 <= i < |t| ==> !InfixAt(w, t + w, i)
  {
    forall i | 0 <= i < |t|
      ensures !InfixAt(w, t + w, i)
    {
      assert (t + w)[i] == t[i];
      if i + 1 < |t| {
        assert (t + w)[i + 1] == t[i + 1];
      }
    }
  }

  /** `check_model_files`: whether all three files exist, the entries for
      the missing ones, and the paths. */
  method CheckModelFiles(rootDir: string, dateText: string, commitId: string, modelName: string, present: string -> bool)
    returns (isValid: bool, missingFiles: seq<string>, filePaths: seq<(string, string)>)
    ensures filePaths == ModelFilePaths(rootDir, dateText, commitId, modelName)
    ensures missingFiles == MissingEntries(filePaths, present)
    ensures isValid <==> forall i :: 0 <= i < |filePaths| ==> present(filePaths[i].1)
  {
    filePaths := ModelFilePaths(rootDir, dateText, commitId, modelName);
    missingFiles := [];
    var j := 0;
    while j < |filePaths|
      invariant 0 <= j <= |filePaths|
      invariant missingFiles == MissingEntries(filePaths[..j], present)
    {
      MissingEntriesStep(filePaths, j, present);
      var (fileType, filePath) := filePaths[j];
      if !present(filePath) {
        missingFiles := missingFiles + [MissingEntry(fileType, filePath)];
      }
      j := j + 1;
    }
    assert filePaths[..j] == filePaths;
    MissingEntriesMembers(filePaths, present);
    isValid := |missingFiles| == 0;
  }

  lemma MissingEntriesStep(items: seq<(string, string)>, j: nat, present: string -> bool)
    requires j < |items|
    ensures MissingEntries(items[..j + 1], present) ==
      MissingEntries(items[..j], present) + (if !present(items[j].1) then [MissingEntry(items[j].0, items[j].1)] else [])
  {
    assert items[..j + 1][..j] == items[..j];
  }

  // ---------------------------------------------------------------------
  // parse_csv_metrics: the key naming
  // ---------------------------------------------------------------------

  /** One CSV row: its stage, its `Performance Parameters` and its
      `Average` and `P99` cells. */
  datatype CsvRow = CsvRow(stage: string, param: string, average: string, p99: string)

  const LatencyParams: seq<string> := ["E2EL", "TTFT", "TPOT", "ITL"]
  const OutputThroughputParam: string := "OutputTokenThroughput"
  const OutputThroughputKey: string := "output_token_throughput"

  /** `s.lower()` for ASCII text. */
  function LowerText(s: string): (r: string)
    ensures |r| == |s|
  {
    seq(|s|, i requires 0 <= i < |s| => Lower(s[i]))
  }

  /** The keys one row writes. */
  function RowKeys(row: CsvRow): set<string>
  {
    if row.param in LatencyParams then {"avg_" + LowerText(row.param), "p99_" + LowerText(row.param)}
    else if row.param == OutputThroughputParam then {OutputThroughputKey}
    else {}
  }

  /** One pass of the loop body; `toFloat` is Python's `float()` on text,
      None where it raises ValueError. */
  function RowStep(m: map<string, real>, row: CsvRow, toFloat: string -> Option<real>): Result<map<string, real>>
  {
    if row.param in LatencyParams then
      match toFloat(RemoveAll(row.average, " ms"))
      case None => Raise(ValueError("could not convert string to float", [row.average]))
      case Some(average) =>
        match toFloat(RemoveAll(row.p99, " ms"))
        case None => Raise(ValueError("could not convert string to float", [row.p99]))
        case Some(p99) => Ok(m["avg_" + LowerText(row.param) := average]["p99_" + LowerText(row.param) := p99])
    else if row.param == OutputThroughputParam then
      match toFloat(RemoveAll(row.average, " token/s"))
      case None => Raise(ValueError("could not convert string to float", [row.average]))
      case Some(v) => Ok(m[OutputThroughputKey := v])
    else Ok(m)
  }

  /** The loop over the stage's rows. */
  function CsvFold(rows: seq<CsvRow>, toFloat: string -> Option<real>): Result<map<string, real>>
  {
    if rows == [] then Ok(map[])
    else match CsvFold(rows[..|rows| - 1], toFloat)
      case Raise(e) => Raise(e)
      case Ok(m) => RowStep(m, rows[|rows| - 1], toFloat)
  }

  /** `df[df["Stage"] == stage]`. */
  function StageRows(rows: seq<CsvRow>, stage: string): seq<CsvRow>
  {
    if rows == [] then []
    else StageRows(rows[..|rows| - 1], stage) + (if rows[|rows| - 1].stage == stage then [rows[|rows| - 1]] else [])
  }

  /** `parse_csv_metrics` on the rows of the file. */
  function CsvMetrics(rows: seq<CsvRow>, stage: string, toFloat: string -> Option<real>): Result<map<string, real>>
  {
    var stageRows := StageRows(rows, stage);
    if stageRows == [] then Raise(ValueError("no CSV rows for the stage", [stage]))
    else CsvFold(stageRows, toFloat)
  }

  /** The keys written are exactly those the rows name; rows of other
      parameters write nothing. */
  lemma {:induction false} CsvFoldKeys(rows: seq<CsvRow>, toFloat: string -> Option<real>)
    ensures CsvFold(rows, toFloat).Ok? ==>
      forall k :: k in CsvFold(rows, toFloat).value <==> exists i :: 0 <= i < |rows| && k in RowKeys(rows[i])
  {
    if rows != [] {
      var front, last := rows[..|rows| - 1], rows[|rows| - 1];
      CsvFoldKeys(front, toFloat);
      if CsvFold(rows, toFloat).Ok? {
        var m := CsvFold(front, toFloat).value;
        assert CsvFold(rows, toFloat).value.Keys == m.Keys + RowKeys(last);
        forall k | k in CsvFold(rows, toFloat).value
          ensures exists i :: 0 <= i < |rows| && k in RowKeys(rows[i])
        {
          if k in m {
            var i :| 0 <= i < |front| && k in RowKeys(front[i]);
            assert rows[i] == front[i];
          } else {
            assert k in RowKeys(rows[|rows| - 1]);
          }
        }
        forall k | exists i :: 0 <= i < |rows| && k in RowKeys(rows[i])
          ensures k in CsvFold(rows, toFloat).value
        {
          var i :| 0 <= i < |rows| && k in RowKeys(rows[i]);
          if i < |front| {
            assert rows[i] == front[i];
          }
        }
      }
    }
  }

  /** Every key is `avg_` or `p99_` followed by a lower-cased latency
      parameter, or the output throughput key. */
  lemma CsvKeysNamed(rows: seq<CsvRow>, stage: string, toFloat: string -> Option<real>)
    requires CsvMetrics(rows, stage, toFloat).Ok?
    ensures forall k :: k in CsvMetrics(rows, stage, toFloat).value ==>
      k == OutputThroughputKey ||
      exists p :: p in LatencyParams && (k == "avg_" + LowerText(p) || k == "p99_" + LowerText(p))
  {
    CsvFoldKeys(StageRows(rows, stage), toFloat);
  }

  /** A row of another stage, or of another parameter, changes nothing. */
  lemma CsvRowIgnored(m: map<string, real>, row: CsvRow, toFloat: string -> Option<real>)
    requires row.param !in LatencyParams && row.param != OutputThroughputParam
    ensures RowStep(m, row, toFloat) == Ok(m) && RowKeys(row) == {}
  {
  }

  /** The lower-cased names spelled out. */
  lemma LatencyKeyNames()
    ensures "avg_" + LowerText(LatencyParams[0]) == "avg_e2el" && "p99_" + LowerText(LatencyParams[0]) == "p99_e2el"
    ensures "avg_" + LowerText(LatencyParams[1]) == "avg_ttft" && "p99_" + LowerText(LatencyParams[1]) == "p99_ttft"
    ensures "avg_" + LowerText(LatencyParams[2]) == "avg_tpot" && "p99_" + LowerText(LatencyParams[2]) == "p99_tpot"
    ensures "avg_" + LowerText(LatencyParams[3]) == "avg_itl" && "p99_" + LowerText(LatencyParams[3]) == "p99_itl"
  {
  }

  /** A value with its unit, `"12.5 ms"`, is read without the unit. */
  lemma UnitDropped(text: string)
    requires forall i :: 0 <= i < |text| ==> !InfixAt(" ms", text + " ms", i)
    ensures RemoveAll(text + " ms", " ms") == text
  {
    RemoveAllTrailing(text, " ms");
  }

  method ParseCsvMetrics(rows: seq<CsvRow>, stage: string, toFloat: string -> Option<real>)
    returns (r: Result<map<string, real>>)
    ensures r == CsvMetrics(rows, stage, toFloat)
  {
    var dfStage := StageRows(rows, stage);
    if dfStage == [] {
      return Raise(ValueError("no CSV rows for the stage", [stage]));
    }
    var csvMetrics: map<string, real> := map[];
    var j := 0;
    while j < |dfStage|
      invariant 0 <= j <= |dfStage|
      invariant CsvFold(dfStage[..j], toFloat) == Ok(csvMetrics)
    {
      assert dfStage[..j + 1][..j] == dfStage[..j];
      var row := dfStage[j];
      var param := row.param;
      if param in LatencyParams {
        var avgKey := "avg_" + LowerText(param);
        var p99Key := "p99_" + LowerText(param);
        var average := toFloat(RemoveAll(row.average, " ms"));
        if average.None? {
          CsvFoldRaises(dfStage, j + 1, toFloat);
          return Raise(ValueError("could not convert string to float", [row.average]));
        }
        csvMetrics := csvMetrics[avgKey := average.value];
        var p99 := toFloat(RemoveAll(row.p99, " ms"));
        if p99.None? {
          CsvFoldRaises(dfStage, j + 1, toFloat);
          return Raise(ValueError("could not convert string to float", [row.p99]));
        }
        csvMetrics := csvMetrics[p99Key := p99.value];
      } else if param == OutputThroughputParam {
        var v := toFloat(RemoveAll(row.average, " token/s"));
        if v.None? {
          CsvFoldRaises(dfStage, j + 1, toFloat);
          return Raise(ValueError("could not convert string to float", [row.average]));
        }
        csvMetrics := csvMetrics[OutputThroughputKey := v.value];
      }
      j := j + 1;
    }
    assert dfStage[..j] == dfStage;
    return Ok(csvMetrics);
  }

  lemma {:induction false} CsvFoldRaises(rows: seq<CsvRow>, j: nat, toFloat: string -> Option<real>)
    requires j <= |rows| && CsvFold(rows[..j], toFloat).Raise?
    ensures CsvFold(rows, toFloat) == CsvFold(rows[..j], toFloat)
    decreases |rows| - j
  {
    if j < |rows| {
      assert rows[..j + 1][..j] == rows[..j];
      CsvFoldRaises(rows, j + 1, toFloat);
    } else {
      assert rows[..j] == rows;
    }
  }
}
