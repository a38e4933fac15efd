/** Normalisation of stored benchmark records for the comparison and
    detail endpoints (api_utils.py): guarded field access, millisecond to
    second conversion, ISO date to epoch seconds, the `old→new` rendering
    of a metric pair, and the two row mappings. */
module Records {

  import opened Wrappers
  import opened Text
  import opened PyValues
  import opened FixedPoint
  import opened Calendar
  import opened Strptime
  import opened EsResponse

  /** `_safe_get`: `source.get(key, default)` on a dictionary, the default
      on anything else. */
  function SafeGet(source: Value, key: string, default: Value): (r: Value)
    ensures !source.Dict? ==> r == default
    ensures source.Dict? ==> r == Get(source.fields, key, default)
  {
    if !source.Dict? then default else Get(source.fields, key, default)
  }

  /** `_convert_ms_to_s` with its default `None`: a number is divided by
      1000 and rounded to hundredths; anything else gives None. */
  function MsToS(v: Value): (r: Value)
    ensures r == Nil <==> Numeric(v).None?
    ensures r != Nil ==> r.Float? && -0.005 <= r.r - Numeric(v).value / 1000.0 <= 0.005
    ensures r != Nil ==> r == Float(Cents(Numeric(v).value / 1000.0) as real / 100.0)
  {
    match Numeric(v)
    case None => Nil
    case Some(ms) => Float(Round2(ms / 1000.0))
  }

  /** A duration of whole hundredths of a second loses nothing. */
  lemma MsToSExact(tens: int)
    ensures MsToS(Int(tens * 10)) == Float(tens as real / 100.0)
  {
    assert (tens * 10) as real / 1000.0 * 100.0 == tens as real;
    RoundWhole(tens);
  }

  /** `_convert_datetime_to_timestamp` with the ISO format: None for a
      falsy value or a string strptime refuses; a truthy value that is not a
      string makes strptime raise TypeError, which is not caught. */
  function IsoTimestamp(v: Value): (r: Result<Option<int>>)
    ensures !Truthy(v) ==> r == Ok(None)
    ensures r.Raise? <==> Truthy(v) && !v.Str?
    ensures r.Ok? && r.value.Some? ==>
      v.Str? && Parse(v.s, IsoFormat).Some? && r.value.value == EpochSeconds(Parse(v.s, IsoFormat).value)
  {
    if !Truthy(v) then Ok(None)
    else if !v.Str? then Raise(TypeError)
    else match Parse(v.s, IsoFormat)
      case None => Ok(None)
      case Some(dt) => Ok(Some(EpochSeconds(dt)))
  }

  /** A date and time written in the ISO form converts to its own epoch
      seconds, and the instant converted back is that date and time. */
  lemma IsoTimestampRoundTrip(dt: DateTime)
    requires Valid(dt)
    ensures IsoTimestamp(Str(Render(IsoFormat, dt))) == Ok(Some(EpochSeconds(dt)))
    ensures CivilFromEpoch(EpochSeconds(dt)) == dt
  {
    IsoRoundTrip(dt);
    IsoRenderNonEmpty(dt);
    IsoTimestampOf(Render(IsoFormat, dt), dt);
    CivilOfEpoch(dt);
  }

  lemma IsoTimestampOf(s: string, dt: DateTime)
    requires s != "" && Parse(s, IsoFormat) == Some(dt)
    ensures IsoTimestamp(Str(s)) == Ok(Some(EpochSeconds(dt)))
  {
  }

  lemma IsoRenderNonEmpty(dt: DateTime)
    requires Valid(dt)
    ensures Render(IsoFormat, dt) != ""
  {
    assert Render(IsoFormat, dt) == Piece(IsoFormat[0], dt) + Render(IsoFormat[1..], dt);
    assert |Piece(IsoFormat[0], dt)| == 4;
  }

  /** A string holding a slash, a fraction point, a zone letter or any
      other character outside the ISO form converts to None. */
  lemma IsoTimestampRejects(s: string, k: nat)
    requires k < |s| && !(IsDigit(s[k]) || s[k] == ' ' || s[k] == '-' || s[k] == ':' || s[k] == 'T' || s[k] == 't')
    ensures IsoTimestamp(Str(s)) == Ok(None)
  {
    IsoRejects(s, k);
  }

  /** The number `_format_pair` shows for one side: the value itself when
      it is a number, 0.0 otherwise. */
  function PairSide(v: Value): (r: real)
    ensures Numeric(v).Some? ==> r == Numeric(v).value
    ensures Numeric(v).None? ==> r == 0.0
  {
    match Numeric(v)
    case Some(x) => x
    case None => 0.0
  }

  const Arrow: char := '\U{2192}'

  /** `_format_pair`: `"{old:.2f}→{new:.2f}"`. */
  function FormatPair(before: Value, after: Value): string
  {
    Fixed2(PairSide(before)) + [Arrow] + Fixed2(PairSide(after))
  }

  /** Reading an `old→new` string back to its two counts of hundredths. */
  function DecodePair(s: string): Option<(int, int)>
  {
    match Find(s, Arrow)
    case None => None
    case Some(k) =>
      match (ParseFixed2(s[..k]), ParseFixed2(s[k + 1..]))
      case (Some(a), Some(b)) => Some((a, b))
      case _ => None
  }

  lemma Fixed2Chars(x: real)
    ensures Arrow !in Fixed2(x)
  {
    var c := Cents(x);
    var mag: nat := if c < 0 then -c else c;
    var t := Fixed2(x);
    assert t == (if x < 0.0 then "-" else "") + Decimal(mag / 100) + "." + CentDigits(mag);
    assert forall k :: 0 <= k < |t| ==> t[k] == '-' || t[k] == '.' || IsDigit(t[k]);
  }

  /** Each side of a rendered pair reads back as that side's number
      rounded to hundredths, a missing or non-numeric side as zero. */
  lemma FormatPairRoundTrip(before: Value, after: Value)
    ensures DecodePair(FormatPair(before, after)) == Some((Cents(PairSide(before)), Cents(PairSide(after))))
  {
    var a, b := Fixed2(PairSide(before)), Fixed2(PairSide(after));
    Fixed2Chars(PairSide(before));
    FindAfterFree(a, Arrow, b);
    var s := FormatPair(before, after);
    assert s[..|a|] == a;
    assert s[|a| + 1..] == b;
    Fixed2RoundTrip(PairSide(before));
    Fixed2RoundTrip(PairSide(after));
  }

  /** The metric columns of a comparison row, in the order the row lists
      them, and the record field each compares. */
  const MetricColumns: seq<string> := [
    "latency_s", "mean_itl_ms", "mean_tpot_ms", "mean_ttft_ms", "p99_itl_ms", "p99_tpot_ms",
    "p99_ttft_ms", "serve_request_throughput_req_s", "serve_output_throughput_tok_s",
    "serve_total_throughput_tok_s", "requests_req_s", "tokens_tok_s"]

  const MetricSources: seq<string> := [
    "mean_e2el_ms", "mean_itl_ms", "mean_tpot_ms", "mean_ttft_ms", "p99_itl_ms", "p99_tpot_ms",
    "p99_ttft_ms", "request_throughput", "output_token_throughput",
    "total_token_throughput", "request_throughput", "total_token_throughput"]

  /** The value one record contributes to metric column `i`: latency is
      first converted from milliseconds to seconds. */
  function MetricSide(record: Value, i: nat): Value
    requires i < |MetricSources|
  {
    var raw := SafeGet(record, MetricSources[i], Nil);
    if i == 0 then MsToS(raw) else raw
  }

  /** One row of the comparison endpoint. */
  datatype CompareRow = CompareRow(
    name: Value, tensorParallel: Value, requestRate: Value, device: Value,
    metrics: seq<string>)

  /** `map_compare_pair_response`. */
  function MapComparePair(before: Value, after: Value): (row: CompareRow)
    ensures |row.metrics| == |MetricColumns|
  {
    CompareRow(
      Or(SafeGet(before, "model_name", Nil), SafeGet(after, "model_name", Nil)),
      Or(SafeGet(before, "tp", Nil), SafeGet(after, "tp", Nil)),
      Or(SafeGet(before, "request_rate", Nil), SafeGet(after, "request_rate", Nil)),
      Or(SafeGet(before, "device", Nil), SafeGet(after, "device", Nil)),
      seq(|MetricSources|, i requires 0 <= i < |MetricSources| => FormatPair(MetricSide(before, i), MetricSide(after, i))))
  }

  /** Identity fields: the older record's value when it is truthy, the
      newer record's otherwise. */
  lemma ComparePairIdentity(before: Value, after: Value)
    ensures var row := MapComparePair(before, after);
      && (Truthy(SafeGet(before, "model_name", Nil)) ==> row.name == before.fields["model_name"])
      && (!Truthy(SafeGet(before, "model_name", Nil)) ==> row.name == SafeGet(after, "model_name", Nil))
      && (Truthy(SafeGet(before, "tp", Nil)) ==> row.tensorParallel == before.fields["tp"])
      && (!Truthy(SafeGet(before, "tp", Nil)) ==> row.tensorParallel == SafeGet(after, "tp", Nil))
      && (Truthy(SafeGet(before, "request_rate", Nil)) ==> row.requestRate == before.fields["request_rate"])
      && (!Truthy(SafeGet(before, "request_rate", Nil)) ==> row.requestRate == SafeGet(after, "request_rate", Nil))
      && (Truthy(SafeGet(before, "device", Nil)) ==> row.device == before.fields["device"])
      && (!Truthy(SafeGet(before, "device", Nil)) ==> row.device == SafeGet(after, "device", Nil))
  {
  }

  /** Every metric cell reads back as the older and the newer value rounded to
      hundredths (zero for a side that is missing or not a number). */
  lemma ComparePairMetrics(before: Value, after: Value, i: nat)
    requires i < |MetricColumns|
    ensures DecodePair(MapComparePair(before, after).metrics[i]) ==
      Some((Cents(PairSide(MetricSide(before, i))), Cents(PairSide(MetricSide(after, i)))))
  {
    FormatPairRoundTrip(MetricSide(before, i), MetricSide(after, i));
  }

  /** Comparing a record with itself gives `x→x` in every metric cell. */
  lemma SelfPair(record: Value, i: nat)
    requires i < |MetricColumns|
    ensures var cell := MapComparePair(record, record).metrics[i];
      var half := Fixed2(PairSide(MetricSide(record, i)));
      cell == half + [Arrow] + half
    ensures var p := DecodePair(MapComparePair(record, record).metrics[i]);
      p.Some? && p.value.0 == p.value.1
  {
    ComparePairMetrics(record, record, i);
  }

  /** A side that is not a dictionary contributes nothing, as an empty
      record would. */
  lemma ComparePairNonDict(before: Value, after: Value)
    ensures !before.Dict? ==> MapComparePair(before, after) == MapComparePair(EmptyDict, after)
    ensures !after.Dict? ==> MapComparePair(before, after) == MapComparePair(before, EmptyDict)
  {
  }

  /** The `requests_req_s` and `tokens_tok_s` cells repeat the request and
      total throughput cells. */
  lemma ComparePairRepeats(before: Value, after: Value)
    ensures MapComparePair(before, after).metrics[10] == MapComparePair(before, after).metrics[7]
    ensures MapComparePair(before, after).metrics[11] == MapComparePair(before, after).metrics[9]
  {
  }

  /** The fields of a detail row after `time`, in the order the row lists
      them, and the record field each copies (`latency` is converted). */
  const DetailColumns: seq<string> := [
    "model_name", "hash", "status", "requests_per_second", "tokens_per_second", "qps",
    "mean_itl_ms", "mean_tpot_ms", "mean_ttft_ms", "p99_itl_ms", "p99_tpot_ms", "p99_ttft_ms",
    "request_throughput_serve_per_sec", "output_throughput_serve_per_sec",
    "total_token_throughput_per_sec", "latency"]

  const DetailSources: seq<string> := [
    "model_name", "commit_id", "status", "request_throughput", "total_token_throughput", "request_rate",
    "mean_itl_ms", "mean_tpot_ms", "mean_ttft_ms", "p99_itl_ms", "p99_tpot_ms", "p99_ttft_ms",
    "request_throughput", "output_token_throughput", "total_token_throughput", "mean_e2el_ms"]

  /** One row of the detail endpoint: the timestamp and the other columns. */
  datatype DataDetail = DataDetail(time: Option<int>, values: seq<Value>)

  /** `map_data_details`: fails only where converting `merged_at` raises. */
  function MapDataDetails(record: Value): (r: Result<DataDetail>)
    ensures r.Raise? <==> IsoTimestamp(SafeGet(record, "merged_at", Nil)).Raise?
    ensures r.Ok? ==> r.value.time == IsoTimestamp(SafeGet(record, "merged_at", Nil)).value
    ensures r.Ok? ==> |r.value.values| == |DetailColumns|
  {
    match IsoTimestamp(SafeGet(record, "merged_at", Nil))
    case Raise(e) => Raise(e)
    case Ok(t) =>
      Ok(DataDetail(t, seq(|DetailSources|, i requires 0 <= i < |DetailSources| =>
        var raw := SafeGet(record, DetailSources[i], Nil);
        if i == |DetailSources| - 1 then MsToS(raw) else raw)))
  }

  /** Each detail column copies its record field, latency converted to
      seconds; a record that is not a dictionary gives no time and only
      None values. */
  lemma DetailColumnsSpec(record: Value)
    requires MapDataDetails(record).Ok?
    ensures var d := MapDataDetails(record).value;
      && (forall i :: 0 <= i < |DetailColumns| - 1 ==> d.values[i] == SafeGet(record, DetailSources[i], Nil))
      && d.values[|DetailColumns| - 1] == MsToS(SafeGet(record, "mean_e2el_ms", Nil))
      && (!record.Dict? ==> d.time == None && forall i :: 0 <= i < |DetailColumns| ==> d.values[i] == Nil)
  {
  }

  /** The renderings of the rows of a hit list, stopping at the first hit
      whose record or row raises. */
  function DetailsOf(hits: seq<Value>): (r: Result<seq<DataDetail>>)
    ensures r.Ok? ==> |r.value| == |hits|
  {
    if hits == [] then Ok([])
    else match SourceOf(hits[0])
      case Raise(e) => Raise(e)
      case Ok(record) =>
        match MapDataDetails(record)
        case Raise(e) => Raise(e)
        case Ok(d) =>
          match DetailsOf(hits[1..])
          case Raise(e) => Raise(e)
          case Ok(ds) => Ok([d] + ds)
  }

  /** `process_data_details_response`, that is `_process_compare_response`
      with `map_data_details`: a falsy hit list gives no rows. */
  function ProcessDataDetailsResponse(resp: Value): (r: Result<seq<DataDetail>>)
    ensures resp.Dict? && "hits" !in resp.fields ==> r == Ok([])
  {
    match HitsValue(resp)
    case Raise(e) => Raise(e)
    case Ok(hv) =>
      if !Truthy(hv) then Ok([])
      else match Iterate(hv)
        case Raise(e) => Raise(e)
        case Ok(hits) => DetailsOf(hits)
  }

  /** A response built from records gives one row per record, in order, each
      the mapping of its record, when no record makes the mapping raise. */
  lemma {:induction false} DetailsOfRecords(records: seq<Value>)
    requires forall i :: 0 <= i < |records| ==> MapDataDetails(records[i]).Ok?
    ensures var r := DetailsOf(HitList(records));
      r.Ok? && |r.value| == |records| &&
      forall i :: 0 <= i < |records| ==> r.value[i] == MapDataDetails(records[i]).value
  {
    ResponseRecords(records);
    if records != [] {
      assert HitList(records)[1..] == HitList(records[1..]);
      DetailsOfRecords(records[1..]);
    }
  }

  lemma ProcessDataDetailsRecords(records: seq<Value>)
    requires forall i :: 0 <= i < |records| ==> MapDataDetails(records[i]).Ok?
    ensures var r := ProcessDataDetailsResponse(Response(records));
      r.Ok? && |r.value| == |records| &&
      forall i :: 0 <= i < |records| ==> r.value[i] == MapDataDetails(records[i]).value
  {
    ResponseRecords(records);
    DetailsOfRecords(records);
  }
}
