/** The ingestion side of the benchmark pipeline (data/data_processor.py):
    reading the identifier of a stored record, admitting a record into a
    list only when its identifier is new, validating the pull-request
    record, merging the metrics read from the CSV and the JSON report, and
    assembling the stored document with its composite identifier. The file
    reads and the CSV and JSON parsers are inputs here. */
module Ingest {

  import opened Wrappers
  import opened Text
  import opened PyValues
  import opened Strptime

  // ---------------------------------------------------------------------
  // _extract_id_from_data
  // ---------------------------------------------------------------------

  /** `_extract_id_from_data(data, data_type)`: the `ID` of the first item
      of a list, or of a dictionary. An empty list, a missing `ID` or any
      other kind of value raises a plain Exception; a first item that is a
      list or string "containing" `ID` fails when subscripted, and one that
      is no container at all fails the `in` test, both with TypeError. */
  function ExtractId(data: Value): (r: Result<Value>)
    ensures r.Ok? <==>
      (data.Dict? && "ID" in data.fields) ||
      (data.List? && data.elems != [] && data.elems[0].Dict? && "ID" in data.elems[0].fields)
    ensures r.Ok? && data.Dict? ==> r.value == data.fields["ID"]
    ensures r.Ok? && data.List? ==> r.value == data.elems[0].fields["ID"]
    ensures r == Raise(TypeError) <==>
      data.List? && data.elems != [] && !data.elems[0].Dict? && Contains(data.elems[0], "ID") != Ok(false)
    ensures r.Raise? && r.exc != TypeError ==> r.exc.PlainException?
  {
    match data
    case List(items) =>
      if items == [] then Raise(PlainException("empty list, no ID"))
      else
        (match Contains(items[0], "ID")
         case Raise(e) => Raise(e)
         case Ok(found) =>
           if !found then Raise(PlainException("list item lacks ID"))
           else Subscript(items[0], "ID"))
    case Dict(fields) =>
      if "ID" !in fields then Raise(PlainException("dictionary lacks ID"))
      else Ok(fields["ID"])
    case _ => Raise(PlainException("unsupported type, only list or dictionary"))
  }

  /** A record written to its file as the one-element list `[record]`
      (data/data_processor.py:405) yields the same identifier when read back
      as the record itself, which is how `_check_existing_id` compares them. */
  lemma ExtractIdWrapped(record: map<string, Value>)
    ensures ExtractId(List([Dict(record)])).Ok? <==> ExtractId(Dict(record)).Ok?
    ensures ExtractId(List([Dict(record)])).Ok? ==> ExtractId(List([Dict(record)])) == ExtractId(Dict(record))
  {
  }

  // ---------------------------------------------------------------------
  // ensure_unique_id
  // ---------------------------------------------------------------------

  /** The set member an item's `ID` becomes: present only for a truthy,
      hashable `ID`. */
  function IdKey(item: map<string, Value>): (k: Option<Key>)
    ensures k.Some? <==> Truthy(Get(item, "ID", Nil)) && HashKey(Get(item, "ID", Nil)).Some?
  {
    var id := Get(item, "ID", Nil);
    if Truthy(id) then HashKey(id) else None
  }

  /** The relation the callers keep between a target list and its ID set:
      every item has an ID, no two items share one, and the set holds
      exactly their IDs. */
  predicate Indexed(items: seq<map<string, Value>>, ids: set<Key>)
  {
    && (forall i :: 0 <= i < |items| ==> IdKey(items[i]).Some?)
    && (forall i, j :: 0 <= i < j < |items| ==> IdKey(items[i]) != IdKey(items[j]))
    && (forall i :: 0 <= i < |items| ==> IdKey(items[i]).value in ids)
    && (forall k :: k in ids ==> Some(k) in IdKeys(items))
  }

  /** The IDs of the items, in list order. */
  function IdKeys(items: seq<map<string, Value>>): (r: seq<Option<Key>>)
    ensures |r| == |items|
    ensures forall i :: 0 <= i < |items| ==> r[i] == IdKey(items[i])
  {
    if items == [] then [] else IdKeys(items[..|items| - 1]) + [IdKey(items[|items| - 1])]
  }

  /** The answer of `ensure_unique_id` against the current ID set: a
      missing or falsy `ID` is a ValueError, an unhashable one a TypeError
      (from the set lookup), a known one False, a new one True. */
  function Admission(ids: set<Key>, item: map<string, Value>): (r: Result<bool>)
    ensures r.Raise? && r.exc.ValueError? <==> !Truthy(Get(item, "ID", Nil))
    ensures r == Raise(TypeError) <==> Truthy(Get(item, "ID", Nil)) && HashKey(Get(item, "ID", Nil)).None?
    ensures r == Ok(true) <==> IdKey(item).Some? && IdKey(item).value !in ids
    ensures r == Ok(false) <==> IdKey(item).Some? && IdKey(item).value in ids
  {
    var id := Get(item, "ID", Nil);
    if !Truthy(id) then Raise(ValueError("item lacks ID, uniqueness cannot be checked", []))
    else match HashKey(id)
      case None => Raise(TypeError)
      case Some(k) => Ok(k !in ids)
  }

  /** Admitting an item with a new ID keeps the list and the set in step. */
  lemma IndexedSnoc(items: seq<map<string, Value>>, ids: set<Key>, item: map<string, Value>)
    requires Indexed(items, ids)
    requires Admission(ids, item) == Ok(true)
    ensures Indexed(items + [item], ids + {IdKey(item).value})
  {
    var items' := items + [item];
    var k := IdKey(item).value;
    assert IdKeys(items') == IdKeys(items) + [Some(k)] by {
      assert items'[..|items'| - 1] == items;
    }
    forall i, j | 0 <= i < j < |items'|
      ensures IdKey(items'[i]) != IdKey(items'[j])
    {
      if j == |items| {
        assert IdKeys(items)[i] == IdKey(items[i]);
      }
    }
  }

  /** Once an item is admitted, offering it (or anything with the same ID)
      again is answered False. */
  lemma AdmissionOnce(ids: set<Key>, item: map<string, Value>, again: map<string, Value>)
    requires Admission(ids, item) == Ok(true)
    requires Get(again, "ID", Nil) == Get(item, "ID", Nil)
    ensures Admission(ids + {IdKey(item).value}, again) == Ok(false)
  {
  }

  /** A target list and the ID set its callers keep beside it
      (`ensure_unique_id(target_list, new_item, existing_ids)` updates both
      in place). */
  class IdIndex {
    var targetList: seq<map<string, Value>>
    var existingIds: set<Key>

    constructor (items: seq<map<string, Value>>, ids: set<Key>)
      ensures targetList == items && existingIds == ids
    {
      targetList := items;
      existingIds := ids;
    }

    /** `ensure_unique_id`: appends the item and records its ID exactly
        when the ID is new; otherwise nothing changes. */
    method EnsureUniqueId(newItem: map<string, Value>) returns (r: Result<bool>)
      modifies this
      ensures r == Admission(old(existingIds), newItem)
      ensures r == Ok(true) ==> targetList == old(targetList) + [newItem]
      ensures r == Ok(true) ==> existingIds == old(existingIds) + {IdKey(newItem).value}
      ensures r != Ok(true) ==> targetList == old(targetList) && existingIds == old(existingIds)
      ensures Indexed(old(targetList), old(existingIds)) ==> Indexed(targetList, existingIds)
    {
      var newId := Get(newItem, "ID", Nil);
      if !Truthy(newId) {
        return Raise(ValueError("item lacks ID, uniqueness cannot be checked", []));
      }
      var k := HashKey(newId);
      if k.None? {
        return Raise(TypeError);
      }
      if k.value in existingIds {
        return Ok(false);
      }
      if Indexed(targetList, existingIds) {
        IndexedSnoc(targetList, existingIds, newItem);
      }
      targetList := targetList + [newItem];
      existingIds := existingIds + {k.value};
      return Ok(true);
    }
  }

  // ---------------------------------------------------------------------
  // Field lists
  // ---------------------------------------------------------------------

  /** A list of field names, all of them keys of `fields`. */
  predicate AllPresent(names: seq<string>, fields: map<string, Value>)
  {
    forall i :: 0 <= i < |names| ==> names[i] in fields
  }

  /** The names of `names` that are not keys of `fields`, in the order of
      `names`. */
  function Lacking(names: seq<string>, fields: map<string, Value>): (r: seq<string>)
    ensures r == [] <==> AllPresent(names, fields)
  {
    if names == [] then []
    else
      var last := names[|names| - 1];
      var front := Lacking(names[..|names| - 1], fields);
      assert AllPresent(names, fields) <==> AllPresent(names[..|names| - 1], fields) && last in fields;
      front + (if last !in fields then [last] else [])
  }

  /** The lacking names are exactly the names that are not keys. */
  lemma {:induction false} LackingMembers(names: seq<string>, fields: map<string, Value>)
    ensures forall n :: n in Lacking(names, fields) <==> n in names && n !in fields
  {
    if names != [] {
      var front := names[..|names| - 1];
      LackingMembers(front, fields);
      assert names == front + [names[|names| - 1]];
    }
  }

  /** Leaving names out of a sorted list leaves it sorted. */
  lemma {:induction false} LackingSorted(names: seq<string>, fields: map<string, Value>)
    requires StrictlySorted(names)
    ensures StrictlySorted(Lacking(names, fields))
  {
    if names != [] {
      var front := names[..|names| - 1];
      var last := names[|names| - 1];
      assert StrictlySorted(front);
      LackingSorted(front, fields);
      LackingMembers(front, fields);
      var r := Lacking(names, fields);
      var rf := Lacking(front, fields);
      forall i, j | 0 <= i < j < |r|
        ensures LexLess(r[i], r[j])
      {
        if j >= |rf| {
          assert r[j] == last;
          assert r[i] in rf;
          var p :| 0 <= p < |front| && front[p] == r[i];
          assert names[p] == r[i];
        }
      }
    }
  }

  // ---------------------------------------------------------------------
  // parse_pr_json (after the JSON document is loaded)
  // ---------------------------------------------------------------------

  /** The required fields of a pull-request record, in code-point order
      (the order `sorted` gives them). */
  const PrFields: seq<string> := ["commit_id", "commit_title", "created_at", "pr_id", "sglang_branch"]

  lemma PrFieldsSorted()
    ensures StrictlySorted(PrFields)
  {
    PrFieldsAdjacent();
    forall i, j | 0 <= i < j < |PrFields|
      ensures LexLess(PrFields[i], PrFields[j])
    {
      var k := i + 1;
      while k < j
        invariant i + 1 <= k <= j
        invariant LexLess(PrFields[i], PrFields[k])
      {
        LexLessTransitive(PrFields[i], PrFields[k], PrFields[k + 1]);
        k := k + 1;
      }
    }
  }

  lemma PrFieldsAdjacent()
    ensures forall i :: 0 <= i < |PrFields| - 1 ==> LexLess(PrFields[i], PrFields[i + 1])
  {
    assert LexLess(PrFields[0], PrFields[1]);
    assert LexLess(PrFields[1], PrFields[2]);
    assert LexLess(PrFields[2], PrFields[3]);
    assert LexLess(PrFields[3], PrFields[4]);
  }

  /** With no field lacking, each required field can be looked up. */
  lemma PrFieldsIn(fields: map<string, Value>)
    requires AllPresent(PrFields, fields)
    ensures "commit_id" in fields && "commit_title" in fields && "created_at" in fields
    ensures "pr_id" in fields && "sglang_branch" in fields
  {
    assert PrFields[0] in fields && PrFields[1] in fields && PrFields[2] in fields;
    assert PrFields[3] in fields && PrFields[4] in fields;
  }

  /** The `PRInfo` record. */
  datatype PrInfo = PrInfo(prId: string, commitId: string, commitTitle: string, createdAt: string, sglangBranch: string)

  /** `not str(v).strip()`: only a string can print as blank (`None`,
      numbers, lists and dictionaries never print as white space). */
  predicate Blank(v: Value)
  {
    v.Str? && Strip(v.s) == ""
  }

  /** No field among `names` is blank. */
  predicate NoneBlank(names: seq<string>, fields: map<string, Value>)
    requires AllPresent(names, fields)
  {
    forall i :: 0 <= i < |names| ==> !Blank(fields[names[i]])
  }

  /** No field is blank when none before the last is and the last is not. */
  lemma NoneBlankSnoc(names: seq<string>, fields: map<string, Value>)
    requires names != [] && AllPresent(names, fields)
    ensures AllPresent(names[..|names| - 1], fields)
    ensures NoneBlank(names, fields) <==>
      NoneBlank(names[..|names| - 1], fields) && !Blank(fields[names[|names| - 1]])
  {
    var front := names[..|names| - 1];
    assert forall i :: 0 <= i < |front| ==> front[i] == names[i];
  }

  /** The fields among `names` whose value is blank. */
  function BlankAmong(names: seq<string>, fields: map<string, Value>): (r: seq<string>)
    requires AllPresent(names, fields)
    ensures r == [] <==> NoneBlank(names, fields)
  {
    if names == [] then []
    else
      NoneBlankSnoc(names, fields);
      var last := names[|names| - 1];
      BlankAmong(names[..|names| - 1], fields) + (if Blank(fields[last]) then [last] else [])
  }

  /** The blank fields are exactly the names with a blank value. */
  lemma {:induction false} BlankAmongMembers(names: seq<string>, fields: map<string, Value>)
    requires AllPresent(names, fields)
    ensures forall n :: n in BlankAmong(names, fields) <==> n in names && Blank(fields[n])
  {
    if names != [] {
      var front := names[..|names| - 1];
      assert AllPresent(front, fields);
      BlankAmongMembers(front, fields);
      assert names == front + [names[|names| - 1]];
    }
  }

  /** `pr_data[name].strip()`: a value that is not a string has no `strip`. */
  function Stripped(fields: map<string, Value>, name: string): (r: Result<string>)
    requires name in fields
    ensures r.Ok? <==> fields[name].Str?
    ensures r.Ok? ==> r.value == Strip(fields[name].s)
    ensures r.Raise? ==> r.exc == AttributeError
  {
    match fields[name]
    case Str(s) => Ok(Strip(s))
    case _ => Raise(AttributeError)
  }

  /** The stripped strings of the record, read in the order of the
      constructor's arguments. */
  function PrStrings(fields: map<string, Value>, createdAt: string): (r: Result<PrInfo>)
    requires "pr_id" in fields && "commit_id" in fields && "commit_title" in fields && "sglang_branch" in fields
  {
    match Stripped(fields, "pr_id")
    case Raise(e) => Raise(e)
    case Ok(prId) =>
      match Stripped(fields, "commit_id")
      case Raise(e) => Raise(e)
      case Ok(commitId) =>
        match Stripped(fields, "commit_title")
        case Raise(e) => Raise(e)
        case Ok(title) =>
          match Stripped(fields, "sglang_branch")
          case Raise(e) => Raise(e)
          case Ok(branch) => Ok(PrInfo(prId, commitId, title, createdAt, branch))
  }

  /** The record holds the stripped strings once they are all strings. */
  lemma PrStringsSpec(fields: map<string, Value>, createdAt: string)
    requires "pr_id" in fields && "commit_id" in fields && "commit_title" in fields && "sglang_branch" in fields
    ensures PrStrings(fields, createdAt).Ok? <==>
      fields["pr_id"].Str? && fields["commit_id"].Str? && fields["commit_title"].Str? && fields["sglang_branch"].Str?
    ensures PrStrings(fields, createdAt).Ok? ==>
      PrStrings(fields, createdAt).value ==
        PrInfo(Strip(fields["pr_id"].s), Strip(fields["commit_id"].s), Strip(fields["commit_title"].s),
               createdAt, Strip(fields["sglang_branch"].s))
  {
  }

  /** The checks of `parse_pr_json` on the loaded document, in the order the
      code makes them: a dictionary, with every required field, none of them
      blank, `created_at` of the form `YYYY-MM-DDTHH:MM:SS` once stripped; the
      record holds the stripped fields and the commit id is returned beside
      it. */
  function ParsePrJson(prData: Value): (r: Result<(PrInfo, string)>)
    ensures !prData.Dict? ==> r.Raise? && r.exc.ValueError?
    ensures r.Ok? ==> prData.Dict? && Lacking(PrFields, prData.fields) == [] && r.value.1 == r.value.0.commitId
  {
    if !prData.Dict? then Raise(ValueError("PR JSON is not a dictionary", []))
    else
      var fields := prData.fields;
      var missing := Lacking(PrFields, fields);
      if missing != [] then Raise(ValueError("PR JSON lacks required fields", missing))
      else
        var blank := BlankAmong(PrFields, fields);
        if blank != [] then Raise(ValueError("PR JSON has empty fields", blank))
        else
          PrFieldsIn(fields);
          match Stripped(fields, "created_at")
          case Raise(e) => Raise(e)
          case Ok(createdAt) =>
            if Parse(createdAt, IsoFormat).None? then Raise(ValueError("created_at must be YYYY-MM-DDTHH:MM:SS", [createdAt]))
            else
              match PrStrings(fields, createdAt)
              case Raise(e) => Raise(e)
              case Ok(info) => Ok((info, info.commitId))
  }

  /** A required field that is a non-blank string. */
  predicate Filled(fields: map<string, Value>, name: string)
  {
    name in fields && fields[name].Str? && Strip(fields[name].s) != ""
  }

  /** What `parse_pr_json` accepts: a dictionary whose required fields
      are non-blank strings, `created_at` of the ISO form once stripped. */
  predicate AcceptablePr(prData: Value)
  {
    && prData.Dict?
    && (forall i :: 0 <= i < |PrFields| ==> Filled(prData.fields, PrFields[i]))
    && Filled(prData.fields, "created_at")
    && Parse(Strip(prData.fields["created_at"].s), IsoFormat).Some?
  }

  /** A record is accepted exactly when it is acceptable. */
  lemma ParsePrJsonAccepts(prData: Value)
    ensures ParsePrJson(prData).Ok? <==> AcceptablePr(prData)
  {
    if ParsePrJson(prData).Ok? {
      ParsePrJsonRecord(prData);
    } else if AcceptablePr(prData) {
      var f := prData.fields;
      assert AllPresent(PrFields, f);
      assert BlankAmong(PrFields, f) == [];
      PrFieldsIn(f);
      assert Filled(f, PrFields[0]) && Filled(f, PrFields[1]) && Filled(f, PrFields[3]) && Filled(f, PrFields[4]);
      PrStringsSpec(f, Strip(f["created_at"].s));
      assert false;
    }
  }

  /** An accepted record holds the stripped strings and the returned commit
      id is the record's. */
  lemma ParsePrJsonRecord(prData: Value)
    requires ParsePrJson(prData).Ok?
    ensures AcceptablePr(prData)
    ensures var f := prData.fields;
      Filled(f, "pr_id") && Filled(f, "commit_id") && Filled(f, "commit_title") && Filled(f, "sglang_branch")
    ensures var (info, commitId) := ParsePrJson(prData).value;
      var f := prData.fields;
      && commitId == info.commitId
      && info == PrInfo(Strip(f["pr_id"].s), Strip(f["commit_id"].s), Strip(f["commit_title"].s),
                        Strip(f["created_at"].s), Strip(f["sglang_branch"].s))
      && Parse(info.createdAt, IsoFormat).Some?
  {
    var f := prData.fields;
    ParsePrJsonFilled(prData);
    PrFieldsIn(f);
    PrStringsSpec(f, Strip(f["created_at"].s));
  }

  /** An accepted record has every required field, each a non-blank string. */
  lemma ParsePrJsonFilled(prData: Value)
    requires ParsePrJson(prData).Ok?
    ensures AcceptablePr(prData)
    ensures var f := prData.fields;
      Filled(f, "pr_id") && Filled(f, "commit_id") && Filled(f, "commit_title") && Filled(f, "sglang_branch")
    ensures Filled(prData.fields, "created_at")
  {
    var f := prData.fields;
    assert AllPresent(PrFields, f);
    assert BlankAmong(PrFields, f) == [];
    PrFieldsIn(f);
    var createdAt := Stripped(f, "created_at");
    assert createdAt.Ok?;
    PrStringsSpec(f, createdAt.value);
    assert PrStrings(f, createdAt.value).Ok?;
    StringsFilled(f);
    assert Parse(createdAt.value, IsoFormat).Some?;
  }

  /** Required fields that are strings and not blank are filled. */
  lemma StringsFilled(f: map<string, Value>)
    requires AllPresent(PrFields, f)
    requires forall i :: 0 <= i < |PrFields| ==> !Blank(f[PrFields[i]])
    requires "pr_id" in f && "commit_id" in f && "commit_title" in f && "sglang_branch" in f && "created_at" in f
    requires f["pr_id"].Str? && f["commit_id"].Str? && f["commit_title"].Str? && f["sglang_branch"].Str?
    requires f["created_at"].Str?
    ensures forall i :: 0 <= i < |PrFields| ==> Filled(f, PrFields[i])
    ensures Filled(f, "pr_id") && Filled(f, "commit_id") && Filled(f, "commit_title") && Filled(f, "sglang_branch")
    ensures Filled(f, "created_at")
  {
    assert f[PrFields[0]].Str? && f[PrFields[1]].Str? && f[PrFields[2]].Str?;
    assert f[PrFields[3]].Str? && f[PrFields[4]].Str?;
    forall i | 0 <= i < |PrFields|
      ensures Filled(f, PrFields[i])
    {
      assert i == 0 || i == 1 || i == 2 || i == 3 || i == 4;
    }
    FilledByName(f);
  }

  lemma FilledByName(f: map<string, Value>)
    requires forall i :: 0 <= i < |PrFields| ==> Filled(f, PrFields[i])
    ensures Filled(f, "pr_id") && Filled(f, "commit_id") && Filled(f, "commit_title") && Filled(f, "sglang_branch")
    ensures Filled(f, "created_at")
  {
    assert Filled(f, PrFields[0]) && Filled(f, PrFields[1]) && Filled(f, PrFields[2]);
    assert Filled(f, PrFields[3]) && Filled(f, PrFields[4]);
  }

  /** A missing field is reported before anything else is looked at, and
      the message names every missing field, sorted. */
  lemma ParsePrJsonMissing(prData: Value)
    requires prData.Dict?
    requires exists n :: n in PrFields && n !in prData.fields
    ensures ParsePrJson(prData).Raise?
    ensures ParsePrJson(prData).exc.ValueError?
    ensures var names := ParsePrJson(prData).exc.items;
      && StrictlySorted(names)
      && (forall n :: n in names <==> n in PrFields && n !in prData.fields)
  {
    PrFieldsSorted();
    LackingSorted(PrFields, prData.fields);
    LackingMembers(PrFields, prData.fields);
  }

  /** With every field present, the blank ones are reported next, all of
      them. */
  lemma ParsePrJsonBlank(prData: Value)
    requires prData.Dict?
    requires AllPresent(PrFields, prData.fields)
    requires exists n :: n in PrFields && Blank(prData.fields[n])
    ensures ParsePrJson(prData).Raise?
    ensures ParsePrJson(prData).exc.ValueError?
    ensures forall n :: n in ParsePrJson(prData).exc.items <==> n in PrFields && Blank(prData.fields[n])
  {
    BlankAmongMembers(PrFields, prData.fields);
  }

  // ---------------------------------------------------------------------
  // merge_metrics and create_metrics_data
  // ---------------------------------------------------------------------

  /** The fields of `Metric` (data/data_models.py), in declaration order. */
  const MetricFields: seq<string> := [
    "model_name", "device", "status", "request_rate",
    "mean_e2el_ms", "mean_ttft_ms", "mean_tpot_ms", "mean_itl_ms",
    "p99_e2el_ms", "p99_ttft_ms", "p99_tpot_ms", "p99_itl_ms",
    "median_e2el_ms", "median_ttft_ms", "median_tpot_ms", "median_itl_ms",
    "max_concurrency", "request_throughput", "total_input_tokens", "total_generated_tokens",
    "input_token_throughput", "output_token_throughput", "total_token_throughput"]

  /** `merge_metrics`: the union of the two dictionaries, JSON values
      winning; a `Metric` field missing from the union is a ValueError
      naming the missing fields in declaration order, and a key that is no
      `Metric` field makes the constructor raise TypeError. `asdict` gives
      the fields back unchanged. */
  function MergeMetrics(csv: map<string, Value>, json: map<string, Value>): (r: Result<map<string, Value>>)
    ensures r.Ok? ==> r.value.Keys == csv.Keys + json.Keys && forall n :: n in r.value ==> n in MetricFields
    ensures r.Raise? ==> r.exc.ValueError? || r.exc == TypeError
  {
    var all := csv + json;
    var missing := Lacking(MetricFields, all);
    if missing != [] then Raise(ValueError("merged metrics lack Metric fields", missing))
    else if exists n :: n in all && n !in MetricFields then Raise(TypeError)
    else Ok(all)
  }

  /** The merge succeeds exactly when the union has the `Metric` fields and
      no others; it is then the union with the JSON side winning. A missing
      field is reported with all the others missing. */
  lemma MergeMetricsSpec(csv: map<string, Value>, json: map<string, Value>)
    ensures var r := MergeMetrics(csv, json);
      r.Ok? <==> forall n :: n in csv || n in json <==> n in MetricFields
    ensures var r := MergeMetrics(csv, json);
      r.Ok? ==>
      && r.value.Keys == csv.Keys + json.Keys
      && (forall n :: n in json ==> r.value[n] == json[n])
      && (forall n :: n in csv && n !in json ==> r.value[n] == csv[n])
    ensures var r := MergeMetrics(csv, json);
      (exists n :: n in MetricFields && n !in csv && n !in json) ==>
      && r.Raise? && r.exc.ValueError?
      && (forall n :: n in r.exc.items <==> n in MetricFields && n !in csv && n !in json)
  {
    var all := csv + json;
    LackingMembers(MetricFields, all);
    var missing := Lacking(MetricFields, all);
    if missing != [] {
      assert missing[0] in missing;
    }
  }

  /** The device every stored record names. */
  const Device: string := "Ascend910B3"

  /** `asdict(pr_info)`. */
  function PrInfoFields(info: PrInfo): (m: map<string, Value>)
  {
    map["pr_id" := Str(info.prId), "commit_id" := Str(info.commitId), "commit_title" := Str(info.commitTitle),
        "created_at" := Str(info.createdAt), "sglang_branch" := Str(info.sglangBranch)]
  }

  /** `create_metrics_data` from the outcomes of its three parsers: the
      model name and the device are written into the JSON metrics, the
      metrics merged, and the document is the composite ID beside the PR
      fields overlaid with the metrics. */
  function CreateMetricsData(pr: Result<(PrInfo, string)>, csv: Result<map<string, Value>>,
                             json: Result<map<string, Value>>, modelName: string): (r: Result<Value>)
    ensures r.Ok? ==> pr.Ok? && r.value.Dict? && r.value.fields.Keys == {"ID", "source"}
    ensures r.Ok? ==> pr.Ok? && r.value.fields["ID"] == Str(pr.value.1 + "_" + modelName)
  {
    match pr
    case Raise(e) => Raise(e)
    case Ok((info, commitId)) =>
      match csv
      case Raise(e) => Raise(e)
      case Ok(csvMetrics) =>
        match json
        case Raise(e) => Raise(e)
        case Ok(jsonMetrics) =>
          var named := jsonMetrics["model_name" := Str(modelName)]["device" := Str(Device)];
          match MergeMetrics(csvMetrics, named)
          case Raise(e) => Raise(e)
          case Ok(full) =>
            Ok(Dict(map["ID" := Str(commitId + "_" + modelName), "source" := Dict(PrInfoFields(info) + full)]))
  }

  /** No PR field is a `Metric` field. */
  lemma PrFieldsNotMetrics()
    ensures forall i :: 0 <= i < |PrFields| ==> PrFields[i] !in MetricFields
  {
  }

  /** The parsers' failures come first, in the order they run. */
  lemma CreateMetricsDataErrors(pr: Result<(PrInfo, string)>, csv: Result<map<string, Value>>,
                                json: Result<map<string, Value>>, modelName: string)
    ensures pr.Raise? ==> CreateMetricsData(pr, csv, json, modelName) == Raise(pr.exc)
    ensures pr.Ok? && csv.Raise? ==> CreateMetricsData(pr, csv, json, modelName) == Raise(csv.exc)
    ensures pr.Ok? && csv.Ok? && json.Raise? ==> CreateMetricsData(pr, csv, json, modelName) == Raise(json.exc)
  {
  }

  /** The source of a document: the PR fields are kept beside the metrics. */
  lemma SourceKeepsPrFields(info: PrInfo, full: map<string, Value>)
    requires forall n :: n in full ==> n in MetricFields
    ensures var source := PrInfoFields(info) + full;
      && "pr_id" in source && source["pr_id"] == Str(info.prId)
      && "commit_id" in source && source["commit_id"] == Str(info.commitId)
  {
    PrFieldsNotMetrics();
    assert PrFields[3] !in full && PrFields[0] !in full;
  }

  /** The stored document: its ID is the commit id, `_` and the model name;
      its source carries the PR fields, the model name and the fixed
      device. */
  lemma CreateMetricsDataShape(pr: Result<(PrInfo, string)>, csv: Result<map<string, Value>>,
                               json: Result<map<string, Value>>, modelName: string)
    requires CreateMetricsData(pr, csv, json, modelName).Ok?
    ensures var r := CreateMetricsData(pr, csv, json, modelName);
      && r.value.Dict? && "ID" in r.value.fields && "source" in r.value.fields
      && r.value.fields["ID"] == Str(pr.value.1 + "_" + modelName)
      && r.value.fields["source"].Dict?
      && var source := r.value.fields["source"].fields;
         && "model_name" in source && source["model_name"] == Str(modelName)
         && "device" in source && source["device"] == Str(Device)
         && "pr_id" in source && source["pr_id"] == Str(pr.value.0.prId)
         && "commit_id" in source && source["commit_id"] == Str(pr.value.0.commitId)
  {
    var named := json.value["model_name" := Str(modelName)]["device" := Str(Device)];
    MergeMetricsSpec(csv.value, named);
    var full := MergeMetrics(csv.value, named).value;
    SourceKeepsPrFields(pr.value.0, full);
    assert full["model_name"] == Str(modelName);
    assert full["device"] == Str(Device);
    var source := PrInfoFields(pr.value.0) + full;
    assert source["model_name"] == Str(modelName) && source["device"] == Str(Device);
    var doc := map["ID" := Str(pr.value.1 + "_" + modelName), "source" := Dict(source)];
    assert CreateMetricsData(pr, csv, json, modelName) == Ok(Dict(doc));
  }

  /** The keys `parse_metrics_csv` can produce (data/data_processor.py:31-60). */
  const CsvMetricFields: set<string> := {
    "mean_e2el_ms", "median_e2el_ms", "p99_e2el_ms", "mean_ttft_ms", "median_ttft_ms", "p99_ttft_ms",
    "mean_tpot_ms", "median_tpot_ms", "p99_tpot_ms", "mean_itl_ms", "median_itl_ms", "p99_itl_ms",
    "total_input_tokens", "total_generated_tokens"}

  /** The keys `parse_metrics_json` can produce (data/data_processor.py:105-113). */
  const JsonMetricFields: set<string> := {
    "max_concurrency", "request_throughput", "total_input_tokens", "total_generated_tokens",
    "input_token_throughput", "output_token_throughput", "total_token_throughput"}

  /** Neither parser produces `status` or `request_rate`, so whatever the
      files hold, a document can never be assembled: the merge always
      reports those two fields missing. */
  lemma NeverComplete(info: PrInfo, commitId: string, csv: map<string, Value>, json: map<string, Value>, modelName: string)
    requires csv.Keys <= CsvMetricFields && json.Keys <= JsonMetricFields
    ensures var r := CreateMetricsData(Ok((info, commitId)), Ok(csv), Ok(json), modelName);
      r.Raise? && r.exc.ValueError? && "status" in r.exc.items && "request_rate" in r.exc.items
  {
    var named := json["model_name" := Str(modelName)]["device" := Str(Device)];
    StatusNotParsed();
    RequestRateNotParsed();
    assert "status" !in csv && "status" !in named;
    assert "request_rate" !in csv && "request_rate" !in named;
    assert MetricFields[2] == "status" && MetricFields[3] == "request_rate";
    MergeMetricsSpec(csv, named);
  }

  lemma StatusNotParsed()
    ensures "status" !in CsvMetricFields && "status" !in JsonMetricFields
  {
  }

  lemma RequestRateNotParsed()
    ensures "request_rate" !in CsvMetricFields && "request_rate" !in JsonMetricFields
  {
  }
}
