# Performance dashboard: request handling and ingestion, modelled in Dafny

The dashboard compares the serving benchmarks of an inference engine
(latency percentiles, token and request throughput) between two points in
time. This project models in Dafny the parts of it that transform data, and
proves what they guarantee:

- **Requests** (`api_utils.py`):
  - the validation of the query parameters (`check_input_params`);
  - the search filter sent to the record store (`build_es_query`);
  - the guarded field access, the millisecond-to-second conversion and the ISO date-to-epoch conversion;
  - the commit list per model, with repeated (hash, time) pairs removed (`process_commit_response`);
  - the before/after comparison. It keeps the usable hits, groups them by model, takes the record nearest each target time (the first wins a tie) and orders the two by time. It then renders every metric as `old→new` (`process_data_details_compare_response`, `map_compare_pair_response`);
  - the detail rows (`map_data_details`, `_process_compare_response`).
- **Ingestion** (`data/data_processor.py`):
  - reading a stored record's `ID`;
  - the list-and-ID-set admission `ensure_unique_id`, modelled as a class whose method updates both fields in place;
  - the pull-request record checks;
  - the metric merge;
  - the stored document with its composite ID `commit_id + "_" + model_name`.
- **Local server** (`data/main.py`):
  - the per-record normalisation of the metrics file. Its defaults are `unknown_commit`, `unknown_model`, engine version 0 and timestamp 0;
  - the time, engine and model filter;
  - the three endpoints: commits grouped by model, raw records, and records mapped through `DETAILS_FIELD_MAPPING`.
- **The older ingestion script** (root `data_processor.py`):
  - the `YYYYMMDD` date and `HHMMSS` time reformatting;
  - the plain metric merge;
  - the composite ID;
  - the CSV key naming loop;
  - the three-file presence check.

Python values are one datatype (`PyValues.Value`). Truthiness, dictionary
`get`, subscripting, `in`, and the hash-equality of keys (`1`, `1.0` and
`True` are one key) are written out, so each operation follows its source
branch by branch. An exception that escapes is the `Raise` case of
`PyValues.Result`.

`datetime.strptime` is modelled generically (`Strptime`), as Python's
`_strptime` regular expression. Each directive is a list of alternatives
tried in order, with backtracking. Literals match case-insensitively, and
format white space matches `\s+`. Then come the end-of-string check and the
calendar check. `strftime` and the proleptic Gregorian calendar
(`Calendar`) come with round-trip proofs.

The loops of the source are `while` loops in methods, each proved equal to a
specification function. The properties are proved about those functions:
- `BuildEsQuery`, `ProcessCommitResponse`, `KeepComplete`, `ProcessRecords`, `GroupCommits`;
- `ProcessDataDetailsCompare`, `KeepValid`, `GroupByModel`, `PairRows`;
- `LoadAndPreprocessMetrics`, `FilterData`, `GetCommitsList`, `GetModelDetailList`, `FillDetail`, `GetModelDetailsList`;
- `CheckModelFiles`, `ParseCsvMetrics`.

The comparison follows the code, including where the expectations in
`test/test_api_utils.py` differ from it:
- rows are paired per model name only (api_utils.py:287-292). The tests at test/test_api_utils.py:209-225 expect one row per model and request rate.
- a missing side renders as `0.00` (api_utils.py:219-222). The tests at test/test_api_utils.py:193-206 expect `null`.
- rows come in first-seen model order and are not sorted (api_utils.py:299-313). The test at test/test_api_utils.py:282-295 expects them sorted.
- no record is checked for `tp`, `request_rate` or `commit_id` before pairing (api_utils.py:267-281).

`size` is passed through unchanged unless it is None (api_utils.py:42).

Two more behaviours of the code are kept as written:
- `check_input_params` subscripts `params["size"]`, so a request without a `size` key raises KeyError (`ApiParams.CheckInputParams`).
- `data/data_processor.py` cannot assemble a document at all. `Metric` requires `status` and `request_rate`, and neither parser produces them (`Ingest.NeverComplete`).

## Model

| member | source | states |
|---|---|---|
| PyValues.Numeric | api_utils.py:175 | a value is a number exactly when it is a bool, int or float (`isinstance(v, (int, float))`), and the number is its own value |
| PyValues.HashKey | api_utils.py:143-144 | a value is hashable exactly when it is not a list or a dictionary |
| PyValues.Or | api_utils.py:225-228 | `a or b` is truthy iff either is, and is `a` when `a` is truthy |
| PyValues.Contains | api_utils.py:108 | `key in d` on a dictionary is key membership; only a dictionary, list or string can be asked |
| PyValues.Subscript | api_utils.py:122 | `d[key]` succeeds exactly on a dictionary holding the key and yields its value |
| ApiParams.MissingKeys | api_utils.py:28-29 | the reported keys are exactly the required keys that are absent or None, in the order of the required list |
| ApiParams.MissingParamsExactly | api_utils.py:28-31 | the check refuses for missing keys iff some required key is absent or None, and then names every such key in the order startTime, endTime, models, engineVersion |
| ApiParams.CheckInputParams | api_utils.py:22-57 | a missing-parameters refusal comes exactly when a required key is missing |
| ApiParams.RequiredIn | api_utils.py:29-33 | with nothing missing, every required key can be subscripted |
| ApiParams.NonBlankNames | api_utils.py:33 | every kept model name is non-empty, trimmed and free of commas |
| ApiParams.NonBlankEmpty | api_utils.py:33-34 | the model list is empty exactly when every comma-separated piece is blank |
| ApiParams.ModelListSpec | api_utils.py:33-35 | the split-and-strip list holds only clean names, and is empty iff every piece strips to nothing |
| ApiParams.ModelListJoin | api_utils.py:33 | a list of clean names joined by commas splits back into the same list |
| ApiParams.NonBlankKeeps | api_utils.py:33 | pieces that are already clean are all kept, unchanged |
| ApiParams.OnlySeparators | api_utils.py:33-35 | a `models` string of only commas and white space, such as `",,"`, gives no names |
| ApiParams.SeparatorsRefused | api_utils.py:33-35 | such a `models` string is refused as an empty model list |
| ApiParams.Greater | api_utils.py:50 | `a > b` compares numbers by value, strings by code points and two lists item by item; any other pair raises TypeError, and TypeError is the only error it raises |
| ApiParams.ListsCompared | api_utils.py:50 | two lists that agree up to the shorter one's length compare by length; otherwise the first pair of items that are not `==` decides |
| ApiParams.GreaterIrreflexive | api_utils.py:50 | no value is greater than itself |
| ApiParams.RangeDecides | api_utils.py:49-57 | after the earlier checks, a True comparison refuses the range, a False one accepts, and a comparison error escapes |
| ApiParams.ListTimes | api_utils.py:49-57 | list-valued times are compared: `[2]` against `[1]` is a reversed range, and `[1]` against `[1]` is accepted |
| PyValues.EqualKeys | api_utils.py:50 | on hashable values, `==` agrees with key identity (`1 == 1.0 == True`) |
| PyValues.EqualReflexive | api_utils.py:50 | every value is `==` to itself |
| ApiParams.AcceptedSpec | api_utils.py:37-57 | acceptance means every required key present and not None; an engine version among 0, 1, 2; start not after end; a non-empty list of trimmed names; `size` 10000 when given as None |
| ApiParams.EngineBeforeRange | api_utils.py:45-51 | a bad engine version is reported even when the time range is also reversed |
| EsQuery.TimestampText | api_utils.py:87-90 | the bound text exists exactly for instants a pandas timestamp can hold, and it is the ISO rendering of that instant's UTC date and time |
| EsQuery.TimestampTextRoundTrip | api_utils.py:87-90 | the bound text converts back, by the record-side ISO conversion, to the same epoch second |
| EsQuery.Bound | api_utils.py:86-91 | a bound is present exactly for a truthy time, and fails exactly when its instant is out of range |
| EsQuery.BuildEsQuery | api_utils.py:60-96 | the appending loop returns exactly the specified query |
| EsQuery.QuerySpec | api_utils.py:60-96 | the definition of the query `build_es_query` returns; only an unrepresentable given time raises, and a conjunction is never empty. Its clauses are described by QueryParts, QueryClauseOrder, QueryClausePresence, QueryClauseValues and QueryMatchAll |
| EsQuery.QueryRaises | api_utils.py:84-91 | building fails only for a given time pandas cannot hold |
| EsQuery.QuerySpecRaises | api_utils.py:86-91 | the start's error is reported first, then the end's |
| EsQuery.QueryMatchAll | api_utils.py:96 | the query is `match_all` iff no model list, engine version, start or end is given |
| EsQuery.QueryParts | api_utils.py:69-94 | the clause list is the terms part, then the term part, then the range part, each present iff its input is given |
| EsQuery.QueryClauseOrder | api_utils.py:72-94 | the clauses come in the order terms, term, range, and the list is non-empty |
| EsQuery.QueryClausePresence | api_utils.py:72-94 | terms is present iff a non-empty model list is given; term iff the engine version is truthy; range iff start or end is given |
| EsQuery.QueryClauseValues | api_utils.py:72-94 | terms carries the model names and term the engine version; the range has `gte` iff a start and `lte` iff an end is given, each the text of its time |
| EsResponse.HitsValue | api_utils.py:105 | the hit list is `hits.hits`, empty when `hits` is absent; a non-dictionary level raises AttributeError |
| EsResponse.Iterate | api_utils.py:105 | a list yields its elements; an empty string or dictionary yields none; anything else raises |
| EsResponse.SourceOf | api_utils.py:106 | a hit yields `_source.source` exactly when both levels are dictionaries |
| EsResponse.ResponseRecords | api_utils.py:205-209 | walking a response built from records yields exactly those records |
| Records.SafeGet | api_utils.py:154-164 | a non-dictionary gives the default; a dictionary gives `get(key, default)` |
| Records.MsToS | api_utils.py:167-176 | None exactly for a non-number; a number gives `ms / 1000` rounded to hundredths, within 0.005 |
| Records.MsToSExact | api_utils.py:176 | a duration of whole tens of milliseconds converts without loss |
| Records.IsoTimestamp | api_utils.py:179-192 | None for a falsy value or a rejected string; TypeError exactly for a truthy non-string; otherwise the parsed instant's epoch seconds |
| Records.IsoTimestampRoundTrip | api_utils.py:186-190 | an ISO rendering converts to its own epoch seconds, and those seconds give back the date and time |
| Records.IsoTimestampRejects | api_utils.py:186-192 | a string holding `/`, `.`, `Z` or any other character outside the ISO form (digits, a space, `-`, `:`, and `T` or `t`) converts to None |
| Records.PairSide | api_utils.py:220-221 | a side is its number when numeric, 0.0 otherwise |
| Records.FormatPairRoundTrip | api_utils.py:219-222 | each side of `old→new` reads back as its number rounded to hundredths |
| Records.MapComparePair | api_utils.py:214-256 | a comparison row has one cell per metric column |
| Records.ComparePairIdentity | api_utils.py:225-228 | each identity field is the older record's value when truthy, the newer's otherwise |
| Records.ComparePairMetrics | api_utils.py:229-255 | every metric cell decodes to the two sides' values rounded to hundredths; latency is converted to seconds first |
| Records.SelfPair | api_utils.py:219-255 | comparing a record with itself gives `x→x` in every cell |
| Records.ComparePairNonDict | api_utils.py:162-163 | a side that is not a dictionary gives the same row as an empty record |
| Records.ComparePairRepeats | api_utils.py:243-255 | `requests_req_s` and `tokens_tok_s` repeat the request and total throughput cells |
| Records.MapDataDetails | api_utils.py:318-338 | a detail row fails exactly when the `merged_at` conversion raises; its time is that conversion; it has one value per column |
| Records.DetailColumnsSpec | api_utils.py:320-338 | each column copies its record field and latency is converted; a non-dictionary record gives no time and only None |
| Records.DetailsOf | api_utils.py:207-211 | one row per hit when nothing raises |
| Records.ProcessDataDetailsResponse | api_utils.py:341-343 | a response with no `hits` gives no rows |
| Records.DetailsOfRecords | api_utils.py:207-211 | over a built response, row i is the mapping of record i |
| Records.ProcessDataDetailsRecords | api_utils.py:195-211 | the detail endpoint returns, in order, the mapping of each record of the response |
| CompareEngine.Stamp | api_utils.py:268-281 | a kept hit has a truthy model and merge time and a non-zero timestamp, which is its merge time's epoch seconds |
| CompareEngine.ValidOf | api_utils.py:267-281 | every kept record has a truthy model and a non-zero timestamp derived from its merge time |
| CompareEngine.ValidOfRaises | api_utils.py:267-281 | once a prefix of the hits raises, the whole walk raises the same |
| CompareEngine.ValidOfKeeps | api_utils.py:281 | a hit whose stamped record is produced is among the kept records |
| CompareEngine.EpochRecordDropped | api_utils.py:277-280 | a record merged exactly at 1970-01-01T00:00:00 gets timestamp 0 and is dropped |
| CompareEngine.KeyedOf | api_utils.py:288-292 | the keys are the models of the kept records, in order; an unhashable model raises TypeError |
| CompareEngine.KeyedOfRaises | api_utils.py:288-292 | the first unhashable model decides the error |
| CompareEngine.Nearest | api_utils.py:301-303 | the chosen record is at least distance from the target, strictly nearer than every earlier one, so the first wins a tie |
| CompareEngine.ChosenPair | api_utils.py:301-310 | the pair is the records nearest start and end, the earlier one first |
| CompareEngine.Rows | api_utils.py:299-313 | one row per model in the table order |
| CompareEngine.GroupStage | api_utils.py:287-292 | the groups form a consistent ordered dictionary with no empty list |
| CompareEngine.ProcessDataDetailsCompare | api_utils.py:259-315 | the three loops return exactly the specified rows |
| CompareEngine.CompareSpec | api_utils.py:259-315 | the definition of what the comparison endpoint returns; a non-empty answer means both targets were present and numeric. CompareRowsSpec, CompareEmpty and CompareSameTarget state its rows |
| CompareEngine.KeepValid | api_utils.py:267-281 | the filtering loop yields exactly the kept records |
| CompareEngine.GroupByModel | api_utils.py:287-292 | the grouping loop yields exactly the grouping of the kept records |
| CompareEngine.PairRows | api_utils.py:295-313 | the pairing loop yields exactly one pair row per group |
| CompareEngine.CompareRowsSpec | api_utils.py:283-313 | one row per distinct model, in first-seen order; each row pairs the records of that model nearest start and end, earlier first; both targets must be present and numeric |
| CompareEngine.CompareEmpty | api_utils.py:283-284 | no usable record gives no rows, whatever the targets |
| CompareEngine.CompareSameTarget | api_utils.py:301-313 | equal targets choose one record for both sides, so every metric cell is a self pair |
| Commits.AllIn | api_utils.py:107-108 | on a dictionary, true iff every required field is a key |
| Commits.KeptSources | api_utils.py:104-111 | every kept record has all five required fields |
| Commits.KeptSourcesRaises | api_utils.py:104-111 | once a prefix raises, the whole walk raises the same |
| Commits.KeptSourcesKeeps | api_utils.py:108-111 | a record with all required fields is kept |
| Commits.Processed | api_utils.py:114-130 | a merge time that does not coerce is skipped; a kept entry carries the record's model, branch, device and hash, with the time in whole seconds rounded down |
| Commits.ProcessedAll | api_utils.py:114-130 | every produced entry comes from a record whose merge time was naive |
| Commits.ProcessedAllRaises | api_utils.py:114-130 | the first uncaught error decides the outcome |
| Commits.ProcessedAllKeeps | api_utils.py:114-130 | every record that step 2 turns into an entry contributes that entry |
| Commits.KeyedCommits | api_utils.py:136-141 | keying fails only with TypeError, for an unhashable model or hash |
| Commits.KeyedCommitsSpec | api_utils.py:136-141 | keying succeeds exactly when every model and every hash is hashable |
| Commits.KeyedCommitsRaises | api_utils.py:136-141 | the first unhashable entry decides the error |
| Commits.Dedup | api_utils.py:141-151 | a model's list is never longer than its entries |
| Commits.DedupSpec | api_utils.py:141-151 | the list keeps every (hash, time) pair of the entries, each once, as a subsequence |
| Commits.DedupKeepsFirst | api_utils.py:141-145 | the first entry with a given pair is the one kept |
| Commits.KnownModelStep | api_utils.py:138-151 | for a model already seen, the loop body appends exactly when the pair is new, and keeps the seen-set in step |
| Commits.NewModelStep | api_utils.py:137-151 | a first-seen model gets a one-entry list and a one-pair seen-set |
| Commits.CommitLoopSpec | api_utils.py:133-151 | the grouping loop builds exactly the deduplicated grouping of the entries |
| Commits.CommitRow | api_utils.py:133-151 | a model's list is the deduplication of its entries |
| Commits.CommitListsSpec | api_utils.py:133-151 | the models come in first-seen order; each list is a subsequence of its entries, holds each of their pairs once, and keeps the first entry of each pair |
| Commits.CommitFromRecord | api_utils.py:104-151 | every listed commit comes from a kept record of that model with all five fields and a naive merge time |
| Commits.CommitListed | api_utils.py:104-151 | every kept record with a naive merge time is listed: its (hash, time) pair is in its model's list |
| Commits.KeyedListed | api_utils.py:133-149 | every keyed entry's pair is in the list of its key |
| Commits.ProcessCommitResponse | api_utils.py:99-151 | the endpoint returns exactly the specified table |
| Commits.CommitSpec | api_utils.py:99-151 | the definition of the commit table the endpoint returns, with its models listed once each; CommitListsSpec, CommitFromRecord and CommitListed state its contents |
| Commits.KeepComplete | api_utils.py:104-111 | the filtering loop yields exactly the kept records |
| Commits.ProcessRecords | api_utils.py:114-130 | the conversion loop yields exactly the specified entries |
| Commits.GroupCommits | api_utils.py:133-151 | the grouping loop, with its seen-pairs sets, yields exactly the deduplicated table |
| Grouping.FirstSeen | api_utils.py:288-292 | the distinct keys in first-occurrence order, a subsequence covering every key |
| Grouping.FirstSeenOrder | api_utils.py:290-291 | the dictionary's keys are ordered by their first occurrences |
| Grouping.MembersSpec | api_utils.py:292 | a key's list holds exactly the items with that key, in order |
| Grouping.GroupLoopIsGroupBy | api_utils.py:287-292 | the append loop builds exactly the grouping |
| Grouping.GroupByCovers | data/main.py:144-146 | every item lands in the list of its key |
| Grouping.GroupBySizes | data/main.py:132-146 | the list lengths add up to the number of items |
| Grouping.GroupsNonEmpty | api_utils.py:290-292 | no group is empty |
| FixedPoint.RoundHalfEven | api_utils.py:176 | the result is within one half of `x`, and a tie goes to the even neighbour |
| FixedPoint.RoundNearest | api_utils.py:176 | no integer is nearer to `x` than the rounded value |
| FixedPoint.Round2 | api_utils.py:176 | `round(x, 2)` is within half a hundredth of `x` |
| FixedPoint.Fixed2RoundTrip | api_utils.py:222 | `"{:.2f}"` shows exactly the rounded count of hundredths |
| Calendar.CivilFromEpoch | api_utils.py:87-90 | an instant's date has a real month and day, and its time of day is in range |
| Calendar.EpochOfCivil | api_utils.py:87-90 | converting an instant to a date and time and back gives the same instant |
| Calendar.CivilOfEpoch | api_utils.py:189-190 | every valid date and time is recovered from its epoch seconds |
| Calendar.SameDayOrder | data/main.py:73-75 | on one day, epoch seconds differ by the difference in time of day |
| Calendar.DaysBeforeYearClosed | api_utils.py:190 | the days before a year are 365 per year plus one per leap year passed |
| Calendar.TimestampYears | api_utils.py:87-90 | the instants a pandas timestamp can hold fall in the years 1677 to 2262 |
| Strptime.Parse | api_utils.py:189 | a successful parse is a valid date and time |
| Strptime.ParseRender | api_utils.py:189 | parsing a rendering gives back the fields the format names, with defaults for the others |
| Strptime.ParsedChars | api_utils.py:189 | an accepted string consists only of characters the format allows |
| Strptime.IsoRejects | api_utils.py:189-192 | the ISO form rejects any string holding a character other than a digit, a space, `-`, `:`, or `T` in either case (the pattern ignores case) |
| Strptime.IsoRoundTrip | api_utils.py:189 | every valid date and time survives the ISO rendering and parse |
| Text.StripSpec | api_utils.py:33 | `strip` removes exactly the leading and trailing white space |
| Text.StripEmpty | api_utils.py:33 | a string strips to nothing iff it is all white space |
| Text.StripIdempotent | api_utils.py:33 | stripping twice is stripping once |
| Text.JoinSplit | api_utils.py:33 | joining the pieces of a split gives back the string |
| Text.SplitJoin | api_utils.py:33 | splitting a join of separator-free pieces gives back the pieces |
| Text.RemoveAllTrailing | data_processor.py:33-37 | removing a unit that occurs only at the end leaves the number text |
| Text.LexLessTransitive | api_utils.py:50 | string order is transitive |
| Ingest.ExtractId | data/data_processor.py:486-500 | succeeds exactly for a dictionary with `ID` or a list whose first item is one, and returns that `ID`; an empty list, a missing `ID` or another type raises (the copy at data_processor.py:396-410 is identical) |
| Ingest.ExtractIdWrapped | data/data_processor.py:486-498 | a record wrapped in a one-element list yields the same ID as the record |
| Ingest.IdKey | data/data_processor.py:517-522 | an item has a set member exactly when its `ID` is truthy and hashable |
| Ingest.Admission | data/data_processor.py:517-529 | ValueError iff the `ID` is missing or falsy; TypeError iff it is unhashable; True iff it is new; False iff it is known |
| Ingest.IndexedSnoc | data/data_processor.py:526-529 | admitting a new ID keeps the list and set in step: every item has an ID, no two share one, the set holds exactly their IDs |
| Ingest.AdmissionOnce | data/data_processor.py:522-524 | once admitted, the same ID is answered False |
| Ingest.IdIndex.constructor | data/data_processor.py:502-506 | the index starts from the given list and set |
| Ingest.IdIndex.EnsureUniqueId | data/data_processor.py:502-529 | appends the item and adds its ID exactly when the ID is new, otherwise changes nothing; keeps the list and set in step |
| Ingest.Lacking | data/data_processor.py:166-167 | nothing lacks iff every name is a key |
| Ingest.LackingMembers | data/data_processor.py:166 | the lacking names are exactly the names that are not keys |
| Ingest.LackingSorted | data/data_processor.py:168 | leaving names out of a sorted list keeps it sorted |
| Ingest.BlankAmong | data/data_processor.py:170-171 | no blank field iff every field prints as non-blank |
| Ingest.BlankAmongMembers | data/data_processor.py:170 | the blank fields are exactly those whose text strips to nothing |
| Ingest.Stripped | data/data_processor.py:174 | `.strip()` succeeds exactly on a string and strips it; otherwise AttributeError |
| Ingest.ParsePrJson | data/data_processor.py:149-191 | the definition of `parse_pr_json`: a non-dictionary raises ValueError; a success has every required field and returns the record's own commit id. ParsePrJsonAccepts, ParsePrJsonRecord, ParsePrJsonFilled, ParsePrJsonMissing and ParsePrJsonBlank state the rest |
| Ingest.PrStringsSpec | data/data_processor.py:183-189 | the record holds the stripped strings once they are all strings |
| Ingest.ParsePrJsonAccepts | data/data_processor.py:155-191 | a record is accepted iff it is a dictionary whose five fields are non-blank strings and whose stripped `created_at` has the ISO form |
| Ingest.ParsePrJsonRecord | data/data_processor.py:183-191 | an accepted record holds the stripped fields, and the returned commit id is the record's |
| Ingest.ParsePrJsonFilled | data/data_processor.py:162-172 | an accepted record has every required field, each a non-blank string |
| Ingest.ParsePrJsonMissing | data/data_processor.py:162-168 | a missing field raises ValueError naming every missing field, sorted |
| Ingest.ParsePrJsonBlank | data/data_processor.py:170-172 | with all fields present, a blank one raises ValueError naming exactly the blank fields |
| Ingest.MergeMetricsSpec | data/data_processor.py:193-206 | the merge succeeds iff the union has exactly the `Metric` fields; the JSON side wins; a missing field is reported with all the others missing |
| Ingest.MergeMetrics | data/data_processor.py:193-206 | the definition of `merge_metrics`: a success has exactly the union's keys, all of them `Metric` fields; it fails only with ValueError or TypeError. MergeMetricsSpec and NeverComplete state the rest |
| Ingest.CreateMetricsData | data/data_processor.py:208-240 | the definition of `create_metrics_data`: a document has exactly `ID` and `source`, with the ID `commit_id + "_" + model_name`. CreateMetricsDataShape, CreateMetricsDataErrors and SourceKeepsPrFields state the rest |
| Ingest.CreateMetricsDataErrors | data/data_processor.py:217-219 | the parsers' failures come first, in the order they run |
| Ingest.SourceKeepsPrFields | data/data_processor.py:231-234 | the document source keeps the PR fields beside the metrics |
| Ingest.CreateMetricsDataShape | data/data_processor.py:221-240 | the ID is `commit_id + "_" + model_name`; the source carries the PR fields, the model name and the device `Ascend910B3` |
| Ingest.NeverComplete | data/data_processor.py:193-225 | for whatever keys the two parsers can produce, the merge reports `status` and `request_rate` missing |
| LocalServer.PrTimestampRendered | data/main.py:67-75 | a `YYYY-MM-DD` date and an `HH:MM:SS` time give the epoch seconds of that instant |
| LocalServer.PrTimestamp | data/main.py:67-77 | the definition of `pr_timestamp`: 0 for a falsy date, and a non-zero value only for a date and time that parse as `%Y-%m-%d %H:%M:%S`. PrTimestampRendered, PrTimestampOfStrings and PrTimestampMidnight state the rest |
| LocalServer.PrTimestampOfStrings | data/main.py:71-75 | a non-empty date is joined to the time with one space and parsed |
| LocalServer.PrTimestampMidnight | data/main.py:68 | with the default time, the record is dated at midnight |
| LocalServer.SpacedRoundTrip | data/main.py:74 | the `%Y-%m-%d %H:%M:%S` rendering parses back to the same date and time |
| LocalServer.ProcessItem | data/main.py:61-86 | normalisation succeeds exactly when the item and its `source` are dictionaries; it fails only with AttributeError |
| LocalServer.ProcessItemDefaults | data/main.py:62-86 | missing commit id, model name and engine version read as `unknown_commit`, `unknown_model` and 0; a record without a date is dated 0; the raw record is kept |
| LocalServer.Items | data/main.py:56 | a top-level dictionary is read as a one-record list; a list gives its records |
| LocalServer.ProcessAllSpec | data/main.py:60-89 | the list succeeds iff every record normalises; record i gives entry i |
| LocalServer.PreprocessedDict | data/main.py:56-89 | a file holding one dictionary is read as a one-record list |
| LocalServer.LoadAndPreprocessMetrics | data/main.py:48-89 | the loading loop returns exactly the specified records or the first error |
| LocalServer.FilteredSpec | data/main.py:99-111 | the kept records are an order-preserving subsequence holding exactly the records in the closed time range, with equal engine version and a matching model (or `all`) |
| LocalServer.FilterData | data/main.py:92-111 | the filter loop returns exactly the filtered list |
| LocalServer.Filtered | data/main.py:92-111 | the definition of `filter_data`: no longer than its input, and every record kept passes the three conditions. FilteredSpec states the converse and the order |
| LocalServer.SourceOf | data/main.py:135 | `item["raw"]["source"]` succeeds exactly for a dictionary source; a missing one raises KeyError |
| LocalServer.CommitsKeyedSpec | data/main.py:133-142 | entry i comes from record i, is filed under its model name and carries its timestamp |
| LocalServer.CommitsListSpec | data/main.py:127-146 | no match gives the no-data message; otherwise the groups follow first-seen order without removing repeats, so their lengths sum to the number of matching records |
| LocalServer.GetCommitsList | data/main.py:116-148 | the endpoint's loop returns exactly the specified reply |
| LocalServer.CompareDetailSpec | data/main.py:175-180 | a compare detail is every source field plus `ID`, the record's ID or `unknown_id` unless the source has its own |
| LocalServer.CompareDetailsSpec | data/main.py:173-182 | detail i is the mapping of record i; the list fails iff some record fails |
| LocalServer.GetModelDetailList | data/main.py:153-182 | the endpoint's loop returns exactly the specified reply |
| LocalServer.DetailsFieldsDistinct | data/main.py:28-46 | no response field of the mapping appears twice |
| LocalServer.FillSpec | data/main.py:218-223 | with distinct fields, the detail holds exactly the mapped fields, each with its entry's value |
| LocalServer.DetailShape | data/main.py:215-223 | a details item has exactly the mapping's fields; `time` is the preprocessed timestamp and every other field is the source value or the mapping's default |
| LocalServer.FillDetail | data/main.py:215-223 | the inner loop builds exactly that item |
| LocalServer.DetailRowsSpec | data/main.py:212-225 | one details item per record, in order, each from its record's source |
| LocalServer.GetModelDetailsList | data/main.py:186-227 | the endpoint's loops return exactly the specified reply |
| LocalServer.DetailEndpointsSingleModel | data/main.py:160-161 | both detail endpoints refuse `all` before loading, and every record they answer with is of the requested model |
| Legacy.MergeMetricsSpec | data_processor.py:107-109 | a plain union: every key of either side, the JSON value winning |
| Legacy.MergeMetrics | data_processor.py:107-109 | the definition of the root `merge_metrics`: its keys are those of either side. MergeMetricsSpec states the values |
| Legacy.MissingOfDict | data_processor.py:75 | on a dictionary, the missing names are the names that are not keys, in order |
| Legacy.CheckPr | data_processor.py:73-92 | the definition of the root checks: a success is a dictionary with `pr_date`, holding the reformatted date and time. ParsePrJsonMissing and PrDateRejects state the failures |
| Legacy.ParsePrJsonAsWritten | data_processor.py:63-104 | the definition of the root `parse_pr_json` as written: it never returns. ParsePrJsonAsWrittenRaises and ParsePrJsonAsWrittenRejectsValid state why |
| Legacy.ParsePrJson | data_processor.py:63-104 | the definition of the corrected parse: it fails as the checks fail, and a success carries the same commit id in the record and beside it. ParsePrJsonResult states the rest |
| Legacy.ParsePrJsonMissing | data_processor.py:74-77 | a record lacking required fields raises ValueError naming exactly the missing ones |
| Legacy.ParsePrJsonResult | data_processor.py:74-104 | the corrected parse succeeds iff the checks pass; it returns the raw `commit_id` in the record and beside it, the raw `pr_id`, the checked date and time, and the submitter as author |
| Legacy.ParsePrJsonAsWrittenRaises | data_processor.py:95-102 | as written, the parse never returns; every record that passes the checks ends in TypeError |
| Legacy.ParsePrJsonAsWrittenRejectsValid | data_processor.py:95-104 | a well-formed record raises as written but parses under the correction, with its own commit id, PR id and reformatted date |
| Legacy.PrDateRoundTrip | data_processor.py:81 | a `YYYYMMDD` date is rewritten `YYYY-MM-DD` for the same day |
| Legacy.PrDate | data_processor.py:80-83 | the definition of the date rewrite: it succeeds iff the value is a string that parses as `%Y%m%d`, and fails only with TypeError or ValueError. PrDateRoundTrip and PrDateRejects state the rest |
| Legacy.PrDateRejects | data_processor.py:80-83 | a date holding anything but digits and spaces raises ValueError |
| Legacy.LastSix | data_processor.py:89 | `s[-6:]` is the last six characters, or all of a shorter string |
| Legacy.PrTimeRoundTrip | data_processor.py:86-92 | any stamp ending in `HHMMSS` gives `HH:MM:SS` of that time |
| Legacy.PrTime | data_processor.py:86-92 | the definition of the time rewrite: None iff `pr_time` is absent or falsy, and it fails only with TypeError or ValueError. PrTimeRoundTrip states the rewrite |
| Legacy.PrTimeAbsent | data_processor.py:86-87 | without a truthy `pr_time` the record has no time |
| Legacy.CompositeId | data_processor.py:136 | for a string commit id, the ID is `commit_id + "_" + model_name` |
| Legacy.CreateMetricsDataShape | data_processor.py:131-147 | the document has exactly `ID` and `source`; the ID is the composite ID; the source is the PR fields overlaid with the metrics |
| Legacy.CreateMetricsData | data_processor.py:112-147 | the definition of the root `create_metrics_data`: a document has exactly `ID` and `source`, and only a successful PR parse gives one. CreateMetricsDataShape and CreateMetricsDataErrors state the rest |
| Legacy.CreateMetricsDataErrors | data_processor.py:131-133 | the first input that fails decides the error |
| Legacy.AllEntries | data_processor.py:257 | the entry of each path is `<kind without _path>：<path>` |
| Legacy.MissingEntriesSpec | data_processor.py:253-257 | the entries list the missing paths in order and nothing else; there are none iff every path exists |
| Legacy.FileLabel | data_processor.py:257 | the labels are `csv`, `metrics_json` and `pr_json` |
| Legacy.PathJoin | data_processor.py:247-251 | the definition of POSIX `os.path.join` for two parts: the result ends with the second part, and starts with the first unless the second is absolute |
| Legacy.CheckModelFiles | data_processor.py:234-259 | returns the three paths in order, the entries of the missing ones, and validity iff every path exists |
| Legacy.CsvFoldKeys | data_processor.py:25-39 | the keys written are exactly those the rows name |
| Legacy.CsvKeysNamed | data_processor.py:29-37 | every key is `avg_` or `p99_` plus a lower-cased latency parameter, or `output_token_throughput` |
| Legacy.CsvRowIgnored | data_processor.py:29-37 | a row of any other parameter changes nothing |
| Legacy.LatencyKeyNames | data_processor.py:29-31 | the latency keys are `avg_e2el`, `p99_e2el`, `avg_ttft`, `p99_ttft`, `avg_tpot`, `p99_tpot`, `avg_itl`, `p99_itl` |
| Legacy.UnitDropped | data_processor.py:33-34 | a value with its ` ms` unit is read without the unit |
| Legacy.ParseCsvMetrics | data_processor.py:14-39 | the row loop returns exactly the specified metrics |
| Legacy.CsvFoldRaises | data_processor.py:26-37 | the first row that fails to convert decides the error |

## Left out

- Reading and writing files, `json.load`, `pd.read_csv`, `os.path.exists`, the record-store client and logging are left out. What they produce is an input: a parsed document (or None for invalid JSON), the CSV rows as `Legacy.CsvRow`, a `present` predicate on paths, and `float()` as a `toFloat` parameter.
- `pd.to_datetime(errors="coerce")` in `process_commit_response` is a parameter (`Commits.Coerced`). Its many accepted input forms are not modelled.
- Local time: `datetime.timestamp()` uses the machine's time zone. Every conversion here reads the time as UTC.
- Floats are exact reals. `round(x, 2)` and `"{:.2f}"` round the exact value half-to-even. Binary floating-point representation error is not modelled.
- Digits are ASCII. Python's `\d` also accepts other Unicode digits.
- `str()` of a non-string is a parameter, `show`. Such a value is treated as non-blank, and in `data/main.py` as never having the date-and-time shape.
- `Ingest.ParsePrJsonBlank`: the blank-field message lists the fields in sorted order. The source iterates a set, whose order Python leaves unspecified.
- Slicing a `pr_time` that is a list or dictionary is modelled as TypeError.
- `os.path.join` is modelled for POSIX paths.
- The `file_paths` dictionary of `check_model_files` is returned as its ordered sequence of items.
- The unused `params` argument of `process_commit_response` is left out.
- `format_fail` is left out: it only wraps a message.
- Records.IsoTimestamp: the optional `fmt` argument of `_convert_datetime_to_timestamp` is fixed at its default `%Y-%m-%dT%H:%M:%S`, the only format any call site in the source uses. `Strptime.Parse` itself takes any format.
- Records.MsToS: the optional `default` of `_convert_ms_to_s` is fixed at None, as at every call site.
- Records.PairSide: the optional `default` of `_format_pair` is fixed at 0.0, as at every call site.
- Ingest.MergeMetricsSpec: `from data_models import Metric, PRInfo` in `data/data_processor.py` goes through the module search path. The model binds it to `data/data_models.py`. The root `data_models.py` has another `Metric`, and through it the merge would report other missing fields.
- These functions are orchestration or I/O and are not modelled:
  - `write_model_data_to_file`, `write_aggregated_files`, `_check_existing_id`;
  - `generate_metrics_data`, `batch_create_metrics_data`, `generate_single_model_data`;
  - `get_dynamic_paths`, `get_date_str`, `get_subdir_names`, `init_es_handler`.
- `parse_metrics_json` (both files) and the `parse_metrics_csv` of `data/data_processor.py` are left out: they convert report text with `float()` and `int()`. Only the key sets of `data/data_processor.py`'s parsers are used, for `Ingest.NeverComplete`.
- The root `data_processor.py` imports `create_metric_from_test_data`, which the root `data_models.py` does not define, so the module cannot be imported. The model describes its functions as if the import succeeded.
- Behaviour that appears only in the test expectations and not in the code is not modelled: the `"null"` sentinel, request-rate and `tp` checks, and sorted output.
- `CompareEngine.EpochRecordDropped` and `Legacy.ParsePrJsonAsWrittenRejectsValid` are stated for all inputs of their shape, not as single examples.

## Findings

| source | as written | input that shows it | evidently intended | confidence | as-written member | corrected member |
|---|---|---|---|---|---|---|
| data_processor.py:95-102 | `PRInfo(...)` is called without `commit_id`, a field with no default, so every record that passes the checks raises TypeError | `{"pr_id": "1", "commit_id": "abc", "pr_date": "20251022"}` | pass `commit_id=pr_data["commit_id"]`, which the returned pair and the record type carry | not executed | Legacy.ParsePrJsonAsWrittenRejectsValid | Legacy.ParsePrJsonResult |
