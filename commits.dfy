/** The commit-list endpoint (`process_commit_response`, api_utils.py):
    keep the stored records that carry the five commit fields, convert their
    merge time to epoch seconds, and list each model's commits in the order
    met, without repeating a (hash, time) pair within a model. */
module Commits {

  import opened Wrappers
  import opened PyValues
  import opened EsResponse
  import opened Grouping
  import opened Seqs

  const RequiredFields: seq<string> := ["model_name", "sglang_branch", "device", "commit_id", "merged_at"]

  const NsPerSecond: int := 1_000_000_000

  /** What `pd.to_datetime(value, errors="coerce")` gives for a merge time:
      NaT, a naive time as nanoseconds since the epoch, a time with a
      timezone, or an exception of its own. */
  datatype Coerced = NotATime | Naive(ns: int) | Aware | Fails(exc: PyException)

  /** A record after the renaming step: its model and its commit entry. */
  datatype Entry = Entry(model: Value, commit: Commit)

  /** One entry of a model's list: `{"branch", "device", "hash", "time"}`. */
  datatype Commit = Commit(branch: Value, device: Value, hash: Value, time: int)

  /** `all(f in source for f in fields)`, evaluated left to right and
      stopping at the first field that is not there. */
  function AllIn(source: Value, fields: seq<string>): (r: Result<bool>)
    ensures source.Dict? ==> r == Ok(forall i :: 0 <= i < |fields| ==> fields[i] in source.fields)
    ensures r.Raise? <==> fields != [] && !(source.Dict? || source.List? || source.Str?)
  {
    if fields == [] then Ok(true)
    else match Contains(source, fields[0])
      case Raise(e) => Raise(e)
      case Ok(b) =>
        if !b then Ok(false)
        else
          assert forall i :: 1 <= i < |fields| ==> fields[i] == fields[1..][i - 1];
          AllIn(source, fields[1..])
  }

  /** Step 1: the stored records that have every required field, in hit
      order; the first hit that raises ends the call. */
  function KeptSources(hits: seq<Value>): (r: Result<seq<Value>>)
    ensures r.Ok? ==> |r.value| <= |hits|
    ensures r.Ok? ==> forall j :: 0 <= j < |r.value| ==> AllIn(r.value[j], RequiredFields) == Ok(true)
  {
    if hits == [] then Ok([])
    else match KeptSources(hits[..|hits| - 1])
      case Raise(e) => Raise(e)
      case Ok(kept) =>
        match SourceOf(hits[|hits| - 1])
        case Raise(e) => Raise(e)
        case Ok(source) =>
          match AllIn(source, RequiredFields)
          case Raise(e) => Raise(e)
          case Ok(all) => if all then Ok(kept + [source]) else Ok(kept)
  }

  lemma {:induction false} KeptSourcesRaises(hits: seq<Value>, i: nat)
    requires i <= |hits| && KeptSources(hits[..i]).Raise?
    ensures KeptSources(hits) == KeptSources(hits[..i])
    decreases |hits| - i
  {
    if i < |hits| {
      assert hits[..i + 1][..i] == hits[..i];
      KeptSourcesRaises(hits, i + 1);
    } else {
      assert hits[..i] == hits;
    }
  }

  /** A hit whose record has all the required fields is kept. */
  lemma {:induction false} KeptSourcesKeeps(hits: seq<Value>, i: nat)
    requires i < |hits| && KeptSources(hits).Ok?
    requires SourceOf(hits[i]).Ok? && AllIn(SourceOf(hits[i]).value, RequiredFields) == Ok(true)
    ensures SourceOf(hits[i]).value in KeptSources(hits).value
  {
    var front := hits[..|hits| - 1];
    if i < |hits| - 1 {
      assert front[i] == hits[i];
      KeptSourcesKeeps(front, i);
    }
  }

  /** Step 2 for one record: a merge time that does not coerce to a time is
      a ValueError the loop catches, so the record is skipped; a time with
      a timezone cannot be subtracted from the naive epoch (TypeError); a
      naive time becomes whole seconds since the epoch, rounded down. */
  function Processed(record: Value, coerce: Value -> Coerced): (r: Result<Option<Entry>>)
    ensures r == Ok(None) <==>
      record.Dict? && "merged_at" in record.fields &&
      (coerce(record.fields["merged_at"]).NotATime? ||
       (coerce(record.fields["merged_at"]).Fails? && coerce(record.fields["merged_at"]).exc.ValueError?))
    ensures r.Ok? && r.value.Some? ==>
      && record.Dict? && var f, e := record.fields, r.value.value;
      && "model_name" in f && "sglang_branch" in f && "device" in f && "commit_id" in f && "merged_at" in f
      && coerce(f["merged_at"]).Naive?
      && e.commit.time * NsPerSecond <= coerce(f["merged_at"]).ns < (e.commit.time + 1) * NsPerSecond
      && e.model == f["model_name"] && e.commit.branch == f["sglang_branch"]
      && e.commit.device == f["device"] && e.commit.hash == f["commit_id"]
  {
    match Subscript(record, "merged_at")
    case Raise(e) => Raise(e)
    case Ok(m) =>
      match coerce(m)
      case NotATime => Ok(None)
      case Fails(e) => if e.ValueError? then Ok(None) else Raise(e)
      case Aware => Raise(TypeError)
      case Naive(ns) =>
        var f := record.fields;
        if "model_name" !in f then Raise(KeyError("model_name"))
        else if "sglang_branch" !in f then Raise(KeyError("sglang_branch"))
        else if "device" !in f then Raise(KeyError("device"))
        else if "commit_id" !in f then Raise(KeyError("commit_id"))
        else Ok(Some(Entry(f["model_name"], Commit(f["sglang_branch"], f["device"], f["commit_id"], ns / NsPerSecond))))
  }

  /** Step 2 over the kept records, in order. */
  function ProcessedAll(records: seq<Value>, coerce: Value -> Coerced): (r: Result<seq<Entry>>)
    ensures r.Ok? ==> |r.value| <= |records|
    ensures r.Ok? ==> forall j :: 0 <= j < |r.value| ==>
      exists i :: 0 <= i < |records| && Processed(records[i], coerce) == Ok(Some(r.value[j]))
  {
    if records == [] then Ok([])
    else
      var front := records[..|records| - 1];
      match ProcessedAll(front, coerce)
      case Raise(e) => Raise(e)
      case Ok(done) =>
        assert forall i :: 0 <= i < |front| ==> front[i] == records[i];
        match Processed(records[|records| - 1], coerce)
        case Raise(e) => Raise(e)
        case Ok(None) => Ok(done)
        case Ok(Some(x)) => Ok(done + [x])
  }

  lemma {:induction false} ProcessedAllRaises(records: seq<Value>, coerce: Value -> Coerced, i: nat)
    requires i <= |records| && ProcessedAll(records[..i], coerce).Raise?
    ensures ProcessedAll(records, coerce) == ProcessedAll(records[..i], coerce)
    decreases |records| - i
  {
    if i < |records| {
      assert records[..i + 1][..i] == records[..i];
      ProcessedAllRaises(records, coerce, i + 1);
    } else {
      assert records[..i] == records;
    }
  }

  /** A record that step 2 turns into an entry contributes that entry. */
  lemma {:induction false} ProcessedAllKeeps(records: seq<Value>, coerce: Value -> Coerced, i: nat)
    requires i < |records| && ProcessedAll(records, coerce).Ok?
    requires Processed(records[i], coerce).Ok? && Processed(records[i], coerce).value.Some?
    ensures Processed(records[i], coerce).value.value in ProcessedAll(records, coerce).value
  {
    var front := records[..|records| - 1];
    if i < |records| - 1 {
      assert front[i] == records[i];
      ProcessedAllKeeps(front, coerce, i);
    }
  }

  /** Step 3's keys: the model of each entry and its (hash, time) pair must
      both be hashable, or the dictionary and set lookups raise TypeError. */
  function KeyedCommits(entries: seq<Entry>): (r: Result<seq<Keyed<Commit>>>)
    ensures r.Raise? ==> r.exc == TypeError
  {
    if entries == [] then Ok([])
    else
      var e := entries[|entries| - 1];
      match KeyedCommits(entries[..|entries| - 1])
      case Raise(x) => Raise(x)
      case Ok(xs) =>
        match HashKey(e.model)
        case None => Raise(TypeError)
        case Some(k) =>
          if HashKey(e.commit.hash).None? then Raise(TypeError)
          else Ok(xs + [Keyed(k, e.model, e.commit)])
  }

  /** The keying succeeds exactly when every model and every hash is
      hashable, and then keys each entry by its model. */
  lemma {:induction false} KeyedCommitsSpec(entries: seq<Entry>)
    ensures KeyedCommits(entries).Ok? <==> forall j :: 0 <= j < |entries| ==>
      HashKey(entries[j].model).Some? && HashKey(entries[j].commit.hash).Some?
    ensures var r := KeyedCommits(entries);
      r.Ok? ==> |r.value| == |entries| && forall j :: 0 <= j < |entries| ==>
      r.value[j] == Keyed(HashKey(entries[j].model).value, entries[j].model, entries[j].commit)
  {
    if entries != [] {
      var front := entries[..|entries| - 1];
      assert forall j :: 0 <= j < |front| ==> front[j] == entries[j];
      KeyedCommitsSpec(front);
    }
  }

  lemma KeyedCommitsStep(entries: seq<Entry>, j: nat, xs: seq<Keyed<Commit>>)
    requires j < |entries| && KeyedCommits(entries[..j]) == Ok(xs)
    ensures KeyedCommits(entries[..j + 1]) ==
      if HashKey(entries[j].model).None? || HashKey(entries[j].commit.hash).None? then Raise(TypeError)
      else Ok(xs + [Keyed(HashKey(entries[j].model).value, entries[j].model, entries[j].commit)])
  {
    assert entries[..j + 1][..j] == entries[..j];
  }

  lemma {:induction false} KeyedCommitsRaises(entries: seq<Entry>, i: nat)
    requires i <= |entries| && KeyedCommits(entries[..i]).Raise?
    ensures KeyedCommits(entries) == KeyedCommits(entries[..i])
    decreases |entries| - i
  {
    if i < |entries| {
      assert entries[..i + 1][..i] == entries[..i];
      KeyedCommitsRaises(entries, i + 1);
    } else {
      assert entries[..i] == entries;
    }
  }

  /** The identity of an entry within its model's list. */
  function Pair(c: Commit): (Option<Key>, int)
  {
    (HashKey(c.hash), c.time)
  }

  function Pairs(cs: seq<Commit>): set<(Option<Key>, int)>
  {
    set i | 0 <= i < |cs| :: Pair(cs[i])
  }

  lemma EmptyPairs()
    ensures Pairs([]) == {}
  {
  }

  lemma PairsSnoc(cs: seq<Commit>, c: Commit)
    ensures Pairs(cs + [c]) == Pairs(cs) + {Pair(c)}
  {
    var cs' := cs + [c];
    assert forall i :: 0 <= i < |cs| ==> cs'[i] == cs[i];
    assert cs'[|cs|] == c;
  }

  /** The list a model ends with: each entry is appended unless its pair is
      already among the entries appended before it. */
  function Dedup(cs: seq<Commit>): (r: seq<Commit>)
    ensures |r| <= |cs|
  {
    if cs == [] then []
    else
      var kept := Dedup(cs[..|cs| - 1]);
      if Pair(cs[|cs| - 1]) in Pairs(kept) then kept else kept + [cs[|cs| - 1]]
  }

  /** The list keeps every pair of the entries, each pair once, and is a
      sublist of the entries. */
  lemma DedupSpec(cs: seq<Commit>)
    ensures Pairs(Dedup(cs)) == Pairs(cs)
    ensures IsSubseq(Dedup(cs), cs)
    ensures forall i, j :: 0 <= i < j < |Dedup(cs)| ==> Pair(Dedup(cs)[i]) != Pair(Dedup(cs)[j])
  {
    DedupPairs(cs);
    DedupSubseq(cs);
    DedupDistinct(cs);
  }

  lemma {:induction false} DedupPairs(cs: seq<Commit>)
    ensures Pairs(Dedup(cs)) == Pairs(cs)
  {
    if cs != [] {
      var front, c := cs[..|cs| - 1], cs[|cs| - 1];
      assert cs == front + [c];
      var kept := Dedup(front);
      DedupPairs(front);
      PairsSnoc(front, c);
      if Pair(c) in Pairs(kept) {
        assert Dedup(cs) == kept;
      } else {
        assert Dedup(cs) == kept + [c];
        PairsSnoc(kept, c);
      }
    }
  }

  lemma {:induction false} DedupSubseq(cs: seq<Commit>)
    ensures IsSubseq(Dedup(cs), cs)
  {
    if cs != [] {
      var front, c := cs[..|cs| - 1], cs[|cs| - 1];
      assert cs == front + [c];
      var kept := Dedup(front);
      DedupSubseq(front);
      if Pair(c) in Pairs(kept) {
        assert Dedup(cs) == kept;
        SubseqExtend(kept, front, c);
      } else {
        assert Dedup(cs) == kept + [c];
        SubseqSnoc(kept, front, c);
      }
    }
  }

  lemma {:induction false} DedupDistinct(cs: seq<Commit>)
    ensures forall i, j :: 0 <= i < j < |Dedup(cs)| ==> Pair(Dedup(cs)[i]) != Pair(Dedup(cs)[j])
  {
    if cs != [] {
      var front, c := cs[..|cs| - 1], cs[|cs| - 1];
      assert cs == front + [c];
      var kept := Dedup(front);
      DedupDistinct(front);
      if Pair(c) in Pairs(kept) {
        assert Dedup(cs) == kept;
      } else {
        var r := kept + [c];
        assert Dedup(cs) == r;
        assert forall i :: 0 <= i < |kept| ==> Pair(kept[i]) in Pairs(kept);
        forall i, j | 0 <= i < j < |r| ensures Pair(r[i]) != Pair(r[j]) {
          assert r[i] == kept[i];
          if j < |kept| {
            assert r[j] == kept[j];
          }
        }
      }
    }
  }

  /** The first entry with each pair is the one kept. */
  lemma {:induction false} DedupKeepsFirst(cs: seq<Commit>, i: nat)
    requires i < |cs| && forall j :: 0 <= j < i ==> Pair(cs[j]) != Pair(cs[i])
    ensures cs[i] in Dedup(cs)
  {
    var front, c := cs[..|cs| - 1], cs[|cs| - 1];
    if i < |cs| - 1 {
      assert front[i] == cs[i];
      DedupKeepsFirst(front, i);
    } else {
      assert front == cs[..i];
      DedupSpec(front);
    }
  }

  /** The dictionary of lists the grouping loop builds. */
  function CommitTable(xs: seq<Keyed<Commit>>): Table<Commit>
  {
    Table(FirstSeen(KeysOf(xs)), KeyValuesOf(xs), DedupRows(xs))
  }

  function DedupRows(xs: seq<Keyed<Commit>>): (m: map<Key, seq<Commit>>)
    ensures forall k :: k in m <==> k in KeysOf(xs)
  {
    MapMembers(xs, Dedup)
  }

  lemma DedupRowsStep(xs: seq<Keyed<Commit>>, x: Keyed<Commit>)
    ensures var rows := DedupRows(xs);
      DedupRows(xs + [x]) ==
        if x.key !in rows then rows[x.key := [x.item]]
        else if Pair(x.item) in Pairs(rows[x.key]) then rows
        else rows[x.key := rows[x.key] + [x.item]]
  {
    var rows, rows' := DedupRows(xs), DedupRows(xs + [x]);
    var row := Dedup(Members(xs + [x], x.key));
    DedupMembersStep(xs, x);
    KeysSnoc(xs, x);
    MapMembersStep(xs, x, Dedup);
    assert rows' == rows[x.key := row];
  }

  lemma DedupMembersStep(xs: seq<Keyed<Commit>>, x: Keyed<Commit>)
    ensures var before := Dedup(Members(xs, x.key));
      Dedup(Members(xs + [x], x.key)) ==
        if x.key !in KeysOf(xs) then [x.item]
        else if Pair(x.item) in Pairs(before) then before
        else before + [x.item]
  {
    var ms := Members(xs, x.key);
    MembersSnoc(xs, x, x.key);
    assert (ms + [x.item])[..|ms|] == ms;
    if x.key !in KeysOf(xs) {
      MembersAbsent(xs, x.key);
      assert ms + [x.item] == [x.item];
    }
  }

  lemma CommitTableStep(xs: seq<Keyed<Commit>>, x: Keyed<Commit>)
    ensures CommitTable(xs + [x]) == AddCommit(CommitTable(xs), x)
  {
    GroupByStep(xs, x);
    DedupRowsStep(xs, x);
  }

  /** One turn of the grouping loop on the dictionary: a new model gets a
      one-entry list, a known one the entry appended unless its pair is
      already there. */
  function AddCommit(t: Table<Commit>, x: Keyed<Commit>): Table<Commit>
  {
    if x.key !in t.rows then Table(t.order + [x.key], t.keyValues[x.key := x.keyValue], t.rows[x.key := [x.item]])
    else if Pair(x.item) in Pairs(t.rows[x.key]) then t
    else Table(t.order, t.keyValues, t.rows[x.key := t.rows[x.key] + [x.item]])
  }

  /** The dictionary after the loop has run over `xs`. */
  function CommitLoop(xs: seq<Keyed<Commit>>): Table<Commit>
  {
    if xs == [] then Table([], map[], map[])
    else AddCommit(CommitLoop(xs[..|xs| - 1]), xs[|xs| - 1])
  }

  lemma CommitTableLast(xs: seq<Keyed<Commit>>)
    requires xs != []
    ensures CommitTable(xs) == AddCommit(CommitTable(xs[..|xs| - 1]), xs[|xs| - 1])
  {
    var front, x := xs[..|xs| - 1], xs[|xs| - 1];
    assert xs == front + [x];
    CommitTableStep(front, x);
  }

  lemma CommitTableEmpty()
    ensures CommitTable([]) == Table([], map[], map[])
  {
    assert KeysOf<Commit>([]) == [];
  }

  lemma CommitLoopSnoc(xs: seq<Keyed<Commit>>, x: Keyed<Commit>)
    ensures CommitLoop(xs + [x]) == AddCommit(CommitLoop(xs), x)
  {
    assert (xs + [x])[..|xs|] == xs;
  }

  /** What the loop builds is the grouping of the entries by model with
      each model's list cleared of repeated pairs. */
  lemma {:induction false} CommitLoopSpec(xs: seq<Keyed<Commit>>)
    ensures CommitLoop(xs) == CommitTable(xs)
  {
    if xs == [] {
      CommitTableEmpty();
    } else {
      var front, x := xs[..|xs| - 1], xs[|xs| - 1];
      CommitLoopSpec(front);
      CommitTableLast(xs);
    }
  }

  /** The loop's set of seen pairs per model mirrors the lists built. */
  ghost predicate SeenIndex(seen: map<Key, set<(Option<Key>, int)>>, t: Table<Commit>)
  {
    && (forall k :: k in seen <==> k in t.rows)
    && (forall k :: k in seen && k in t.rows ==> seen[k] == Pairs(t.rows[k]))
  }

  /** A model met before gets the entry appended unless its pair was seen. */
  lemma KnownModelStep(t: Table<Commit>, seen: map<Key, set<(Option<Key>, int)>>, k: Key, v: Value, c: Commit,
                       t': Table<Commit>, seen': map<Key, set<(Option<Key>, int)>>)
    requires k in t.rows && SeenIndex(seen, t)
    requires t' == (if Pair(c) in seen[k] then t else Table(t.order, t.keyValues, t.rows[k := t.rows[k] + [c]]))
    requires seen' == (if Pair(c) in seen[k] then seen else seen[k := seen[k] + {Pair(c)}])
    ensures t' == AddCommit(t, Keyed(k, v, c))
    ensures SeenIndex(seen', t')
  {
    PairsSnoc(t.rows[k], c);
  }

  /** A model met for the first time gets a one-entry list. */
  lemma NewModelStep(t: Table<Commit>, seen: map<Key, set<(Option<Key>, int)>>, k: Key, v: Value, c: Commit,
                     t': Table<Commit>, seen': map<Key, set<(Option<Key>, int)>>)
    requires var t1, s1 := Table(t.order + [k], t.keyValues[k := v], t.rows[k := []]), seen[k := {}];
      && t' == (if Pair(c) in s1[k] then t1 else Table(t1.order, t1.keyValues, t1.rows[k := t1.rows[k] + [c]]))
      && seen' == (if Pair(c) in s1[k] then s1 else s1[k := s1[k] + {Pair(c)}])
    requires k !in t.rows && SeenIndex(seen, t)
    ensures t' == AddCommit(t, Keyed(k, v, c))
    ensures SeenIndex(seen', t')
  {
    assert [] + [c] == [c];
    assert t.rows[k := []][k := [c]] == t.rows[k := [c]];
    EmptyPairs();
    PairsSnoc([], c);
    assert {} + {Pair(c)} == {Pair(c)};
    assert seen[k := {}][k := {Pair(c)}] == seen[k := {Pair(c)}];
  }

  lemma CommitRow(xs: seq<Keyed<Commit>>, k: Key)
    requires k in CommitTable(xs).rows
    ensures CommitTable(xs).rows[k] == Dedup(Members(xs, k))
  {
  }

  /** Each model's list: its entries in the order met, the first entry of
      each (hash, time) pair kept and no pair twice; the models in
      first-seen order. */
  lemma CommitListsSpec(xs: seq<Keyed<Commit>>, k: Key)
    requires k in CommitTable(xs).rows
    ensures CommitTable(xs).order == FirstSeen(KeysOf(xs))
    ensures var row, ms := CommitTable(xs).rows[k], Members(xs, k);
      && IsSubseq(row, ms)
      && Pairs(row) == Pairs(ms)
      && (forall i, j :: 0 <= i < j < |row| ==> Pair(row[i]) != Pair(row[j]))
      && (forall i :: 0 <= i < |ms| && (forall j :: 0 <= j < i ==> Pair(ms[j]) != Pair(ms[i])) ==> ms[i] in row)
  {
    CommitRow(xs, k);
    var ms := Members(xs, k);
    DedupSpec(ms);
    forall i | 0 <= i < |ms| && (forall j :: 0 <= j < i ==> Pair(ms[j]) != Pair(ms[i]))
      ensures ms[i] in Dedup(ms)
    {
      DedupKeepsFirst(ms, i);
    }
  }

  /** `record` is a dictionary with the five fields whose merge time is
      naive, and `c` is its entry: the record's branch, device and hash, and
      the merge time in whole seconds (rounded down). */
  predicate EntryOf(record: Value, coerce: Value -> Coerced, c: Commit)
  {
    && record.Dict?
    && "model_name" in record.fields && "sglang_branch" in record.fields && "device" in record.fields
    && "commit_id" in record.fields && "merged_at" in record.fields
    && coerce(record.fields["merged_at"]).Naive?
    && c.time * NsPerSecond <= coerce(record.fields["merged_at"]).ns < (c.time + 1) * NsPerSecond
    && c.branch == record.fields["sglang_branch"] && c.device == record.fields["device"]
    && c.hash == record.fields["commit_id"]
  }

  /** Every listed commit comes from a kept record that had all five fields
      and a naive merge time, and sits under that record's model. */
  lemma CommitFromRecord(sources: seq<Value>, coerce: Value -> Coerced, entries: seq<Entry>,
                         xs: seq<Keyed<Commit>>, k: Key, c: Commit)
    requires ProcessedAll(sources, coerce) == Ok(entries) && KeyedCommits(entries) == Ok(xs)
    requires k in CommitTable(xs).rows && c in CommitTable(xs).rows[k]
    ensures exists i :: 0 <= i < |sources| && EntryOf(sources[i], coerce, c) && HashKey(sources[i].fields["model_name"]) == Some(k)
  {
    var m := ListedEntry(xs, k, c);
    KeyedAt(entries, xs, m);
    var i := EntrySource(sources, coerce, entries, m);
  }

  lemma KeyedAt(entries: seq<Entry>, xs: seq<Keyed<Commit>>, m: nat)
    requires KeyedCommits(entries) == Ok(xs) && m < |xs|
    ensures m < |entries| && HashKey(entries[m].model) == Some(xs[m].key)
    ensures xs[m].keyValue == entries[m].model && xs[m].item == entries[m].commit
  {
    KeyedCommitsSpec(entries);
  }

  /** The record an entry of step 2 was made from. */
  lemma EntrySource(sources: seq<Value>, coerce: Value -> Coerced, entries: seq<Entry>, m: nat) returns (i: nat)
    requires ProcessedAll(sources, coerce) == Ok(entries) && m < |entries|
    ensures i < |sources| && EntryOf(sources[i], coerce, entries[m].commit)
    ensures sources[i].fields["model_name"] == entries[m].model
  {
    i :| 0 <= i < |sources| && Processed(sources[i], coerce) == Ok(Some(entries[m]));
  }

  /** The position in `xs` of an entry a model's list holds. */
  lemma ListedEntry(xs: seq<Keyed<Commit>>, k: Key, c: Commit) returns (m: nat)
    requires k in CommitTable(xs).rows && c in CommitTable(xs).rows[k]
    ensures m < |xs| && xs[m].key == k && xs[m].item == c
  {
    CommitRow(xs, k);
    var ms := Members(xs, k);
    DedupSpec(ms);
    SubseqMembers(Dedup(ms), ms);
    m := MemberPosition(xs, k, c);
  }

  /** Every kept record with a naive merge time is listed: its (hash, time)
      pair is in the list of its model. */
  lemma CommitListed(sources: seq<Value>, coerce: Value -> Coerced, entries: seq<Entry>,
                     xs: seq<Keyed<Commit>>, i: nat, e: Entry)
    requires ProcessedAll(sources, coerce) == Ok(entries) && KeyedCommits(entries) == Ok(xs)
    requires i < |sources| && Processed(sources[i], coerce) == Ok(Some(e))
    ensures HashKey(e.model).Some? && HashKey(e.model).value in CommitTable(xs).rows
    ensures Pair(e.commit) in Pairs(CommitTable(xs).rows[HashKey(e.model).value])
  {
    ProcessedAllKeeps(sources, coerce, i);
    var m :| 0 <= m < |entries| && entries[m] == e;
    KeyedCommitsSpec(entries);
    KeyedAt(entries, xs, m);
    KeyedListed(xs, m);
  }

  /** The entry at position `m` has its pair in its model's list. */
  lemma KeyedListed(xs: seq<Keyed<Commit>>, m: nat)
    requires m < |xs|
    ensures xs[m].key in CommitTable(xs).rows && Pair(xs[m].item) in Pairs(CommitTable(xs).rows[xs[m].key])
  {
    var k := xs[m].key;
    assert KeysOf(xs)[m] == k;
    var ms := Members(xs, k);
    MembersSpec(xs, k);
    var fk := FilterKey(xs, k);
    var j :| 0 <= j < |fk| && fk[j] == xs[m];
    assert ms[j] == xs[m].item;
    assert Pair(xs[m].item) in Pairs(ms);
    CommitRow(xs, k);
    DedupSpec(ms);
  }

  /** What the endpoint returns for a response. */
  function CommitSpec(resp: Value, coerce: Value -> Coerced): (r: Result<Table<Commit>>)
    ensures r.Ok? ==> Distinct(r.value.order) && forall k :: k in r.value.rows <==> k in r.value.order
  {
    match HitsValue(resp)
    case Raise(e) => Raise(e)
    case Ok(hv) =>
      match Iterate(hv)
      case Raise(e) => Raise(e)
      case Ok(hits) =>
        match KeptSources(hits)
        case Raise(e) => Raise(e)
        case Ok(sources) =>
          match ProcessedAll(sources, coerce)
          case Raise(e) => Raise(e)
          case Ok(entries) =>
            match KeyedCommits(entries)
            case Raise(e) => Raise(e)
            case Ok(xs) => Ok(CommitTable(xs))
  }

  /** `process_commit_response`; its `params` argument is not used. */
  method ProcessCommitResponse(resp: Value, coerce: Value -> Coerced) returns (r: Result<Table<Commit>>)
    ensures r == CommitSpec(resp, coerce)
  {
    var hv := HitsValue(resp);
    if hv.Raise? {
      return Raise(hv.exc);
    }
    var it := Iterate(hv.value);
    if it.Raise? {
      return Raise(it.exc);
    }
    var sources := KeepComplete(it.value);
    if sources.Raise? {
      return Raise(sources.exc);
    }
    var entries := ProcessRecords(sources.value, coerce);
    if entries.Raise? {
      return Raise(entries.exc);
    }
    r := GroupCommits(entries.value);
  }

  /** Step 1: keep the records with all the required fields. */
  method KeepComplete(hits: seq<Value>) returns (r: Result<seq<Value>>)
    ensures r == KeptSources(hits)
  {
    var valid: seq<Value> := [];
    var i := 0;
    while i < |hits|
      invariant 0 <= i <= |hits|
      invariant KeptSources(hits[..i]) == Ok(valid)
    {
      assert hits[..i + 1][..i] == hits[..i];
      var source := SourceOf(hits[i]);
      if source.Raise? {
        KeptSourcesRaises(hits, i + 1);
        return Raise(source.exc);
      }
      var all := AllIn(source.value, RequiredFields);
      if all.Raise? {
        KeptSourcesRaises(hits, i + 1);
        return Raise(all.exc);
      }
      if all.value {
        valid := valid + [source.value];
      }
      i := i + 1;
    }
    assert hits[..i] == hits;
    return Ok(valid);
  }

  /** Step 2: convert the merge times and rename the fields. */
  method ProcessRecords(records: seq<Value>, coerce: Value -> Coerced) returns (r: Result<seq<Entry>>)
    ensures r == ProcessedAll(records, coerce)
  {
    var processed: seq<Entry> := [];
    var i := 0;
    while i < |records|
      invariant 0 <= i <= |records|
      invariant ProcessedAll(records[..i], coerce) == Ok(processed)
    {
      assert records[..i + 1][..i] == records[..i];
      var p := Processed(records[i], coerce);
      if p.Raise? {
        ProcessedAllRaises(records, coerce, i + 1);
        return Raise(p.exc);
      }
      if p.value.Some? {
        processed := processed + [p.value.value];
      }
      i := i + 1;
    }
    assert records[..i] == records;
    return Ok(processed);
  }

  /** Step 3: group by model, skipping a pair the model has already seen. */
  method GroupCommits(entries: seq<Entry>) returns (r: Result<Table<Commit>>)
    ensures r == match KeyedCommits(entries)
      case Raise(e) => Raise(e)
      case Ok(xs) => Ok(CommitTable(xs))
  {
    var result: Table<Commit> := Table([], map[], map[]);
    var seen: map<Key, set<(Option<Key>, int)>> := map[];
    ghost var xs: seq<Keyed<Commit>> := [];
    var j := 0;
    while j < |entries|
      invariant 0 <= j <= |entries|
      invariant KeyedCommits(entries[..j]) == Ok(xs)
      invariant result == CommitLoop(xs)
      invariant SeenIndex(seen, result)
    {
      var item := entries[j];
      KeyedCommitsStep(entries, j, xs);
      var model := HashKey(item.model);
      if model.None? {
        KeyedCommitsRaises(entries, j + 1);
        return Raise(TypeError);
      }
      var k := model.value;
      var x := Keyed(k, item.model, item.commit);
      ghost var before, seenBefore := result, seen;
      if k !in result.rows {
        result := Table(result.order + [k], result.keyValues[k := item.model], result.rows[k := []]);
        seen := seen[k := {}];
      }
      var pair := (HashKey(item.commit.hash), item.commit.time);
      if pair.0.None? {
        KeyedCommitsRaises(entries, j + 1);
        return Raise(TypeError);
      }
      if pair !in seen[k] {
        seen := seen[k := seen[k] + {pair}];
        result := Table(result.order, result.keyValues, result.rows[k := result.rows[k] + [item.commit]]);
      }
      if k in before.rows {
        KnownModelStep(before, seenBefore, k, item.model, item.commit, result, seen);
      } else {
        NewModelStep(before, seenBefore, k, item.model, item.commit, result, seen);
      }
      CommitLoopSnoc(xs, x);
      xs := xs + [x];
      j := j + 1;
    }
    assert entries[..j] == entries;
    CommitLoopSpec(xs);
    return Ok(result);
  }
}
