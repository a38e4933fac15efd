/** The shape of a search response as the handlers walk it:
    `es_response.get("hits", {}).get("hits", [])` for the hit list and
    `hit.get("_source", {}).get("source", {})` for the stored record. */
module EsResponse {

  import opened Wrappers
  import opened PyValues

  const EmptyDict: Value := Dict(map[])

  /** The value under `hits.hits`; a response or an outer `hits` that is
      not a dictionary has no `get` (AttributeError). */
  function HitsValue(resp: Value): (r: Result<Value>)
    ensures r.Ok? ==> resp.Dict?
    ensures resp.Dict? && "hits" !in resp.fields ==> r == Ok(List([]))
    ensures r.Raise? ==> r.exc == AttributeError
  {
    if !resp.Dict? then Raise(AttributeError)
    else
      var outer := Get(resp.fields, "hits", EmptyDict);
      if !outer.Dict? then Raise(AttributeError)
      else Ok(Get(outer.fields, "hits", List([])))
  }

  /** The hits a `for hit in ...` loop hands to `hit.get`: a list gives its
      elements; an empty string or dictionary gives none; a non-empty one
      gives strings, which have no `get`; a scalar is not iterable. */
  function Iterate(v: Value): (r: Result<seq<Value>>)
    ensures r.Ok? && r.value != [] ==> v.List?
    ensures r.Raise? ==> (r.exc == TypeError <==> !(v.Str? || v.Dict?))
    ensures v.List? ==> r == Ok(v.elems)
    ensures r.Ok? && !v.List? ==> !Truthy(v)
  {
    match v
    case List(xs) => Ok(xs)
    case Str(s) => if s == "" then Ok([]) else Raise(AttributeError)
    case Dict(m) => if m == map[] then Ok([]) else Raise(AttributeError)
    case _ => Raise(TypeError)
  }

  /** The stored record of one hit, `{}` where a level is missing. */
  function SourceOf(hit: Value): (r: Result<Value>)
    ensures r.Ok? <==> hit.Dict? && Get(hit.fields, "_source", EmptyDict).Dict?
    ensures r.Ok? && "source" in Get(hit.fields, "_source", EmptyDict).fields ==>
      r.value == Get(hit.fields, "_source", EmptyDict).fields["source"]
  {
    if !hit.Dict? then Raise(AttributeError)
    else
      var src := Get(hit.fields, "_source", EmptyDict);
      if !src.Dict? then Raise(AttributeError)
      else Ok(Get(src.fields, "source", EmptyDict))
  }

  /** A response in the layout the record store returns, holding `records`
      in this order. */
  function Response(records: seq<Value>): Value
  {
    Dict(map["hits" := Dict(map["hits" := List(HitList(records))])])
  }

  function HitList(records: seq<Value>): (hits: seq<Value>)
    ensures |hits| == |records|
  {
    seq(|records|, i requires 0 <= i < |records| =>
      Dict(map["_source" := Dict(map["source" := records[i]])]))
  }

  /** Walking a response down to its records recovers exactly the records
      it was built from. */
  lemma ResponseRecords(records: seq<Value>)
    ensures HitsValue(Response(records)) == Ok(List(HitList(records)))
    ensures Iterate(List(HitList(records))) == Ok(HitList(records))
    ensures forall i :: 0 <= i < |records| ==> SourceOf(HitList(records)[i]) == Ok(records[i])
  {
  }
}
