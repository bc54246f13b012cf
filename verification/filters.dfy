/** Search filters: the tag filter factory in its gRPC and REST renderings, the
    metadata scroll filter and the similarity-search filter, each with the set of
    payloads it admits. */
module Filters {
  import opened Wrappers
  import opened Strings
  import opened Payload

  // ---------------------------------------------------------------- conditions

  /** A gRPC filter condition: keyword equality, an integer range whose absent
      bounds are open, or the conjunction `a & b`. */
  datatype Condition =
    | Match(key: string, value: string)
    | Range(key: string, gte: Option<int>, lte: Option<int>)
    | And(left: Condition, right: Condition)

  /** A gRPC `Filter`: every condition of `Must` has to hold. */
  datatype Filter = Filter(must: seq<Condition>)

  /** A condition of the REST scroll body: `{ key, match = { value } }` or
      `{ key, range = { gte, lte } }`, where a null bound is open. */
  datatype ScrollCondition =
    | ScrollMatch(key: string, value: string)
    | ScrollRange(key: string, gte: Option<int>, lte: Option<int>)

  /** The payload holds the string `v` in field `key`. */
  predicate HasString(m: PayloadMap, key: string, v: string) {
    key in m && m[key] == Str(v)
  }

  /** The payload holds an integer in field `key` within the bounds that are given. */
  predicate InRange(m: PayloadMap, key: string, gte: Option<int>, lte: Option<int>) {
    && key in m && m[key].Int?
    && (gte.Some? ==> gte.value <= m[key].i)
    && (lte.Some? ==> m[key].i <= lte.value)
  }

  predicate Holds(c: Condition, m: PayloadMap) {
    match c
    case Match(k, v) => HasString(m, k, v)
    case Range(k, lo, hi) => InRange(m, k, lo, hi)
    case And(a, b) => Holds(a, m) && Holds(b, m)
  }

  predicate HoldsScroll(c: ScrollCondition, m: PayloadMap) {
    match c
    case ScrollMatch(k, v) => HasString(m, k, v)
    case ScrollRange(k, lo, hi) => InRange(m, k, lo, hi)
  }

  /** The payloads a search with filter `f` may return; no filter admits all. */
  predicate Admits(f: Option<Filter>, m: PayloadMap) {
    f.Some? ==> forall i :: 0 <= i < |f.value.must| ==> Holds(f.value.must[i], m)
  }

  predicate AdmitsScroll(f: Option<seq<ScrollCondition>>, m: PayloadMap) {
    f.Some? ==> forall i :: 0 <= i < |f.value| ==> HoldsScroll(f.value[i], m)
  }

  // ---------------------------------------------------------------- the tag filter factory

  /** `QdrantFilterFactory.CreateGrpcFilter`: no filter for no tags, otherwise one
      keyword condition on `prefix + key` per tag, each its own `Must` entry. */
  function CreateGrpcFilter(prefix: string, tags: Dict): (r: Option<Filter>)
    ensures r.None? <==> |tags| == 0
    ensures r.Some? ==> |r.value.must| == |tags|
  {
    if |tags| == 0 then None
    else Some(Filter(seq(|tags|, i requires 0 <= i < |tags| => Match(prefix + tags[i].0, tags[i].1))))
  }

  /** `QdrantFilterFactory.CreateScrollFilter`: the same conditions as the REST
      `must` list. */
  function CreateScrollFilter(prefix: string, tags: Dict): (r: Option<seq<ScrollCondition>>)
    ensures r.None? <==> |tags| == 0
    ensures r.Some? ==> |r.value| == |tags|
  {
    if |tags| == 0 then None
    else Some(seq(|tags|, i requires 0 <= i < |tags| => ScrollMatch(prefix + tags[i].0, tags[i].1)))
  }

  /** The REST form of a keyword-only gRPC condition list. */
  function Render(cs: seq<Condition>): seq<ScrollCondition>
    requires forall i :: 0 <= i < |cs| ==> cs[i].Match?
  {
    seq(|cs|, i requires 0 <= i < |cs| => ScrollMatch(cs[i].key, cs[i].value))
  }

  /** Both renderings carry the same `(field, value)` pairs in the same order. */
  lemma RenderingsAgree(prefix: string, tags: Dict)
    requires |tags| > 0
    ensures forall i :: 0 <= i < |CreateGrpcFilter(prefix, tags).value.must| ==> CreateGrpcFilter(prefix, tags).value.must[i].Match?
    ensures CreateScrollFilter(prefix, tags).value == Render(CreateGrpcFilter(prefix, tags).value.must)
  {
  }

  /** AND semantics: a payload passes the tag filter exactly when it holds every tag
      value under `prefix + key`; without tags every payload passes. */
  lemma TagFilterMeaning(prefix: string, tags: Dict, m: PayloadMap)
    ensures Admits(CreateGrpcFilter(prefix, tags), m) <==> HoldsAll(m, prefix, tags)
  {
    var f := CreateGrpcFilter(prefix, tags);
    if f.Some? {
      forall i | 0 <= i < |tags| ensures Holds(f.value.must[i], m) <==> HasString(m, prefix + tags[i].0, tags[i].1) {
      }
    }
  }

  /** The REST rendering admits the same payloads. */
  lemma ScrollFilterMeaning(prefix: string, tags: Dict, m: PayloadMap)
    ensures AdmitsScroll(CreateScrollFilter(prefix, tags), m) <==> HoldsAll(m, prefix, tags)
  {
    var f := CreateScrollFilter(prefix, tags);
    if f.Some? {
      forall i | 0 <= i < |tags| ensures HoldsScroll(f.value[i], m) <==> HasString(m, prefix + tags[i].0, tags[i].1) {
      }
    }
  }

  /** Tags stored under the filter's prefix are found: a payload that holds every
      tag of a document passes a filter on any of those tags. */
  lemma IndexedTagsMatch(prefix: string, docTags: Dict, query: Dict, m: PayloadMap)
    requires HoldsAll(m, prefix, docTags)
    requires forall i :: 0 <= i < |query| ==> query[i] in docTags
    ensures Admits(CreateGrpcFilter(prefix, query), m)
  {
    TagFilterMeaning(prefix, query, m);
    forall i | 0 <= i < |query| ensures HasString(m, prefix + query[i].0, query[i].1) {
      assert query[i] in docTags;
      var j :| 0 <= j < |docTags| && docTags[j] == query[i];
    }
  }

  /** The fields a payload written with the `tag.` / `prop.` spelling can have. */
  predicate DottedFields(m: PayloadMap) {
    forall k :: k in m ==> k in ReservedKeys || StartsWith(k, Dotted.tag) || StartsWith(k, Dotted.property)
  }

  /** A filter on `tag_` fields never matches a payload written with `tag.` fields:
      when the factory and the indexer disagree on the prefix, no tag search finds
      anything. */
  lemma PrefixMismatchMatchesNothing(tags: Dict, m: PayloadMap)
    requires |tags| > 0 && DottedFields(m)
    ensures !Admits(CreateGrpcFilter(Underscored.tag, tags), m)
  {
    var k := Underscored.tag + tags[0].0;
    assert k[3] == '_' && k[0] == 't';
    assert !StartsWith(k, Dotted.tag) by { assert k[..4] != Dotted.tag by { assert k[..4][3] != Dotted.tag[3]; } }
    assert !StartsWith(k, Dotted.property) by {
      if |k| >= |Dotted.property| { assert k[..5][0] != Dotted.property[0]; }
    }
    forall i | 0 <= i < |ReservedKeys| ensures ReservedKeys[i] != k {
      assert ReservedKeys[i][0] != 't' || ReservedKeys[i][3] != '_';
    }
    assert k !in m;
    assert !Holds(CreateGrpcFilter(Underscored.tag, tags).value.must[0], m);
  }

  // ---------------------------------------------------------------- the metadata scroll filter

  /** `MetadataSearchRequest`; `Limit` only caps the scroll and is not part of the
      filter. */
  datatype MetadataSearchRequest = MetadataSearchRequest(
    limit: int,
    projectName: Option<string>,
    definitionName: Option<string>,
    testName: Option<string>,
    outcome: Option<string>,
    fromTimestampMs: Option<int>,
    toTimestampMs: Option<int>)

  /** `AddMatch`: a keyword condition for a value that is not blank. */
  function AddMatch(must: seq<ScrollCondition>, key: string, value: Option<string>): seq<ScrollCondition> {
    if IsNullOrWhiteSpace(value) then must else must + [ScrollMatch(key, value.value)]
  }

  /** 1 for a value that is given and not blank, 0 otherwise. */
  function Given(value: Option<string>): nat {
    if IsNullOrWhiteSpace(value) then 0 else 1
  }

  /** `QdrantPayloadHelpers.BuildScrollFilter`: one keyword condition per non-blank
      field, in the order project, definition, test name, outcome; then one range
      on `timestamp_ms` carrying both bounds as given when either is given; no
      filter when there is no condition. */
  function BuildScrollFilter(req: MetadataSearchRequest): (r: Option<seq<ScrollCondition>>)
    ensures r.None? <==>
      && IsNullOrWhiteSpace(req.projectName) && IsNullOrWhiteSpace(req.definitionName)
      && IsNullOrWhiteSpace(req.testName) && IsNullOrWhiteSpace(req.outcome)
      && req.fromTimestampMs.None? && req.toTimestampMs.None?
    ensures r.Some? ==> (|r.value| ==
      Given(req.projectName) + Given(req.definitionName) + Given(req.testName) + Given(req.outcome)
      + (if req.fromTimestampMs.Some? || req.toTimestampMs.Some? then 1 else 0))
    ensures r.Some? && (req.fromTimestampMs.Some? || req.toTimestampMs.Some?) ==>
      r.value[|r.value| - 1] == ScrollRange("timestamp_ms", req.fromTimestampMs, req.toTimestampMs)
  {
    var must := AddMatch(AddMatch(AddMatch(AddMatch([], "project_name", req.projectName),
      "definition_name", req.definitionName), "test_name", req.testName), "outcome", req.outcome);
    var must' := if req.fromTimestampMs.Some? || req.toTimestampMs.Some?
      then must + [ScrollRange("timestamp_ms", req.fromTimestampMs, req.toTimestampMs)]
      else must;
    if |must'| == 0 then None else Some(must')
  }

  /** A field given as a non-blank value must hold it. */
  predicate MatchesIfGiven(m: PayloadMap, key: string, value: Option<string>) {
    !IsNullOrWhiteSpace(value) ==> HasString(m, key, value.value)
  }

  /** A timestamp bound that is given must be respected. */
  predicate WithinIfBounded(m: PayloadMap, from: Option<int>, to: Option<int>) {
    from.Some? || to.Some? ==> InRange(m, "timestamp_ms", from, to)
  }

  /** What a metadata search asks of a payload. */
  predicate MetadataMatches(req: MetadataSearchRequest, m: PayloadMap) {
    && MatchesIfGiven(m, "project_name", req.projectName)
    && MatchesIfGiven(m, "definition_name", req.definitionName)
    && MatchesIfGiven(m, "test_name", req.testName)
    && MatchesIfGiven(m, "outcome", req.outcome)
    && WithinIfBounded(m, req.fromTimestampMs, req.toTimestampMs)
  }

  lemma AddMatchMeaning(must: seq<ScrollCondition>, key: string, value: Option<string>, m: PayloadMap)
    ensures (forall i :: 0 <= i < |AddMatch(must, key, value)| ==> HoldsScroll(AddMatch(must, key, value)[i], m))
        <==> (forall i :: 0 <= i < |must| ==> HoldsScroll(must[i], m)) && MatchesIfGiven(m, key, value)
  {
    var r := AddMatch(must, key, value);
    if !IsNullOrWhiteSpace(value) {
      assert r[|must|] == ScrollMatch(key, value.value);
      assert forall i :: 0 <= i < |must| ==> r[i] == must[i];
    }
  }

  /** The scroll filter admits exactly the payloads the request asks for. */
  lemma BuildScrollFilterMeaning(req: MetadataSearchRequest, m: PayloadMap)
    ensures AdmitsScroll(BuildScrollFilter(req), m) <==> MetadataMatches(req, m)
  {
    var m1 := AddMatch([], "project_name", req.projectName);
    var m2 := AddMatch(m1, "definition_name", req.definitionName);
    var m3 := AddMatch(m2, "test_name", req.testName);
    var m4 := AddMatch(m3, "outcome", req.outcome);
    AddMatchMeaning([], "project_name", req.projectName, m);
    AddMatchMeaning(m1, "definition_name", req.definitionName, m);
    AddMatchMeaning(m2, "test_name", req.testName, m);
    AddMatchMeaning(m3, "outcome", req.outcome, m);
    if req.fromTimestampMs.Some? || req.toTimestampMs.Some? {
      var last := ScrollRange("timestamp_ms", req.fromTimestampMs, req.toTimestampMs);
      var all := m4 + [last];
      assert all[|m4|] == last;
      assert forall i :: 0 <= i < |m4| ==> all[i] == m4[i];
    }
  }

  // ---------------------------------------------------------------- the similarity filter

  /** `SimilaritySearchRequest`; the score threshold is a float handed to the
      search and is not part of the filter. */
  datatype SimilaritySearchRequest = SimilaritySearchRequest(
    queryText: string,
    limit: int,
    projectName: Option<string>,
    definitionName: Option<string>,
    fromTimestampMs: Option<int>,
    toTimestampMs: Option<int>)

  /** `filter is null ? c : filter & c` */
  function Conjoin(filter: Option<Condition>, c: Condition): Option<Condition> {
    if filter.None? then Some(c) else Some(And(filter.value, c))
  }

  /** The filter block of `/search/similar`: keyword conditions for a non-blank
      project and definition, a range with only the given timestamp bounds, all
      conjoined into one condition that becomes the single `Must` entry; no filter
      when nothing is given. */
  function SimilarityFilter(req: SimilaritySearchRequest): (r: Option<Filter>)
    ensures r.None? <==>
      IsNullOrWhiteSpace(req.projectName) && IsNullOrWhiteSpace(req.definitionName)
      && req.fromTimestampMs.None? && req.toTimestampMs.None?
    ensures r.Some? ==> |r.value.must| == 1
  {
    var f0: Option<Condition> := None;
    var f1 := if !IsNullOrWhiteSpace(req.projectName) then Some(Match("project_name", req.projectName.value)) else f0;
    var f2 := if !IsNullOrWhiteSpace(req.definitionName) then Conjoin(f1, Match("definition_name", req.definitionName.value)) else f1;
    var f3 := if req.fromTimestampMs.Some? || req.toTimestampMs.Some?
      then Conjoin(f2, Range("timestamp_ms", req.fromTimestampMs, req.toTimestampMs))
      else f2;
    if f3.None? then None else Some(Filter([f3.value]))
  }

  /** An optional condition that holds when it is absent. */
  predicate HoldsIfAny(f: Option<Condition>, m: PayloadMap) {
    f.Some? ==> Holds(f.value, m)
  }

  lemma ConjoinHolds(f: Option<Condition>, c: Condition, m: PayloadMap)
    ensures Holds(Conjoin(f, c).value, m) <==> HoldsIfAny(f, m) && Holds(c, m)
  {
  }

  /** What a similarity search asks of a payload. */
  predicate SimilarityMatches(req: SimilaritySearchRequest, m: PayloadMap) {
    && MatchesIfGiven(m, "project_name", req.projectName)
    && MatchesIfGiven(m, "definition_name", req.definitionName)
    && WithinIfBounded(m, req.fromTimestampMs, req.toTimestampMs)
  }

  /** The similarity filter admits exactly the payloads the request asks for. */
  lemma SimilarityFilterMeaning(req: SimilaritySearchRequest, m: PayloadMap)
    ensures Admits(SimilarityFilter(req), m) <==> SimilarityMatches(req, m)
  {
    var f1 := if !IsNullOrWhiteSpace(req.projectName) then Some(Match("project_name", req.projectName.value)) else None;
    var f2 := if !IsNullOrWhiteSpace(req.definitionName) then Conjoin(f1, Match("definition_name", req.definitionName.value)) else f1;
    var bounded := req.fromTimestampMs.Some? || req.toTimestampMs.Some?;
    var f3 := if bounded then Conjoin(f2, Range("timestamp_ms", req.fromTimestampMs, req.toTimestampMs)) else f2;
    assert HoldsIfAny(f1, m) <==> MatchesIfGiven(m, "project_name", req.projectName);
    if !IsNullOrWhiteSpace(req.definitionName) {
      ConjoinHolds(f1, Match("definition_name", req.definitionName.value), m);
    }
    assert HoldsIfAny(f2, m) <==> HoldsIfAny(f1, m) && MatchesIfGiven(m, "definition_name", req.definitionName);
    if bounded {
      ConjoinHolds(f2, Range("timestamp_ms", req.fromTimestampMs, req.toTimestampMs), m);
    }
    assert HoldsIfAny(f3, m) <==> SimilarityMatches(req, m);
    assert SimilarityFilter(req) == if f3.None? then None else Some(Filter([f3.value]));
    if f3.Some? {
      var must := SimilarityFilter(req).value.must;
      assert must == [f3.value];
      assert Admits(SimilarityFilter(req), m) ==> Holds(must[0], m);
    }
  }

  /** The fields a condition looks at. */
  function Fields(c: Condition): set<string> {
    match c
    case Match(k, _) => {k}
    case Range(k, _, _) => {k}
    case And(a, b) => Fields(a) + Fields(b)
  }

  /** The similarity filter looks only at project, definition and timestamp: test
      name and outcome never take part. */
  lemma SimilarityFilterFields(req: SimilaritySearchRequest)
    requires SimilarityFilter(req).Some?
    ensures Fields(SimilarityFilter(req).value.must[0]) <= {"project_name", "definition_name", "timestamp_ms"}
  {
    var allowed := {"project_name", "definition_name", "timestamp_ms"};
    var f1 := if !IsNullOrWhiteSpace(req.projectName) then Some(Match("project_name", req.projectName.value)) else None;
    var f2 := if !IsNullOrWhiteSpace(req.definitionName) then Conjoin(f1, Match("definition_name", req.definitionName.value)) else f1;
    var bounded := req.fromTimestampMs.Some? || req.toTimestampMs.Some?;
    var f3 := if bounded then Conjoin(f2, Range("timestamp_ms", req.fromTimestampMs, req.toTimestampMs)) else f2;
    assert f1.Some? ==> Fields(f1.value) <= allowed;
    assert f2.Some? ==> Fields(f2.value) <= allowed;
    assert f3.Some? ==> Fields(f3.value) <= allowed;
    assert SimilarityFilter(req).value.must[0] == f3.value;
  }

  /** The similarity filter and the scroll filter agree on the criteria they share:
      with no test name and no outcome, both admit the same payloads. */
  lemma SimilarityAgreesWithScroll(req: SimilaritySearchRequest, limit: int, m: PayloadMap)
    ensures Admits(SimilarityFilter(req), m) <==> AdmitsScroll(BuildScrollFilter(
      MetadataSearchRequest(limit, req.projectName, req.definitionName, None, None, req.fromTimestampMs, req.toTimestampMs)), m)
  {
    var meta := MetadataSearchRequest(limit, req.projectName, req.definitionName, None, None, req.fromTimestampMs, req.toTimestampMs);
    SimilarityFilterMeaning(req, m);
    BuildScrollFilterMeaning(meta, m);
  }
}
