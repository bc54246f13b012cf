/** Indexing one failed test result: a deterministic point id per build, run and
    result; a deterministic signature id that groups the same failure across
    builds; the embedding text; and the flat payload the metadata search reads.
    The embedding service, the clock, the date conversion, the hash and the two
    regular-expression substitutions are parameters. */
module TestResults {
  import opened Wrappers
  import opened Strings
  import opened Guids
  import opened Payload
  import opened Filters
  import opened Models
  import opened TextHelpers
  import opened DocumentIndexing

  /** `IndexResponse`: the point id and the signature id, both in `D` form. */
  datatype IndexResponse = IndexResponse(pointId: string, signatureId: string)

  /** What indexing a result calls: the hash behind both ids, the embedding service,
      the vector store's upsert (the failure it throws, or `None` when it writes the
      points), `ToUnixMs`, the current time, and the substitutions `Normalize` (GUID
      and number tokens) and `NormalizeStack` (`:line` numbers) apply. */
  datatype ResultServices<!V> = ResultServices(
    hashing: Hashing,
    embed: string -> Result<V, string>,
    upsert: seq<Point<V>> -> Option<string>,
    toUnixMs: DateTime -> int,
    now: DateTime,
    scrub: string -> string,
    lineScrub: string -> string)

  /** The response (or the error the embedding service or the store threw) and the
      collection after the call. */
  datatype ResultOutcome<V> = ResultOutcome(response: Result<IndexResponse, string>, store: Store<V>)

  // ---------------------------------------------------------------- ids

  /** The point key `ado|project|build|run|result`. */
  function PointKey(env: FailedTestEnvelope): string {
    "ado|" + env.projectName + "|" + IntToString(env.buildId) + "|" + IntToString(env.testRunId)
      + "|" + IntToString(env.result.id)
  }

  /** The signature key `sig|project|definition|test|message|stack`, from the
      normalised error message and stack trace. */
  function SignatureKey<V>(env: FailedTestEnvelope, testName: string, svc: ResultServices<V>): string {
    "sig|" + env.projectName + "|" + env.definitionName + "|" + testName
      + "|" + Normalize(env.result.errorMessage, svc.scrub)
      + "|" + NormalizeStack(env.result.stackTrace, svc.lineScrub)
  }

  function PointIdOf(env: FailedTestEnvelope, h: Hashing): string {
    DeterministicId(PointKey(env), h)
  }

  function SignatureIdOf<V>(env: FailedTestEnvelope, svc: ResultServices<V>): string {
    DeterministicId(SignatureKey(env, PickTestName(env.result), svc), svc.hashing)
  }

  /** The hash tells the two inputs apart outside the bits the version and variant overwrite. */
  predicate HashSeparates(h: Hashing, x: string, y: string) {
    !AgreeOutsideMasks(h.sha256(h.utf8(x))[..16], h.sha256(h.utf8(y))[..16])
  }

  /** Appending a field that holds no separator adds exactly one segment. */
  lemma AppendField(a: string, f: string, c: char)
    requires c !in f
    ensures Split(a + [c] + f, c) == Split(a, c) + [f]
  {
    SplitConcat(a, f, c);
    SplitNoSeparator(f, c);
  }

  lemma NoBar(i: int)
    ensures '|' !in IntToString(i)
  {
    var s := IntToString(i);
    forall k | 0 <= k < |s| ensures s[k] != '|' {
      assert IsDigit(s[k]) || s[k] == '-';
    }
  }

  /** The segments of a point key: the project may hold `|`, the three numbers do not. */
  lemma PointKeySegments(env: FailedTestEnvelope)
    ensures Split(PointKey(env), '|') ==
      ["ado"] + Split(env.projectName, '|')
      + [IntToString(env.buildId), IntToString(env.testRunId), IntToString(env.result.id)]
  {
    var b, r, i := IntToString(env.buildId), IntToString(env.testRunId), IntToString(env.result.id);
    NoBar(env.buildId);
    NoBar(env.testRunId);
    NoBar(env.result.id);
    var k0 := "ado|" + env.projectName;
    assert k0 == "ado" + ['|'] + env.projectName;
    SplitConcat("ado", env.projectName, '|');
    SplitNoSeparator("ado", '|');
    AppendField(k0, b, '|');
    AppendField(k0 + "|" + b, r, '|');
    AppendField(k0 + "|" + b + "|" + r, i, '|');
  }

  /** Two results share a point key exactly when they share project, build, run and
      result id: the numbers are read back from the right, the project is the rest. */
  lemma PointKeyInjective(a: FailedTestEnvelope, b: FailedTestEnvelope)
    ensures PointKey(a) == PointKey(b) <==>
      (a.projectName, a.buildId, a.testRunId, a.result.id) == (b.projectName, b.buildId, b.testRunId, b.result.id)
  {
    if PointKey(a) == PointKey(b) {
      PointKeySegments(a);
      PointKeySegments(b);
      var sa, sb := Split(PointKey(a), '|'), Split(PointKey(b), '|');
      var pa, pb := Split(a.projectName, '|'), Split(b.projectName, '|');
      assert |pa| == |pb|;
      assert sa[|sa| - 3] == IntToString(a.buildId) && sb[|sb| - 3] == IntToString(b.buildId);
      assert sa[|sa| - 2] == IntToString(a.testRunId) && sb[|sb| - 2] == IntToString(b.testRunId);
      assert sa[|sa| - 1] == IntToString(a.result.id) && sb[|sb| - 1] == IntToString(b.result.id);
      IntToStringInjective(a.buildId, b.buildId);
      IntToStringInjective(a.testRunId, b.testRunId);
      IntToStringInjective(a.result.id, b.result.id);
      assert pa == sa[1..|sa| - 3] && pb == sb[1..|sb| - 3];
      JoinSplit(a.projectName, '|');
      JoinSplit(b.projectName, '|');
    }
  }

  /** Results that differ in project, build, run or result id get distinct point ids
      when the hash tells their keys apart; the same result always gets the same one. */
  lemma DistinctResultsDistinctPoints(a: FailedTestEnvelope, b: FailedTestEnvelope, h: Hashing)
    requires HashSeparates(h, PointKey(a), PointKey(b))
    ensures PointIdOf(a, h) != PointIdOf(b, h)
    ensures (a.projectName, a.buildId, a.testRunId, a.result.id) != (b.projectName, b.buildId, b.testRunId, b.result.id)
  {
    DistinctDigestsDistinctIds(PointKey(a), PointKey(b), h);
    PointKeyInjective(a, b);
  }

  /** The same test failing with the same message and trace in another build (or
      run, or on another agent, at another time) keeps its signature id. */
  lemma SignatureIgnoresRunContext<V>(a: FailedTestEnvelope, b: FailedTestEnvelope, svc: ResultServices<V>)
    requires a.projectName == b.projectName && a.definitionName == b.definitionName
    requires a.result.automatedTestName == b.result.automatedTestName
    requires a.result.testCaseTitle == b.result.testCaseTitle
    requires a.result.errorMessage == b.result.errorMessage
    requires a.result.stackTrace == b.result.stackTrace
    ensures SignatureIdOf(a, svc) == SignatureIdOf(b, svc)
  {
    assert PickTestName(a.result) == PickTestName(b.result);
    assert SignatureKey(a, PickTestName(a.result), svc) == SignatureKey(b, PickTestName(b.result), svc);
  }

  /** Stack frames after the twelfth do not change the signature. */
  lemma SignatureIgnoresLaterFrames<V>(env: FailedTestEnvelope, trace: string, more: string, svc: ResultServices<V>)
    requires env.result.stackTrace == Some(trace)
    requires !IsBlank(trace) && |Frames(trace, svc.lineScrub)| >= MaxFrames
    ensures SignatureIdOf(env.(result := env.result.(stackTrace := Some(trace + "\n" + more))), svc) == SignatureIdOf(env, svc)
  {
    var longer := env.(result := env.result.(stackTrace := Some(trace + "\n" + more)));
    NormalizeStackIgnoresLaterFrames(trace, more, svc.lineScrub);
    assert PickTestName(longer.result) == PickTestName(env.result);
    assert SignatureKey(longer, PickTestName(longer.result), svc) == SignatureKey(env, PickTestName(env.result), svc);
  }

  // ---------------------------------------------------------------- payload

  /** `ToUnixMs(CompletedDate ?? StartedDate ?? DateTime.UtcNow)`. */
  function TimestampMs(r: TestCaseResult, toUnixMs: DateTime -> int, now: DateTime): (ms: int)
    ensures r.completedDate.Some? ==> ms == toUnixMs(r.completedDate.value)
    ensures r.completedDate.None? && r.startedDate.Some? ==> ms == toUnixMs(r.startedDate.value)
    ensures r.completedDate.None? && r.startedDate.None? ==> ms == toUnixMs(now)
  {
    toUnixMs(r.completedDate.GetOr(r.startedDate.GetOr(now)))
  }

  /** The stored payload: every field of the envelope, the chosen test name, the
      timestamp and the signature id; missing optional strings are stored as "". */
  function ResultPayload(env: FailedTestEnvelope, testName: string, timestampMs: int, signatureId: string): PayloadMap {
    map[
      "project_name" := Str(env.projectName),
      "definition_name" := Str(env.definitionName),
      "build_id" := Int(env.buildId),
      "build_name" := Str(env.buildName),
      "test_run_id" := Int(env.testRunId),
      "test_result_id" := Int(env.result.id),
      "test_name" := Str(testName),
      "automated_test_name" := Str(env.result.automatedTestName.GetOr("")),
      "computer_name" := Str(env.result.computerName.GetOr("")),
      "outcome" := Str(env.result.outcome.GetOr("")),
      "timestamp_ms" := Int(timestampMs),
      "signature_id" := Str(signatureId),
      "error_message" := Str(env.result.errorMessage.GetOr("")),
      "stack_trace" := Str(env.result.stackTrace.GetOr(""))]
  }

  /** A stored result as a reader of the payload sees it. */
  datatype StoredResult = StoredResult(
    projectName: string, definitionName: string, buildId: int, buildName: string,
    testRunId: int, testResultId: int, testName: string, automatedTestName: string,
    computerName: string, outcome: string, timestampMs: int, signatureId: string,
    errorMessage: string, stackTrace: string)

  function ReadString(m: PayloadMap, key: string): Option<string> {
    if key in m && m[key].Str? then Some(m[key].s) else None
  }

  function ReadInt(m: PayloadMap, key: string): Option<int> {
    if key in m && m[key].Int? then Some(m[key].i) else None
  }

  /** Reads a payload back; `None` when a field is missing or of the wrong kind. */
  function ReadPayload(m: PayloadMap): Option<StoredResult> {
    var project := ReadString(m, "project_name");
    var definition := ReadString(m, "definition_name");
    var build := ReadInt(m, "build_id");
    var buildName := ReadString(m, "build_name");
    var run := ReadInt(m, "test_run_id");
    var result := ReadInt(m, "test_result_id");
    var testName := ReadString(m, "test_name");
    var automated := ReadString(m, "automated_test_name");
    var computer := ReadString(m, "computer_name");
    var outcome := ReadString(m, "outcome");
    var ts := ReadInt(m, "timestamp_ms");
    var sig := ReadString(m, "signature_id");
    var err := ReadString(m, "error_message");
    var stack := ReadString(m, "stack_trace");
    if project.Some? && definition.Some? && build.Some? && buildName.Some? && run.Some? && result.Some?
       && testName.Some? && automated.Some? && computer.Some? && outcome.Some? && ts.Some?
       && sig.Some? && err.Some? && stack.Some?
    then Some(StoredResult(project.value, definition.value, build.value, buildName.value, run.value,
                           result.value, testName.value, automated.value, computer.value, outcome.value,
                           ts.value, sig.value, err.value, stack.value))
    else None
  }

  /** Every field is stored under its own key with its own kind, so the payload reads
      back as the envelope with the missing optional strings as "". */
  lemma ReadPayloadRoundTrip(env: FailedTestEnvelope, testName: string, timestampMs: int, signatureId: string)
    ensures ReadPayload(ResultPayload(env, testName, timestampMs, signatureId)) == Some(StoredResult(
      env.projectName, env.definitionName, env.buildId, env.buildName, env.testRunId, env.result.id,
      testName, env.result.automatedTestName.GetOr(""), env.result.computerName.GetOr(""),
      env.result.outcome.GetOr(""), timestampMs, signatureId,
      env.result.errorMessage.GetOr(""), env.result.stackTrace.GetOr("")))
  {
    PayloadIdentity(env, testName, timestampMs, signatureId);
    PayloadNumbers(env, testName, timestampMs, signatureId);
    PayloadTest(env, testName, timestampMs, signatureId);
    PayloadFailure(env, testName, timestampMs, signatureId);
  }

  lemma PayloadIdentity(env: FailedTestEnvelope, testName: string, timestampMs: int, signatureId: string)
    ensures var m := ResultPayload(env, testName, timestampMs, signatureId);
      && ReadString(m, "project_name") == Some(env.projectName)
      && ReadString(m, "definition_name") == Some(env.definitionName)
      && ReadString(m, "build_name") == Some(env.buildName)
  {
  }

  lemma PayloadNumbers(env: FailedTestEnvelope, testName: string, timestampMs: int, signatureId: string)
    ensures var m := ResultPayload(env, testName, timestampMs, signatureId);
      && ReadInt(m, "build_id") == Some(env.buildId)
      && ReadInt(m, "test_run_id") == Some(env.testRunId)
      && ReadInt(m, "test_result_id") == Some(env.result.id)
  {
  }

  lemma PayloadTest(env: FailedTestEnvelope, testName: string, timestampMs: int, signatureId: string)
    ensures var m := ResultPayload(env, testName, timestampMs, signatureId);
      && ReadString(m, "test_name") == Some(testName)
      && ReadString(m, "automated_test_name") == Some(env.result.automatedTestName.GetOr(""))
      && ReadString(m, "computer_name") == Some(env.result.computerName.GetOr(""))
      && ReadString(m, "outcome") == Some(env.result.outcome.GetOr(""))
  {
  }

  lemma PayloadFailure(env: FailedTestEnvelope, testName: string, timestampMs: int, signatureId: string)
    ensures var m := ResultPayload(env, testName, timestampMs, signatureId);
      && ReadInt(m, "timestamp_ms") == Some(timestampMs)
      && ReadString(m, "signature_id") == Some(signatureId)
      && ReadString(m, "error_message") == Some(env.result.errorMessage.GetOr(""))
      && ReadString(m, "stack_trace") == Some(env.result.stackTrace.GetOr(""))
  {
  }

  // ---------------------------------------------------------------- indexing

  /** The tail of `IndexTestResultAsync` once the ids and the payload are known: a
      failed embedding call throws before the upsert, a failed upsert throws and
      writes nothing; otherwise the one point is upserted and both ids are returned. */
  function StoreResult<V>(embedded: Result<V, string>, upsert: seq<Point<V>> -> Option<string>,
                          pointId: string, signatureId: string,
                          payload: PayloadMap, store: Store<V>): (r: ResultOutcome<V>)
    ensures r.response.Failure? <==>
      embedded.Failure? || upsert([Point(pointId, embedded.value, payload)]).Some?
    ensures embedded.Failure? ==> r.response == Failure(embedded.error)
    ensures embedded.Success? && upsert([Point(pointId, embedded.value, payload)]).Some? ==>
      r.response == Failure(upsert([Point(pointId, embedded.value, payload)]).value)
    ensures r.response.Failure? ==> r.store == store
    ensures r.response.Success? ==>
      && r.response.value == IndexResponse(pointId, signatureId)
      && pointId in r.store
      && r.store == store[pointId := r.store[pointId]]
      && r.store[pointId] == Point(pointId, embedded.value, payload)
  {
    match embedded
    case Failure(e) => ResultOutcome(Failure(e), store)
    case Success(v) =>
      var point := Point(pointId, v, payload);
      if upsert([point]).Some? then ResultOutcome(Failure(upsert([point]).value), store)
      else
        assert Upsert(store, [point]) == store[pointId := point];
        ResultOutcome(Success(IndexResponse(pointId, signatureId)), Upsert(store, [point]))
  }

  /** The point a result is stored as, with vector `v`. */
  function ResultPoint<V>(env: FailedTestEnvelope, svc: ResultServices<V>, v: V): Point<V> {
    var testName := PickTestName(env.result);
    Point(PointIdOf(env, svc.hashing), v,
          ResultPayload(env, testName, TimestampMs(env.result, svc.toUnixMs, svc.now), SignatureIdOf(env, svc)))
  }

  /** `IndexTestResultAsync`: name the test, derive both ids, embed the text, build
      the payload and upsert the one point. */
  function IndexTestResult<V>(env: FailedTestEnvelope, store: Store<V>, svc: ResultServices<V>): (r: ResultOutcome<V>)
    ensures r.response.Failure? <==>
      || svc.embed(BuildEmbeddingText(env, PickTestName(env.result))).Failure?
      || svc.upsert([ResultPoint(env, svc, svc.embed(BuildEmbeddingText(env, PickTestName(env.result))).value)]).Some?
    ensures r.response.Failure? ==> r.store == store
    ensures r.response.Success? ==>
      && r.response.value.pointId in r.store
      && r.store == store[r.response.value.pointId := r.store[r.response.value.pointId]]
      && r.store[r.response.value.pointId].id == r.response.value.pointId
  {
    var testName := PickTestName(env.result);
    var signatureId := SignatureIdOf(env, svc);
    StoreResult(svc.embed(BuildEmbeddingText(env, testName)), svc.upsert, PointIdOf(env, svc.hashing), signatureId,
                ResultPayload(env, testName, TimestampMs(env.result, svc.toUnixMs, svc.now), signatureId), store)
  }

  /** The stored point reads back as the envelope with the chosen test name, the
      timestamp and the returned signature id; the returned point id is the
      result's deterministic id. */
  lemma IndexedResultReadsBack<V>(env: FailedTestEnvelope, store: Store<V>, svc: ResultServices<V>)
    requires IndexTestResult(env, store, svc).response.Success?
    ensures var out := IndexTestResult(env, store, svc);
      && out.response.value.pointId == PointIdOf(env, svc.hashing)
      && out.response.value.signatureId == SignatureIdOf(env, svc)
      && ReadPayload(out.store[out.response.value.pointId].payload) == Some(StoredResult(
           env.projectName, env.definitionName, env.buildId, env.buildName, env.testRunId, env.result.id,
           PickTestName(env.result), env.result.automatedTestName.GetOr(""), env.result.computerName.GetOr(""),
           env.result.outcome.GetOr(""), TimestampMs(env.result, svc.toUnixMs, svc.now),
           out.response.value.signatureId,
           env.result.errorMessage.GetOr(""), env.result.stackTrace.GetOr("")))
  {
    var testName := PickTestName(env.result);
    var ts := TimestampMs(env.result, svc.toUnixMs, svc.now);
    ReadPayloadRoundTrip(env, testName, ts, SignatureIdOf(env, svc));
  }

  /** Indexing the same result again, with the same clock reading and embeddings, leaves the
    * collection as indexing it once. A later `now` can change `timestamp_ms` when neither date is set. */
  lemma ReindexIdempotent<V>(env: FailedTestEnvelope, store: Store<V>, svc: ResultServices<V>)
    ensures var once := IndexTestResult(env, store, svc);
      var twice := IndexTestResult(env, once.store, svc);
      twice.response == once.response && twice.store == once.store
  {
    var testName := PickTestName(env.result);
    var signatureId := SignatureIdOf(env, svc);
    StoreResultIdempotent(svc.embed(BuildEmbeddingText(env, testName)), svc.upsert, PointIdOf(env, svc.hashing), signatureId,
      ResultPayload(env, testName, TimestampMs(env.result, svc.toUnixMs, svc.now), signatureId), store);
  }

  /** Re-indexing a result that has neither date with a later clock reading restamps its
      point, so the collection changes whenever the two readings give different times. */
  lemma ReindexRestamps<V>(env: FailedTestEnvelope, store: Store<V>, svc: ResultServices<V>, later: DateTime)
    requires env.result.completedDate.None? && env.result.startedDate.None?
    requires IndexTestResult(env, store, svc).response.Success?
    requires IndexTestResult(env, IndexTestResult(env, store, svc).store, svc.(now := later)).response.Success?
    ensures var once := IndexTestResult(env, store, svc);
      var twice := IndexTestResult(env, once.store, svc.(now := later));
      && once.store[PointIdOf(env, svc.hashing)].payload["timestamp_ms"] == Int(svc.toUnixMs(svc.now))
      && twice.store[PointIdOf(env, svc.hashing)].payload["timestamp_ms"] == Int(svc.toUnixMs(later))
      && (svc.toUnixMs(later) != svc.toUnixMs(svc.now) <==> twice.store != once.store)
  {
    var once := IndexTestResult(env, store, svc);
    IndexedResultReadsBack(env, store, svc);
    IndexedResultReadsBack(env, once.store, svc.(now := later));
  }

  lemma StoreResultIdempotent<V>(embedded: Result<V, string>, upsert: seq<Point<V>> -> Option<string>,
                                 pointId: string, signatureId: string, payload: PayloadMap, store: Store<V>)
    ensures var once := StoreResult(embedded, upsert, pointId, signatureId, payload, store);
      StoreResult(embedded, upsert, pointId, signatureId, payload, once.store) == once
  {
    var once := StoreResult(embedded, upsert, pointId, signatureId, payload, store);
    if once.response.Success? {
      var twice := StoreResult(embedded, upsert, pointId, signatureId, payload, once.store);
      assert twice.store == once.store[pointId := Point(pointId, embedded.value, payload)];
    }
  }

  // ---------------------------------------------------------------- metadata search

  /** What a metadata search request says about one result: every non-blank field
      names the result's value, and the timestamp lies within the given bounds. */
  predicate Describes(req: MetadataSearchRequest, env: FailedTestEnvelope, testName: string, timestampMs: int) {
    && (IsNullOrWhiteSpace(req.projectName) || req.projectName.value == env.projectName)
    && (IsNullOrWhiteSpace(req.definitionName) || req.definitionName.value == env.definitionName)
    && (IsNullOrWhiteSpace(req.testName) || req.testName.value == testName)
    && (IsNullOrWhiteSpace(req.outcome) || req.outcome.value == env.result.outcome.GetOr(""))
    && (req.fromTimestampMs.Some? ==> req.fromTimestampMs.value <= timestampMs)
    && (req.toTimestampMs.Some? ==> timestampMs <= req.toTimestampMs.value)
  }

  lemma ReadStringHas(m: PayloadMap, key: string, v: string)
    ensures HasString(m, key, v) <==> ReadString(m, key) == Some(v)
  {
  }

  /** A result's payload matches a metadata request exactly when the request describes it. */
  lemma PayloadMatches(req: MetadataSearchRequest, env: FailedTestEnvelope, testName: string, timestampMs: int, signatureId: string)
    ensures MetadataMatches(req, ResultPayload(env, testName, timestampMs, signatureId)) <==> Describes(req, env, testName, timestampMs)
  {
    var m := ResultPayload(env, testName, timestampMs, signatureId);
    PayloadIdentity(env, testName, timestampMs, signatureId);
    PayloadTest(env, testName, timestampMs, signatureId);
    PayloadFailure(env, testName, timestampMs, signatureId);
    if !IsNullOrWhiteSpace(req.projectName) { ReadStringHas(m, "project_name", req.projectName.value); }
    if !IsNullOrWhiteSpace(req.definitionName) { ReadStringHas(m, "definition_name", req.definitionName.value); }
    if !IsNullOrWhiteSpace(req.testName) { ReadStringHas(m, "test_name", req.testName.value); }
    if !IsNullOrWhiteSpace(req.outcome) { ReadStringHas(m, "outcome", req.outcome.value); }
  }

  /** The metadata search returns an indexed result exactly when the request
      describes it. */
  lemma MetadataSearchFinds<V>(req: MetadataSearchRequest, env: FailedTestEnvelope, store: Store<V>, svc: ResultServices<V>)
    requires IndexTestResult(env, store, svc).response.Success?
    ensures var out := IndexTestResult(env, store, svc);
      (AdmitsScroll(BuildScrollFilter(req), out.store[out.response.value.pointId].payload)
       <==> Describes(req, env, PickTestName(env.result), TimestampMs(env.result, svc.toUnixMs, svc.now)))
  {
    var out := IndexTestResult(env, store, svc);
    var testName := PickTestName(env.result);
    var ts := TimestampMs(env.result, svc.toUnixMs, svc.now);
    var m := ResultPayload(env, testName, ts, SignatureIdOf(env, svc));
    assert out.store[out.response.value.pointId].payload == m;
    BuildScrollFilterMeaning(req, m);
    PayloadMatches(req, env, testName, ts, SignatureIdOf(env, svc));
  }
}
