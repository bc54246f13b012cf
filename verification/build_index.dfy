/** The build indexing endpoint: fetch the test runs of a build, fetch the failed
    results of each run, index each result as a failed-test envelope, and report
    the counts and the errors. A failed fetch of a run's results skips that run; a
    failed indexing call skips that result; neither stops the loop. Azure DevOps
    and the result indexer are parameters. */
module BuildIndex {
  import opened Wrappers
  import opened Strings
  import opened Http
  import opened Models
  import opened Guids
  import opened TestResults

  /** `TestRunInfo`; only the id and the name are read. The name is declared
      non-null but still passes through `??`, so it is optional here. */
  datatype TestRunInfo = TestRunInfo(id: int, name: Option<string>)

  /** `TestResultInfo`, without the run id and run name it repeats. */
  datatype TestResultInfo = TestResultInfo(
    id: int,
    testCaseTitle: Option<string>,
    automatedTestName: Option<string>,
    computerName: Option<string>,
    outcome: Option<string>,
    errorMessage: Option<string>,
    stackTrace: Option<string>,
    startedDate: Option<DateTime>,
    completedDate: Option<DateTime>)

  datatype IndexBuildRequest = IndexBuildRequest(collectionUrl: string, projectName: string, buildId: int, definitionName: Option<string>)

  datatype IndexBuildResponse = IndexBuildResponse(buildId: int, testRunsFound: int, failedResultsFound: int, pointsIndexed: int, errors: seq<string>)

  /** The Azure DevOps calls, each of which may throw: the runs of a build and the
      failed results of a run, both by collection URL and project. */
  datatype AzureDevOps = AzureDevOps(
    runsFor: (string, string, int) -> Result<seq<TestRunInfo>, string>,
    failedResultsFor: (string, string, int) -> Result<seq<TestResultInfo>, string>)

  /** An indexer call: the response or the exception's message, and the next state. */
  type ResultIndexer<!S> = (FailedTestEnvelope, S) -> (Result<IndexResponse, string>, S)

  // ---------------------------------------------------------------- envelopes and messages

  function DefinitionName(req: IndexBuildRequest): string {
    req.definitionName.GetOr("Build-" + IntToString(req.buildId))
  }

  function BuildName(run: TestRunInfo): string {
    run.name.GetOr("Run-" + IntToString(run.id))
  }

  /** The envelope of one failed result: the request's project and build, the
      definition name (or `Build-<id>`), the run's name (or `Run-<id>`) and id, and
      the result's fields as they are. */
  function Envelope(req: IndexBuildRequest, run: TestRunInfo, r: TestResultInfo): (env: FailedTestEnvelope)
    ensures env.projectName == req.projectName && env.buildId == req.buildId && env.testRunId == run.id
    ensures env.definitionName == (if req.definitionName.Some? then req.definitionName.value else "Build-" + IntToString(req.buildId))
    ensures env.buildName == (if run.name.Some? then run.name.value else "Run-" + IntToString(run.id))
    ensures env.result == TestCaseResult(r.id, r.testCaseTitle, r.automatedTestName, r.computerName, r.outcome,
                                         r.errorMessage, r.stackTrace, r.startedDate, r.completedDate)
  {
    FailedTestEnvelope(req.projectName, DefinitionName(req), req.buildId, BuildName(run), run.id,
      TestCaseResult(r.id, r.testCaseTitle, r.automatedTestName, r.computerName, r.outcome,
                     r.errorMessage, r.stackTrace, r.startedDate, r.completedDate))
  }

  /** A null run name prints as nothing. */
  function FetchError(run: TestRunInfo, message: string): string {
    "Run " + IntToString(run.id) + " (" + run.name.GetOr("") + "): failed to fetch results — " + message
  }

  function IndexingError(run: TestRunInfo, r: TestResultInfo, message: string): string {
    "Run " + IntToString(run.id) + ", result " + IntToString(r.id) + ": indexing failed — " + message
  }

  // ---------------------------------------------------------------- the loops as folds

  /** The running totals: failed results found, points indexed, errors in order,
      and the indexer's state. */
  datatype Tally<S> = Tally(found: nat, indexed: nat, errors: seq<string>, state: S)

  /** One result: index its envelope; count it or record the error. */
  function ResultStep<S>(t: Tally<S>, req: IndexBuildRequest, run: TestRunInfo, r: TestResultInfo, index: ResultIndexer<S>): Tally<S> {
    var (res, s') := index(Envelope(req, run, r), t.state);
    if res.Success? then t.(indexed := t.indexed + 1, state := s')
    else t.(errors := t.errors + [IndexingError(run, r, res.error)], state := s')
  }

  /** The inner loop over the failed results of one run. */
  function IndexResults<S>(t: Tally<S>, req: IndexBuildRequest, run: TestRunInfo, results: seq<TestResultInfo>, index: ResultIndexer<S>): Tally<S>
    decreases |results|
  {
    if |results| == 0 then t
    else ResultStep(IndexResults(t, req, run, results[..|results| - 1], index), req, run, results[|results| - 1], index)
  }

  function FetchResults(req: IndexBuildRequest, run: TestRunInfo, ado: AzureDevOps): Result<seq<TestResultInfo>, string> {
    ado.failedResultsFor(req.collectionUrl, req.projectName, run.id)
  }

  /** One run: a failed fetch adds one error and skips the run; otherwise the run's
      failed results are counted and indexed. */
  function RunStep<S>(t: Tally<S>, req: IndexBuildRequest, run: TestRunInfo, ado: AzureDevOps, index: ResultIndexer<S>): Tally<S> {
    match FetchResults(req, run, ado)
    case Failure(message) => t.(errors := t.errors + [FetchError(run, message)])
    case Success(results) => IndexResults(t.(found := t.found + |results|), req, run, results, index)
  }

  /** The outer loop over the runs. */
  function IndexRuns<S>(t: Tally<S>, req: IndexBuildRequest, runs: seq<TestRunInfo>, ado: AzureDevOps, index: ResultIndexer<S>): Tally<S>
    decreases |runs|
  {
    if |runs| == 0 then t
    else RunStep(IndexRuns(t, req, runs[..|runs| - 1], ado, index), req, runs[|runs| - 1], ado, index)
  }

  /** What the endpoint answers: a problem when the runs cannot be fetched, all
      zeros for a build without runs, otherwise the totals of the loops. */
  function IndexBuildSpec<S>(req: IndexBuildRequest, ado: AzureDevOps, index: ResultIndexer<S>, s: S): (HttpResult<IndexBuildResponse>, S) {
    match ado.runsFor(req.collectionUrl, req.projectName, req.buildId)
    case Failure(message) => (Problem(message), s)
    case Success(runs) =>
      if |runs| == 0 then (Ok(IndexBuildResponse(req.buildId, 0, 0, 0, [])), s)
      else
        var t := IndexRuns(Tally(0, 0, [], s), req, runs, ado, index);
        (Ok(IndexBuildResponse(req.buildId, |runs|, t.found, t.indexed, t.errors)), t.state)
  }

  // ---------------------------------------------------------------- the endpoint

  /** `POST /index/build`, with the two nested loops of the source. */
  method IndexBuild<S>(req: IndexBuildRequest, ado: AzureDevOps, index: ResultIndexer<S>, s: S)
    returns (r: HttpResult<IndexBuildResponse>, s': S)
    ensures (r, s') == IndexBuildSpec(req, ado, index, s)
    ensures r.Problem? <==> ado.runsFor(req.collectionUrl, req.projectName, req.buildId).Failure?
    ensures r.Ok? ==> r.value.buildId == req.buildId && r.value.testRunsFound == |ado.runsFor(req.collectionUrl, req.projectName, req.buildId).value|
  {
    var fetched := ado.runsFor(req.collectionUrl, req.projectName, req.buildId);
    if fetched.Failure? {
      return Problem(fetched.error), s;
    }
    var runs := fetched.value;
    if |runs| == 0 {
      return Ok(IndexBuildResponse(req.buildId, 0, 0, 0, [])), s;
    }
    var t := Tally(0, 0, [], s);
    var i := 0;
    while i < |runs|
      invariant 0 <= i <= |runs|
      invariant IndexRuns(Tally(0, 0, [], s), req, runs[..i], ado, index) == t
    {
      t := IndexRun(t, req, runs[i], ado, index);
      assert runs[..i + 1][..i] == runs[..i];
      i := i + 1;
    }
    assert runs[..|runs|] == runs;
    r := Ok(IndexBuildResponse(req.buildId, |runs|, t.found, t.indexed, t.errors));
    s' := t.state;
  }

  /** One run: fetch its failed results; a failure adds one error and skips the
      run, otherwise the results are counted and indexed. */
  method IndexRun<S>(t0: Tally<S>, req: IndexBuildRequest, run: TestRunInfo, ado: AzureDevOps, index: ResultIndexer<S>)
    returns (t: Tally<S>)
    ensures t == RunStep(t0, req, run, ado, index)
  {
    var results := FetchResults(req, run, ado);
    if results.Failure? {
      t := t0.(errors := t0.errors + [FetchError(run, results.error)]);
    } else {
      t := IndexRunResults(t0.(found := t0.found + |results.value|), req, run, results.value, index);
    }
  }

  /** The inner loop: index each failed result of one run, counting the successes
      and recording the failures. */
  method IndexRunResults<S>(t0: Tally<S>, req: IndexBuildRequest, run: TestRunInfo, failed: seq<TestResultInfo>, index: ResultIndexer<S>)
    returns (t: Tally<S>)
    ensures t == IndexResults(t0, req, run, failed, index)
    ensures t.found == t0.found && t.indexed + |t.errors| == t0.indexed + |t0.errors| + |failed|
  {
    t := t0;
    var j := 0;
    while j < |failed|
      invariant 0 <= j <= |failed|
      invariant IndexResults(t0, req, run, failed[..j], index) == t
      invariant t.found == t0.found && t.indexed + |t.errors| == t0.indexed + |t0.errors| + j
    {
      assert failed[..j + 1][..j] == failed[..j];
      var (res, next) := index(Envelope(req, run, failed[j]), t.state);
      if res.Success? {
        t := t.(indexed := t.indexed + 1, state := next);
      } else {
        t := t.(errors := t.errors + [IndexingError(run, failed[j], res.error)], state := next);
      }
      j := j + 1;
    }
    assert failed[..|failed|] == failed;
  }

  // ---------------------------------------------------------------- counts

  /** The failed results of the runs whose fetch succeeds. */
  function Fetched(req: IndexBuildRequest, runs: seq<TestRunInfo>, ado: AzureDevOps): nat
    decreases |runs|
  {
    if |runs| == 0 then 0
    else
      var last := FetchResults(req, runs[|runs| - 1], ado);
      Fetched(req, runs[..|runs| - 1], ado) + (if last.Success? then |last.value| else 0)
  }

  /** The runs whose fetch fails. */
  function FetchFailures(req: IndexBuildRequest, runs: seq<TestRunInfo>, ado: AzureDevOps): nat
    decreases |runs|
  {
    if |runs| == 0 then 0
    else FetchFailures(req, runs[..|runs| - 1], ado) + (if FetchResults(req, runs[|runs| - 1], ado).Failure? then 1 else 0)
  }

  /** Every result of a run is either indexed or adds one error. */
  lemma {:induction false} IndexResultsCounts<S>(t: Tally<S>, req: IndexBuildRequest, run: TestRunInfo, results: seq<TestResultInfo>, index: ResultIndexer<S>)
    ensures var r := IndexResults(t, req, run, results, index);
      && r.found == t.found
      && r.indexed + |r.errors| == t.indexed + |t.errors| + |results|
      && t.indexed <= r.indexed <= t.indexed + |results|
    decreases |results|
  {
    if |results| > 0 {
      IndexResultsCounts(t, req, run, results[..|results| - 1], index);
    }
  }

  /** Over the runs: the results found are those of the fetched runs, and every
      error is a failed fetch or a result that was not indexed. */
  lemma {:induction false} IndexRunsCounts<S>(t: Tally<S>, req: IndexBuildRequest, runs: seq<TestRunInfo>, ado: AzureDevOps, index: ResultIndexer<S>)
    ensures var r := IndexRuns(t, req, runs, ado, index);
      && r.found == t.found + Fetched(req, runs, ado)
      && r.indexed + |r.errors| == t.indexed + |t.errors| + Fetched(req, runs, ado) + FetchFailures(req, runs, ado)
      && t.indexed <= r.indexed <= t.indexed + Fetched(req, runs, ado)
    decreases |runs|
  {
    if |runs| > 0 {
      var front := runs[..|runs| - 1];
      IndexRunsCounts(t, req, front, ado, index);
      RunStepCounts(IndexRuns(t, req, front, ado, index), req, runs[|runs| - 1], ado, index);
    }
  }

  /** One run adds its fetched results to those found, and each of them (or the
      failed fetch) is either indexed or one error. */
  lemma RunStepCounts<S>(t: Tally<S>, req: IndexBuildRequest, run: TestRunInfo, ado: AzureDevOps, index: ResultIndexer<S>)
    ensures var r := RunStep(t, req, run, ado, index);
      var fetched := FetchResults(req, run, ado);
      var n := if fetched.Success? then |fetched.value| else 0;
      && r.found == t.found + n
      && r.indexed + |r.errors| == t.indexed + |t.errors| + n + (if fetched.Failure? then 1 else 0)
      && t.indexed <= r.indexed <= t.indexed + n
  {
    match FetchResults(req, run, ado)
    case Failure(message) =>
      assert RunStep(t, req, run, ado, index) == t.(errors := t.errors + [FetchError(run, message)]);
    case Success(results) =>
      IndexResultsCounts(t.(found := t.found + |results|), req, run, results, index);
  }

  /** The response's counts: runs found, failed results of the fetched runs, and
      `PointsIndexed + indexing errors = FailedResultsFound`, so the errors are the
      failed fetches plus the results that were not indexed. */
  lemma IndexBuildCounts<S>(req: IndexBuildRequest, ado: AzureDevOps, index: ResultIndexer<S>, s: S)
    requires ado.runsFor(req.collectionUrl, req.projectName, req.buildId).Success?
    ensures var runs := ado.runsFor(req.collectionUrl, req.projectName, req.buildId).value;
      var resp := IndexBuildSpec(req, ado, index, s).0.value;
      && resp.testRunsFound == |runs|
      && resp.failedResultsFound == Fetched(req, runs, ado)
      && resp.pointsIndexed <= resp.failedResultsFound
      && |resp.errors| == FetchFailures(req, runs, ado) + (resp.failedResultsFound - resp.pointsIndexed)
  {
    var runs := ado.runsFor(req.collectionUrl, req.projectName, req.buildId).value;
    IndexRunsCounts(Tally(0, 0, [], s), req, runs, ado, index);
  }

  /** A build without runs answers all zeros and no error, and indexes nothing. */
  lemma NoRunsNoWork<S>(req: IndexBuildRequest, ado: AzureDevOps, index: ResultIndexer<S>, s: S)
    requires ado.runsFor(req.collectionUrl, req.projectName, req.buildId) == Success([])
    ensures IndexBuildSpec(req, ado, index, s) == (Ok(IndexBuildResponse(req.buildId, 0, 0, 0, [])), s)
  {
  }

  /** Results are indexed independently and in order: the results `a + b` are the
      results `a` followed by the results `b`, so a failing result never stops the
      later ones. */
  lemma {:induction false} IndexResultsAppend<S>(t: Tally<S>, req: IndexBuildRequest, run: TestRunInfo,
                                                 a: seq<TestResultInfo>, b: seq<TestResultInfo>, index: ResultIndexer<S>)
    ensures IndexResults(t, req, run, a + b, index) == IndexResults(IndexResults(t, req, run, a, index), req, run, b, index)
    decreases |b|
  {
    if |b| == 0 {
      assert a + b == a;
    } else {
      var b' := b[..|b| - 1];
      assert (a + b)[..|a + b| - 1] == a + b';
      assert (a + b)[|a + b| - 1] == b[|b| - 1];
      IndexResultsAppend(t, req, run, a, b', index);
    }
  }

  /** Runs are processed independently and in order, likewise. */
  lemma {:induction false} IndexRunsAppend<S>(t: Tally<S>, req: IndexBuildRequest, a: seq<TestRunInfo>, b: seq<TestRunInfo>,
                                              ado: AzureDevOps, index: ResultIndexer<S>)
    ensures IndexRuns(t, req, a + b, ado, index) == IndexRuns(IndexRuns(t, req, a, ado, index), req, b, ado, index)
    decreases |b|
  {
    if |b| == 0 {
      assert a + b == a;
    } else {
      var b' := b[..|b| - 1];
      assert (a + b)[..|a + b| - 1] == a + b';
      assert (a + b)[|a + b| - 1] == b[|b| - 1];
      IndexRunsAppend(t, req, a, b', ado, index);
    }
  }

  /** Within one build, results that differ in run id or result id get distinct
      point keys, and so distinct points when the hash tells the keys apart; the
      same failure in two runs keeps one signature. */
  lemma BuildResultsDistinct<V>(req: IndexBuildRequest, run1: TestRunInfo, r1: TestResultInfo,
                                run2: TestRunInfo, r2: TestResultInfo, svc: ResultServices<V>)
    ensures (run1.id, r1.id) != (run2.id, r2.id) ==> PointKey(Envelope(req, run1, r1)) != PointKey(Envelope(req, run2, r2))
    ensures (run1.id, r1.id) != (run2.id, r2.id) && HashSeparates(svc.hashing, PointKey(Envelope(req, run1, r1)), PointKey(Envelope(req, run2, r2)))
      ==> PointIdOf(Envelope(req, run1, r1), svc.hashing) != PointIdOf(Envelope(req, run2, r2), svc.hashing)
    ensures (r1.automatedTestName, r1.testCaseTitle, r1.errorMessage, r1.stackTrace) == (r2.automatedTestName, r2.testCaseTitle, r2.errorMessage, r2.stackTrace)
      ==> SignatureIdOf(Envelope(req, run1, r1), svc) == SignatureIdOf(Envelope(req, run2, r2), svc)
  {
    var e1, e2 := Envelope(req, run1, r1), Envelope(req, run2, r2);
    PointKeyInjective(e1, e2);
    if HashSeparates(svc.hashing, PointKey(e1), PointKey(e2)) {
      DistinctResultsDistinctPoints(e1, e2, svc.hashing);
    }
    if (r1.automatedTestName, r1.testCaseTitle, r1.errorMessage, r1.stackTrace) == (r2.automatedTestName, r2.testCaseTitle, r2.errorMessage, r2.stackTrace) {
      SignatureIgnoresRunContext(e1, e2, svc);
    }
  }
}
