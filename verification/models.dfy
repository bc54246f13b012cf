/** The records a failed-test result arrives in: the Azure DevOps test case result
    and the envelope of pipeline, build and run context around it. */
module Models {
  import opened Wrappers

  /** A point in time, as `DateTime` ticks; only its conversion to Unix
      milliseconds is ever used, and that conversion is a parameter. */
  datatype DateTime = DateTime(ticks: int)

  /** `AzureDevOpsTestCaseResultDto`. */
  datatype TestCaseResult = TestCaseResult(
    id: int,
    testCaseTitle: Option<string>,
    automatedTestName: Option<string>,
    computerName: Option<string>,
    outcome: Option<string>,
    errorMessage: Option<string>,
    stackTrace: Option<string>,
    startedDate: Option<DateTime>,
    completedDate: Option<DateTime>)

  /** `FailedTestEnvelope`. */
  datatype FailedTestEnvelope = FailedTestEnvelope(
    projectName: string,
    definitionName: string,
    buildId: int,
    buildName: string,
    testRunId: int,
    result: TestCaseResult)
}
