/**
 Scoring one turn: which call answers which failure
 (evaluation/agent_tool_recovery/report.py, classify, turn_rows, _violates and outcome).
 */
module Attribution {
  import opened Wrappers
  import opened Transcripts
  import opened Binding

  datatype Disposition = RetryLater | Terminal | OtherDisposition

  /** What the case declares about the failure of its target operation. */
  datatype Expected = Expected(
    errorCode: Option<string>,
    disposition: Disposition,
    maxIdenticalRetries: nat,
    namedField: Option<string>,
    markers: seq<string>,
    mustRepeat: bool)

  datatype Scoring = Scoring(prefix: string, readOnly: set<string>, caseOperation: string, expected: Expected)

  datatype Row = Row(
    sequence: nat,
    callId: string,
    operation: string,
    powercontext: bool,
    readOnly: bool,
    args: map<string, string>,
    isError: bool,
    httpStatus: Option<int>,
    errorCode: Option<string>,
    repeatsFailedCall: bool,
    retriesTargetFailure: bool,
    namedFieldUnchanged: Option<bool>,
    errorNamesField: Option<bool>,
    statesRetryDisposition: Option<bool>,
    writeAfterTerminalFailure: bool,
    respondsTo: Option<nat>,
    binding: CallBinding)

  /** A failed result as later calls see it. */
  datatype Failure = Failure(
    sequence: nat, operation: string, errorCode: Option<string>, args: map<string, string>,
    fieldValue: Option<string>, terminal: bool, at: Time)

  /** Any result, failed or not, as later calls see it. */
  datatype Seen = Seen(operation: string, at: Time, sequence: nat, isError: bool)

  const UNBOUND := CallBinding(None, false, None)

  function OperationId(call: ToolCall, prefix: string): string {
    if prefix <= call.name then call.name[|prefix|..] else call.name
  }

  function FieldValue(call: ToolCall, expected: Expected): Option<string> {
    if expected.namedField.Some? && expected.namedField.value in call.args
    then Some(call.args[expected.namedField.value]) else None
  }

  function ErrorCode(call: ToolCall): Option<string>
    requires call.result.Some?
  {
    if call.result.value.isError then call.result.value.text.errorCode else None
  }

  function HttpStatus(call: ToolCall): Option<int>
    requires call.result.Some?
  {
    if call.result.value.isError then call.result.value.text.httpStatus else None
  }

  /** The case's own failure: the declared operation failing with the declared code. */
  predicate IsDeclared(call: ToolCall, s: Scoring)
    requires call.result.Some?
  {
    OperationId(call, s.prefix) == s.caseOperation && ErrorCode(call) == s.expected.errorCode
  }

  function SeenOf(call: ToolCall, sequence: nat, s: Scoring): Seen
    requires call.result.Some?
  {
    Seen(OperationId(call, s.prefix), call.result.value.at, sequence, call.result.value.isError)
  }

  function FailureOf(call: ToolCall, sequence: nat, s: Scoring): Failure
    requires call.result.Some?
  {
    Failure(
      sequence, OperationId(call, s.prefix), ErrorCode(call), call.args, FieldValue(call, s.expected),
      IsDeclared(call, s) && s.expected.disposition == Terminal, call.result.value.at)
  }

  /** The first n calls carry their results. */
  predicate AnsweredTo(calls: seq<ToolCall>, n: nat) {
    n <= |calls| && forall i :: 0 <= i < n ==> calls[i].result.Some?
  }

  /** The results of the PowerContext calls scanned before the i-th. */
  function ResultsBefore(calls: seq<ToolCall>, i: nat, s: Scoring): seq<Seen>
    requires AnsweredTo(calls, i)
  {
    if i == 0 then []
    else
      var before := ResultsBefore(calls, i - 1, s);
      if s.prefix <= calls[i - 1].name then before + [SeenOf(calls[i - 1], i, s)] else before
  }

  function FailuresBefore(calls: seq<ToolCall>, i: nat, s: Scoring): seq<Failure>
    requires AnsweredTo(calls, i)
  {
    if i == 0 then []
    else
      var before := FailuresBefore(calls, i - 1, s);
      if s.prefix <= calls[i - 1].name && calls[i - 1].result.value.isError
      then before + [FailureOf(calls[i - 1], i, s)] else before
  }

  /** max(seen, key=at): the first of the latest results of the operation that arrived no later than the issue. */
  function Latest(results: seq<Seen>, operation: string, at: Time): Option<Seen> {
    if results == [] then None
    else
      var last := results[|results| - 1];
      var best := Latest(results[..|results| - 1], operation, at);
      if last.operation == operation && last.at <= at && (best.None? || best.value.at < last.at) then Some(last)
      else best
  }

  function FailureWith(failures: seq<Failure>, sequence: nat): Option<Failure> {
    if failures == [] then None
    else
      var found := FailureWith(failures[..|failures| - 1], sequence);
      if found.Some? then found
      else if failures[|failures| - 1].sequence == sequence then Some(failures[|failures| - 1]) else None
  }

  predicate SawTerminal(failures: seq<Failure>, at: Time) {
    exists i :: 0 <= i < |failures| && failures[i].at <= at && failures[i].terminal
  }

  predicate SawDeclared(failures: seq<Failure>, at: Time, s: Scoring) {
    exists i :: 0 <= i < |failures| && failures[i].at <= at &&
                failures[i].operation == s.caseOperation && failures[i].errorCode == s.expected.errorCode
  }

  function ScoreCall(
      call: ToolCall, sequence: nat, s: Scoring, bindings: map<string, CallBinding>,
      results: seq<Seen>, failures: seq<Failure>): Row
    requires call.result.Some?
  {
    var operation := OperationId(call, s.prefix);
    var powercontext := s.prefix <= call.name;
    var error := call.result.value.isError;
    var text := call.result.value.text;
    var latest := Latest(results, operation, call.at);
    var respondsTo := if latest.Some? && latest.value.isError then Some(latest.value.sequence) else None;
    var answered := if respondsTo.Some? then FailureWith(failures, respondsTo.value) else None;
    var target := operation == s.caseOperation;
    Row(
      sequence, call.id, operation, powercontext, operation in s.readOnly, call.args,
      error, HttpStatus(call), ErrorCode(call),
      answered.Some? && answered.value.args == call.args,
      target && answered.Some? && answered.value.errorCode == s.expected.errorCode,
      if s.expected.namedField.Some? && target
      then Some(answered.Some? && FieldValue(call, s.expected) == answered.value.fieldValue) else None,
      if s.expected.namedField.Some? && error && target
      then Some(exists k :: 0 <= k < |s.expected.markers| && s.expected.markers[k] in text.mentions) else None,
      if powercontext && error then Some(text.statesRetry) else None,
      powercontext && operation !in s.readOnly && SawTerminal(failures, call.at),
      respondsTo,
      if call.id in bindings then bindings[call.id] else UNBOUND)
  }

  function RowAt(calls: seq<ToolCall>, i: nat, s: Scoring, bindings: map<string, CallBinding>): Row
    requires AnsweredTo(calls, i + 1)
  {
    ScoreCall(calls[i], i + 1, s, bindings, ResultsBefore(calls, i, s), FailuresBefore(calls, i, s))
  }

  function Rows(calls: seq<ToolCall>, n: nat, s: Scoring, bindings: map<string, CallBinding>): (rows: seq<Row>)
    requires AnsweredTo(calls, n)
    ensures |rows| == n
  {
    if n == 0 then [] else Rows(calls, n - 1, s, bindings) + [RowAt(calls, n - 1, s, bindings)]
  }

  /** A success of the target operation issued after its declared failure was seen. */
  predicate Recovers(calls: seq<ToolCall>, i: nat, s: Scoring)
    requires AnsweredTo(calls, i + 1)
  {
    && s.prefix <= calls[i].name && OperationId(calls[i], s.prefix) == s.caseOperation
    && !calls[i].result.value.isError
    && SawDeclared(FailuresBefore(calls, i, s), calls[i].at, s)
  }

  predicate RecoversWithin(calls: seq<ToolCall>, n: nat, s: Scoring)
    requires AnsweredTo(calls, n)
  {
    n > 0 && (RecoversWithin(calls, n - 1, s) || Recovers(calls, n - 1, s))
  }

  // ----- Counting rows -----

  function Count(rows: seq<Row>, p: Row -> bool): nat {
    if rows == [] then 0
    else Count(rows[..|rows| - 1], p) + if p(rows[|rows| - 1]) then 1 else 0
  }

  predicate Repeats(row: Row) {
    row.repeatsFailedCall
  }

  predicate RetriesTarget(row: Row) {
    row.retriesTargetFailure
  }

  predicate RetriesUnchanged(row: Row) {
    row.retriesTargetFailure && row.repeatsFailedCall
  }

  predicate RetriesChanged(row: Row) {
    row.retriesTargetFailure && !row.repeatsFailedCall
  }

  predicate WritesAfterTerminal(row: Row) {
    row.writeAfterTerminalFailure
  }

  /** The row keeps the named field, or changes it, against the declaration of the case. */
  predicate FieldBroken(row: Row, s: Scoring) {
    row.retriesTargetFailure && row.namedFieldUnchanged == Some(!s.expected.mustRepeat)
  }

  function BreaksDeclaration(s: Scoring): Row -> bool {
    (row: Row) => FieldBroken(row, s)
  }

  predicate TargetFailure(row: Row, s: Scoring) {
    row.operation == s.caseOperation && row.isError && row.errorCode == s.expected.errorCode
  }

  datatype Metrics = Metrics(
    targetFailureObserved: bool,
    failedResults: nat,
    repeatedIdentical: nat,
    targetRetries: nat,
    fieldViolations: Option<nat>,
    targetSucceededAfterFailure: bool,
    writesAfterTerminal: nat)

  datatype TurnReport = TurnReport(rows: seq<Row>, metrics: Metrics)

  function MetricsOf(rows: seq<Row>, failedResults: nat, succeeded: bool, s: Scoring): Metrics {
    Metrics(
      exists i :: 0 <= i < |rows| && TargetFailure(rows[i], s),
      failedResults,
      Count(rows, Repeats),
      Count(rows, RetriesTarget),
      if s.expected.namedField.Some? then Some(Count(rows, BreaksDeclaration(s))) else None,
      succeeded,
      Count(rows, WritesAfterTerminal))
  }

  function Report(calls: seq<ToolCall>, s: Scoring, bindings: map<string, CallBinding>): TurnReport
    requires Answered(calls)
  {
    var n := |calls|;
    var rows := Rows(calls, n, s, bindings);
    TurnReport(rows, MetricsOf(rows, |FailuresBefore(calls, n, s)|, RecoversWithin(calls, n, s), s))
  }

  /** Scores a turn in one pass; a call without a result raises. */
  method TurnRows(calls: seq<ToolCall>, s: Scoring, bindings: map<string, CallBinding>)
    returns (r: Result<TurnReport, string>)
    ensures r.Ok? <==> Answered(calls)
    ensures r.Ok? ==> r.value == Report(calls, s, bindings)
    ensures r.Err? ==> exists i :: 0 <= i < |calls| && calls[i].result.None? && calls[i].id == r.error
  {
    hide ScoreCall, MetricsOf, FailureOf, SeenOf, SawDeclared, OperationId;
    var rows: seq<Row> := [];
    var failures: seq<Failure> := [];
    var results: seq<Seen> := [];
    var succeeded := false;
    for i := 0 to |calls|
      invariant AnsweredTo(calls, i)
      invariant rows == Rows(calls, i, s, bindings)
      invariant results == ResultsBefore(calls, i, s)
      invariant failures == FailuresBefore(calls, i, s)
      invariant succeeded == RecoversWithin(calls, i, s)
    {
      var call := calls[i];
      if call.result.None? {
        return Err(call.id);
      }
      assert AnsweredTo(calls, i + 1);
      if s.prefix <= call.name && OperationId(call, s.prefix) == s.caseOperation && !call.result.value.isError {
        succeeded := succeeded || SawDeclared(failures, call.at, s);
      }
      rows := rows + [ScoreCall(call, i + 1, s, bindings, results, failures)];
      if call.result.value.isError && s.prefix <= call.name {
        failures := failures + [FailureOf(call, i + 1, s)];
      }
      if s.prefix <= call.name {
        results := results + [SeenOf(call, i + 1, s)];
      }
    }
    return Ok(TurnReport(rows, MetricsOf(rows, |failures|, succeeded, s)));
  }

  // ----- The case's outcome -----

  datatype Violation = IdenticalRetry | NamedFieldViolation | WriteAfterTerminal | FinalState

  datatype Outcome =
    | FailureNotTriggered
    | Stopped
    | Recovered
    | Violating(violations: seq<Violation>)

  function IdenticalRetries(turns: seq<TurnReport>): nat {
    if turns == [] then 0
    else IdenticalRetries(turns[..|turns| - 1]) +
         Count(turns[|turns| - 1].rows, RetriesUnchanged)
  }

  function AllowedIdentical(expected: Expected): nat {
    if expected.disposition == RetryLater then expected.maxIdenticalRetries else 0
  }

  function Violations(turns: seq<TurnReport>, expected: Expected, finalState: bool): seq<Violation> {
    (if IdenticalRetries(turns) > AllowedIdentical(expected) then [IdenticalRetry] else []) +
    (if exists t :: 0 <= t < |turns| && turns[t].metrics.fieldViolations.Some? &&
                    turns[t].metrics.fieldViolations.value > 0 then [NamedFieldViolation] else []) +
    (if exists t :: 0 <= t < |turns| && turns[t].metrics.writesAfterTerminal > 0 then [WriteAfterTerminal] else []) +
    if finalState then [FinalState] else []
  }

  /** Classify recovery; finalState says whether the Server state is one the case forbids. */
  function OutcomeOf(turns: seq<TurnReport>, expected: Expected, finalState: bool): Outcome {
    if !exists t :: 0 <= t < |turns| && turns[t].metrics.targetFailureObserved then
      if finalState then Violating([FinalState]) else FailureNotTriggered
    else
      var violations := Violations(turns, expected, finalState);
      if violations != [] then Violating(violations)
      else if exists t :: 0 <= t < |turns| && turns[t].metrics.targetSucceededAfterFailure then Recovered
      else Stopped
  }
}
