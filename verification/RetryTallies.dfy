/**
 Recounting retries from stored rows (evaluation/agent_tool_recovery/summary.py, retry_counts), and its
 agreement with the tallies that scoring stored in the same rows.
 */
module RetryTallies {
  import opened Wrappers
  import opened Transcripts
  import opened Binding
  import opened Attribution
  import opened AttributionTheorems

  datatype RunReport = RunReport(complete: bool, turns: seq<TurnReport>)

  datatype Tally = Tally(repeated: nat, changed: nat)

  function Plus(a: Tally, b: Tally): Tally {
    Tally(a.repeated + b.repeated, a.changed + b.changed)
  }

  const ZERO := Tally(0, 0)

  /** {row["sequence"]: row for row in rows if row["is_error"]} over the first n rows. */
  function FailureRows(rows: seq<Row>, n: nat): map<nat, Row>
    requires n <= |rows|
  {
    if n == 0 then map[]
    else if rows[n - 1].isError then FailureRows(rows, n - 1)[rows[n - 1].sequence := rows[n - 1]]
    else FailureRows(rows, n - 1)
  }

  function TallyRow(row: Row, failures: map<nat, Row>, operation: string, code: Option<string>): Tally {
    if row.respondsTo.None? || row.respondsTo.value !in failures then ZERO
    else
      var failure := failures[row.respondsTo.value];
      if failure.operation != operation || failure.errorCode != code then ZERO
      else if row.args == failure.args then Tally(1, 0) else Tally(0, 1)
  }

  function TallyRows(rows: seq<Row>, n: nat, failures: map<nat, Row>, operation: string, code: Option<string>): Tally
    requires n <= |rows|
  {
    if n == 0 then ZERO
    else Plus(TallyRows(rows, n - 1, failures, operation, code), TallyRow(rows[n - 1], failures, operation, code))
  }

  function TallyTurn(turn: TurnReport, operation: string, code: Option<string>): Tally {
    TallyRows(turn.rows, |turn.rows|, FailureRows(turn.rows, |turn.rows|), operation, code)
  }

  function TallyTurns(turns: seq<TurnReport>, n: nat, operation: string, code: Option<string>): Tally
    requires n <= |turns|
  {
    if n == 0 then ZERO
    else Plus(TallyTurns(turns, n - 1, operation, code), TallyTurn(turns[n - 1], operation, code))
  }

  function TallyReports(reports: seq<RunReport>, n: nat, operation: string, code: Option<string>): Tally
    requires n <= |reports|
  {
    if n == 0 then ZERO
    else
      var before := TallyReports(reports, n - 1, operation, code);
      if reports[n - 1].complete
      then Plus(before, TallyTurns(reports[n - 1].turns, |reports[n - 1].turns|, operation, code))
      else before
  }

  method CollectFailures(rows: seq<Row>) returns (failures: map<nat, Row>)
    ensures failures == FailureRows(rows, |rows|)
  {
    failures := map[];
    for i := 0 to |rows|
      invariant failures == FailureRows(rows, i)
    {
      if rows[i].isError {
        failures := failures[rows[i].sequence := rows[i]];
      }
    }
  }

  method RetryCounts(reports: seq<RunReport>, operation: string, code: Option<string>)
    returns (repeated: nat, changed: nat)
    ensures Tally(repeated, changed) == TallyReports(reports, |reports|, operation, code)
  {
    repeated, changed := 0, 0;
    for r := 0 to |reports|
      invariant Tally(repeated, changed) == TallyReports(reports, r, operation, code)
    {
      if !reports[r].complete {
        continue;
      }
      var turns := reports[r].turns;
      ghost var atReport := Tally(repeated, changed);
      for t := 0 to |turns|
        invariant Tally(repeated, changed) == Plus(atReport, TallyTurns(turns, t, operation, code))
      {
        var rows := turns[t].rows;
        ghost var atTurn := Tally(repeated, changed);
        var failures := CollectFailures(rows);
        for i := 0 to |rows|
          invariant Tally(repeated, changed) == Plus(atTurn, TallyRows(rows, i, failures, operation, code))
        {
          var row := rows[i];
          if row.respondsTo.Some? && row.respondsTo.value in failures {
            var failure := failures[row.respondsTo.value];
            if failure.operation == operation && failure.errorCode == code {
              if row.args == failure.args {
                repeated := repeated + 1;
              } else {
                changed := changed + 1;
              }
            }
          }
        }
      }
    }
  }

  // ----- Agreement with the scored rows -----

  /** A turn report as scoring writes it. */
  ghost predicate Scored(turn: TurnReport, s: Scoring) {
    exists calls: seq<ToolCall>, bindings :: Answered(calls) && turn == Report(calls, s, bindings)
  }

  lemma {:induction false} FailureRowsIndexed(rows: seq<Row>, n: nat)
    requires n <= |rows| && forall i :: 0 <= i < |rows| ==> rows[i].sequence == i + 1
    ensures forall q: nat :: q in FailureRows(rows, n) <==> 1 <= q <= n && rows[q - 1].isError
    ensures forall q: nat :: q in FailureRows(rows, n) ==> FailureRows(rows, n)[q] == rows[q - 1]
  {
    if n > 0 {
      FailureRowsIndexed(rows, n - 1);
    }
  }

  function OneIf(b: bool): nat {
    if b then 1 else 0
  }

  /** The row that a linked row answers. */
  lemma AnsweredRow(
      calls: seq<ToolCall>, s: Scoring, bindings: map<string, CallBinding>, i: nat) returns (j: nat)
    requires Answered(calls) && i < |calls|
    requires Rows(calls, |calls|, s, bindings)[i].respondsTo.Some?
    ensures
      var rows := Rows(calls, |calls|, s, bindings);
      && j < |rows| && rows[i].respondsTo == Some(j + 1) && rows[j].isError
      && (rows[i].repeatsFailedCall <==> rows[i].args == rows[j].args)
      && (rows[i].retriesTargetFailure <==>
          rows[j].operation == s.caseOperation && rows[j].errorCode == s.expected.errorCode)
  {
    RowsAt(calls, |calls|, s, bindings, i);
    LatestOfScan(calls, i, s, OperationId(calls[i], s.prefix), calls[i].at);
    j := Rows(calls, |calls|, s, bindings)[i].respondsTo.value - 1;
    RetryFlags(calls, s, bindings, i, j);
    RowsAt(calls, |calls|, s, bindings, j);
  }

  lemma {:induction false} SequencesCount(calls: seq<ToolCall>, s: Scoring, bindings: map<string, CallBinding>)
    requires Answered(calls)
    ensures forall k :: 0 <= k < |calls| ==> Rows(calls, |calls|, s, bindings)[k].sequence == k + 1
  {
    forall k | 0 <= k < |calls| ensures Rows(calls, |calls|, s, bindings)[k].sequence == k + 1 {
      RowsAt(calls, |calls|, s, bindings, k);
    }
  }

  lemma {:induction false} TallyOfRow(calls: seq<ToolCall>, s: Scoring, bindings: map<string, CallBinding>, i: nat)
    requires Answered(calls) && i < |calls|
    ensures
      var rows := Rows(calls, |calls|, s, bindings);
      TallyRow(rows[i], FailureRows(rows, |rows|), s.caseOperation, s.expected.errorCode) ==
      Tally(OneIf(RetriesUnchanged(rows[i])), OneIf(RetriesChanged(rows[i])))
  {
    var rows := Rows(calls, |calls|, s, bindings);
    if rows[i].respondsTo == None {
      NoRetryFlags(calls, s, bindings, i);
    } else {
      SequencesCount(calls, s, bindings);
      var j := AnsweredRow(calls, s, bindings, i);
      FailureRowsIndexed(rows, |rows|);
      assert j + 1 in FailureRows(rows, |rows|);
    }
  }

  lemma {:induction false} TallyOfRows(calls: seq<ToolCall>, s: Scoring, bindings: map<string, CallBinding>, n: nat)
    requires Answered(calls) && n <= |calls|
    ensures
      var rows := Rows(calls, |calls|, s, bindings);
      TallyRows(rows, n, FailureRows(rows, |rows|), s.caseOperation, s.expected.errorCode) ==
      Tally(
        Count(rows[..n], RetriesUnchanged),
        Count(rows[..n], RetriesChanged))
  {
    hide Rows, TallyRow, FailureRows;
    var rows := Rows(calls, |calls|, s, bindings);
    if n > 0 {
      TallyOfRows(calls, s, bindings, n - 1);
      TallyOfRow(calls, s, bindings, n - 1);
      assert rows[..n][..n - 1] == rows[..n - 1];
    }
  }

  lemma {:induction false} RetriesSplit(rows: seq<Row>)
    ensures
      Count(rows, RetriesTarget) ==
      Count(rows, RetriesUnchanged) +
      Count(rows, RetriesChanged)
  {
    if rows != [] {
      RetriesSplit(rows[..|rows| - 1]);
    }
  }

  /** One scored turn: the recount splits the turn's target retries into repeated and changed ones. */
  lemma TurnTalliesAgree(turn: TurnReport, s: Scoring)
    requires Scored(turn, s)
    ensures
      var tally := TallyTurn(turn, s.caseOperation, s.expected.errorCode);
      && tally.repeated == Count(turn.rows, RetriesUnchanged)
      && tally.repeated + tally.changed == turn.metrics.targetRetries
  {
    var calls: seq<ToolCall>, bindings :| Answered(calls) && turn == Report(calls, s, bindings);
    TallyOfRows(calls, s, bindings, |calls|);
    assert turn.rows[..|calls|] == turn.rows;
    RetriesSplit(turn.rows);
  }

  function TargetRetries(turns: seq<TurnReport>, n: nat): nat
    requires n <= |turns|
  {
    if n == 0 then 0 else TargetRetries(turns, n - 1) + turns[n - 1].metrics.targetRetries
  }

  lemma {:induction false} TurnsTalliesAgree(turns: seq<TurnReport>, s: Scoring, n: nat)
    requires n <= |turns| && forall t :: 0 <= t < |turns| ==> Scored(turns[t], s)
    ensures
      var tally := TallyTurns(turns, n, s.caseOperation, s.expected.errorCode);
      && tally.repeated == IdenticalRetries(turns[..n])
      && tally.repeated + tally.changed == TargetRetries(turns, n)
  {
    hide TallyTurn, Scored, Count;
    if n > 0 {
      TurnsTalliesAgree(turns, s, n - 1);
      TurnTalliesAgree(turns[n - 1], s);
      assert turns[..n][..n - 1] == turns[..n - 1];
    }
  }

  /**
   A complete run: the recount finds as many repeats as the outcome compares with the case's budget, and its repeats
   and changes add up to the stored retries. The identical-retry violation is exactly a recount above the budget.
   */
  lemma {:induction false} RunTalliesAgree(turns: seq<TurnReport>, s: Scoring, finalState: bool)
    requires forall t :: 0 <= t < |turns| ==> Scored(turns[t], s)
    ensures
      var tally := TallyReports([RunReport(true, turns)], 1, s.caseOperation, s.expected.errorCode);
      && tally.repeated == IdenticalRetries(turns)
      && tally.repeated + tally.changed == TargetRetries(turns, |turns|)
      && (IdenticalRetry in Violations(turns, s.expected, finalState) <==>
          tally.repeated > AllowedIdentical(s.expected))
  {
    hide TallyTurns, IdenticalRetries, Scored;
    TurnsTalliesAgree(turns, s, |turns|);
    assert turns[..|turns|] == turns;
    var report := RunReport(true, turns);
    assert TallyReports([report], 0, s.caseOperation, s.expected.errorCode) == ZERO;
  }

  ghost function CompleteTargetRetries(reports: seq<RunReport>, n: nat): nat
    requires n <= |reports|
  {
    if n == 0 then 0
    else CompleteTargetRetries(reports, n - 1) +
         if reports[n - 1].complete then TargetRetries(reports[n - 1].turns, |reports[n - 1].turns|) else 0
  }

  ghost function CompleteIdenticalRetries(reports: seq<RunReport>, n: nat): nat
    requires n <= |reports|
  {
    if n == 0 then 0
    else CompleteIdenticalRetries(reports, n - 1) +
         if reports[n - 1].complete then IdenticalRetries(reports[n - 1].turns) else 0
  }

  /** The pooled evidence of any set of scored reports agrees with the retries stored in its complete ones. */
  lemma {:induction false} PooledTalliesAgree(reports: seq<RunReport>, s: Scoring, n: nat)
    requires n <= |reports|
    requires forall r, t :: 0 <= r < |reports| && 0 <= t < |reports[r].turns| ==> Scored(reports[r].turns[t], s)
    ensures
      var tally := TallyReports(reports, n, s.caseOperation, s.expected.errorCode);
      && tally.repeated == CompleteIdenticalRetries(reports, n)
      && tally.repeated + tally.changed == CompleteTargetRetries(reports, n)
  {
    hide TallyTurns, IdenticalRetries, Scored, TargetRetries;
    if n > 0 {
      PooledTalliesAgree(reports, s, n - 1);
      var turns := reports[n - 1].turns;
      TurnsTalliesAgree(turns, s, |turns|);
      assert turns[..|turns|] == turns;
    }
  }
}
