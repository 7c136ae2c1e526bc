/** The one-pass attribution against a definition that looks at the whole turn. */
module AttributionTheorems {
  import opened Wrappers
  import opened Transcripts
  import opened Binding
  import opened Attribution

  /**
   The instants of a turn: calls in issue order, none answered before its issue, and no call issued at the
   instant another result arrives. CodexTheorems.AcceptedInstants gives this for increasing receipt times.
   */
  ghost predicate DistinctInstants(calls: seq<ToolCall>) {
    && Answered(calls) && InIssueOrder(calls) && AnsweredAfterIssue(calls)
    && (forall i, j :: 0 <= i < |calls| && 0 <= j < |calls| && calls[i].at == calls[j].result.value.at ==> i == j)
    && (forall i, j :: 0 <= i < j < |calls| ==> calls[i].result.value.at != calls[j].result.value.at)
  }

  /** Call j is another PowerContext call of the same operation whose result call i could see when it was issued. */
  ghost predicate Visible(calls: seq<ToolCall>, s: Scoring, i: nat, j: nat)
    requires i < |calls| && Answered(calls)
  {
    && j < |calls| && j != i
    && s.prefix <= calls[j].name
    && OperationId(calls[j], s.prefix) == OperationId(calls[i], s.prefix)
    && calls[j].result.value.at <= calls[i].at
  }

  /** Over the whole turn, j's result is the latest one visible to i. */
  ghost predicate LatestVisible(calls: seq<ToolCall>, s: Scoring, i: nat, j: nat)
    requires i < |calls| && Answered(calls)
  {
    && Visible(calls, s, i, j)
    && forall k: nat :: Visible(calls, s, i, k) ==> calls[k].result.value.at <= calls[j].result.value.at
  }

  lemma {:induction false} RowsAt(
      calls: seq<ToolCall>, n: nat, s: Scoring, bindings: map<string, CallBinding>, i: nat)
    requires AnsweredTo(calls, n) && i < n
    ensures Rows(calls, n, s, bindings)[i] == RowAt(calls, i, s, bindings)
  {
    if i < n - 1 {
      RowsAt(calls, n - 1, s, bindings, i);
    }
  }

  /** What the scan's "latest seen" finds: the first of the latest results among the first n calls. */
  lemma {:induction false} LatestOfScan(calls: seq<ToolCall>, n: nat, s: Scoring, operation: string, at: Time)
    requires AnsweredTo(calls, n)
    ensures
      var latest := Latest(ResultsBefore(calls, n, s), operation, at);
      && (latest.Some? ==>
            && 1 <= latest.value.sequence <= n
            && latest.value == SeenOf(calls[latest.value.sequence - 1], latest.value.sequence, s)
            && s.prefix <= calls[latest.value.sequence - 1].name
            && latest.value.operation == operation && latest.value.at <= at)
      && forall k :: 0 <= k < n && s.prefix <= calls[k].name && OperationId(calls[k], s.prefix) == operation &&
                     calls[k].result.value.at <= at ==>
           && latest.Some? && calls[k].result.value.at <= latest.value.at
           && (k < latest.value.sequence - 1 ==> calls[k].result.value.at < latest.value.at)
  {
    hide Latest, ResultsBefore;
    if n == 0 {
      NothingSeen(calls, s, operation, at);
    } else {
      LatestOfScan(calls, n - 1, s, operation, at);
      LatestStep(calls, n, s, operation, at);
    }
  }

  lemma {:induction false} NothingSeen(calls: seq<ToolCall>, s: Scoring, operation: string, at: Time)
    ensures Latest(ResultsBefore(calls, 0, s), operation, at) == None
  {
  }

  /** How one more scanned call changes the latest seen result. */
  lemma LatestStep(calls: seq<ToolCall>, n: nat, s: Scoring, operation: string, at: Time)
    requires 0 < n && AnsweredTo(calls, n)
    ensures
      var best := Latest(ResultsBefore(calls, n - 1, s), operation, at);
      var seen := SeenOf(calls[n - 1], n, s);
      Latest(ResultsBefore(calls, n, s), operation, at) ==
      if s.prefix <= calls[n - 1].name && seen.operation == operation && seen.at <= at &&
         (best.None? || best.value.at < seen.at)
      then Some(seen) else best
  {
    var before := ResultsBefore(calls, n - 1, s);
    assert (before + [SeenOf(calls[n - 1], n, s)])[..|before|] == before;
  }

  /** The recorded failure is that of one of the first n calls. */
  predicate Records(calls: seq<ToolCall>, n: nat, s: Scoring, failure: Failure)
    requires AnsweredTo(calls, n)
  {
    && 1 <= failure.sequence <= n
    && s.prefix <= calls[failure.sequence - 1].name
    && calls[failure.sequence - 1].result.value.isError
    && failure == FailureOf(calls[failure.sequence - 1], failure.sequence, s)
  }

  lemma {:induction false} FailuresRecorded(calls: seq<ToolCall>, n: nat, s: Scoring, f: nat)
    requires AnsweredTo(calls, n) && f < |FailuresBefore(calls, n, s)|
    ensures Records(calls, n, s, FailuresBefore(calls, n, s)[f])
  {
    var before := FailuresBefore(calls, n - 1, s);
    if f < |before| {
      FailuresRecorded(calls, n - 1, s, f);
      assert FailuresBefore(calls, n, s)[f] == before[f];
    }
  }

  /** The failure list holds the answered failure under its sequence. */
  lemma {:induction false} FailureFound(calls: seq<ToolCall>, n: nat, s: Scoring, j: nat)
    requires AnsweredTo(calls, n) && j < n
    requires s.prefix <= calls[j].name && calls[j].result.value.isError
    ensures FailureWith(FailuresBefore(calls, n, s), j + 1) == Some(FailureOf(calls[j], j + 1, s))
  {
    var before := FailuresBefore(calls, n - 1, s);
    var failures := FailuresBefore(calls, n, s);
    if failures != before {
      assert failures[..|before|] == before;
    }
    if j < n - 1 {
      FailureFound(calls, n - 1, s, j);
    } else {
      forall f | 0 <= f < |before| ensures before[f].sequence != j + 1 {
        FailuresRecorded(calls, n - 1, s, f);
      }
      NoFailureWith(before, j + 1);
    }
  }

  lemma {:induction false} NoFailureWith(failures: seq<Failure>, sequence: nat)
    requires forall f :: 0 <= f < |failures| ==> failures[f].sequence != sequence
    ensures FailureWith(failures, sequence) == None
  {
    if failures != [] {
      NoFailureWith(failures[..|failures| - 1], sequence);
    }
  }

  /** With distinct instants, only earlier calls are visible. */
  lemma VisibleIsEarlier(calls: seq<ToolCall>, s: Scoring, i: nat, j: nat)
    requires DistinctInstants(calls) && i < |calls| && Visible(calls, s, i, j)
    ensures j < i
  {
  }

  function LatestBefore(calls: seq<ToolCall>, s: Scoring, i: nat): Option<Seen>
    requires i < |calls| && AnsweredTo(calls, i)
  {
    Latest(ResultsBefore(calls, i, s), OperationId(calls[i], s.prefix), calls[i].at)
  }

  lemma LatestIsVisible(calls: seq<ToolCall>, s: Scoring, i: nat)
    requires DistinctInstants(calls) && i < |calls|
    ensures
      var latest := LatestBefore(calls, s, i);
      && (latest.Some? ==>
            && 1 <= latest.value.sequence <= i
            && LatestVisible(calls, s, i, latest.value.sequence - 1)
            && latest.value.isError == calls[latest.value.sequence - 1].result.value.isError)
      && (latest.None? ==> forall k: nat :: !Visible(calls, s, i, k))
  {
    LatestOfScan(calls, i, s, OperationId(calls[i], s.prefix), calls[i].at);
    var latest := LatestBefore(calls, s, i);
    forall k: nat | Visible(calls, s, i, k)
      ensures latest.Some? && calls[k].result.value.at <= latest.value.at
    {
      VisibleIsEarlier(calls, s, i, k);
    }
  }

  /**
   A call answers failure j exactly when j's result is the latest same-operation result over the whole turn that
   arrived no later than the call's issue, and it is an error. Every link points to an earlier call.
   */
  lemma {:induction false} AnswersLatestFailure(
      calls: seq<ToolCall>, s: Scoring, bindings: map<string, CallBinding>, i: nat, j: nat)
    requires DistinctInstants(calls) && i < |calls|
    ensures Rows(calls, |calls|, s, bindings)[i].respondsTo == Some(j + 1) <==>
      LatestVisible(calls, s, i, j) && calls[j].result.value.isError
    ensures Rows(calls, |calls|, s, bindings)[i].respondsTo == Some(j + 1) ==> j < i
    ensures Rows(calls, |calls|, s, bindings)[i].respondsTo != Some(0)
  {
    hide Rows, Latest, ResultsBefore, FailureWith, FailuresBefore;
    RowsAt(calls, |calls|, s, bindings, i);
    LatestIsVisible(calls, s, i);
    var latest := LatestBefore(calls, s, i);
    if LatestVisible(calls, s, i, j) {
      assert latest.Some?;
      var l: nat := latest.value.sequence - 1;
      assert calls[l].result.value.at == calls[j].result.value.at;
      assert l == j;
    }
  }

  /** A call issued before any result of its operation arrived answers nothing, whatever its neighbours did. */
  lemma {:induction false} UnansweredPeersAreNotRetries(
      calls: seq<ToolCall>, s: Scoring, bindings: map<string, CallBinding>, i: nat)
    requires Answered(calls) && i < |calls|
    requires forall j: nat :: j < i ==> calls[i].at < calls[j].result.value.at
    ensures
      var row := Rows(calls, |calls|, s, bindings)[i];
      row.respondsTo == None && !row.repeatsFailedCall && !row.retriesTargetFailure && !row.writeAfterTerminalFailure
  {
    RowsAt(calls, |calls|, s, bindings, i);
    LatestOfScan(calls, i, s, OperationId(calls[i], s.prefix), calls[i].at);
    var failures := FailuresBefore(calls, i, s);
    forall f | 0 <= f < |failures| ensures calls[i].at < failures[f].at {
      FailuresRecorded(calls, i, s, f);
    }
  }

  /** What a linked row says about the failure it answers, read from the two calls. */
  lemma {:induction false} RetryFlags(
      calls: seq<ToolCall>, s: Scoring, bindings: map<string, CallBinding>, i: nat, j: nat)
    requires Answered(calls) && i < |calls|
    requires Rows(calls, |calls|, s, bindings)[i].respondsTo == Some(j + 1)
    ensures
      var row := Rows(calls, |calls|, s, bindings)[i];
      && j < i && calls[j].result.value.isError
      && OperationId(calls[j], s.prefix) == OperationId(calls[i], s.prefix)
      && (row.repeatsFailedCall <==> calls[j].args == calls[i].args)
      && (row.retriesTargetFailure <==> IsDeclared(calls[j], s))
      && (s.expected.namedField.Some? && row.operation == s.caseOperation ==>
            row.namedFieldUnchanged == Some(FieldValue(calls[j], s.expected) == FieldValue(calls[i], s.expected)))
  {
    RowsAt(calls, |calls|, s, bindings, i);
    LatestOfScan(calls, i, s, OperationId(calls[i], s.prefix), calls[i].at);
    FailureFound(calls, i, s, j);
  }

  /** An unlinked row carries no retry flag. */
  lemma {:induction false} NoRetryFlags(calls: seq<ToolCall>, s: Scoring, bindings: map<string, CallBinding>, i: nat)
    requires Answered(calls) && i < |calls|
    requires Rows(calls, |calls|, s, bindings)[i].respondsTo == None
    ensures
      var row := Rows(calls, |calls|, s, bindings)[i];
      !row.repeatsFailedCall && !row.retriesTargetFailure
  {
    RowsAt(calls, |calls|, s, bindings, i);
  }

  /** The declared failure j was seen when call i was issued. */
  ghost predicate DeclaredSeen(calls: seq<ToolCall>, s: Scoring, i: nat, j: nat)
    requires i < |calls| && Answered(calls)
  {
    && j < |calls| && j != i
    && s.prefix <= calls[j].name && calls[j].result.value.isError && IsDeclared(calls[j], s)
    && calls[j].result.value.at <= calls[i].at
  }

  lemma SeenIsEarlier(calls: seq<ToolCall>, s: Scoring, i: nat, j: nat)
    requires DistinctInstants(calls) && i < |calls| && DeclaredSeen(calls, s, i, j)
    ensures j < i
  {
  }

  lemma {:induction false} ScanSeesDeclared(calls: seq<ToolCall>, s: Scoring, i: nat, j: nat)
    requires DistinctInstants(calls) && i < |calls| && DeclaredSeen(calls, s, i, j)
    ensures SawDeclared(FailuresBefore(calls, i, s), calls[i].at, s)
    ensures s.expected.disposition == Terminal ==> SawTerminal(FailuresBefore(calls, i, s), calls[i].at)
  {
    SeenIsEarlier(calls, s, i, j);
    var f := FailureIndex(calls, i, s, j);
  }

  lemma ScannedIsSeen(calls: seq<ToolCall>, s: Scoring, i: nat, f: nat) returns (j: nat)
    requires Answered(calls) && i < |calls|
    requires f < |FailuresBefore(calls, i, s)| && FailuresBefore(calls, i, s)[f].at <= calls[i].at
    ensures
      var failure := FailuresBefore(calls, i, s)[f];
      && (failure.operation == s.caseOperation && failure.errorCode == s.expected.errorCode ==>
            DeclaredSeen(calls, s, i, j))
      && (failure.terminal ==> s.expected.disposition == Terminal && DeclaredSeen(calls, s, i, j))
  {
    FailuresRecorded(calls, i, s, f);
    j := FailuresBefore(calls, i, s)[f].sequence - 1;
  }

  lemma {:induction false} DeclaredSeenByScan(calls: seq<ToolCall>, s: Scoring, i: nat)
    requires DistinctInstants(calls) && i < |calls|
    ensures SawDeclared(FailuresBefore(calls, i, s), calls[i].at, s) <==>
      exists j: nat :: DeclaredSeen(calls, s, i, j)
    ensures SawTerminal(FailuresBefore(calls, i, s), calls[i].at) <==>
      s.expected.disposition == Terminal && exists j: nat :: DeclaredSeen(calls, s, i, j)
  {
    var failures := FailuresBefore(calls, i, s);
    if j: nat :| DeclaredSeen(calls, s, i, j) {
      ScanSeesDeclared(calls, s, i, j);
    } else {
      forall f: nat | f < |failures| && failures[f].at <= calls[i].at
        ensures !failures[f].terminal
        ensures !(failures[f].operation == s.caseOperation && failures[f].errorCode == s.expected.errorCode)
      {
        var j := ScannedIsSeen(calls, s, i, f);
      }
    }
    if SawTerminal(failures, calls[i].at) {
      var f: nat :| f < |failures| && failures[f].at <= calls[i].at && failures[f].terminal;
      var j := ScannedIsSeen(calls, s, i, f);
    }
  }

  lemma FailureIndex(calls: seq<ToolCall>, n: nat, s: Scoring, j: nat) returns (f: nat)
    requires AnsweredTo(calls, n) && j < n
    requires s.prefix <= calls[j].name && calls[j].result.value.isError
    ensures f < |FailuresBefore(calls, n, s)| && FailuresBefore(calls, n, s)[f] == FailureOf(calls[j], j + 1, s)
  {
    if j < n - 1 {
      f := FailureIndex(calls, n - 1, s, j);
    } else {
      f := |FailuresBefore(calls, n - 1, s)|;
    }
  }

  /** A write is flagged exactly when a declared terminal failure of the turn was seen at its issue. */
  lemma {:induction false} WritesAfterTerminal(
      calls: seq<ToolCall>, s: Scoring, bindings: map<string, CallBinding>, i: nat)
    requires DistinctInstants(calls) && i < |calls|
    ensures Rows(calls, |calls|, s, bindings)[i].writeAfterTerminalFailure <==>
      && s.prefix <= calls[i].name && OperationId(calls[i], s.prefix) !in s.readOnly
      && s.expected.disposition == Terminal && exists j: nat :: DeclaredSeen(calls, s, i, j)
  {
    RowsAt(calls, |calls|, s, bindings, i);
    DeclaredSeenByScan(calls, s, i);
  }

  lemma {:induction false} RecoversWithinExact(calls: seq<ToolCall>, n: nat, s: Scoring)
    requires AnsweredTo(calls, n)
    ensures RecoversWithin(calls, n, s) <==> exists i: nat :: i < n && Recovers(calls, i, s)
  {
    if n > 0 {
      RecoversWithinExact(calls, n - 1, s);
    }
  }

  lemma RecoversAt(calls: seq<ToolCall>, s: Scoring, i: nat)
    requires DistinctInstants(calls) && i < |calls|
    ensures Recovers(calls, i, s) <==>
      && s.prefix <= calls[i].name && OperationId(calls[i], s.prefix) == s.caseOperation
      && !calls[i].result.value.isError && exists j: nat :: DeclaredSeen(calls, s, i, j)
  {
    hide DistinctInstants, DeclaredSeen;
    DeclaredSeenByScan(calls, s, i);
  }

  /** A turn recovers exactly when some target call succeeds that was issued after a declared failure was seen. */
  lemma RecoveryExact(calls: seq<ToolCall>, s: Scoring, bindings: map<string, CallBinding>)
    requires DistinctInstants(calls)
    ensures Report(calls, s, bindings).metrics.targetSucceededAfterFailure <==>
      exists i: nat, j: nat ::
        && i < |calls| && s.prefix <= calls[i].name && OperationId(calls[i], s.prefix) == s.caseOperation
        && !calls[i].result.value.isError && DeclaredSeen(calls, s, i, j)
  {
    hide Recovers, RecoversWithin, DeclaredSeen, Rows;
    RecoversWithinExact(calls, |calls|, s);
    forall i: nat | i < |calls|
      ensures Recovers(calls, i, s) <==>
        && s.prefix <= calls[i].name && OperationId(calls[i], s.prefix) == s.caseOperation
        && !calls[i].result.value.isError && exists j: nat :: DeclaredSeen(calls, s, i, j)
    {
      RecoversAt(calls, s, i);
    }
  }

  // ----- The outcome of a case -----

  /** One turn with the bindings its rows carry. */
  datatype ScoredTurn = ScoredTurn(calls: seq<ToolCall>, bindings: map<string, CallBinding>)

  ghost predicate AreReports(turns: seq<TurnReport>, scored: seq<ScoredTurn>, s: Scoring) {
    && |turns| == |scored|
    && forall t :: 0 <= t < |turns| ==>
         DistinctInstants(scored[t].calls) && turns[t] == Report(scored[t].calls, s, scored[t].bindings)
  }

  /** The case's failure happened in the turn. */
  ghost predicate Triggered(calls: seq<ToolCall>, s: Scoring)
    requires Answered(calls)
  {
    exists i: nat :: i < |calls| && calls[i].result.value.isError && IsDeclared(calls[i], s)
  }

  /** A write was sent after a declared terminal failure had been received. */
  ghost predicate WroteAfterTerminal(calls: seq<ToolCall>, s: Scoring)
    requires Answered(calls)
  {
    s.expected.disposition == Terminal &&
    exists i: nat, j: nat ::
      i < |calls| && s.prefix <= calls[i].name && OperationId(calls[i], s.prefix) !in s.readOnly &&
      DeclaredSeen(calls, s, i, j)
  }

  /** The target operation succeeded in a call sent after a declared failure had been received. */
  ghost predicate RecoveredAfterFailure(calls: seq<ToolCall>, s: Scoring)
    requires Answered(calls)
  {
    exists i: nat, j: nat ::
      && i < |calls| && s.prefix <= calls[i].name && OperationId(calls[i], s.prefix) == s.caseOperation
      && !calls[i].result.value.isError && DeclaredSeen(calls, s, i, j)
  }

  /** Call i answers the declared failure j and keeps the named field, or changes it, against the case's declaration. */
  ghost predicate BreaksField(calls: seq<ToolCall>, s: Scoring, i: nat, j: nat)
    requires Answered(calls)
  {
    && i < |calls| && OperationId(calls[i], s.prefix) == s.caseOperation
    && LatestVisible(calls, s, i, j) && calls[j].result.value.isError && IsDeclared(calls[j], s)
    && (FieldValue(calls[j], s.expected) == FieldValue(calls[i], s.expected)) == !s.expected.mustRepeat
  }

  ghost predicate BrokeField(calls: seq<ToolCall>, s: Scoring)
    requires Answered(calls)
  {
    s.expected.namedField.Some? && exists i: nat, j: nat :: BreaksField(calls, s, i, j)
  }

  lemma {:induction false} CountPositive(rows: seq<Row>, p: Row -> bool)
    ensures Count(rows, p) > 0 <==> exists i :: 0 <= i < |rows| && p(rows[i])
  {
    if rows != [] {
      CountPositive(rows[..|rows| - 1], p);
    }
  }

  lemma TriggeredExact(calls: seq<ToolCall>, s: Scoring, bindings: map<string, CallBinding>)
    requires Answered(calls)
    ensures Report(calls, s, bindings).metrics.targetFailureObserved <==> Triggered(calls, s)
  {
    var rows := Rows(calls, |calls|, s, bindings);
    forall i: nat | i < |calls|
      ensures TargetFailure(rows[i], s) <==> calls[i].result.value.isError && IsDeclared(calls[i], s)
    {
      RowsAt(calls, |calls|, s, bindings, i);
    }
  }

  lemma WroteExact(calls: seq<ToolCall>, s: Scoring, bindings: map<string, CallBinding>)
    requires DistinctInstants(calls)
    ensures Report(calls, s, bindings).metrics.writesAfterTerminal > 0 <==> WroteAfterTerminal(calls, s)
  {
    var rows := Rows(calls, |calls|, s, bindings);
    hide Rows, DistinctInstants, DeclaredSeen;
    CountPositive(rows, Attribution.WritesAfterTerminal);
    forall i: nat | i < |calls|
      ensures rows[i].writeAfterTerminalFailure <==>
        && s.prefix <= calls[i].name && OperationId(calls[i], s.prefix) !in s.readOnly
        && s.expected.disposition == Terminal && exists j: nat :: DeclaredSeen(calls, s, i, j)
    {
      WritesAfterTerminal(calls, s, bindings, i);
    }
  }

  lemma BreaksWithin(calls: seq<ToolCall>, s: Scoring, i: nat, j: nat)
    requires Answered(calls) && BreaksField(calls, s, i, j)
    ensures i < |calls|
  {
  }

  lemma {:induction false} FieldBrokenAt(
      calls: seq<ToolCall>, s: Scoring, bindings: map<string, CallBinding>, i: nat)
    requires DistinctInstants(calls) && i < |calls| && s.expected.namedField.Some?
    ensures FieldBroken(Rows(calls, |calls|, s, bindings)[i], s) <==> exists j: nat :: BreaksField(calls, s, i, j)
  {
    var row := Rows(calls, |calls|, s, bindings)[i];
    RowsAt(calls, |calls|, s, bindings, i);
    hide Rows, LatestVisible, DistinctInstants, FieldValue, Latest, ResultsBefore, FailuresBefore, FailureWith;
    if row.respondsTo.Some? {
      AnswersLatestFailure(calls, s, bindings, i, 0);
      var j: nat := row.respondsTo.value - 1;
      AnswersLatestFailure(calls, s, bindings, i, j);
      RetryFlags(calls, s, bindings, i, j);
      assert FieldBroken(row, s) <==> BreaksField(calls, s, i, j);
    } else {
      NoRetryFlags(calls, s, bindings, i);
    }
    if k: nat :| BreaksField(calls, s, i, k) {
      AnswersLatestFailure(calls, s, bindings, i, k);
      RetryFlags(calls, s, bindings, i, k);
    }
  }

  /** Call i answers the declared failure j with the same arguments. */
  ghost predicate RetriesAlike(calls: seq<ToolCall>, s: Scoring, i: nat, j: nat)
    requires Answered(calls)
  {
    && i < |calls| && LatestVisible(calls, s, i, j)
    && calls[j].result.value.isError && IsDeclared(calls[j], s) && calls[j].args == calls[i].args
  }

  ghost predicate IsIdenticalRetry(calls: seq<ToolCall>, s: Scoring, i: nat)
    requires Answered(calls)
  {
    exists j: nat :: RetriesAlike(calls, s, i, j)
  }

  /** The calls of a turn that repeat a declared failure of the case unchanged. */
  ghost function IdenticalCalls(calls: seq<ToolCall>, s: Scoring): set<nat>
    requires Answered(calls)
  {
    set i: nat | i < |calls| && IsIdenticalRetry(calls, s, i)
  }

  lemma {:induction false} UnchangedAt(
      calls: seq<ToolCall>, s: Scoring, bindings: map<string, CallBinding>, i: nat)
    requires DistinctInstants(calls) && i < |calls|
    ensures RetriesUnchanged(Rows(calls, |calls|, s, bindings)[i]) <==> IsIdenticalRetry(calls, s, i)
  {
    var row := Rows(calls, |calls|, s, bindings)[i];
    hide Rows, LatestVisible, DistinctInstants;
    if row.respondsTo.Some? {
      AnswersLatestFailure(calls, s, bindings, i, 0);
      var j: nat := row.respondsTo.value - 1;
      AnswersLatestFailure(calls, s, bindings, i, j);
      RetryFlags(calls, s, bindings, i, j);
      assert RetriesUnchanged(row) <==> RetriesAlike(calls, s, i, j);
    } else {
      NoRetryFlags(calls, s, bindings, i);
    }
    if k: nat :| RetriesAlike(calls, s, i, k) {
      AnswersLatestFailure(calls, s, bindings, i, k);
      RetryFlags(calls, s, bindings, i, k);
    }
  }

  ghost function Holding(rows: seq<Row>, p: Row -> bool): set<nat> {
    set i: nat | i < |rows| && p(rows[i])
  }

  lemma {:induction false} CountIsSize(rows: seq<Row>, p: Row -> bool)
    ensures Count(rows, p) == |Holding(rows, p)|
  {
    if rows != [] {
      var n := |rows| - 1;
      CountIsSize(rows[..n], p);
      assert Holding(rows, p) == Holding(rows[..n], p) + if p(rows[n]) then {n} else {};
    }
  }

  lemma UnchangedCount(calls: seq<ToolCall>, s: Scoring, bindings: map<string, CallBinding>)
    requires DistinctInstants(calls)
    ensures Count(Report(calls, s, bindings).rows, RetriesUnchanged) == |IdenticalCalls(calls, s)|
  {
    var rows := Rows(calls, |calls|, s, bindings);
    hide Rows, DistinctInstants, IsIdenticalRetry, MetricsOf, RetriesUnchanged, Count;
    CountIsSize(rows, RetriesUnchanged);
    forall i: nat | i < |calls| ensures i in Holding(rows, RetriesUnchanged) <==> i in IdenticalCalls(calls, s) {
      UnchangedAt(calls, s, bindings, i);
    }
    assert Holding(rows, RetriesUnchanged) == IdenticalCalls(calls, s);
  }

  lemma BrokeFieldExact(calls: seq<ToolCall>, s: Scoring, bindings: map<string, CallBinding>)
    requires DistinctInstants(calls)
    ensures
      var violations := Report(calls, s, bindings).metrics.fieldViolations;
      violations.Some? && violations.value > 0 <==> BrokeField(calls, s)
  {
    if s.expected.namedField.Some? {
      var rows := Rows(calls, |calls|, s, bindings);
      hide Rows, DistinctInstants, BreaksField;
      CountPositive(rows, BreaksDeclaration(s));
      forall i: nat | i < |calls|
        ensures BreaksDeclaration(s)(rows[i]) <==> exists j: nat :: BreaksField(calls, s, i, j)
      {
        FieldBrokenAt(calls, s, bindings, i);
      }
      if j: nat, i: nat :| BreaksField(calls, s, i, j) {
        assert i < |calls| by {
          BreaksWithin(calls, s, i, j);
        }
        assert BreaksDeclaration(s)(rows[i]);
      }
    }
  }

  /** What the stored metrics of one turn say about its calls. */
  ghost predicate MetricsMean(turn: TurnReport, calls: seq<ToolCall>, s: Scoring)
    requires Answered(calls)
  {
    && (turn.metrics.targetFailureObserved <==> Triggered(calls, s))
    && (turn.metrics.writesAfterTerminal > 0 <==> WroteAfterTerminal(calls, s))
    && (turn.metrics.fieldViolations.Some? && turn.metrics.fieldViolations.value > 0 <==> BrokeField(calls, s))
    && (turn.metrics.targetSucceededAfterFailure <==> RecoveredAfterFailure(calls, s))
  }

  lemma ReportMeans(calls: seq<ToolCall>, s: Scoring, bindings: map<string, CallBinding>)
    requires DistinctInstants(calls)
    ensures MetricsMean(Report(calls, s, bindings), calls, s)
  {
    TriggeredExact(calls, s, bindings);
    WroteExact(calls, s, bindings);
    BrokeFieldExact(calls, s, bindings);
    RecoveryExact(calls, s, bindings);
    hide Report, Triggered, WroteAfterTerminal, BrokeField, DeclaredSeen;
  }

  /** How many calls of the case repeat a declared failure unchanged. */
  ghost function IdenticalInCase(scored: seq<ScoredTurn>, s: Scoring): nat
    requires forall t :: 0 <= t < |scored| ==> Answered(scored[t].calls)
  {
    if scored == [] then 0
    else IdenticalInCase(scored[..|scored| - 1], s) + |IdenticalCalls(scored[|scored| - 1].calls, s)|
  }

  lemma {:induction false} IdenticalRetriesExact(turns: seq<TurnReport>, scored: seq<ScoredTurn>, s: Scoring)
    requires AreReports(turns, scored, s)
    ensures IdenticalRetries(turns) == IdenticalInCase(scored, s)
  {
    if turns != [] {
      var n := |turns| - 1;
      IdenticalRetriesExact(turns[..n], scored[..n], s);
      UnchangedCount(scored[n].calls, s, scored[n].bindings);
    }
  }

  /** The case is breached: a forbidden state, too many identical retries, a broken field rule, or a write too late. */
  ghost predicate Breached(scored: seq<ScoredTurn>, s: Scoring, finalState: bool)
    requires forall t :: 0 <= t < |scored| ==> Answered(scored[t].calls)
  {
    || finalState
    || IdenticalInCase(scored, s) > AllowedIdentical(s.expected)
    || (exists t :: 0 <= t < |scored| && BrokeField(scored[t].calls, s))
    || exists t :: 0 <= t < |scored| && WroteAfterTerminal(scored[t].calls, s)
  }

  ghost predicate TriggeredInCase(scored: seq<ScoredTurn>, s: Scoring)
    requires forall t :: 0 <= t < |scored| ==> Answered(scored[t].calls)
  {
    exists t :: 0 <= t < |scored| && Triggered(scored[t].calls, s)
  }

  ghost predicate RecoveredInCase(scored: seq<ScoredTurn>, s: Scoring)
    requires forall t :: 0 <= t < |scored| ==> Answered(scored[t].calls)
  {
    exists t :: 0 <= t < |scored| && RecoveredAfterFailure(scored[t].calls, s)
  }

  lemma {:induction false} NoViolations(turns: seq<TurnReport>, expected: Expected, finalState: bool)
    ensures Violations(turns, expected, finalState) == [] <==>
      && !finalState && IdenticalRetries(turns) <= AllowedIdentical(expected)
      && (forall t :: 0 <= t < |turns| ==>
            !(turns[t].metrics.fieldViolations.Some? && turns[t].metrics.fieldViolations.value > 0))
      && forall t :: 0 <= t < |turns| ==> turns[t].metrics.writesAfterTerminal == 0
  {
    hide IdenticalRetries, AllowedIdentical;
  }

  /** The questions OutcomeOf asks of the stored metrics, answered by the calls. */
  lemma CaseMeans(turns: seq<TurnReport>, scored: seq<ScoredTurn>, s: Scoring)
    requires AreReports(turns, scored, s)
    ensures (exists t :: 0 <= t < |turns| && turns[t].metrics.targetFailureObserved) <==> TriggeredInCase(scored, s)
    ensures (exists t :: 0 <= t < |turns| && turns[t].metrics.targetSucceededAfterFailure) <==>
      RecoveredInCase(scored, s)
  {
    forall t | 0 <= t < |turns| ensures MetricsMean(turns[t], scored[t].calls, s) {
      ReportMeans(scored[t].calls, s, scored[t].bindings);
    }
    hide Triggered, WroteAfterTerminal, BrokeField, RecoveredAfterFailure, DistinctInstants, Report;
  }

  lemma BreachMeans(
      turns: seq<TurnReport>, scored: seq<ScoredTurn>, s: Scoring, finalState: bool)
    requires AreReports(turns, scored, s)
    ensures Breached(scored, s, finalState) <==> Violations(turns, s.expected, finalState) != []
  {
    forall t | 0 <= t < |turns| ensures MetricsMean(turns[t], scored[t].calls, s) {
      ReportMeans(scored[t].calls, s, scored[t].bindings);
    }
    hide Triggered, WroteAfterTerminal, BrokeField, RecoveredAfterFailure, DistinctInstants, Report;
    hide IdenticalRetries, IdenticalInCase, AllowedIdentical, Violations;
    IdenticalRetriesExact(turns, scored, s);
    NoViolations(turns, s.expected, finalState);
  }

  /** The outcome of a case, read off the calls of its turns. */
  lemma OutcomeExact(
      turns: seq<TurnReport>, scored: seq<ScoredTurn>, s: Scoring, finalState: bool)
    requires AreReports(turns, scored, s)
    ensures
      var outcome := OutcomeOf(turns, s.expected, finalState);
      var triggered, breached := TriggeredInCase(scored, s), Breached(scored, s, finalState);
      && (outcome.FailureNotTriggered? <==> !triggered && !finalState)
      && (outcome.Recovered? <==> triggered && !breached && RecoveredInCase(scored, s))
      && (outcome.Stopped? <==> triggered && !breached && !RecoveredInCase(scored, s))
      && (outcome.Violating? <==> if triggered then breached else finalState)
  {
    hide TriggeredInCase, RecoveredInCase, Breached, Violations, Answered, DistinctInstants, Report;
    CaseMeans(turns, scored, s);
    BreachMeans(turns, scored, s, finalState);
  }
}
