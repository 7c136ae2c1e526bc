/** What a transcript that read_transcript accepts is known to say. */
module CodexTheorems {
  import opened Wrappers
  import opened Transcripts
  import opened CodexReader

  // ----- The event stream, declaratively -----

  predicate StartsTurn(line: Line) {
    line == Json(TurnStarted)
  }

  predicate InTurn(lines: seq<Line>, k: nat)
    requires k <= |lines|
  {
    exists j :: 0 <= j < k && StartsTurn(lines[j])
  }

  predicate ToolLine(line: Line, phase: Phase) {
    line.Json? && line.event.ItemEvent? && line.event.phase == phase && line.event.item.Tool? &&
    line.event.item.id.Some?
  }

  function ToolId(line: Line): string
    requires line.Json? && line.event.ItemEvent? && line.event.item.Tool? && line.event.item.id.Some?
  {
    line.event.item.id.value
  }

  /** Line k finishes a tool item of the turn. */
  predicate Finishes(lines: seq<Line>, k: nat)
    requires k < |lines|
  {
    InTurn(lines, k) && ToolLine(lines[k], Completed)
  }

  predicate Issues(lines: seq<Line>, k: nat, id: string)
    requires k < |lines|
  {
    InTurn(lines, k) && ToolLine(lines[k], Started) && ToolId(lines[k]) == id
  }

  predicate Answers(line: Line) {
    line.Json? && line.event.ItemEvent? && line.event.phase == Completed && line.event.item.AgentMessage? &&
    line.event.item.text != ""
  }

  /** The lines before k that finish a tool item, in order. */
  function Finished(lines: seq<Line>, k: nat): (r: seq<nat>)
    requires k <= |lines|
    ensures |r| <= k
    ensures forall i :: 0 <= i < |r| ==> r[i] < k && Finishes(lines, r[i])
    ensures forall i, j :: 0 <= i < j < |r| ==> r[i] < r[j]
    ensures forall l: nat :: l < k && Finishes(lines, l) ==> l in r
  {
    if k == 0 then [] else Finished(lines, k - 1) + if Finishes(lines, k - 1) then [k - 1] else []
  }

  /** The line before k that last issued the item. */
  function LastIssue(lines: seq<Line>, id: string, k: nat): (r: Option<nat>)
    requires k <= |lines|
    ensures r.Some? ==> r.value < k && Issues(lines, r.value, id)
    ensures forall l: nat :: l < k && Issues(lines, l, id) ==> r.Some? && l <= r.value
  {
    if k == 0 then None else if Issues(lines, k - 1, id) then Some(k - 1) else LastIssue(lines, id, k - 1)
  }

  /** The receipt time that counts as the issue of the item finished at line k. */
  function IssueTime(lines: seq<Line>, receipts: seq<Time>, k: nat): Time
    requires k < |lines| == |receipts| && Finishes(lines, k)
  {
    var issue := LastIssue(lines, ToolId(lines[k]), k);
    if issue.Some? then receipts[issue.value] else receipts[k]
  }

  /** The call that the item finished at line k stands for. */
  function CallAt(lines: seq<Line>, receipts: seq<Time>, k: nat): Result<ToolCall, Problem>
    requires k < |lines| == |receipts| && Finishes(lines, k)
  {
    BindItem(ToolId(lines[k]), lines[k].event.item.body, IssueTime(lines, receipts, k), receipts[k])
  }

  // ----- What the scan knows while it has found no problem -----

  ghost predicate Open(lines: seq<Line>, id: string, k: nat)
    requires k <= |lines|
  {
    LastIssue(lines, id, k).Some? &&
    forall l: nat :: LastIssue(lines, id, k).value < l < k && Finishes(lines, l) ==> ToolId(lines[l]) != id
  }

  ghost predicate CallsFaithful(lines: seq<Line>, receipts: seq<Time>, k: nat, calls: seq<ToolCall>)
    requires k <= |lines| == |receipts|
  {
    var finished := Finished(lines, k);
    && |calls| == |finished|
    && forall i :: 0 <= i < |calls| ==> Ok(calls[i]) == CallAt(lines, receipts, finished[i])
  }

  ghost predicate StartedFaithful(lines: seq<Line>, receipts: seq<Time>, k: nat, started: map<string, Time>)
    requires k <= |lines| == |receipts|
  {
    && (forall id :: id in started <==> Open(lines, id, k))
    && forall id :: id in started ==> started[id] == receipts[LastIssue(lines, id, k).value]
  }

  /** The answer kept so far is a message after every finished item, sent while nothing was open. */
  ghost predicate TerminalAt(lines: seq<Line>, receipts: seq<Time>, k: nat, terminal: Option<Message>, t: nat)
    requires k <= |lines| == |receipts|
  {
    && terminal.Some?
    && t < k && InTurn(lines, t) && Answers(lines[t])
    && terminal.value == Message(lines[t].event.item.text, receipts[t])
    && (forall l: nat :: t < l < k ==> !Finishes(lines, l))
    && (forall id :: !Open(lines, id, t))
  }

  lemma {:induction false} ProblemsStay(lines: seq<Line>, receipts: seq<Time>, j: nat, k: nat)
    requires j <= k <= |lines| == |receipts|
    requires Scan(lines, receipts, k).problems == []
    ensures Scan(lines, receipts, j).problems == []
    decreases k
  {
    if j < k {
      ProblemsStay(lines, receipts, j, k - 1);
    }
  }

  lemma {:induction false} TurnIsOpen(lines: seq<Line>, receipts: seq<Time>, k: nat)
    requires k <= |lines| == |receipts| && Scan(lines, receipts, k).problems == []
    ensures Scan(lines, receipts, k).turn.Some? <==> InTurn(lines, k)
    ensures forall i, j :: 0 <= i < j < k && StartsTurn(lines[i]) ==> !StartsTurn(lines[j])
    ensures forall i :: 0 <= i < k && StartsTurn(lines[i]) ==> Scan(lines, receipts, k).turn == Some(receipts[i])
    ensures forall i :: 0 <= i < k ==> lines[i] != Json(HostFailure)
  {
    if k > 0 {
      ProblemsStay(lines, receipts, k - 1, k);
      TurnIsOpen(lines, receipts, k - 1);
    }
  }

  predicate Advances(st: State, line: Line, phase: Phase) {
    st.turn.Some? && ToolLine(line, phase)
  }

  /** The effect of one unproblematic line on the parts of the state that carry calls. */
  lemma StepEffect(st: State, line: Line, at: Time, number: nat)
    requires st.problems == [] && Step(st, line, at, number).problems == []
    ensures
      var next := Step(st, line, at, number);
      if Advances(st, line, Started) then
        next.started == st.started[ToolId(line) := at] && next.calls == st.calls && next.terminal == st.terminal
      else if Advances(st, line, Completed) then
        var id := ToolId(line);
        var bound := BindItem(id, line.event.item.body, if id in st.started then st.started[id] else at, at);
        && !HasCall(st.calls, id) && bound.Ok?
        && next.started == st.started - {id} && next.calls == st.calls + [bound.value] && next.terminal == None
      else
        && next.started == st.started && next.calls == st.calls
        && next.terminal == if Answers(line) && st.turn.Some? && st.started == map[]
                            then Some(Message(line.event.item.text, at)) else st.terminal
  {
  }

  lemma OpenStep(lines: seq<Line>, id: string, k: nat)
    requires k < |lines|
    ensures Open(lines, id, k + 1) <==>
      Issues(lines, k, id) || (Open(lines, id, k) && !(Finishes(lines, k) && ToolId(lines[k]) == id))
  {
  }

  lemma LastIssueStep(lines: seq<Line>, id: string, k: nat)
    requires k < |lines|
    ensures LastIssue(lines, id, k + 1) == if Issues(lines, k, id) then Some(k) else LastIssue(lines, id, k)
  {
  }

  lemma StartedStepId(lines: seq<Line>, receipts: seq<Time>, k: nat, id: string)
    requires k < |lines| == |receipts| && Scan(lines, receipts, k + 1).problems == []
    requires Scan(lines, receipts, k).problems == []
    requires Scan(lines, receipts, k).turn.Some? <==> InTurn(lines, k)
    requires id in Scan(lines, receipts, k).started <==> Open(lines, id, k)
    requires id in Scan(lines, receipts, k).started ==>
      Scan(lines, receipts, k).started[id] == receipts[LastIssue(lines, id, k).value]
    ensures id in Scan(lines, receipts, k + 1).started <==> Open(lines, id, k + 1)
    ensures id in Scan(lines, receipts, k + 1).started ==>
      Scan(lines, receipts, k + 1).started[id] == receipts[LastIssue(lines, id, k + 1).value]
  {
    StepEffect(Scan(lines, receipts, k), lines[k], receipts[k], k + 1);
    OpenStep(lines, id, k);
    LastIssueStep(lines, id, k);
  }

  lemma StartedStep(lines: seq<Line>, receipts: seq<Time>, k: nat)
    requires k < |lines| == |receipts| && Scan(lines, receipts, k + 1).problems == []
    requires Scan(lines, receipts, k).problems == []
    requires StartedFaithful(lines, receipts, k, Scan(lines, receipts, k).started)
    ensures StartedFaithful(lines, receipts, k + 1, Scan(lines, receipts, k + 1).started)
  {
    TurnIsOpen(lines, receipts, k);
    var started := Scan(lines, receipts, k + 1).started;
    forall id ensures id in started <==> Open(lines, id, k + 1) {
      StartedStepId(lines, receipts, k, id);
    }
    forall id | id in started ensures started[id] == receipts[LastIssue(lines, id, k + 1).value] {
      StartedStepId(lines, receipts, k, id);
    }
  }

  /** Without an earlier completion, the pending issue is the last one. */
  lemma PendingIssue(lines: seq<Line>, receipts: seq<Time>, k: nat, st: State)
    requires k < |lines| == |receipts| && Finishes(lines, k)
    requires StartedFaithful(lines, receipts, k, st.started) && CallsFaithful(lines, receipts, k, st.calls)
    requires !HasCall(st.calls, ToolId(lines[k]))
    ensures IssueTime(lines, receipts, k) ==
      if ToolId(lines[k]) in st.started then st.started[ToolId(lines[k])] else receipts[k]
  {
    var id := ToolId(lines[k]);
    var issue := LastIssue(lines, id, k);
    if issue.Some? {
      forall l: nat | issue.value < l < k && Finishes(lines, l) ensures ToolId(lines[l]) != id {
        var finished := Finished(lines, k);
        var i :| 0 <= i < |finished| && finished[i] == l;
        assert st.calls[i].id == ToolId(lines[l]);
      }
      assert Open(lines, id, k);
    }
  }

  lemma CallsStep(lines: seq<Line>, receipts: seq<Time>, k: nat)
    requires k < |lines| == |receipts| && Scan(lines, receipts, k + 1).problems == []
    requires Scan(lines, receipts, k).problems == []
    requires StartedFaithful(lines, receipts, k, Scan(lines, receipts, k).started)
    requires CallsFaithful(lines, receipts, k, Scan(lines, receipts, k).calls)
    ensures CallsFaithful(lines, receipts, k + 1, Scan(lines, receipts, k + 1).calls)
  {
    TurnIsOpen(lines, receipts, k);
    var st, next := Scan(lines, receipts, k), Scan(lines, receipts, k + 1);
    StepEffect(st, lines[k], receipts[k], k + 1);
    var finished := Finished(lines, k);
    if Finishes(lines, k) {
      PendingIssue(lines, receipts, k, st);
      assert Finished(lines, k + 1) == finished + [k];
      assert Ok(next.calls[|finished|]) == CallAt(lines, receipts, k);
      assert forall i :: 0 <= i < |finished| ==> next.calls[i] == st.calls[i];
    } else {
      assert Finished(lines, k + 1) == finished;
      assert next.calls == st.calls;
    }
  }

  lemma {:induction false} ScanIsFaithful(lines: seq<Line>, receipts: seq<Time>, k: nat)
    requires k <= |lines| == |receipts| && Scan(lines, receipts, k).problems == []
    ensures StartedFaithful(lines, receipts, k, Scan(lines, receipts, k).started)
    ensures CallsFaithful(lines, receipts, k, Scan(lines, receipts, k).calls)
  {
    if k > 0 {
      hide *;
      ProblemsStay(lines, receipts, k - 1, k);
      ScanIsFaithful(lines, receipts, k - 1);
      StartedStep(lines, receipts, k - 1);
      CallsStep(lines, receipts, k - 1);
    }
  }

  lemma {:induction false} ScanIdsUnique(lines: seq<Line>, receipts: seq<Time>, k: nat)
    requires k <= |lines| == |receipts| && Scan(lines, receipts, k).problems == []
    ensures UniqueIds(Scan(lines, receipts, k).calls)
  {
    if k > 0 {
      ProblemsStay(lines, receipts, k - 1, k);
      ScanIdsUnique(lines, receipts, k - 1);
      StepEffect(Scan(lines, receipts, k - 1), lines[k - 1], receipts[k - 1], k);
    }
  }

  lemma ScanTerminal(lines: seq<Line>, receipts: seq<Time>, k: nat) returns (t: nat)
    requires k <= |lines| == |receipts| && Scan(lines, receipts, k).problems == []
    requires Scan(lines, receipts, k).terminal.Some?
    ensures TerminalAt(lines, receipts, k, Scan(lines, receipts, k).terminal, t)
  {
    ProblemsStay(lines, receipts, k - 1, k);
    TurnIsOpen(lines, receipts, k - 1);
    var st := Scan(lines, receipts, k - 1);
    StepEffect(st, lines[k - 1], receipts[k - 1], k);
    if Answers(lines[k - 1]) && st.turn.Some? && st.started == map[] {
      t := k - 1;
      ScanIsFaithful(lines, receipts, k - 1);
      assert forall id :: id !in st.started;
    } else {
      t := ScanTerminal(lines, receipts, k - 1);
      assert !Finishes(lines, k - 1);
    }
  }

  // ----- Sorting -----

  lemma {:induction false} InsertMembers(call: ToolCall, sorted: seq<ToolCall>)
    ensures multiset(Insert(call, sorted)) == multiset(sorted) + multiset{call}
  {
    if sorted != [] {
      var n := |sorted| - 1;
      assert sorted == sorted[..n] + [sorted[n]];
      if call.at < sorted[n].at {
        InsertMembers(call, sorted[..n]);
      }
    }
  }

  lemma {:induction false} InsertedFrom(call: ToolCall, sorted: seq<ToolCall>, i: nat)
    requires i < |Insert(call, sorted)|
    ensures Insert(call, sorted)[i] == call || Insert(call, sorted)[i] in sorted
  {
    InsertMembers(call, sorted);
    assert Insert(call, sorted)[i] in multiset(Insert(call, sorted));
  }

  lemma {:induction false} InsertKeepsOrder(call: ToolCall, sorted: seq<ToolCall>)
    requires InIssueOrder(sorted)
    ensures InIssueOrder(Insert(call, sorted))
  {
    if sorted != [] {
      var n := |sorted| - 1;
      if call.at < sorted[n].at {
        InsertKeepsOrder(call, sorted[..n]);
        forall i | 0 <= i < |Insert(call, sorted[..n])| ensures Insert(call, sorted[..n])[i].at <= sorted[n].at {
          InsertedFrom(call, sorted[..n], i);
        }
      }
    }
  }

  lemma {:induction false} InsertKeepsIds(call: ToolCall, sorted: seq<ToolCall>)
    requires UniqueIds(sorted) && !HasCall(sorted, call.id)
    ensures UniqueIds(Insert(call, sorted))
  {
    if sorted != [] {
      var n := |sorted| - 1;
      if call.at < sorted[n].at {
        InsertKeepsIds(call, sorted[..n]);
        forall i | 0 <= i < |Insert(call, sorted[..n])| ensures Insert(call, sorted[..n])[i].id != sorted[n].id {
          InsertedFrom(call, sorted[..n], i);
        }
      }
    }
  }

  lemma {:induction false} SortMembers(calls: seq<ToolCall>)
    ensures multiset(SortByIssue(calls)) == multiset(calls)
  {
    if calls != [] {
      var n := |calls| - 1;
      var front, last := calls[..n], calls[n];
      assert calls == front + [last];
      SortMembers(front);
      InsertMembers(last, SortByIssue(front));
    }
  }

  lemma SamePlace(a: seq<ToolCall>, b: seq<ToolCall>, i: nat) returns (k: nat)
    requires multiset(a) == multiset(b) && i < |a|
    ensures k < |b| && b[k] == a[i]
  {
    assert a[i] in multiset(b);
    k :| 0 <= k < |b| && b[k] == a[i];
  }

  lemma {:induction false} SortKeeps(calls: seq<ToolCall>)
    requires UniqueIds(calls)
    ensures InIssueOrder(SortByIssue(calls)) && UniqueIds(SortByIssue(calls))
  {
    if calls != [] {
      var n := |calls| - 1;
      var rest := SortByIssue(calls[..n]);
      SortKeeps(calls[..n]);
      SortMembers(calls[..n]);
      InsertKeepsOrder(calls[n], rest);
      forall i | 0 <= i < |rest| ensures rest[i].id != calls[n].id {
        var k := SamePlace(rest, calls[..n], i);
      }
      InsertKeepsIds(calls[n], rest);
    }
  }

  // ----- Accepted transcripts -----

  /** The call stands for the item finished at line l. */
  ghost predicate StandsFor(lines: seq<Line>, receipts: seq<Time>, call: ToolCall, l: nat)
    requires |lines| == |receipts|
  {
    l < |lines| && Finishes(lines, l) && CallAt(lines, receipts, l) == Ok(call)
  }

  /**
   An accepted transcript has one turn, opened once and never failed. Its calls are, as a multiset, exactly the items
   the turn finished, with distinct IDs and in issue order; nothing stays open.
   */
  lemma AcceptedTurn(lines: seq<Line>, receipts: seq<Time>, prompts: nat)
    requires Read(lines, receipts, prompts).Ok?
    ensures |receipts| == |lines| && prompts == 1
    ensures
      var turn := Read(lines, receipts, prompts).value;
      && (exists s :: 0 <= s < |lines| && StartsTurn(lines[s]) && turn.startedAt == receipts[s])
      && (forall i, j :: 0 <= i < j < |lines| && StartsTurn(lines[i]) ==> !StartsTurn(lines[j]))
      && (forall i :: 0 <= i < |lines| ==> lines[i] != Json(HostFailure))
      && (exists calls ::
            && multiset(calls) == multiset(turn.calls)
            && CallsFaithful(lines, receipts, |lines|, calls))
      && (forall id :: !Open(lines, id, |lines|))
      && UniqueIds(turn.calls) && InIssueOrder(turn.calls) && Answered(turn.calls)
  {
    var n := |lines|;
    var st := Scan(lines, receipts, n);
    assert st.problems == [];
    TurnIsOpen(lines, receipts, n);
    ScanIsFaithful(lines, receipts, n);
    ScanIdsUnique(lines, receipts, n);
    SortKeeps(st.calls);
    SortMembers(st.calls);
    var calls := SortByIssue(st.calls);
    assert multiset(st.calls) == multiset(calls);
    assert forall id :: id !in st.started;
    forall i | 0 <= i < |calls| ensures calls[i].result.Some? {
      var l := CallLine(lines, receipts, prompts, i);
    }
  }

  lemma CallLine(lines: seq<Line>, receipts: seq<Time>, prompts: nat, i: nat) returns (l: nat)
    requires Read(lines, receipts, prompts).Ok?
    requires i < |Read(lines, receipts, prompts).value.calls|
    ensures |lines| == |receipts| && StandsFor(lines, receipts, Read(lines, receipts, prompts).value.calls[i], l)
    ensures Read(lines, receipts, prompts).value.calls[i].result.Some?
  {
    var n := |lines|;
    var st := Scan(lines, receipts, n);
    assert st.problems == [];
    ScanIsFaithful(lines, receipts, n);
    SortMembers(st.calls);
    var k := SamePlace(SortByIssue(st.calls), st.calls, i);
    l := Finished(lines, n)[k];
    assert Ok(st.calls[k]) == CallAt(lines, receipts, l);
  }

  /** An item that is not open at the end was finished after it was issued. */
  lemma FinishOf(lines: seq<Line>, id: string, l: nat) returns (f: nat)
    requires l < |lines| && Issues(lines, l, id) && !Open(lines, id, |lines|)
    ensures l < f < |lines| && Finishes(lines, f)
  {
    var issue := LastIssue(lines, id, |lines|).value;
    f :| issue < f < |lines| && Finishes(lines, f) && ToolId(lines[f]) == id;
  }

  /** The accepted answer is a message received after every tool line of the turn. */
  lemma AcceptedAnswer(lines: seq<Line>, receipts: seq<Time>, prompts: nat) returns (t: nat)
    requires Read(lines, receipts, prompts).Ok?
    ensures |lines| == |receipts|
    ensures t < |lines| && InTurn(lines, t) && Answers(lines[t])
    ensures Read(lines, receipts, prompts).value.terminal == Some(Message(lines[t].event.item.text, receipts[t]))
    ensures forall l: nat :: l < |lines| && Finishes(lines, l) ==> l < t
    ensures forall l: nat, id :: l < |lines| && Issues(lines, l, id) ==> l < t
  {
    var n := |lines|;
    var st := Scan(lines, receipts, n);
    assert st.problems == [];
    t := ScanTerminal(lines, receipts, n);
    ScanIsFaithful(lines, receipts, n);
    forall l: nat | l < n && Finishes(lines, l) ensures l < t {
      assert l != t;
    }
    forall l: nat, id | l < n && Issues(lines, l, id) ensures l < t {
      assert id !in st.started;
      var f := FinishOf(lines, id, l);
    }
  }

  predicate Nondecreasing(receipts: seq<Time>) {
    forall i, j :: 0 <= i < j < |receipts| ==> receipts[i] <= receipts[j]
  }

  predicate Increasing(receipts: seq<Time>) {
    forall i, j :: 0 <= i < j < |receipts| ==> receipts[i] < receipts[j]
  }

  /** With receipts in order, no call is answered before it was issued, and the answer comes last. */
  lemma AcceptedTimes(lines: seq<Line>, receipts: seq<Time>, prompts: nat)
    requires Read(lines, receipts, prompts).Ok? && Nondecreasing(receipts)
    ensures
      var turn := Read(lines, receipts, prompts).value;
      && Answered(turn.calls) && AnsweredAfterIssue(turn.calls)
      && turn.terminal.Some?
      && (forall i :: 0 <= i < |turn.calls| ==> turn.calls[i].result.value.at <= turn.terminal.value.at)
  {
    AcceptedTurn(lines, receipts, prompts);
    var t := AcceptedAnswer(lines, receipts, prompts);
    var calls := Read(lines, receipts, prompts).value.calls;
    forall i | 0 <= i < |calls|
      ensures calls[i].at <= calls[i].result.value.at <= receipts[t]
    {
      var l := CallLine(lines, receipts, prompts, i);
      assert l < t;
    }
  }

  /**
   With distinct receipts, no call is issued at the instant another call's result arrives: what attribution needs to
   read its results in issue order.
   */
  lemma AcceptedInstants(lines: seq<Line>, receipts: seq<Time>, prompts: nat)
    requires Read(lines, receipts, prompts).Ok? && Increasing(receipts)
    ensures
      var calls := Read(lines, receipts, prompts).value.calls;
      && Answered(calls)
      && (forall i, j :: 0 <= i < |calls| && 0 <= j < |calls| && calls[i].at == calls[j].result.value.at ==> i == j)
      && (forall i, j :: 0 <= i < j < |calls| ==> calls[i].result.value.at != calls[j].result.value.at)
  {
    AcceptedTurn(lines, receipts, prompts);
    var calls := Read(lines, receipts, prompts).value.calls;
    forall i, j | 0 <= i < |calls| && 0 <= j < |calls| && i != j
      ensures calls[i].at != calls[j].result.value.at
      ensures calls[i].result.value.at != calls[j].result.value.at
    {
      var a := CallLine(lines, receipts, prompts, i);
      var b := CallLine(lines, receipts, prompts, j);
      assert calls[i].id == ToolId(lines[a]) && calls[j].id == ToolId(lines[b]);
      assert a != b;
      var issue := LastIssue(lines, ToolId(lines[a]), a);
      assert issue.Some? ==> issue.value != b;
    }
  }

  // ----- Which transcripts are accepted -----

  predicate CompletesTurn(lines: seq<Line>, k: nat)
    requires k < |lines|
  {
    InTurn(lines, k) && lines[k] == Json(TurnCompleted)
  }

  /** Line t answers, and every line that issues or finishes a tool item comes before it. */
  ghost predicate FinalAnswer(lines: seq<Line>, t: nat) {
    && t < |lines| && InTurn(lines, t) && Answers(lines[t])
    && (forall l: nat :: l < |lines| && Finishes(lines, l) ==> l < t)
    && (forall l: nat, id :: l < |lines| && Issues(lines, l, id) ==> l < t)
  }

  /** One complete turn: opened once, never failed, every item finished once as a bindable call, answered at the end. */
  ghost predicate CompleteTurn(lines: seq<Line>, receipts: seq<Time>)
    requires |lines| == |receipts|
  {
    && InTurn(lines, |lines|)
    && (forall i, j :: 0 <= i < j < |lines| && StartsTurn(lines[i]) ==> !StartsTurn(lines[j]))
    && (forall i :: 0 <= i < |lines| ==> lines[i] != Json(HostFailure))
    && (exists k: nat :: k < |lines| && CompletesTurn(lines, k))
    && (forall l: nat :: l < |lines| && Finishes(lines, l) ==> CallAt(lines, receipts, l).Ok?)
    && (forall l: nat, m: nat :: l < m < |lines| && Finishes(lines, l) && Finishes(lines, m) ==>
          ToolId(lines[l]) != ToolId(lines[m]))
    && (forall id :: !Open(lines, id, |lines|))
    && (exists t: nat :: FinalAnswer(lines, t))
  }

  /** A line of a complete turn adds no problem to a state that follows the lines before it. */
  lemma CompleteTurnStep(lines: seq<Line>, receipts: seq<Time>, k: nat)
    requires k < |lines| == |receipts| && CompleteTurn(lines, receipts)
    requires Scan(lines, receipts, k).problems == []
    requires Scan(lines, receipts, k).turn.Some? <==> InTurn(lines, k)
    requires Finishes(lines, k) ==> !HasCall(Scan(lines, receipts, k).calls, ToolId(lines[k]))
    ensures Scan(lines, receipts, k + 1).problems == []
  {
    if Finishes(lines, k) {
      assert CallAt(lines, receipts, k).Ok?;
      BindItemKind(ToolId(lines[k]), lines[k].event.item.body);
    }
  }

  lemma NoEarlierCall(lines: seq<Line>, receipts: seq<Time>, k: nat, calls: seq<ToolCall>)
    requires k < |lines| == |receipts| && CompleteTurn(lines, receipts) && Finishes(lines, k)
    requires CallsFaithful(lines, receipts, k, calls)
    ensures !HasCall(calls, ToolId(lines[k]))
  {
    var finished := Finished(lines, k);
    forall i | 0 <= i < |calls| ensures calls[i].id != ToolId(lines[k]) {
      assert Ok(calls[i]) == CallAt(lines, receipts, finished[i]);
      assert calls[i].id == ToolId(lines[finished[i]]);
    }
  }

  lemma {:induction false} CompleteTurnHasNoProblems(lines: seq<Line>, receipts: seq<Time>, k: nat)
    requires k <= |lines| == |receipts| && CompleteTurn(lines, receipts)
    ensures Scan(lines, receipts, k).problems == []
  {
    if k > 0 {
      hide *;
      CompleteTurnHasNoProblems(lines, receipts, k - 1);
      TurnIsOpen(lines, receipts, k - 1);
      ScanIsFaithful(lines, receipts, k - 1);
      if Finishes(lines, k - 1) {
        NoEarlierCall(lines, receipts, k - 1, Scan(lines, receipts, k - 1).calls);
      }
      CompleteTurnStep(lines, receipts, k - 1);
    }
  }

  /** Whether an item can be bound does not depend on its times. */
  lemma BindItemKind(id: string, body: ToolBody)
    ensures forall a, b, c, d :: BindItem(id, body, a, b).Ok? == BindItem(id, body, c, d).Ok?
  {
  }

  lemma {:induction false} CompletedSeen(lines: seq<Line>, receipts: seq<Time>, k: nat)
    requires k <= |lines| == |receipts| && Scan(lines, receipts, k).problems == []
    ensures Scan(lines, receipts, k).completed <==> exists j: nat :: j < k && CompletesTurn(lines, j)
  {
    if k > 0 {
      ProblemsStay(lines, receipts, k - 1, k);
      CompletedSeen(lines, receipts, k - 1);
      TurnIsOpen(lines, receipts, k - 1);
      assert Scan(lines, receipts, k).completed <==>
        Scan(lines, receipts, k - 1).completed || CompletesTurn(lines, k - 1);
    }
  }

  lemma {:induction false} AnswerStays(lines: seq<Line>, receipts: seq<Time>, t: nat, k: nat)
    requires t < k <= |lines| == |receipts| && Scan(lines, receipts, k).problems == []
    requires FinalAnswer(lines, t) && Scan(lines, receipts, t).started == map[]
    ensures Scan(lines, receipts, k).terminal.Some?
  {
    ProblemsStay(lines, receipts, k - 1, k);
    TurnIsOpen(lines, receipts, k - 1);
    StepEffect(Scan(lines, receipts, k - 1), lines[k - 1], receipts[k - 1], k);
    if k - 1 > t {
      AnswerStays(lines, receipts, t, k - 1);
      assert !Finishes(lines, k - 1);
    }
  }

  lemma {:induction false} NoIssueBetween(lines: seq<Line>, id: string, t: nat, k: nat)
    requires t <= k <= |lines|
    requires forall l: nat :: t <= l < k ==> !Issues(lines, l, id)
    ensures LastIssue(lines, id, k) == LastIssue(lines, id, t)
    decreases k
  {
    if t < k {
      NoIssueBetween(lines, id, t, k - 1);
    }
  }

  /** read_transcript returns exactly for one prompt and one complete turn. */
  lemma ReadReturnsExactly(lines: seq<Line>, receipts: seq<Time>, prompts: nat)
    ensures Read(lines, receipts, prompts).Ok? <==>
      |receipts| == |lines| && prompts == 1 && CompleteTurn(lines, receipts)
  {
    if Read(lines, receipts, prompts).Ok? {
      AcceptedIsComplete(lines, receipts, prompts);
    }
    if |receipts| == |lines| && prompts == 1 && CompleteTurn(lines, receipts) {
      var n := |lines|;
      CompleteTurnHasNoProblems(lines, receipts, n);
      TurnIsOpen(lines, receipts, n);
      ScanIsFaithful(lines, receipts, n);
      CompletedSeen(lines, receipts, n);
      var t: nat :| FinalAnswer(lines, t);
      ProblemsStay(lines, receipts, t, n);
      ScanIsFaithful(lines, receipts, t);
      forall id ensures id !in Scan(lines, receipts, t).started {
        NoIssueBetween(lines, id, t, n);
        assert !Open(lines, id, n);
      }
      AnswerStays(lines, receipts, t, n);
      assert Scan(lines, receipts, n).started == map[];
    }
  }

  lemma AcceptedIsComplete(lines: seq<Line>, receipts: seq<Time>, prompts: nat)
    requires Read(lines, receipts, prompts).Ok?
    ensures |receipts| == |lines| && prompts == 1 && CompleteTurn(lines, receipts)
  {
    var n := |lines|;
    var st := Scan(lines, receipts, n);
    assert st.problems == [];
    AcceptedTurn(lines, receipts, prompts);
    TurnIsOpen(lines, receipts, n);
    ScanIsFaithful(lines, receipts, n);
    ScanIdsUnique(lines, receipts, n);
    CompletedSeen(lines, receipts, n);
    FinishedAreCalls(lines, receipts, st.calls);
    var t := AcceptedAnswer(lines, receipts, prompts);
    assert FinalAnswer(lines, t);
    assert forall id :: id !in st.started;
  }

  lemma FinishedAreCalls(lines: seq<Line>, receipts: seq<Time>, calls: seq<ToolCall>)
    requires |lines| == |receipts| && CallsFaithful(lines, receipts, |lines|, calls) && UniqueIds(calls)
    ensures forall l: nat :: l < |lines| && Finishes(lines, l) ==> CallAt(lines, receipts, l).Ok?
    ensures forall l: nat, m: nat :: l < m < |lines| && Finishes(lines, l) && Finishes(lines, m) ==>
      ToolId(lines[l]) != ToolId(lines[m])
  {
    hide CallsFaithful, CallAt, Finished;
    forall l: nat | l < |lines| && Finishes(lines, l) ensures CallAt(lines, receipts, l).Ok? {
      var i := FinishedPlace(lines, receipts, |lines|, calls, l);
    }
    forall l: nat, m: nat | l < m < |lines| && Finishes(lines, l) && Finishes(lines, m)
      ensures ToolId(lines[l]) != ToolId(lines[m])
    {
      var i := FinishedPlace(lines, receipts, |lines|, calls, l);
      var j := FinishedPlace(lines, receipts, |lines|, calls, m);
    }
  }

  /** The scanned call of a finished item, with its ID. */
  lemma FinishedPlace(
      lines: seq<Line>, receipts: seq<Time>, k: nat, calls: seq<ToolCall>, l: nat) returns (i: nat)
    requires l < k <= |lines| == |receipts| && Finishes(lines, l)
    requires CallsFaithful(lines, receipts, k, calls)
    ensures i < |calls| && Finished(lines, k)[i] == l
    ensures CallAt(lines, receipts, l) == Ok(calls[i]) && calls[i].id == ToolId(lines[l])
  {
    var finished := Finished(lines, k);
    i :| 0 <= i < |finished| && finished[i] == l;
    assert Ok(calls[i]) == CallAt(lines, receipts, finished[i]);
  }
}
