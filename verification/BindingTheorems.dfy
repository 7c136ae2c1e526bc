/** The order argument applied to whole sessions: when bind_calls returns, and what its bindings are then worth. */
module BindingTheorems {
  import opened Wrappers
  import opened Transcripts
  import opened Binding
  import opened BindingOrder
  import opened Sequences

  // ----- Operation groups inherit the session's order and identity -----

  /** Where the calls of one operation stand in the session. */
  lemma OperationPositions(calls: seq<ToolCall>, prefix: string, op: string)
    returns (at: seq<nat>)
    ensures |at| == |OperationCalls(calls, prefix, op)|
    ensures forall k :: 0 <= k < |at| ==>
      && at[k] < |calls| && calls[at[k]] == OperationCalls(calls, prefix, op)[k]
      && IsPowerContext(calls[at[k]], prefix) && OperationOf(calls[at[k]], prefix) == op
    ensures forall k, l :: 0 <= k < l < |at| ==> at[k] < at[l]
  {
    if calls == [] {
      at := [];
    } else {
      var n := |calls| - 1;
      at := OperationPositions(calls[..n], prefix, op);
      if IsPowerContext(calls[n], prefix) && OperationOf(calls[n], prefix) == op {
        at := at + [n];
      }
    }
  }

  lemma {:induction false} OperationCallsKeepOrder(calls: seq<ToolCall>, prefix: string, op: string)
    requires InIssueOrder(calls) && Answered(calls) && UniqueIds(calls)
    ensures
      var group := OperationCalls(calls, prefix, op);
      InIssueOrder(group) && Answered(group) && UniqueIds(group)
  {
    var at := OperationPositions(calls, prefix, op);
  }

  lemma {:induction false} OperationsShareNoId(
      calls: seq<ToolCall>, prefix: string, op1: string, op2: string, i: nat, j: nat)
    requires UniqueIds(calls) && op1 != op2
    requires i < |OperationCalls(calls, prefix, op1)| && j < |OperationCalls(calls, prefix, op2)|
    ensures OperationCalls(calls, prefix, op1)[i].id != OperationCalls(calls, prefix, op2)[j].id
  {
    var at1 := OperationPositions(calls, prefix, op1);
    var at2 := OperationPositions(calls, prefix, op2);
    assert at1[i] != at2[j];
  }

  // ----- The dictionaries of one operation, read by rank -----

  lemma {:induction false} ForwardedIdsLength(calls: seq<ToolCall>, queue: seq<GatewayEvent>, n: nat)
    requires n <= |calls| && (queue == [] || |queue| == |calls|)
    ensures |ForwardedIds(calls, queue, n)| == Rank(queue, n)
  {
    if n > 0 {
      ForwardedIdsLength(calls, queue, n - 1);
    }
  }

  lemma {:induction false} ForwardedIdAtRank(calls: seq<ToolCall>, queue: seq<GatewayEvent>, n: nat, k: nat)
    requires k < n <= |calls| && (queue == [] || |queue| == |calls|)
    requires ForwardedAt(queue, k)
    ensures Rank(queue, k) < |ForwardedIds(calls, queue, n)|
    ensures ForwardedIds(calls, queue, n)[Rank(queue, k)] == calls[k].id
  {
    ForwardedIdsLength(calls, queue, n - 1);
    if k < n - 1 {
      ForwardedIdAtRank(calls, queue, n - 1, k);
    }
  }

  lemma {:induction false} ZippedHas(ids: seq<string>, slots: seq<Option<int>>, n: nat, id: string)
    requires n <= |ids| && n <= |slots|
    ensures id in Zipped(ids, slots, n) <==> id in ids[..n]
  {
    if n > 0 {
      ZippedHas(ids, slots, n - 1, id);
      assert ids[..n] == ids[..n - 1] + [ids[n - 1]];
    }
  }

  lemma {:induction false} ZippedAt(ids: seq<string>, slots: seq<Option<int>>, n: nat, r: nat)
    requires r < n <= |ids| && n <= |slots|
    requires forall i, j :: 0 <= i < j < |ids| ==> ids[i] != ids[j]
    ensures ids[r] in Zipped(ids, slots, n) && Zipped(ids, slots, n)[ids[r]] == slots[r]
  {
    if r < n - 1 {
      ZippedAt(ids, slots, n - 1, r);
    }
  }

  lemma {:induction false} ForwardedIdsDistinct(calls: seq<ToolCall>, queue: seq<GatewayEvent>, i: nat, j: nat)
    requires UniqueIds(calls) && (queue == [] || |queue| == |calls|)
    requires i < j < |ForwardedIds(calls, queue, |calls|)|
    ensures ForwardedIds(calls, queue, |calls|)[i] != ForwardedIds(calls, queue, |calls|)[j]
  {
    var n := |calls|;
    ForwardedIdsLength(calls, queue, n);
    var a := SlotOfRank(queue, n, i);
    var b := SlotOfRank(queue, n, j);
    ForwardedIdAtRank(calls, queue, n, a);
    ForwardedIdAtRank(calls, queue, n, b);
  }

  lemma {:induction false} StatusAtRank(calls: seq<ToolCall>, queue: seq<GatewayEvent>, slots: seq<Option<int>>, k: nat)
    requires UniqueIds(calls) && (queue == [] || |queue| == |calls|)
    requires |slots| == Rank(queue, |calls|) && k < |calls|
    ensures
      var statuses := StatusMap(calls, queue, slots);
      (if calls[k].id in statuses then statuses[calls[k].id] else None) ==
      if ForwardedAt(queue, k) then SlotAt(slots, Rank(queue, k)) else None
  {
    var n := |calls|;
    var ids := ForwardedIds(calls, queue, n);
    ForwardedIdsLength(calls, queue, n);
    forall i, j | 0 <= i < j < |ids| ensures ids[i] != ids[j] {
      ForwardedIdsDistinct(calls, queue, i, j);
    }
    hide Zipped, ForwardedIds;
    if ForwardedAt(queue, k) {
      ForwardedIdAtRank(calls, queue, n, k);
      ZippedAt(ids, slots, |ids|, Rank(queue, k));
    } else {
      ZippedHas(ids, slots, |ids|, calls[k].id);
      assert ids[..|ids|] == ids;
      forall r | 0 <= r < |ids| ensures ids[r] != calls[k].id {
        var m := SlotOfRank(queue, n, r);
        ForwardedIdAtRank(calls, queue, n, m);
      }
    }
  }

  lemma {:induction false} PairedAt(
      calls: seq<ToolCall>, queue: seq<GatewayEvent>, statuses: map<string, Option<int>>, n: nat)
    requires UniqueIds(calls) && (queue == [] || |queue| == |calls|) && n <= |calls|
    ensures forall id :: id in Paired(calls, queue, statuses, n) ==> exists k :: 0 <= k < n && calls[k].id == id
    ensures forall k :: 0 <= k < n ==>
      && calls[k].id in Paired(calls, queue, statuses, n)
      && Paired(calls, queue, statuses, n)[calls[k].id] ==
         BindingOf(FaultAt(queue, k), if calls[k].id in statuses then statuses[calls[k].id] else None)
  {
    if n > 0 {
      PairedAt(calls, queue, statuses, n - 1);
    }
  }

  lemma {:induction false} PairedByRank(calls: seq<ToolCall>, queue: seq<GatewayEvent>, slots: seq<Option<int>>)
    requires UniqueIds(calls) && (queue == [] || |queue| == |calls|)
    requires |slots| == Rank(queue, |calls|)
    ensures
      var bindings := Paired(calls, queue, StatusMap(calls, queue, slots), |calls|);
      && (forall id :: id in bindings ==> exists k :: 0 <= k < |calls| && calls[k].id == id)
      && forall k :: 0 <= k < |calls| ==>
           calls[k].id in bindings && bindings[calls[k].id] == RankBinding(queue, slots, k)
  {
    var statuses := StatusMap(calls, queue, slots);
    PairedAt(calls, queue, statuses, |calls|);
    forall k | 0 <= k < |calls|
      ensures (if calls[k].id in statuses then statuses[calls[k].id] else None) ==
              if ForwardedAt(queue, k) then SlotAt(slots, Rank(queue, k)) else None
    {
      StatusAtRank(calls, queue, slots, k);
    }
  }

  // ----- One operation of a session -----

  /**
   The Server received as many calls as were forwarded: one request each where calls are not correlated, else as many
   calls of which none sent more than one request of the operation.
   */
  ghost predicate ServerCountsAgree(
      op: string, forwarded: nat, served: seq<ServedRequest>, mcpCalls: Option<seq<string>>)
  {
    match mcpCalls
    case None => |RequestsOf(served, op)| == forwarded
    case Some(names) =>
      && |Received(names, op)| == forwarded
      && forall index: nat :: index in Received(names, op) ==> |RequestsOfCall(served, op, index)| <= 1
  }

  lemma {:induction false} OneRequestEach(received: seq<nat>, op: string, served: seq<ServedRequest>)
    ensures ManyRequestProblems(received, op, served) == [] <==>
      forall index: nat :: index in received ==> |RequestsOfCall(served, op, index)| <= 1
  {
    if received != [] {
      var n := |received| - 1;
      OneRequestEach(received[..n], op, served);
      assert received == received[..n] + [received[n]];
      assert received[n] in received;
      assert ManyRequestProblems(received, op, served) == [] <==>
        ManyRequestProblems(received[..n], op, served) == [] && |RequestsOfCall(served, op, received[n])| <= 1;
    }
  }

  lemma NoSlotProblems(
      op: string, forwarded: nat, served: seq<ServedRequest>, mcpCalls: Option<seq<string>>)
    ensures SlotProblems(op, forwarded, served, mcpCalls) == [] <==> ServerCountsAgree(op, forwarded, served, mcpCalls)
  {
    if mcpCalls.Some? {
      OneRequestEach(Received(mcpCalls.value, op), op, served);
    }
  }

  lemma SlotsCount(
      op: string, forwarded: nat, served: seq<ServedRequest>, mcpCalls: Option<seq<string>>)
    requires ServerCountsAgree(op, forwarded, served, mcpCalls)
    ensures |Slots(op, served, mcpCalls)| == forwarded
  {
  }

  /** The gateway recorded as many calls of the operation as the host issued, the Server as many as were forwarded. */
  ghost predicate RecordsComplete(
      calls: seq<ToolCall>, op: string, gateway: seq<GatewayEvent>, served: seq<ServedRequest>,
      mcpCalls: Option<seq<string>>)
  {
    var queue := OperationEvents(gateway, op);
    && (gateway != [] ==> |queue| == |calls|)
    && (queue == [] || |queue| == |calls|)
    && ServerCountsAgree(op, Rank(queue, |calls|), served, mcpCalls)
  }

  /** The records leave the operation's bindings open: two admissible arrival orders disagree. */
  ghost predicate LeavesOpen(
      calls: seq<ToolCall>, op: string, gateway: seq<GatewayEvent>, served: seq<ServedRequest>,
      mcpCalls: Option<seq<string>>)
    requires RecordsComplete(calls, op, gateway, served, mcpCalls)
  {
    Ambiguous(HalfOpen, calls, OperationEvents(gateway, op), Slots(op, served, mcpCalls))
  }

  /** One operation has no problem exactly when its records are complete and leave nothing open. */
  lemma {:induction false} BindOperationExact(
      calls: seq<ToolCall>, op: string, gateway: seq<GatewayEvent>, served: seq<ServedRequest>,
      mcpCalls: Option<seq<string>>)
    requires InIssueOrder(calls) && Answered(calls) && UniqueIds(calls) && calls != []
    ensures
      var bound := BindOperation(op, calls, gateway, served, mcpCalls);
      var queue := OperationEvents(gateway, op);
      && (bound.problems == [] <==>
          RecordsComplete(calls, op, gateway, served, mcpCalls) &&
          !LeavesOpen(calls, op, gateway, served, mcpCalls))
      && (bound.problems == [] ==>
          && (forall id :: id in bound.bindings ==> exists k :: 0 <= k < |calls| && calls[k].id == id)
          && forall k :: 0 <= k < |calls| ==>
               calls[k].id in bound.bindings &&
               bound.bindings[calls[k].id] == RankBinding(queue, Slots(op, served, mcpCalls), k))
  {
    hide RankBinding, Rank, Ambiguous, ConflictingOverlap, Conflict, ServerCountsAgree, OperationEvents, ForwardedIds;
    EventsImplyGateway(gateway, op);
    if OperationEvents(gateway, op) == [] || |OperationEvents(gateway, op)| == |calls| {
      ForwardedIdsLength(calls, OperationEvents(gateway, op), |calls|);
      NoSlotProblems(op, Rank(OperationEvents(gateway, op), |calls|), served, mcpCalls);
    }
    if RecordsComplete(calls, op, gateway, served, mcpCalls) {
      var queue := OperationEvents(gateway, op);
      var slots := Slots(op, served, mcpCalls);
      assert |slots| == Rank(queue, |calls|) by {
        SlotsCount(op, Rank(queue, |calls|), served, mcpCalls);
      }
      PairedByRank(calls, queue, slots);
      var added := Paired(calls, queue, StatusMap(calls, queue, slots), |calls|);
      ConflictByRank(calls, queue, slots, added);
      OverlapCheckExact(HalfOpen, calls, queue, slots);
    }
  }

  lemma ConflictByRank(
      calls: seq<ToolCall>, queue: seq<GatewayEvent>, slots: seq<Option<int>>, bindings: map<string, CallBinding>)
    requires queue == [] || |queue| == |calls|
    requires forall k :: 0 <= k < |calls| ==>
      calls[k].id in bindings && bindings[calls[k].id] == RankBinding(queue, slots, k)
    ensures Conflict(calls, bindings) <==> ConflictingOverlap(HalfOpen, calls, queue, slots)
  {
    if Conflict(calls, bindings) {
      var i: nat :| i < |calls| && ConflictAt(calls, bindings, i);
      var j: nat :| i < j < |calls| && Overlaps(calls[i], calls[j]) && bindings[calls[j].id] != bindings[calls[i].id];
      assert Unordered(HalfOpen, calls[i], calls[j]) && RankBinding(queue, slots, i) != RankBinding(queue, slots, j);
    }
    if ConflictingOverlap(HalfOpen, calls, queue, slots) {
      var i: nat, j: nat :| i < j < |calls| && Unordered(HalfOpen, calls[i], calls[j]) &&
        RankBinding(queue, slots, i) != RankBinding(queue, slots, j);
      assert bindings[calls[j].id] != bindings[calls[i].id];
      assert ConflictAt(calls, bindings, i);
    }
  }

  // ----- The session -----

  lemma {:induction false} OperationsDistinct(calls: seq<ToolCall>, prefix: string)
    ensures Distinct(Operations(calls, prefix))
    ensures forall op :: op in Operations(calls, prefix) ==> OperationCalls(calls, prefix, op) != []
  {
    if calls != [] {
      var n := |calls| - 1;
      OperationsDistinct(calls[..n], prefix);
      var rest := Operations(calls[..n], prefix);
      if IsPowerContext(calls[n], prefix) && OperationOf(calls[n], prefix) !in rest {
        var x := OperationOf(calls[n], prefix);
        assert Operations(calls, prefix) == rest + [x];
        assert forall i :: 0 <= i < |rest| ==> rest[i] != x;
      }
    }
  }

  ghost predicate OperationBound(
      bindings: map<string, CallBinding>, calls: seq<ToolCall>, prefix: string, op: string,
      gateway: seq<GatewayEvent>, served: seq<ServedRequest>, mcpCalls: Option<seq<string>>)
  {
    var group := OperationCalls(calls, prefix, op);
    var queue := OperationEvents(gateway, op);
    && (queue == [] || |queue| == |group|)
    && forall k :: 0 <= k < |group| ==>
         && group[k].id in bindings
         && bindings[group[k].id] == RankBinding(queue, Slots(op, served, mcpCalls), k)
  }

  ghost predicate OperationScorable(
      calls: seq<ToolCall>, prefix: string, op: string,
      gateway: seq<GatewayEvent>, served: seq<ServedRequest>, mcpCalls: Option<seq<string>>)
  {
    var group := OperationCalls(calls, prefix, op);
    RecordsComplete(group, op, gateway, served, mcpCalls) && !LeavesOpen(group, op, gateway, served, mcpCalls)
  }

  ghost predicate AllScorable(
      ops: seq<string>, calls: seq<ToolCall>, prefix: string, gateway: seq<GatewayEvent>,
      served: seq<ServedRequest>, mcpCalls: Option<seq<string>>)
  {
    forall op :: op in ops ==> OperationScorable(calls, prefix, op, gateway, served, mcpCalls)
  }

  ghost predicate BoundExactly(
      ops: seq<string>, all: Bound, calls: seq<ToolCall>, prefix: string, gateway: seq<GatewayEvent>,
      served: seq<ServedRequest>, mcpCalls: Option<seq<string>>)
  {
    && (all.problems == [] <==> AllScorable(ops, calls, prefix, gateway, served, mcpCalls))
    && (all.problems == [] ==>
        forall op :: op in ops ==> OperationBound(all.bindings, calls, prefix, op, gateway, served, mcpCalls))
  }

  /** The operation just added is bound, and has no problem exactly when it is scorable. */
  lemma {:induction false} LastIsBound(
      before: map<string, CallBinding>, calls: seq<ToolCall>, prefix: string, last: string,
      gateway: seq<GatewayEvent>, served: seq<ServedRequest>, mcpCalls: Option<seq<string>>)
    requires InIssueOrder(calls) && Answered(calls) && UniqueIds(calls)
    requires OperationCalls(calls, prefix, last) != []
    ensures
      var group := OperationCalls(calls, prefix, last);
      var added := BindOperation(last, group, gateway, served, mcpCalls);
      && (added.problems == [] <==> OperationScorable(calls, prefix, last, gateway, served, mcpCalls))
      && (added.problems == [] ==>
          && (forall id :: id in added.bindings ==> exists k :: 0 <= k < |group| && group[k].id == id)
          && OperationBound(before + added.bindings, calls, prefix, last, gateway, served, mcpCalls))
  {
    hide RankBinding, ServerCountsAgree, Ambiguous, BindOperation, Slots, OperationEvents, OperationCalls;
    OperationCallsKeepOrder(calls, prefix, last);
    BindOperationExact(OperationCalls(calls, prefix, last), last, gateway, served, mcpCalls);
  }

  lemma {:induction false} BoundExactlyStep(
      ops: seq<string>, last: string, before: Bound, calls: seq<ToolCall>, prefix: string,
      gateway: seq<GatewayEvent>, served: seq<ServedRequest>, mcpCalls: Option<seq<string>>)
    requires InIssueOrder(calls) && Answered(calls) && UniqueIds(calls)
    requires last !in ops && OperationCalls(calls, prefix, last) != []
    requires BoundExactly(ops, before, calls, prefix, gateway, served, mcpCalls)
    ensures
      var added := BindOperation(last, OperationCalls(calls, prefix, last), gateway, served, mcpCalls);
      var all := Bound(before.bindings + added.bindings, before.problems + added.problems);
      BoundExactly(ops + [last], all, calls, prefix, gateway, served, mcpCalls)
  {
    hide OperationBound, OperationScorable, BindOperation, OperationCalls;
    var added := BindOperation(last, OperationCalls(calls, prefix, last), gateway, served, mcpCalls);
    var all := Bound(before.bindings + added.bindings, before.problems + added.problems);
    LastIsBound(before.bindings, calls, prefix, last, gateway, served, mcpCalls);
    assert all.problems == [] <==> before.problems == [] && added.problems == [];
    if all.problems == [] {
      forall op | op in ops + [last]
        ensures OperationBound(all.bindings, calls, prefix, op, gateway, served, mcpCalls)
      {
        if op in ops {
          UnionKeepsBound(before.bindings, added.bindings, calls, prefix, op, last, gateway, served, mcpCalls);
        }
      }
    }
  }

  lemma DropLast(ops: seq<string>) returns (rest: seq<string>, last: string)
    requires ops != [] && Distinct(ops)
    ensures ops == rest + [last] && |rest| < |ops| && Distinct(rest) && last !in rest
    ensures forall op :: op in rest ==> op in ops
  {
    rest, last := ops[..|ops| - 1], ops[|ops| - 1];
    assert forall i :: 0 <= i < |rest| ==> rest[i] == ops[i] != last;
  }

  lemma {:induction false} BindAllExact(
      ops: seq<string>, calls: seq<ToolCall>, prefix: string, gateway: seq<GatewayEvent>,
      served: seq<ServedRequest>, mcpCalls: Option<seq<string>>)
    requires InIssueOrder(calls) && Answered(calls) && UniqueIds(calls)
    requires Distinct(ops)
    requires forall op :: op in ops ==> OperationCalls(calls, prefix, op) != []
    ensures BoundExactly(
      ops, BindAll(ops, calls, prefix, gateway, served, mcpCalls), calls, prefix, gateway, served, mcpCalls)
    decreases |ops|
  {
    if ops != [] {
      var rest, last := DropLast(ops);
      BindAllExact(rest, calls, prefix, gateway, served, mcpCalls);
      BindAllSnoc(rest, last, calls, prefix, gateway, served, mcpCalls);
      assert last in ops;
      BoundExactlyStep(
        rest, last, BindAll(rest, calls, prefix, gateway, served, mcpCalls), calls, prefix, gateway, served, mcpCalls);
    }
  }

  lemma {:induction false} UnionKeepsBound(
      before: map<string, CallBinding>, added: map<string, CallBinding>, calls: seq<ToolCall>, prefix: string,
      op: string, last: string, gateway: seq<GatewayEvent>, served: seq<ServedRequest>,
      mcpCalls: Option<seq<string>>)
    requires UniqueIds(calls) && op != last
    requires OperationBound(before, calls, prefix, op, gateway, served, mcpCalls)
    requires forall id :: id in added ==>
      exists k :: 0 <= k < |OperationCalls(calls, prefix, last)| && OperationCalls(calls, prefix, last)[k].id == id
    ensures OperationBound(before + added, calls, prefix, op, gateway, served, mcpCalls)
  {
    var group := OperationCalls(calls, prefix, op);
    forall k | 0 <= k < |group| ensures group[k].id !in added {
      forall l | 0 <= l < |OperationCalls(calls, prefix, last)|
        ensures OperationCalls(calls, prefix, last)[l].id != group[k].id
      {
        OperationsShareNoId(calls, prefix, op, last, k, l);
      }
    }
  }

  /**
   bind_calls returns exactly when, for every operation, the records are complete and every pair of
   admissible arrival orders gives the same bindings.
   */
  lemma {:induction false} BindReturnsExactly(
      calls: seq<ToolCall>, prefix: string, served: seq<ServedRequest>, gateway: seq<GatewayEvent>,
      mcpCalls: Option<seq<string>>)
    requires InIssueOrder(calls) && Answered(calls) && UniqueIds(calls)
    ensures Bind(calls, prefix, served, gateway, mcpCalls).Ok? <==>
      AllScorable(Operations(calls, prefix), calls, prefix, gateway, InternalRequests(served), mcpCalls)
  {
    var ops := Operations(calls, prefix);
    var requests := InternalRequests(served);
    OperationsDistinct(calls, prefix);
    BindAllExact(ops, calls, prefix, gateway, requests, mcpCalls);
  }

  /** Whatever admissible orders the gateway and the Server saw, the bindings are those of pairing by these orders. */
  ghost predicate BoundAsInAnyOrder(
      w: Window, bindings: map<string, CallBinding>, group: seq<ToolCall>, queue: seq<GatewayEvent>,
      slots: seq<Option<int>>)
  {
    && (queue == [] || |queue| == |group|)
    && forall p, s, i: nat ::
         Admissible(w, group, p) && ServerAdmissible(w, group, ForwardedCalls(queue, p), s) && i < |group| ==>
           group[i].id in bindings && bindings[group[i].id] == TrueBinding(queue, slots, p, s, i)
  }

  /** Calls that real time leaves unordered are bound alike. */
  ghost predicate BoundAlike(w: Window, bindings: map<string, CallBinding>, group: seq<ToolCall>) {
    && (forall k :: 0 <= k < |group| ==> group[k].id in bindings)
    && forall i, j :: 0 <= i < j < |group| && Unordered(w, group[i], group[j]) ==>
         bindings[group[i].id] == bindings[group[j].id]
  }

  /** What a returned session is known to hold for one operation. */
  lemma {:induction false} ReturnedOperation(
      calls: seq<ToolCall>, prefix: string, served: seq<ServedRequest>, gateway: seq<GatewayEvent>,
      mcpCalls: Option<seq<string>>, op: string)
    requires InIssueOrder(calls) && Answered(calls) && UniqueIds(calls)
    requires Bind(calls, prefix, served, gateway, mcpCalls).Ok? && op in Operations(calls, prefix)
    ensures
      var bindings := Bind(calls, prefix, served, gateway, mcpCalls).value;
      var group := OperationCalls(calls, prefix, op);
      var queue := OperationEvents(gateway, op);
      var slots := Slots(op, InternalRequests(served), mcpCalls);
      && InIssueOrder(group) && Answered(group) && UniqueIds(group)
      && (queue == [] || |queue| == |group|) && |slots| == Rank(queue, |group|)
      && (forall k :: 0 <= k < |group| ==>
            group[k].id in bindings && bindings[group[k].id] == RankBinding(queue, slots, k))
      && !Ambiguous(HalfOpen, group, queue, slots)
  {
    var requests := InternalRequests(served);
    var ops := Operations(calls, prefix);
    OperationsDistinct(calls, prefix);
    OperationCallsKeepOrder(calls, prefix, op);
    BindAllExact(ops, calls, prefix, gateway, requests, mcpCalls);
    assert OperationBound(
      Bind(calls, prefix, served, gateway, mcpCalls).value, calls, prefix, op, gateway, requests, mcpCalls);
    assert OperationScorable(calls, prefix, op, gateway, requests, mcpCalls);
  }

  lemma AlikeByRank(
      w: Window, bindings: map<string, CallBinding>, group: seq<ToolCall>, queue: seq<GatewayEvent>,
      slots: seq<Option<int>>)
    requires queue == [] || |queue| == |group|
    requires forall k :: 0 <= k < |group| ==>
      group[k].id in bindings && bindings[group[k].id] == RankBinding(queue, slots, k)
    ensures BoundAlike(w, bindings, group) <==> !ConflictingOverlap(w, group, queue, slots)
  {
    hide RankBinding, Unordered;
  }

  lemma InAnyOrderByRank(
      w: Window, bindings: map<string, CallBinding>, group: seq<ToolCall>, queue: seq<GatewayEvent>,
      slots: seq<Option<int>>)
    requires queue == [] || |queue| == |group|
    requires forall k :: 0 <= k < |group| ==>
      group[k].id in bindings && bindings[group[k].id] == RankBinding(queue, slots, k)
    ensures BoundAsInAnyOrder(w, bindings, group, queue, slots) <==> !Ambiguous(w, group, queue, slots)
  {
    hide RankBinding, TrueBinding, Precedes;
    if !Ambiguous(w, group, queue, slots) {
      forall p, s, i: nat |
        Admissible(w, group, p) && ServerAdmissible(w, group, ForwardedCalls(queue, p), s) && i < |group|
        ensures bindings[group[i].id] == TrueBinding(queue, slots, p, s, i)
      {
        assert !MisboundBy(w, group, queue, slots, p, s, i);
      }
    }
  }

  /**
   For either window: when bind_calls returns, every pair of admissible orders gives the stored bindings exactly when
   no two calls that real time leaves unordered are bound differently.
   */
  lemma {:induction false} WindowExact(
      w: Window, calls: seq<ToolCall>, prefix: string, served: seq<ServedRequest>, gateway: seq<GatewayEvent>,
      mcpCalls: Option<seq<string>>, op: string)
    requires InIssueOrder(calls) && Answered(calls) && UniqueIds(calls)
    requires Bind(calls, prefix, served, gateway, mcpCalls).Ok? && op in Operations(calls, prefix)
    ensures
      var bindings := Bind(calls, prefix, served, gateway, mcpCalls).value;
      var group := OperationCalls(calls, prefix, op);
      BoundAsInAnyOrder(
        w, bindings, group, OperationEvents(gateway, op), Slots(op, InternalRequests(served), mcpCalls)) <==>
      BoundAlike(w, bindings, group)
  {
    ReturnedOperation(calls, prefix, served, gateway, mcpCalls, op);
    hide Bind, OperationCalls, OperationEvents, Slots, Operations, InternalRequests, RankBinding, Rank;
    hide BoundAsInAnyOrder, BoundAlike, Ambiguous, ConflictingOverlap;
    var bindings := Bind(calls, prefix, served, gateway, mcpCalls).value;
    var group := OperationCalls(calls, prefix, op);
    var queue := OperationEvents(gateway, op);
    var slots := Slots(op, InternalRequests(served), mcpCalls);
    AlikeByRank(w, bindings, group, queue, slots);
    InAnyOrderByRank(w, bindings, group, queue, slots);
    OverlapCheckExact(w, group, queue, slots);
  }

  /** When bind_calls returns, pairing by the unknown true orders gives every call the binding it returned. */
  lemma {:induction false} BindingsOrderIndependent(
      calls: seq<ToolCall>, prefix: string, served: seq<ServedRequest>, gateway: seq<GatewayEvent>,
      mcpCalls: Option<seq<string>>, op: string)
    requires InIssueOrder(calls) && Answered(calls) && UniqueIds(calls)
    requires Bind(calls, prefix, served, gateway, mcpCalls).Ok?
    requires op in Operations(calls, prefix)
    ensures BoundAsInAnyOrder(
      HalfOpen, Bind(calls, prefix, served, gateway, mcpCalls).value, OperationCalls(calls, prefix, op),
      OperationEvents(gateway, op), Slots(op, InternalRequests(served), mcpCalls))
  {
    ReturnedOperation(calls, prefix, served, gateway, mcpCalls, op);
    InAnyOrderByRank(
      HalfOpen, Bind(calls, prefix, served, gateway, mcpCalls).value, OperationCalls(calls, prefix, op),
      OperationEvents(gateway, op), Slots(op, InternalRequests(served), mcpCalls));
  }

  /** Some call is issued at the instant an earlier call's result is received, and the two are bound differently. */
  ghost predicate DifferentAtOneInstant(bindings: map<string, CallBinding>, group: seq<ToolCall>) {
    exists i, j :: 0 <= i < j < |group| && group[i].result.Some? && group[j].at == group[i].result.value.at &&
      group[i].id in bindings && group[j].id in bindings && bindings[group[i].id] != bindings[group[j].id]
  }

  /**
   When requests may arrive up to the instant their results are received, the stored bindings are those of every pair
   of orders exactly when no call is issued at another's result instant with a different binding.
   */
  lemma {:induction false} ClosedWindowExact(
      calls: seq<ToolCall>, prefix: string, served: seq<ServedRequest>, gateway: seq<GatewayEvent>,
      mcpCalls: Option<seq<string>>, op: string)
    requires InIssueOrder(calls) && Answered(calls) && UniqueIds(calls)
    requires Bind(calls, prefix, served, gateway, mcpCalls).Ok? && op in Operations(calls, prefix)
    ensures
      var bindings := Bind(calls, prefix, served, gateway, mcpCalls).value;
      var group := OperationCalls(calls, prefix, op);
      BoundAsInAnyOrder(
        Closed, bindings, group, OperationEvents(gateway, op), Slots(op, InternalRequests(served), mcpCalls)) <==>
      !DifferentAtOneInstant(bindings, group)
  {
    ReturnedOperation(calls, prefix, served, gateway, mcpCalls, op);
    BindingsOrderIndependent(calls, prefix, served, gateway, mcpCalls, op);
    WindowExact(HalfOpen, calls, prefix, served, gateway, mcpCalls, op);
    WindowExact(Closed, calls, prefix, served, gateway, mcpCalls, op);
    hide Bind, OperationCalls, OperationEvents, Slots, Operations, InternalRequests, RankBinding, Rank;
    hide BoundAsInAnyOrder, Ambiguous;
  }
}
