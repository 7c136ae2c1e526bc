/**
 Binding of host calls to gateway events and Server requests
 (evaluation/agent_tool_recovery/report.py, bind_calls and _server_statuses).

 The records carry no host call ID, so the k-th call of an operation is paired with the k-th
 gateway event and the k-th tools/call of that operation. This module holds the program and the
 functions that specify it; BindingOrder proves what pairing by rank is worth.
 */
module Binding {
  import opened Sequences
  import opened Wrappers
  import opened Transcripts

  datatype FaultMode = ResetBeforeForward | DropAfterForward | AfterForward

  datatype GatewayEvent = GatewayEvent(operation: string, fault: Option<FaultMode>, forwarded: bool)

  datatype ServedRequest = ServedRequest(operation: string, status: int, internal: bool, mcpCall: Option<int>)

  datatype CallBinding = CallBinding(fault: Option<FaultMode>, reached: bool, status: Option<int>)

  datatype Problem =
    | UncorrelatedRequests(found: nat, operation: string, forwarded: nat)
    | ServerCount(received: nat, operation: string, forwarded: nat)
    | ManyRequests(mcpCall: nat, operation: string, count: nat)
    | GatewayCount(seen: nat, operation: string, calls: nat)
    | Overlapping(operation: string)

  // ----- Grouping by operation -----

  predicate IsPowerContext(call: ToolCall, prefix: string) {
    prefix <= call.name
  }

  function OperationOf(call: ToolCall, prefix: string): string
    requires IsPowerContext(call, prefix)
  {
    call.name[|prefix|..]
  }

  /** The calls of one operation, in issue order. */
  function OperationCalls(calls: seq<ToolCall>, prefix: string, operation: string): (r: seq<ToolCall>)
    ensures |r| <= |calls|
  {
    if calls == [] then []
    else
      var last := calls[|calls| - 1];
      var rest := OperationCalls(calls[..|calls| - 1], prefix, operation);
      if IsPowerContext(last, prefix) && OperationOf(last, prefix) == operation then rest + [last] else rest
  }

  /** The called operations, in the order of their first call. */
  function Operations(calls: seq<ToolCall>, prefix: string): seq<string> {
    if calls == [] then []
    else
      var rest := Operations(calls[..|calls| - 1], prefix);
      var last := calls[|calls| - 1];
      if IsPowerContext(last, prefix) && OperationOf(last, prefix) !in rest
      then rest + [OperationOf(last, prefix)] else rest
  }

  function OperationEvents(gateway: seq<GatewayEvent>, operation: string): seq<GatewayEvent> {
    if gateway == [] then []
    else
      var last := gateway[|gateway| - 1];
      var rest := OperationEvents(gateway[..|gateway| - 1], operation);
      if last.operation == operation then rest + [last] else rest
  }

  method GroupCalls(calls: seq<ToolCall>, prefix: string)
    returns (order: seq<string>, groups: map<string, seq<ToolCall>>)
    ensures order == Operations(calls, prefix)
    ensures forall op :: op in order <==> op in groups
    ensures forall op :: op in groups ==> groups[op] == OperationCalls(calls, prefix, op)
  {
    order, groups := [], map[];
    for i := 0 to |calls|
      invariant order == Operations(calls[..i], prefix)
      invariant forall op :: op in order <==> op in groups
      invariant forall op :: op in groups ==> groups[op] == OperationCalls(calls[..i], prefix, op)
      invariant forall op :: op !in groups ==> OperationCalls(calls[..i], prefix, op) == []
    {
      assert calls[..i + 1][..i] == calls[..i];
      var call := calls[i];
      if IsPowerContext(call, prefix) {
        var op := OperationOf(call, prefix);
        if op !in groups {
          order := order + [op];
          groups := groups[op := []];
        }
        groups := groups[op := groups[op] + [call]];
      }
    }
    assert calls[..|calls|] == calls;
  }

  /** events.get(operation, []) */
  function QueueOf(events: map<string, seq<GatewayEvent>>, op: string): seq<GatewayEvent> {
    if op in events then events[op] else []
  }

  method GroupEvents(gateway: seq<GatewayEvent>) returns (events: map<string, seq<GatewayEvent>>)
    ensures forall op :: QueueOf(events, op) == OperationEvents(gateway, op)
    ensures events == map[] <==> gateway == []
  {
    events := map[];
    for i := 0 to |gateway|
      invariant forall op :: QueueOf(events, op) == OperationEvents(gateway[..i], op)
      invariant events == map[] <==> i == 0
    {
      var event := gateway[i];
      ghost var before := events;
      assert gateway[..i + 1][..i] == gateway[..i];
      events := events[event.operation := QueueOf(events, event.operation) + [event]];
      assert event.operation in events;
      forall op ensures QueueOf(events, op) == OperationEvents(gateway[..i + 1], op) {
        assert QueueOf(before, op) == OperationEvents(gateway[..i], op);
      }
    }
    assert gateway[..|gateway|] == gateway;
  }

  // ----- Server statuses -----

  function InternalRequests(served: seq<ServedRequest>): seq<ServedRequest> {
    if served == [] then []
    else
      var rest := InternalRequests(served[..|served| - 1]);
      if served[|served| - 1].internal then rest + [served[|served| - 1]] else rest
  }

  function RequestsOf(served: seq<ServedRequest>, operation: string): seq<ServedRequest> {
    if served == [] then []
    else
      var rest := RequestsOf(served[..|served| - 1], operation);
      if served[|served| - 1].operation == operation then rest + [served[|served| - 1]] else rest
  }

  function RequestsOfCall(served: seq<ServedRequest>, operation: string, index: int): seq<ServedRequest> {
    if served == [] then []
    else
      var last := served[|served| - 1];
      var rest := RequestsOfCall(served[..|served| - 1], operation, index);
      if last.mcpCall == Some(index) && last.operation == operation then rest + [last] else rest
  }

  function Received(mcpCalls: seq<string>, operation: string): (r: seq<nat>)
    ensures |r| <= |mcpCalls|
  {
    if mcpCalls == [] then []
    else
      var n := |mcpCalls| - 1;
      var rest := Received(mcpCalls[..n], operation);
      if mcpCalls[n] == operation then rest + [n] else rest
  }

  /** The status the Server gave to the k-th received call of an operation, or None when it sent no request. */
  function Slots(operation: string, served: seq<ServedRequest>, mcpCalls: Option<seq<string>>): seq<Option<int>> {
    match mcpCalls
    case None =>
      var requests := RequestsOf(served, operation);
      seq(|requests|, i requires 0 <= i < |requests| => Some(requests[i].status))
    case Some(names) =>
      var received := Received(names, operation);
      seq(|received|, i requires 0 <= i < |received| =>
        var requests := RequestsOfCall(served, operation, received[i]);
        if requests != [] then Some(requests[0].status) else None)
  }

  function ManyRequestProblems(received: seq<nat>, operation: string, served: seq<ServedRequest>): seq<Problem> {
    if received == [] then []
    else
      var n := |received| - 1;
      var count := |RequestsOfCall(served, operation, received[n])|;
      var rest := ManyRequestProblems(received[..n], operation, served);
      if count > 1 then rest + [ManyRequests(received[n], operation, count)] else rest
  }

  function SlotProblems(operation: string, count: nat, served: seq<ServedRequest>, mcpCalls: Option<seq<string>>)
    : seq<Problem>
  {
    match mcpCalls
    case None =>
      var found := |RequestsOf(served, operation)|;
      if found != count then [UncorrelatedRequests(found, operation, count)] else []
    case Some(names) =>
      var received := Received(names, operation);
      (if |received| != count then [ServerCount(|received|, operation, count)] else []) +
      ManyRequestProblems(received, operation, served)
  }

  method ServerStatuses(operation: string, count: nat, served: seq<ServedRequest>, mcpCalls: Option<seq<string>>)
    returns (statuses: seq<Option<int>>, problems: seq<Problem>)
    ensures statuses == Slots(operation, served, mcpCalls)
    ensures problems == SlotProblems(operation, count, served, mcpCalls)
    ensures problems == [] ==> |statuses| == count
  {
    hide RequestsOf, RequestsOfCall, Received;
    problems := [];
    match mcpCalls {
      case None =>
        var requests := RequestsOf(served, operation);
        if |requests| != count {
          problems := [UncorrelatedRequests(|requests|, operation, count)];
        }
        statuses := seq(|requests|, i requires 0 <= i < |requests| => Some(requests[i].status));
      case Some(names) =>
        var received := Received(names, operation);
        if |received| != count {
          problems := [ServerCount(|received|, operation, count)];
        }
        ghost var head := problems;
        statuses := [];
        for k := 0 to |received|
          invariant statuses == Slots(operation, served, mcpCalls)[..k]
          invariant problems == head + ManyRequestProblems(received[..k], operation, served)
        {
          assert received[..k + 1][..k] == received[..k];
          var requests := RequestsOfCall(served, operation, received[k]);
          if |requests| > 1 {
            problems := problems + [ManyRequests(received[k], operation, |requests|)];
          }
          statuses := statuses + [if requests != [] then Some(requests[0].status) else None];
        }
        assert received[..|received|] == received;
    }
  }

  // ----- One operation -----

  /** Whether the event at rank k forwarded its call; without a gateway every call is forwarded. */
  predicate ForwardedAt(queue: seq<GatewayEvent>, k: nat)
    requires queue == [] || k < |queue|
  {
    queue == [] || queue[k].forwarded
  }

  function FaultAt(queue: seq<GatewayEvent>, k: nat): Option<FaultMode>
    requires queue == [] || k < |queue|
  {
    if queue == [] then None else queue[k].fault
  }

  function ForwardedIds(calls: seq<ToolCall>, queue: seq<GatewayEvent>, k: nat): seq<string>
    requires k <= |calls| && (queue == [] || |queue| == |calls|)
  {
    if k == 0 then []
    else
      var rest := ForwardedIds(calls, queue, k - 1);
      if ForwardedAt(queue, k - 1) then rest + [calls[k - 1].id] else rest
  }

  /** dict(zip(ids, slots)) over the first k pairs. */
  function Zipped(ids: seq<string>, slots: seq<Option<int>>, k: nat): map<string, Option<int>>
    requires k <= |ids| && k <= |slots|
  {
    if k == 0 then map[] else Zipped(ids, slots, k - 1)[ids[k - 1] := slots[k - 1]]
  }

  function StatusMap(calls: seq<ToolCall>, queue: seq<GatewayEvent>, slots: seq<Option<int>>): map<string, Option<int>>
    requires queue == [] || |queue| == |calls|
  {
    var ids := ForwardedIds(calls, queue, |calls|);
    Zipped(ids, slots, Min(|ids|, |slots|))
  }

  function BindingOf(fault: Option<FaultMode>, status: Option<int>): CallBinding {
    CallBinding(fault, status.Some?, status)
  }

  function Paired(calls: seq<ToolCall>, queue: seq<GatewayEvent>, statuses: map<string, Option<int>>, k: nat)
    : map<string, CallBinding>
    requires k <= |calls| && (queue == [] || |queue| == |calls|)
  {
    if k == 0 then map[]
    else
      var id := calls[k - 1].id;
      Paired(calls, queue, statuses, k - 1)[
        id := BindingOf(FaultAt(queue, k - 1), if id in statuses then statuses[id] else None)]
  }

  /** The later call was issued while the earlier one was still unanswered. */
  predicate Overlaps(earlier: ToolCall, later: ToolCall) {
    earlier.result.Some? && later.at < earlier.result.value.at
  }

  predicate ConflictAt(calls: seq<ToolCall>, bindings: map<string, CallBinding>, i: nat)
    requires i < |calls|
    requires forall j :: 0 <= j < |calls| ==> calls[j].id in bindings
  {
    exists j :: i < j < |calls| && Overlaps(calls[i], calls[j]) && bindings[calls[j].id] != bindings[calls[i].id]
  }

  predicate Conflict(calls: seq<ToolCall>, bindings: map<string, CallBinding>)
    requires forall j :: 0 <= j < |calls| ==> calls[j].id in bindings
  {
    exists i :: 0 <= i < |calls| && ConflictAt(calls, bindings, i)
  }

  datatype Bound = Bound(bindings: map<string, CallBinding>, problems: seq<Problem>)

  lemma {:induction false} PairedHasIds(
      calls: seq<ToolCall>, queue: seq<GatewayEvent>, statuses: map<string, Option<int>>, k: nat)
    requires k <= |calls| && (queue == [] || |queue| == |calls|)
    ensures forall j :: 0 <= j < k ==> calls[j].id in Paired(calls, queue, statuses, k)
  {
    if k > 0 {
      PairedHasIds(calls, queue, statuses, k - 1);
    }
  }

  /** What one operation adds to the bindings and to the problems. */
  function BindOperation(
      operation: string, calls: seq<ToolCall>, gateway: seq<GatewayEvent>, served: seq<ServedRequest>,
      mcpCalls: Option<seq<string>>): Bound
  {
    var queue := OperationEvents(gateway, operation);
    if gateway != [] && |queue| != |calls| then Bound(map[], [GatewayCount(|queue|, operation, |calls|)])
    else if queue != [] && |queue| != |calls| then Bound(map[], [])
    else
      var slots := Slots(operation, served, mcpCalls);
      var count := |ForwardedIds(calls, queue, |calls|)|;
      var added := Paired(calls, queue, StatusMap(calls, queue, slots), |calls|);
      PairedHasIds(calls, queue, StatusMap(calls, queue, slots), |calls|);
      Bound(
        added,
        SlotProblems(operation, count, served, mcpCalls) +
        if Conflict(calls, added) then [Overlapping(operation)] else [])
  }

  function BindAll(
      operations: seq<string>, calls: seq<ToolCall>, prefix: string, gateway: seq<GatewayEvent>,
      served: seq<ServedRequest>, mcpCalls: Option<seq<string>>): Bound
  {
    if operations == [] then Bound(map[], [])
    else
      var last := operations[|operations| - 1];
      var before := BindAll(operations[..|operations| - 1], calls, prefix, gateway, served, mcpCalls);
      var added := BindOperation(last, OperationCalls(calls, prefix, last), gateway, served, mcpCalls);
      Bound(before.bindings + added.bindings, before.problems + added.problems)
  }

  lemma {:induction false} BindAllSnoc(
      operations: seq<string>, op: string, calls: seq<ToolCall>, prefix: string, gateway: seq<GatewayEvent>,
      served: seq<ServedRequest>, mcpCalls: Option<seq<string>>)
    ensures
      var before := BindAll(operations, calls, prefix, gateway, served, mcpCalls);
      var added := BindOperation(op, OperationCalls(calls, prefix, op), gateway, served, mcpCalls);
      BindAll(operations + [op], calls, prefix, gateway, served, mcpCalls) ==
      Bound(before.bindings + added.bindings, before.problems + added.problems)
  {
    assert (operations + [op])[..|operations|] == operations;
  }

  /** The specification of bind_calls: the bindings, or every problem that keeps the session from being scored. */
  function Bind(
      calls: seq<ToolCall>, prefix: string, served: seq<ServedRequest>, gateway: seq<GatewayEvent>,
      mcpCalls: Option<seq<string>>): Result<map<string, CallBinding>, seq<Problem>>
  {
    var all := BindAll(Operations(calls, prefix), calls, prefix, gateway, InternalRequests(served), mcpCalls);
    if all.problems != [] then Err(all.problems) else Ok(all.bindings)
  }

  /** The inner scan: does some call overlap a later one that was bound differently? */
  method FindConflict(calls: seq<ToolCall>, bindings: map<string, CallBinding>) returns (conflict: bool)
    requires forall j :: 0 <= j < |calls| ==> calls[j].id in bindings
    ensures conflict == Conflict(calls, bindings)
  {
    for k := 0 to |calls|
      invariant forall i :: 0 <= i < k ==> !ConflictAt(calls, bindings, i)
    {
      if ConflictAt(calls, bindings, k) {
        return true;
      }
    }
    return false;
  }

  lemma ConflictDependsOnIds(
      calls: seq<ToolCall>, a: map<string, CallBinding>, b: map<string, CallBinding>)
    requires forall j :: 0 <= j < |calls| ==> calls[j].id in a && calls[j].id in b
    requires forall j :: 0 <= j < |calls| ==> a[calls[j].id] == b[calls[j].id]
    ensures Conflict(calls, a) == Conflict(calls, b)
  {
    assert forall i :: 0 <= i < |calls| ==> ConflictAt(calls, a, i) == ConflictAt(calls, b, i);
  }

  method PairCalls(
      calls: seq<ToolCall>, queue: seq<GatewayEvent>, statuses: map<string, Option<int>>,
      before: map<string, CallBinding>)
    returns (bindings: map<string, CallBinding>)
    requires queue == [] || |queue| == |calls|
    ensures bindings == before + Paired(calls, queue, statuses, |calls|)
  {
    hide BindingOf, FaultAt;
    bindings := before;
    for k := 0 to |calls|
      invariant bindings == before + Paired(calls, queue, statuses, k)
    {
      var id := calls[k].id;
      var status := if id in statuses then statuses[id] else None;
      bindings := bindings[id := BindingOf(FaultAt(queue, k), status)];
    }
  }

  /** One round of the loop over operations. */
  method BindOneOperation(
      op: string, calls: seq<ToolCall>, ghost gateway: seq<GatewayEvent>, anyEvents: bool, queue: seq<GatewayEvent>,
      served: seq<ServedRequest>, mcpCalls: Option<seq<string>>, before: map<string, CallBinding>)
    returns (bindings: map<string, CallBinding>, problems: seq<Problem>)
    requires anyEvents <==> gateway != []
    requires queue == OperationEvents(gateway, op)
    ensures bindings == before + BindOperation(op, calls, gateway, served, mcpCalls).bindings
    ensures problems == BindOperation(op, calls, gateway, served, mcpCalls).problems
  {
    hide OperationEvents, Slots, SlotProblems, ForwardedIds, StatusMap, Paired, Conflict;
    if anyEvents && |queue| != |calls| {
      return before, [GatewayCount(|queue|, op, |calls|)];
    }
    EventsImplyGateway(gateway, op);
    var forwarded := ForwardedIds(calls, queue, |calls|);
    var slots, slotProblems := ServerStatuses(op, |forwarded|, served, mcpCalls);
    problems := slotProblems;
    var statuses := StatusMap(calls, queue, slots);
    bindings := PairCalls(calls, queue, statuses, before);
    ghost var added := Paired(calls, queue, statuses, |calls|);
    PairedHasIds(calls, queue, statuses, |calls|);
    ConflictDependsOnIds(calls, added, bindings);
    var conflict := FindConflict(calls, bindings);
    if conflict {
      problems := problems + [Overlapping(op)];
    }
  }

  method BindCalls(
      calls: seq<ToolCall>, prefix: string, served: seq<ServedRequest>, gateway: seq<GatewayEvent>,
      mcpCalls: Option<seq<string>>)
    returns (r: Result<map<string, CallBinding>, seq<Problem>>)
    ensures r == Bind(calls, prefix, served, gateway, mcpCalls)
  {
    hide BindOperation, OperationCalls, OperationEvents, Operations, InternalRequests;
    var problems: seq<Problem> := [];
    var order, groups := GroupCalls(calls, prefix);
    var events := GroupEvents(gateway);
    var requests := InternalRequests(served);
    var bindings: map<string, CallBinding> := map[];
    for o := 0 to |order|
      invariant Bound(bindings, problems) == BindAll(order[..o], calls, prefix, gateway, requests, mcpCalls)
    {
      var op := order[o];
      assert order[..o + 1] == order[..o] + [op];
      BindAllSnoc(order[..o], op, calls, prefix, gateway, requests, mcpCalls);
      var queue := QueueOf(events, op);
      var added: seq<Problem>;
      bindings, added :=
        BindOneOperation(op, groups[op], gateway, events != map[], queue, requests, mcpCalls, bindings);
      problems := problems + added;
    }
    assert order[..|order|] == order;
    r := if problems != [] then Err(problems) else Ok(bindings);
  }

  lemma {:induction false} EventsImplyGateway(gateway: seq<GatewayEvent>, operation: string)
    ensures OperationEvents(gateway, operation) != [] ==> gateway != []
  {
  }
}
