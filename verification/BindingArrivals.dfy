/**
 Arrival times: which arrival orders they can give, and what the stored bindings are worth for them.

 A request reaches an observer at an instant of its call's window. The orders that such instants give are exactly the
 admissible ones, so the results about orders are results about arrival times, at the gateway and at the Server.
 */
module BindingArrivals {
  import opened Wrappers
  import opened Counting
  import opened Transcripts
  import opened Binding
  import opened BindingOrder
  import opened BindingTheorems

  /** The request of the call may arrive at the instant. */
  predicate ArrivesIn(w: Window, call: ToolCall, at: Time) {
    && call.result.Some? && call.at <= at
    && if w.HalfOpen? then at < call.result.value.at else at <= call.result.value.at
  }

  /** Every call has an instant at which it may arrive. */
  predicate CanArrive(w: Window, calls: seq<ToolCall>) {
    forall i :: 0 <= i < |calls| ==> ArrivesIn(w, calls[i], calls[i].at)
  }

  /** The gateway saw the calls at these instants and recorded them in order p; equal instants may go either way. */
  ghost predicate GatewaySaw(w: Window, calls: seq<ToolCall>, arrival: seq<Time>, p: seq<nat>) {
    && |p| == |arrival| == |calls|
    && (forall i :: 0 <= i < |calls| ==> ArrivesIn(w, calls[i], arrival[i]))
    && (forall i :: 0 <= i < |p| ==> p[i] < |p|)
    && InjectiveOn(p, Range(0, |p|))
    && forall i, j :: 0 <= i < |p| && 0 <= j < |p| && arrival[i] < arrival[j] ==> p[i] < p[j]
  }

  /** The same at the Server, where only the forwarded calls arrive. */
  ghost predicate ServerSaw(w: Window, calls: seq<ToolCall>, forwarded: set<nat>, arrival: seq<Time>, s: seq<nat>) {
    && |s| == |arrival| == |calls|
    && (forall i :: i in forwarded && i < |calls| ==> ArrivesIn(w, calls[i], arrival[i]))
    && InjectiveOn(s, forwarded)
    && forall i, j :: i in forwarded && j in forwarded && i < |s| && j < |s| && arrival[i] < arrival[j] ==> s[i] < s[j]
  }

  // ----- Arrival times give admissible orders -----

  lemma GatewayArrivalsAdmissible(w: Window, calls: seq<ToolCall>, arrival: seq<Time>, p: seq<nat>)
    requires GatewaySaw(w, calls, arrival, p)
    ensures Admissible(w, calls, p)
  {
    forall i, j | 0 <= i < j < |calls| && Precedes(w, calls[i], calls[j]) ensures p[i] < p[j] {
      assert ArrivesIn(w, calls[i], arrival[i]) && ArrivesIn(w, calls[j], arrival[j]);
      assert arrival[i] < arrival[j];
    }
  }

  lemma ServerArrivalsAdmissible(
      w: Window, calls: seq<ToolCall>, forwarded: set<nat>, arrival: seq<Time>, s: seq<nat>)
    requires ServerSaw(w, calls, forwarded, arrival, s)
    ensures ServerAdmissible(w, calls, forwarded, s)
  {
    forall i, j |
      0 <= i < j < |calls| && i in forwarded && j in forwarded && Precedes(w, calls[i], calls[j])
      ensures s[i] < s[j]
    {
      assert ArrivesIn(w, calls[i], arrival[i]) && ArrivesIn(w, calls[j], arrival[j]);
      assert arrival[i] < arrival[j];
    }
  }

  // ----- Admissible orders come from arrival times -----

  /** The latest issue among call i and the calls below n that order s puts no later. */
  ghost function LatestIssue(calls: seq<ToolCall>, seen: set<nat>, s: seq<nat>, i: nat, n: nat): Time
    requires i < |calls| == |s| && n <= |calls|
  {
    if n == 0 then calls[i].at
    else
      var before := LatestIssue(calls, seen, s, i, n - 1);
      if n - 1 in seen && s[n - 1] <= s[i] && before < calls[n - 1].at then calls[n - 1].at else before
  }

  lemma {:induction false} LatestIssueIs(calls: seq<ToolCall>, seen: set<nat>, s: seq<nat>, i: nat, n: nat)
    requires i < |calls| == |s| && n <= |calls| && i in seen
    ensures calls[i].at <= LatestIssue(calls, seen, s, i, n)
    ensures forall j: nat :: j < n && j in seen && s[j] <= s[i] ==> calls[j].at <= LatestIssue(calls, seen, s, i, n)
    ensures exists j: nat ::
      j < |calls| && j in seen && s[j] <= s[i] && LatestIssue(calls, seen, s, i, n) == calls[j].at
  {
    if n > 0 {
      LatestIssueIs(calls, seen, s, i, n - 1);
    }
  }

  /** When i is ordered no later than j, it gets no later instant. */
  lemma {:induction false} LatestIssueMonotone(calls: seq<ToolCall>, seen: set<nat>, s: seq<nat>, i: nat, j: nat)
    requires i < |calls| == |s| && j < |calls| && i in seen && j in seen && s[i] <= s[j]
    ensures LatestIssue(calls, seen, s, i, |calls|) <= LatestIssue(calls, seen, s, j, |calls|)
  {
    hide LatestIssue;
    LatestIssueIs(calls, seen, s, i, |calls|);
    LatestIssueIs(calls, seen, s, j, |calls|);
  }

  /** The instant lies in the call's window: whatever is ordered before it was issued before its result. */
  lemma {:induction false} LatestIssueArrives(w: Window, calls: seq<ToolCall>, seen: set<nat>, s: seq<nat>, i: nat)
    requires InIssueOrder(calls) && Answered(calls) && CanArrive(w, calls)
    requires ServerAdmissible(w, calls, seen, s) && i in seen && i < |calls|
    ensures ArrivesIn(w, calls[i], LatestIssue(calls, seen, s, i, |calls|))
  {
    hide LatestIssue;
    LatestIssueIs(calls, seen, s, i, |calls|);
    var at := LatestIssue(calls, seen, s, i, |calls|);
    var j: nat :| j < |calls| && j in seen && s[j] <= s[i] && at == calls[j].at;
    assert ArrivesIn(w, calls[i], calls[i].at);
    if i < j {
      assert !Precedes(w, calls[i], calls[j]);
    }
  }

  ghost function LatestIssues(calls: seq<ToolCall>, seen: set<nat>, s: seq<nat>): (arrival: seq<Time>)
    requires |s| == |calls|
    ensures |arrival| == |calls|
    ensures forall i :: 0 <= i < |calls| ==> arrival[i] == LatestIssue(calls, seen, s, i, |calls|)
  {
    seq(|calls|, i requires 0 <= i < |calls| => LatestIssue(calls, seen, s, i, |calls|))
  }

  lemma ServerOrderArises(w: Window, calls: seq<ToolCall>, forwarded: set<nat>, s: seq<nat>)
    requires InIssueOrder(calls) && Answered(calls) && CanArrive(w, calls)
    requires ServerAdmissible(w, calls, forwarded, s)
    ensures ServerSaw(w, calls, forwarded, LatestIssues(calls, forwarded, s), s)
  {
    hide LatestIssue;
    var arrival := LatestIssues(calls, forwarded, s);
    forall i | i in forwarded && i < |calls| ensures ArrivesIn(w, calls[i], arrival[i]) {
      LatestIssueArrives(w, calls, forwarded, s, i);
    }
    forall i, j | i in forwarded && j in forwarded && i < |s| && j < |s| && s[j] <= s[i]
      ensures arrival[j] <= arrival[i]
    {
      LatestIssueMonotone(calls, forwarded, s, j, i);
    }
  }

  lemma GatewayOrderArises(w: Window, calls: seq<ToolCall>, p: seq<nat>)
    requires InIssueOrder(calls) && Answered(calls) && CanArrive(w, calls)
    requires Admissible(w, calls, p)
    ensures GatewaySaw(w, calls, LatestIssues(calls, Range(0, |calls|), p), p)
  {
    ServerOrderArises(w, calls, Range(0, |calls|), p);
  }

  /** The orders the gateway can record are exactly the admissible ones. */
  lemma GatewayOrdersExact(w: Window, calls: seq<ToolCall>, p: seq<nat>)
    requires InIssueOrder(calls) && Answered(calls) && CanArrive(w, calls)
    ensures Admissible(w, calls, p) <==> exists arrival :: GatewaySaw(w, calls, arrival, p)
  {
    if Admissible(w, calls, p) {
      GatewayOrderArises(w, calls, p);
    }
    if arrival :| GatewaySaw(w, calls, arrival, p) {
      GatewayArrivalsAdmissible(w, calls, arrival, p);
    }
  }

  /** And so are the orders in which the forwarded calls can reach the Server. */
  lemma ServerOrdersExact(w: Window, calls: seq<ToolCall>, forwarded: set<nat>, s: seq<nat>)
    requires InIssueOrder(calls) && Answered(calls) && CanArrive(w, calls)
    ensures ServerAdmissible(w, calls, forwarded, s) <==> exists arrival :: ServerSaw(w, calls, forwarded, arrival, s)
  {
    if ServerAdmissible(w, calls, forwarded, s) {
      ServerOrderArises(w, calls, forwarded, s);
    }
    if arrival :| ServerSaw(w, calls, forwarded, arrival, s) {
      ServerArrivalsAdmissible(w, calls, forwarded, arrival, s);
    }
  }

  // ----- The stored bindings and the arrival times -----

  /** Whenever the requests arrived, the bindings are those of pairing by the orders in which they arrived. */
  ghost predicate BoundAsArrived(
      w: Window, bindings: map<string, CallBinding>, group: seq<ToolCall>, queue: seq<GatewayEvent>,
      slots: seq<Option<int>>)
  {
    && (queue == [] || |queue| == |group|)
    && forall atGateway, p, atServer, s, i: nat ::
         GatewaySaw(w, group, atGateway, p) && ServerSaw(w, group, ForwardedCalls(queue, p), atServer, s) &&
         i < |group| ==>
           group[i].id in bindings && bindings[group[i].id] == TrueBinding(queue, slots, p, s, i)
  }

  lemma AnyOrderIsAsArrived(
      w: Window, bindings: map<string, CallBinding>, group: seq<ToolCall>, queue: seq<GatewayEvent>,
      slots: seq<Option<int>>)
    requires BoundAsInAnyOrder(w, bindings, group, queue, slots)
    ensures BoundAsArrived(w, bindings, group, queue, slots)
  {
    hide TrueBinding, ForwardedCalls;
    forall atGateway, p, atServer, s, i: nat |
      GatewaySaw(w, group, atGateway, p) && ServerSaw(w, group, ForwardedCalls(queue, p), atServer, s) && i < |group|
      ensures group[i].id in bindings && bindings[group[i].id] == TrueBinding(queue, slots, p, s, i)
    {
      GatewayArrivalsAdmissible(w, group, atGateway, p);
      ServerArrivalsAdmissible(w, group, ForwardedCalls(queue, p), atServer, s);
    }
  }

  lemma AsArrivedIsAnyOrder(
      w: Window, bindings: map<string, CallBinding>, group: seq<ToolCall>, queue: seq<GatewayEvent>,
      slots: seq<Option<int>>)
    requires InIssueOrder(group) && Answered(group) && CanArrive(w, group)
    requires BoundAsArrived(w, bindings, group, queue, slots)
    ensures BoundAsInAnyOrder(w, bindings, group, queue, slots)
  {
    hide TrueBinding, ForwardedCalls;
    forall p, s, i: nat |
      Admissible(w, group, p) && ServerAdmissible(w, group, ForwardedCalls(queue, p), s) && i < |group|
      ensures group[i].id in bindings && bindings[group[i].id] == TrueBinding(queue, slots, p, s, i)
    {
      GatewayOrderArises(w, group, p);
      ServerOrderArises(w, group, ForwardedCalls(queue, p), s);
    }
  }

  /** When bind_calls returns, the stored bindings are right for all arrivals strictly before the results. */
  lemma {:induction false} BoundForHalfOpenArrivals(
      calls: seq<ToolCall>, prefix: string, served: seq<ServedRequest>, gateway: seq<GatewayEvent>,
      mcpCalls: Option<seq<string>>, op: string)
    requires InIssueOrder(calls) && Answered(calls) && UniqueIds(calls)
    requires Bind(calls, prefix, served, gateway, mcpCalls).Ok? && op in Operations(calls, prefix)
    ensures BoundAsArrived(
      HalfOpen, Bind(calls, prefix, served, gateway, mcpCalls).value, OperationCalls(calls, prefix, op),
      OperationEvents(gateway, op), Slots(op, InternalRequests(served), mcpCalls))
  {
    BindingsOrderIndependent(calls, prefix, served, gateway, mcpCalls, op);
    AnyOrderIsAsArrived(
      HalfOpen, Bind(calls, prefix, served, gateway, mcpCalls).value, OperationCalls(calls, prefix, op),
      OperationEvents(gateway, op), Slots(op, InternalRequests(served), mcpCalls));
  }

  predicate AnsweredInOrder(calls: seq<ToolCall>) {
    Answered(calls) && AnsweredAfterIssue(calls)
  }

  /**
   When requests may also arrive at the very instant their results are received, the stored bindings are right for all
   arrivals exactly when no call is issued at an earlier call's result instant with a different binding.
   */
  lemma {:induction false} BoundForClosedArrivalsExactly(
      calls: seq<ToolCall>, prefix: string, served: seq<ServedRequest>, gateway: seq<GatewayEvent>,
      mcpCalls: Option<seq<string>>, op: string)
    requires InIssueOrder(calls) && AnsweredInOrder(calls) && UniqueIds(calls)
    requires Bind(calls, prefix, served, gateway, mcpCalls).Ok? && op in Operations(calls, prefix)
    ensures
      var bindings := Bind(calls, prefix, served, gateway, mcpCalls).value;
      var group := OperationCalls(calls, prefix, op);
      BoundAsArrived(
        Closed, bindings, group, OperationEvents(gateway, op), Slots(op, InternalRequests(served), mcpCalls)) <==>
      !DifferentAtOneInstant(bindings, group)
  {
    ClosedWindowExact(calls, prefix, served, gateway, mcpCalls, op);
    OperationCallsKeepOrder(calls, prefix, op);
    OperationCallsAnsweredInOrder(calls, prefix, op);
    hide Bind, OperationCalls, OperationEvents, Slots, Operations, InternalRequests, BoundAsArrived, BoundAsInAnyOrder;
    hide DifferentAtOneInstant;
    var bindings := Bind(calls, prefix, served, gateway, mcpCalls).value;
    var group := OperationCalls(calls, prefix, op);
    var queue := OperationEvents(gateway, op);
    var slots := Slots(op, InternalRequests(served), mcpCalls);
    assert CanArrive(Closed, group);
    if BoundAsInAnyOrder(Closed, bindings, group, queue, slots) {
      AnyOrderIsAsArrived(Closed, bindings, group, queue, slots);
    }
    if BoundAsArrived(Closed, bindings, group, queue, slots) {
      AsArrivedIsAnyOrder(Closed, bindings, group, queue, slots);
    }
  }

  lemma {:induction false} OperationCallsAnsweredInOrder(calls: seq<ToolCall>, prefix: string, op: string)
    requires AnsweredInOrder(calls)
    ensures AnsweredInOrder(OperationCalls(calls, prefix, op))
  {
    var at := OperationPositions(calls, prefix, op);
  }

  /** Calls of which none is issued at another's result instant never meet the condition. */
  lemma {:induction false} NoInstantShared(
      calls: seq<ToolCall>, prefix: string, op: string, bindings: map<string, CallBinding>)
    requires Answered(calls)
    requires forall i, j ::
      0 <= i < |calls| && 0 <= j < |calls| && calls[i].at == calls[j].result.value.at ==> i == j
    ensures !DifferentAtOneInstant(bindings, OperationCalls(calls, prefix, op))
  {
    var at := OperationPositions(calls, prefix, op);
    var group := OperationCalls(calls, prefix, op);
    forall i, j | 0 <= i < j < |group| ensures group[i].result.Some? && group[j].at != group[i].result.value.at {
      assert at[i] < at[j];
      assert calls[at[j]].at != calls[at[i]].result.value.at;
    }
  }

  // ----- The boundary is real -----

  const TEXT := ResultText(None, None, false, {}, false)
  /** The first call's result is received at the instant at which the second is issued. */
  const TOUCHING := [
    ToolCall("a", "op", map[], 1, Some(ToolResult(false, TEXT, 2))),
    ToolCall("b", "op", map[], 2, Some(ToolResult(false, TEXT, 3)))]
  const SERVED := [ServedRequest("op", 200, true, Some(0)), ServedRequest("op", 404, true, Some(1))]
  const RECEIVED := Some(["op", "op"])

  lemma TouchingOperation()
    ensures Operations(TOUCHING, "") == ["op"] && OperationCalls(TOUCHING, "", "op") == TOUCHING
  {
    var a, b := TOUCHING[0], TOUCHING[1];
    assert TOUCHING[..1] == [a];
    assert [a][..0] == [];
    assert OperationOf(a, "") == "op" && OperationOf(b, "") == "op";
    assert OperationCalls([], "", "op") == [] && Operations([], "") == [];
    assert OperationCalls([a], "", "op") == [a] && Operations([a], "") == ["op"];
  }

  lemma TouchingRequests()
    ensures InternalRequests(SERVED) == SERVED && Received(["op", "op"], "op") == [0, 1]
    ensures RequestsOfCall(SERVED, "op", 0) == [SERVED[0]] && RequestsOfCall(SERVED, "op", 1) == [SERVED[1]]
  {
    assert SERVED[..1] == [SERVED[0]];
    assert [SERVED[0]][..0] == [];
    assert InternalRequests([SERVED[0]]) == [SERVED[0]];
    assert RequestsOfCall([SERVED[0]], "op", 0) == [SERVED[0]] && RequestsOfCall([SERVED[0]], "op", 1) == [];
    assert ["op", "op"][..1] == ["op"];
    assert ["op"][..0] == [];
    assert Received(["op"], "op") == [0];
  }

  lemma TouchingSlots()
    ensures Slots("op", InternalRequests(SERVED), RECEIVED) == [Some(200), Some(404)]
    ensures ServerCountsAgree("op", 2, InternalRequests(SERVED), RECEIVED)
  {
    hide RequestsOfCall, Received, InternalRequests;
    TouchingRequests();
  }

  /** bind_calls returns for the session in which the two calls only touch. */
  lemma TouchingIsBound()
    ensures InIssueOrder(TOUCHING) && AnsweredInOrder(TOUCHING) && UniqueIds(TOUCHING)
    ensures Bind(TOUCHING, "", SERVED, [], RECEIVED).Ok?
  {
    hide Slots, ServerCountsAgree, Bind;
    TouchingOperation();
    TouchingSlots();
    var slots := Slots("op", InternalRequests(SERVED), RECEIVED);
    assert OperationEvents([], "op") == [];
    assert Rank([], 0) == 0 && Rank([], 1) == 1 && Rank([], 2) == 2;
    OverlapCheckExact(HalfOpen, TOUCHING, [], slots);
    BindReturnsExactly(TOUCHING, "", SERVED, [], RECEIVED);
  }

  lemma SwappedArrivals()
    ensures GatewaySaw(Closed, TOUCHING, [2, 2], [1, 0])
    ensures ServerSaw(Closed, TOUCHING, ForwardedCalls([], [1, 0]), [2, 2], [1, 0])
  {
    hide ForwardedCalls;
    assert forall i :: i in ForwardedCalls([], [1, 0]) ==> i < 2 by {
      ForwardedTouching();
    }
  }

  lemma ForwardedTouching()
    ensures ForwardedCalls([], [1, 0]) == {0, 1}
  {
  }

  /** Arriving second, the first call would be bound to the second status. */
  lemma SwappedBinding()
    ensures TrueBinding([], [Some(200), Some(404)], [1, 0], [1, 0], 0) == BindingOf(None, Some(404))
  {
    hide ForwardedCalls;
    ForwardedTouching();
    assert EarlierArrivals({0, 1}, [1, 0], 0) == {1};
  }

  lemma StoredFirst(bindings: map<string, CallBinding>, slots: seq<Option<int>>)
    requires slots == [Some(200), Some(404)]
    requires "a" in bindings && bindings["a"] == RankBinding([], slots, 0)
    ensures bindings["a"] == BindingOf(None, Some(200))
  {
    assert Rank([], 0) == 0;
  }

  /**
   The condition cannot be dropped: bind_calls returns for a session in which one call is issued at the instant the
   other's result is received; if both requests arrive at that instant, the second first, the stored binding of the
   first call is wrong.
   */
  lemma ClosedIntervalMisbinds()
    ensures
      var slots, forwarded := Slots("op", InternalRequests(SERVED), RECEIVED), ForwardedCalls([], [1, 0]);
      && GatewaySaw(Closed, TOUCHING, [2, 2], [1, 0]) && ServerSaw(Closed, TOUCHING, forwarded, [2, 2], [1, 0])
      && Bind(TOUCHING, "", SERVED, [], RECEIVED).Ok?
      && "a" in Bind(TOUCHING, "", SERVED, [], RECEIVED).value
      && Bind(TOUCHING, "", SERVED, [], RECEIVED).value["a"] != TrueBinding([], slots, [1, 0], [1, 0], 0)
  {
    hide Bind, Slots, Operations, OperationCalls, InternalRequests, ForwardedCalls, TrueBinding, RankBinding, Rank;
    hide GatewaySaw, ServerSaw, Ambiguous;
    TouchingIsBound();
    TouchingOperation();
    TouchingSlots();
    SwappedArrivals();
    SwappedBinding();
    ReturnedOperation(TOUCHING, "", SERVED, [], RECEIVED, "op");
    assert TOUCHING[0].id == "a" && OperationEvents([], "op") == [];
    StoredFirst(Bind(TOUCHING, "", SERVED, [], RECEIVED).value, Slots("op", InternalRequests(SERVED), RECEIVED));
  }
}
