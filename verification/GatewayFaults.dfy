/**
 The fault budget of the recording gateway (evaluation/agent_tool_recovery/proxy.py, take_fault and forward), and
 where its faults land: requests take faults in the order they get the lock, their events are logged in the order
 their upstream responses come, and the host recorded a third order. What bind_calls stores is right for all three.
 */
module GatewayFaults {
  import opened Wrappers
  import opened Counting
  import opened Transcripts
  import opened Binding
  import opened BindingOrder
  import opened BindingTheorems

  /** A declared fault: what happens to a call, and to how many calls. */
  datatype Fault = Fault(mode: FaultMode, count: nat)

  type Declared = map<string, Fault>

  function CountOf(declared: Declared, op: string): nat {
    if op in declared then declared[op].count else 0
  }

  /** The fault budget; every arrival is one locked step. */
  class Budget {
    const declared: Declared
    var remaining: map<string, nat>

    constructor (declared: Declared)
      ensures this.declared == declared
      ensures remaining == map op | op in declared :: declared[op].count
    {
      this.declared := declared;
      remaining := map op | op in declared :: declared[op].count;
    }

    /** Takes one fault of the first named operation that has any left. */
    method TakeFault(names: seq<string>) returns (taken: Option<string>)
      requires remaining.Keys == declared.Keys
      modifies `remaining
      ensures remaining.Keys == declared.Keys
      ensures taken == Taken(old(remaining), names)
      ensures remaining == Less(old(remaining), taken)
    {
      for i := 0 to |names|
        invariant remaining == old(remaining)
        invariant Taken(remaining, names[..i]) == None
      {
        var name := names[i];
        FirstTaken(remaining, names, i);
        if name in remaining && remaining[name] > 0 {
          remaining := remaining[name := remaining[name] - 1];
          return Some(name);
        }
      }
      assert names[..|names|] == names;
      taken := None;
    }
  }

  function Taken(remaining: map<string, nat>, names: seq<string>): Option<string> {
    if names == [] then None
    else
      var last := names[|names| - 1];
      match Taken(remaining, names[..|names| - 1])
      case Some(name) => Some(name)
      case None => if last in remaining && remaining[last] > 0 then Some(last) else None
  }

  function Less(remaining: map<string, nat>, taken: Option<string>): map<string, nat> {
    if taken.Some? && taken.value in remaining && remaining[taken.value] > 0 then
      remaining[taken.value := remaining[taken.value] - 1]
    else remaining
  }

  lemma {:induction false} TakenFirst(remaining: map<string, nat>, names: seq<string>, n: nat)
    requires n <= |names| && Taken(remaining, names[..n]).Some?
    ensures Taken(remaining, names) == Taken(remaining, names[..n])
    decreases |names| - n
  {
    if n < |names| {
      assert names[..n + 1][..n] == names[..n];
      TakenFirst(remaining, names, n + 1);
    } else {
      assert names[..n] == names;
    }
  }

  lemma {:induction false} FirstTaken(remaining: map<string, nat>, names: seq<string>, i: nat)
    requires i < |names| && Taken(remaining, names[..i]) == None
    ensures Taken(remaining, names[..i + 1]) ==
      if names[i] in remaining && remaining[names[i]] > 0 then Some(names[i]) else None
    ensures Taken(remaining, names[..i + 1]).Some? ==> Taken(remaining, names) == Some(names[i])
  {
    assert names[..i + 1][..i] == names[..i];
    if Taken(remaining, names[..i + 1]).Some? {
      TakenFirst(remaining, names, i + 1);
    }
  }

  // ----- All arrivals -----

  /** What is left after these requests got the lock, in this order. */
  function Left(declared: Declared, arrivals: seq<seq<string>>): map<string, nat> {
    if arrivals == [] then map op | op in declared :: declared[op].count
    else
      var before := Left(declared, arrivals[..|arrivals| - 1]);
      Less(before, Taken(before, arrivals[|arrivals| - 1]))
  }

  /** Whose fault the k-th arrival took. */
  function Grant(declared: Declared, arrivals: seq<seq<string>>, k: nat): Option<string>
    requires k < |arrivals|
  {
    Taken(Left(declared, arrivals[..k]), arrivals[k])
  }

  function Granted(declared: Declared, arrivals: seq<seq<string>>, op: string): nat {
    if arrivals == [] then 0
    else
      var n := |arrivals| - 1;
      var before := Granted(declared, arrivals[..n], op);
      if Grant(declared, arrivals, n) == Some(op) then before + 1 else before
  }

  lemma {:induction false} TakenHasLeft(remaining: map<string, nat>, names: seq<string>)
    ensures Taken(remaining, names).Some? ==>
      Taken(remaining, names).value in remaining && remaining[Taken(remaining, names).value] > 0
      && Taken(remaining, names).value in names
    ensures Taken(remaining, names).None? ==> forall name :: name in names && name in remaining ==> remaining[name] == 0
  {
    if names != [] {
      var n := |names| - 1;
      TakenHasLeft(remaining, names[..n]);
      assert names == names[..n] + [names[n]];
    }
  }

  function LeftOf(declared: Declared, arrivals: seq<seq<string>>, op: string): nat {
    var left := Left(declared, arrivals);
    if op in left then left[op] else 0
  }

  /** Conservation, for batches too: what an operation has left and what was granted for it are what was declared. */
  lemma {:induction false} BudgetConserved(declared: Declared, arrivals: seq<seq<string>>, op: string)
    ensures LeftOf(declared, arrivals, op) + Granted(declared, arrivals, op) == CountOf(declared, op)
    ensures Left(declared, arrivals).Keys == declared.Keys
  {
    if arrivals != [] {
      var n := |arrivals| - 1;
      BudgetConserved(declared, arrivals[..n], op);
      TakenHasLeft(Left(declared, arrivals[..n]), arrivals[n]);
    }
  }

  /** A request passes without a fault exactly when every operation it names has used up its faults. */
  lemma {:induction false} PassesWhenUsedUp(declared: Declared, arrivals: seq<seq<string>>, k: nat)
    requires k < |arrivals|
    ensures Grant(declared, arrivals, k).None? <==>
      forall op :: op in arrivals[k] ==> Granted(declared, arrivals[..k], op) == CountOf(declared, op)
  {
    hide Taken, Granted, Left;
    var before := arrivals[..k];
    TakenHasLeft(Left(declared, before), arrivals[k]);
    forall op | op in arrivals[k]
      ensures LeftOf(declared, before, op) == 0 <==> Granted(declared, before, op) == CountOf(declared, op)
    {
      BudgetConserved(declared, before, op);
    }
    if Grant(declared, arrivals, k).Some? {
      var op := Grant(declared, arrivals, k).value;
      assert LeftOf(declared, before, op) > 0 && op in arrivals[k];
    }
  }

  /** How many earlier arrivals name the operation. */
  function ArrivalRank(arrivals: seq<seq<string>>, op: string, k: nat): nat
    requires k <= |arrivals|
  {
    if k == 0 then 0
    else if op in arrivals[k - 1] then ArrivalRank(arrivals, op, k - 1) + 1 else ArrivalRank(arrivals, op, k - 1)
  }

  predicate OneCallEach(arrivals: seq<seq<string>>) {
    forall k :: 0 <= k < |arrivals| ==> |arrivals[k]| == 1
  }

  lemma {:induction false} GrantedSoFar(declared: Declared, arrivals: seq<seq<string>>, op: string, k: nat)
    requires OneCallEach(arrivals) && k <= |arrivals|
    ensures Granted(declared, arrivals[..k], op) ==
      if ArrivalRank(arrivals, op, k) <= CountOf(declared, op) then ArrivalRank(arrivals, op, k)
      else CountOf(declared, op)
  {
    if k > 0 {
      GrantedSoFar(declared, arrivals, op, k - 1);
      assert arrivals[..k][..k - 1] == arrivals[..k - 1];
      PassesWhenUsedUp(declared, arrivals, k - 1);
      TakenHasLeft(Left(declared, arrivals[..k - 1]), arrivals[k - 1]);
      BudgetConserved(declared, arrivals[..k - 1], op);
    }
  }

  /** With one call per request, the faults of an operation hit the first arrivals of the operation, up to its count. */
  lemma {:induction false} FirstArrivalsAreFaulted(declared: Declared, arrivals: seq<seq<string>>, op: string, k: nat)
    requires OneCallEach(arrivals) && k < |arrivals| && arrivals[k] == [op]
    ensures Grant(declared, arrivals, k) == Some(op) <==> ArrivalRank(arrivals, op, k) < CountOf(declared, op)
  {
    GrantedSoFar(declared, arrivals, op, k);
    PassesWhenUsedUp(declared, arrivals, k);
    TakenHasLeft(Left(declared, arrivals[..k]), arrivals[k]);
  }

  // ----- Positions in a session-wide sequence -----

  /** How many of the first k places are marked. */
  function MarkedBefore(marks: seq<bool>, k: nat): nat
    requires k <= |marks|
  {
    if k == 0 then 0
    else if marks[k - 1] then MarkedBefore(marks, k - 1) + 1 else MarkedBefore(marks, k - 1)
  }

  ghost function MarkedPlaces(marks: seq<bool>, k: nat): set<nat>
    requires k <= |marks|
  {
    set m: nat | m < k && marks[m]
  }

  lemma {:induction false} MarkedCount(marks: seq<bool>, k: nat)
    requires k <= |marks|
    ensures MarkedBefore(marks, k) == |MarkedPlaces(marks, k)|
  {
    if k == 0 {
      assert MarkedPlaces(marks, 0) == {};
    } else {
      MarkedCount(marks, k - 1);
      if marks[k - 1] {
        assert MarkedPlaces(marks, k) == MarkedPlaces(marks, k - 1) + {k - 1};
      } else {
        assert MarkedPlaces(marks, k) == MarkedPlaces(marks, k - 1);
      }
    }
  }

  lemma {:induction false} MarkedGrows(marks: seq<bool>, a: nat, b: nat)
    requires a <= b <= |marks|
    ensures MarkedBefore(marks, a) <= MarkedBefore(marks, b)
    ensures a < b && marks[a] ==> MarkedBefore(marks, a) < MarkedBefore(marks, b)
    decreases b - a
  {
    if a < b {
      MarkedGrows(marks, a + 1, b);
    }
  }

  /** Where an operation's calls stand in a sequence: all marked places are theirs, in an order that real time allows. */
  ghost predicate Places(group: seq<ToolCall>, marks: seq<bool>, at: seq<nat>) {
    && |at| == |group|
    && (forall i :: 0 <= i < |at| ==> at[i] < |marks| && marks[at[i]])
    && InjectiveOn(at, Range(0, |at|))
    && (forall m: nat :: m < |marks| && marks[m] ==> m in at)
    && forall i, j :: 0 <= i < j < |group| && Precedes(HalfOpen, group[i], group[j]) ==> at[i] < at[j]
  }

  /** The ranks of the calls among the marked places. */
  ghost function Ranks(group: seq<ToolCall>, marks: seq<bool>, at: seq<nat>): (ranks: seq<nat>)
    requires Places(group, marks, at)
    ensures |ranks| == |at| && forall i :: 0 <= i < |at| ==> ranks[i] == MarkedBefore(marks, at[i])
  {
    seq(|at|, i requires 0 <= i < |at| => MarkedBefore(marks, at[i]))
  }

  lemma {:induction false} AllPlacesMarked(group: seq<ToolCall>, marks: seq<bool>, at: seq<nat>)
    requires Places(group, marks, at)
    ensures MarkedBefore(marks, |marks|) == |group|
  {
    var all := Range(0, |at|);
    MarkedCount(marks, |marks|);
    RangeSize(0, |at|);
    ImageSize(at, all);
    forall m | m in MarkedPlaces(marks, |marks|) ensures m in Image(at, all) {
      var i :| 0 <= i < |at| && at[i] == m;
      assert i in all;
    }
    assert MarkedPlaces(marks, |marks|) == Image(at, all);
  }

  /** These ranks are an arrival order that respects real time. */
  lemma RanksAdmissible(group: seq<ToolCall>, marks: seq<bool>, at: seq<nat>)
    requires Places(group, marks, at)
    ensures Admissible(HalfOpen, group, Ranks(group, marks, at))
  {
    hide MarkedBefore, Precedes;
    var ranks := Ranks(group, marks, at);
    AllPlacesMarked(group, marks, at);
    forall i | 0 <= i < |at| ensures ranks[i] < |at| {
      MarkedGrows(marks, at[i], |marks|);
    }
    forall i, j | 0 <= i < |at| && 0 <= j < |at| && at[i] < at[j] ensures ranks[i] < ranks[j] {
      MarkedGrows(marks, at[i], at[j]);
    }
    forall i, j | i in Range(0, |at|) && j in Range(0, |at|) && i != j ensures ranks[i] != ranks[j] {
      assert at[i] != at[j];
    }
  }

  // ----- Where the faults land -----

  /** The fault of the request that got the lock k-th, and the event that forward logs for it. */
  function FaultTaken(declared: Declared, arrivals: seq<seq<string>>, k: nat): Option<FaultMode>
    requires k < |arrivals|
  {
    var taken := Grant(declared, arrivals, k);
    if taken.Some? && taken.value in declared then Some(declared[taken.value].mode) else None
  }

  function EventOf(declared: Declared, arrivals: seq<seq<string>>, k: nat): GatewayEvent
    requires OneCallEach(arrivals) && k < |arrivals|
  {
    var fault := FaultTaken(declared, arrivals, k);
    GatewayEvent(arrivals[k][0], fault, fault != Some(ResetBeforeForward))
  }

  /** The log of a session: the events of the requests, in the order in which they were logged. */
  ghost predicate Logged(
      declared: Declared, arrivals: seq<seq<string>>, finished: seq<nat>, gateway: seq<GatewayEvent>)
  {
    && OneCallEach(arrivals) && |finished| == |gateway|
    && forall m :: 0 <= m < |gateway| ==>
         finished[m] < |arrivals| && gateway[m] == EventOf(declared, arrivals, finished[m])
  }

  function ArrivalsOf(arrivals: seq<seq<string>>, op: string): (marks: seq<bool>)
    ensures |marks| == |arrivals| && forall k :: 0 <= k < |arrivals| ==> marks[k] == (op in arrivals[k])
  {
    seq(|arrivals|, k requires 0 <= k < |arrivals| => op in arrivals[k])
  }

  function EventsOf(gateway: seq<GatewayEvent>, op: string): (marks: seq<bool>)
    ensures |marks| == |gateway| && forall k :: 0 <= k < |gateway| ==> marks[k] == (gateway[k].operation == op)
  {
    seq(|gateway|, k requires 0 <= k < |gateway| => gateway[k].operation == op)
  }

  lemma {:induction false} ArrivalRankMarks(arrivals: seq<seq<string>>, op: string, k: nat)
    requires k <= |arrivals|
    ensures ArrivalRank(arrivals, op, k) == MarkedBefore(ArrivalsOf(arrivals, op), k)
  {
    if k > 0 {
      ArrivalRankMarks(arrivals, op, k - 1);
    }
  }

  lemma {:induction false} QueueLength(gateway: seq<GatewayEvent>, op: string, n: nat)
    requires n <= |gateway|
    ensures |OperationEvents(gateway[..n], op)| == MarkedBefore(EventsOf(gateway, op), n)
  {
    if n > 0 {
      QueueLength(gateway, op, n - 1);
      assert gateway[..n][..n - 1] == gateway[..n - 1];
    }
  }

  /** An operation's event stands in its queue at the rank it has in the log. */
  lemma {:induction false} QueueAtRank(gateway: seq<GatewayEvent>, op: string, n: nat, m: nat)
    requires m < n <= |gateway| && gateway[m].operation == op
    ensures MarkedBefore(EventsOf(gateway, op), m) < |OperationEvents(gateway[..n], op)|
    ensures OperationEvents(gateway[..n], op)[MarkedBefore(EventsOf(gateway, op), m)] == gateway[m]
  {
    QueueLength(gateway, op, n - 1);
    assert gateway[..n][..n - 1] == gateway[..n - 1];
    if m < n - 1 {
      QueueAtRank(gateway, op, n - 1, m);
    }
  }

  /** The declared fault for the call of rank a. */
  function FaultOf(declared: Declared, op: string, a: nat): Option<FaultMode> {
    if a < CountOf(declared, op) then Some(declared[op].mode) else None
  }

  /** The fault a request takes is the declared one for its rank among the arrivals of its operation. */
  lemma {:induction false} FaultByRank(declared: Declared, arrivals: seq<seq<string>>, op: string, k: nat)
    requires OneCallEach(arrivals) && k < |arrivals| && op in arrivals[k]
    ensures FaultTaken(declared, arrivals, k) == FaultOf(declared, op, MarkedBefore(ArrivalsOf(arrivals, op), k))
  {
    hide Taken, Left, MarkedBefore;
    assert arrivals[k] == [op];
    ArrivalRankMarks(arrivals, op, k);
    FirstArrivalsAreFaulted(declared, arrivals, op, k);
    TakenHasLeft(Left(declared, arrivals[..k]), arrivals[k]);
  }

  lemma IssueOrderAdmissible(calls: seq<ToolCall>)
    ensures Admissible(HalfOpen, calls, seq(|calls|, i requires 0 <= i < |calls| => i))
  {
  }

  lemma StoredFault(
      bindings: map<string, CallBinding>, group: seq<ToolCall>, queue: seq<GatewayEvent>, slots: seq<Option<int>>,
      p: seq<nat>, i: nat)
    requires BoundAsInAnyOrder(HalfOpen, bindings, group, queue, slots)
    requires Admissible(HalfOpen, group, p) && i < |group| && queue != []
    ensures group[i].id in bindings && bindings[group[i].id].fault == queue[p[i]].fault
  {
    AdmissibleAtServer(HalfOpen, group, p, ForwardedCalls(queue, p));
    assert bindings[group[i].id] == TrueBinding(queue, slots, p, p, i);
  }

  /** Three orders of one operation: bindings that do not depend on the order show each call the fault it took. */
  lemma FaultInAnyOrder(
      bindings: map<string, CallBinding>, group: seq<ToolCall>, queue: seq<GatewayEvent>, slots: seq<Option<int>>,
      declared: Declared, op: string, locked: seq<nat>, logged: seq<nat>, k: nat)
    requires BoundAsInAnyOrder(HalfOpen, bindings, group, queue, slots) && k < |group| == |queue|
    requires Admissible(HalfOpen, group, locked) && Admissible(HalfOpen, group, logged)
    requires forall i :: 0 <= i < |group| ==> queue[logged[i]].fault == FaultOf(declared, op, locked[i])
    ensures group[k].id in bindings
    ensures bindings[group[k].id].fault == FaultOf(declared, op, locked[k]) == FaultOf(declared, op, k)
  {
    hide BoundAsInAnyOrder, FaultOf;
    var issued := seq(|group|, i requires 0 <= i < |group| => i);
    IssueOrderAdmissible(group);
    CoversRange(locked, k);
    var i :| 0 <= i < |group| && locked[i] == k;
    StoredFault(bindings, group, queue, slots, logged, k);
    StoredFault(bindings, group, queue, slots, logged, i);
    StoredFault(bindings, group, queue, slots, locked, i);
    StoredFault(bindings, group, queue, slots, issued, k);
  }

  /**
   A whole session: its requests got the lock in the order of arrivals and were logged in the order finished, and the
   calls of the operation stand at the places at and ended in orders that respect real time. When bind_calls returns
   for this log, the fault it stores for a call is the one its own request took, and the faulted calls are the first
   ones issued, up to the declared count.
   */
  lemma {:induction false} FaultsLandOnFirstCalls(
      calls: seq<ToolCall>, prefix: string, served: seq<ServedRequest>, gateway: seq<GatewayEvent>,
      mcpCalls: Option<seq<string>>, op: string, declared: Declared, arrivals: seq<seq<string>>, finished: seq<nat>,
      at: seq<nat>, ended: seq<nat>, k: nat)
    requires InIssueOrder(calls) && Answered(calls) && UniqueIds(calls)
    requires Bind(calls, prefix, served, gateway, mcpCalls).Ok? && op in Operations(calls, prefix)
    requires Logged(declared, arrivals, finished, gateway)
    requires
      var group := OperationCalls(calls, prefix, op);
      && Places(group, ArrivalsOf(arrivals, op), at) && Places(group, EventsOf(gateway, op), ended) && k < |group|
      && forall i :: 0 <= i < |group| ==> finished[ended[i]] == at[i]
    ensures
      var group := OperationCalls(calls, prefix, op);
      var bindings := Bind(calls, prefix, served, gateway, mcpCalls).value;
      && group[k].id in bindings
      && bindings[group[k].id].fault == FaultTaken(declared, arrivals, at[k])
      && bindings[group[k].id].fault == FaultOf(declared, op, k)
  {
    BindingsOrderIndependent(calls, prefix, served, gateway, mcpCalls, op);
    hide Bind, OperationCalls, OperationEvents, Slots, Operations, BoundAsInAnyOrder, MarkedBefore, FaultTaken;
    hide FaultOf, Admissible, Precedes;
    var group := OperationCalls(calls, prefix, op);
    var locked := Ranks(group, ArrivalsOf(arrivals, op), at);
    var logged := Ranks(group, EventsOf(gateway, op), ended);
    var queue := OperationEvents(gateway, op);
    RanksAdmissible(group, ArrivalsOf(arrivals, op), at);
    RanksAdmissible(group, EventsOf(gateway, op), ended);
    AllPlacesMarked(group, EventsOf(gateway, op), ended);
    QueueLength(gateway, op, |gateway|);
    assert gateway[..|gateway|] == gateway;
    forall i | 0 <= i < |group|
      ensures logged[i] < |queue| && queue[logged[i]].fault == FaultOf(declared, op, locked[i])
      ensures FaultTaken(declared, arrivals, at[i]) == FaultOf(declared, op, locked[i])
    {
      FaultByRank(declared, arrivals, op, at[i]);
      QueueAtRank(gateway, op, |gateway|, ended[i]);
    }
    FaultInAnyOrder(
      Bind(calls, prefix, served, gateway, mcpCalls).value, group, queue,
      Slots(op, InternalRequests(served), mcpCalls), declared, op, locked, logged, k);
  }
}
