/** The stages composed: what the reader guarantees is what binding and attribution need. */
module RecoveryPipeline {
  import opened Wrappers
  import opened Transcripts
  import opened Binding
  import opened BindingOrder
  import opened BindingTheorems
  import opened BindingArrivals
  import Codex = CodexReader
  import opened CodexTheorems
  import opened Attribution
  import opened AttributionTheorems

  /** The bindings stored for an operation of the turn, with the records they were made from. */
  ghost predicate BoundWhenever(
      w: Window, turn: Codex.Turn, prefix: string, served: seq<ServedRequest>, gateway: seq<GatewayEvent>,
      mcpCalls: Option<seq<string>>, op: string)
  {
    Bind(turn.calls, prefix, served, gateway, mcpCalls).Ok? &&
    BoundAsArrived(
      w, Bind(turn.calls, prefix, served, gateway, mcpCalls).value, OperationCalls(turn.calls, prefix, op),
      OperationEvents(gateway, op), Slots(op, InternalRequests(served), mcpCalls))
  }

  /**
   If the calls of an accepted transcript are bound at all, the stored bindings are those of pairing by the orders in
   which the requests arrived, whenever each arrived between the receipts of its issue and of its result at the gateway
   and at the Server, and strictly before the latter.
   */
  lemma {:induction false} AcceptedTranscriptBindsSoundly(
      lines: seq<Codex.Line>, receipts: seq<Time>, prompts: nat, prefix: string, served: seq<ServedRequest>,
      gateway: seq<GatewayEvent>, mcpCalls: Option<seq<string>>, op: string)
    requires Codex.Read(lines, receipts, prompts).Ok?
    requires
      var calls := Codex.Read(lines, receipts, prompts).value.calls;
      Bind(calls, prefix, served, gateway, mcpCalls).Ok? && op in Operations(calls, prefix)
    ensures BoundWhenever(
      HalfOpen, Codex.Read(lines, receipts, prompts).value, prefix, served, gateway, mcpCalls, op)
  {
    AcceptedTurn(lines, receipts, prompts);
    hide *;
    BoundForHalfOpenArrivals(Codex.Read(lines, receipts, prompts).value.calls, prefix, served, gateway, mcpCalls, op);
  }

  /**
   With receipts in order, arrivals up to the receipt of the result are covered too, exactly when no call of the
   operation is issued at the receipt of another's result with a different binding.
   */
  lemma {:induction false} AcceptedTranscriptBindsExactly(
      lines: seq<Codex.Line>, receipts: seq<Time>, prompts: nat, prefix: string, served: seq<ServedRequest>,
      gateway: seq<GatewayEvent>, mcpCalls: Option<seq<string>>, op: string)
    requires Codex.Read(lines, receipts, prompts).Ok? && Nondecreasing(receipts)
    requires
      var calls := Codex.Read(lines, receipts, prompts).value.calls;
      Bind(calls, prefix, served, gateway, mcpCalls).Ok? && op in Operations(calls, prefix)
    ensures
      var turn := Codex.Read(lines, receipts, prompts).value;
      BoundWhenever(Closed, turn, prefix, served, gateway, mcpCalls, op) <==>
      !DifferentAtOneInstant(
        Bind(turn.calls, prefix, served, gateway, mcpCalls).value, OperationCalls(turn.calls, prefix, op))
  {
    AcceptedTurn(lines, receipts, prompts);
    AcceptedTimes(lines, receipts, prompts);
    BoundForClosedArrivalsExactly(
      Codex.Read(lines, receipts, prompts).value.calls, prefix, served, gateway, mcpCalls, op);
  }

  /** With increasing receipts there is no such call: the stored bindings hold for all arrivals in closed windows. */
  lemma {:induction false} IncreasingReceiptsBindSoundly(
      lines: seq<Codex.Line>, receipts: seq<Time>, prompts: nat, prefix: string, served: seq<ServedRequest>,
      gateway: seq<GatewayEvent>, mcpCalls: Option<seq<string>>, op: string)
    requires Codex.Read(lines, receipts, prompts).Ok? && Increasing(receipts)
    requires
      var calls := Codex.Read(lines, receipts, prompts).value.calls;
      Bind(calls, prefix, served, gateway, mcpCalls).Ok? && op in Operations(calls, prefix)
    ensures BoundWhenever(
      Closed, Codex.Read(lines, receipts, prompts).value, prefix, served, gateway, mcpCalls, op)
  {
    hide BoundWhenever, DifferentAtOneInstant, OperationCalls, Bind, Operations;
    var calls := Codex.Read(lines, receipts, prompts).value.calls;
    AcceptedTurn(lines, receipts, prompts);
    AcceptedTranscriptBindsExactly(lines, receipts, prompts, prefix, served, gateway, mcpCalls, op);
    AcceptedInstants(lines, receipts, prompts);
    NoInstantShared(calls, prefix, op, Bind(calls, prefix, served, gateway, mcpCalls).value);
  }

  /** An accepted transcript with increasing receipt times is attributed by the whole-turn definition. */
  lemma {:induction false} AcceptedTranscriptAttribution(
      lines: seq<Codex.Line>, receipts: seq<Time>, prompts: nat, s: Scoring, bindings: map<string, CallBinding>,
      i: nat, j: nat)
    requires Codex.Read(lines, receipts, prompts).Ok? && Increasing(receipts)
    requires i < |Codex.Read(lines, receipts, prompts).value.calls|
    ensures
      var calls := Codex.Read(lines, receipts, prompts).value.calls;
      && DistinctInstants(calls)
      && (Rows(calls, |calls|, s, bindings)[i].respondsTo == Some(j + 1) <==>
          LatestVisible(calls, s, i, j) && calls[j].result.value.isError)
  {
    AcceptedTurn(lines, receipts, prompts);
    AcceptedTimes(lines, receipts, prompts);
    AcceptedInstants(lines, receipts, prompts);
    AnswersLatestFailure(Codex.Read(lines, receipts, prompts).value.calls, s, bindings, i, j);
  }
}
