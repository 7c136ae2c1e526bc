/**
 What pairing by rank is worth when the true arrival order is unknown.

 A true arrival order of an operation's calls is only known to respect real time: a call whose
 result was received before another call was issued arrived first. At one and the same instant
 it depends on whether a request can arrive at the very instant its result is received: the
 window. The gateway and the Server may each have seen a different admissible order. The theorems
 say for each window that the rank bindings are the answer of every pair of admissible orders
 exactly when no two calls that real time leaves unordered are bound differently. In a half-open
 window that is what bind_calls checks.
 */
module BindingOrder {
  import opened Wrappers
  import opened Transcripts
  import opened Binding
  import opened Counting

  /** A call arrives from its issue on and before its result is received, or up to that very instant. */
  datatype Window = HalfOpen | Closed

  /** Real time settles that the first call arrived before the second. */
  predicate Precedes(w: Window, first: ToolCall, second: ToolCall) {
    first.result.Some? && if w.HalfOpen? then first.result.value.at <= second.at else first.result.value.at < second.at
  }

  /** Real time leaves open which of the two arrived first; in a half-open window this is the overlap of bind_calls. */
  predicate Unordered(w: Window, earlier: ToolCall, later: ToolCall) {
    earlier.result.Some? && !Precedes(w, earlier, later)
  }

  /** p[i] is the rank at which the i-th issued call really arrived: any permutation that respects real time. */
  ghost predicate Admissible(w: Window, calls: seq<ToolCall>, p: seq<nat>) {
    && |p| == |calls|
    && (forall i :: 0 <= i < |p| ==> p[i] < |p|)
    && InjectiveOn(p, Range(0, |p|))
    && forall i, j :: 0 <= i < j < |calls| && Precedes(w, calls[i], calls[j]) ==> p[i] < p[j]
  }

  /** The calls that the gateway forwarded when it saw the calls in order p. */
  ghost function ForwardedCalls(queue: seq<GatewayEvent>, p: seq<nat>): set<nat>
    requires queue == [] || (|queue| == |p| && forall i :: 0 <= i < |p| ==> p[i] < |p|)
  {
    set i: nat | i < |p| && ForwardedAt(queue, p[i])
  }

  /** An arrival order at the Server; only the forwarded calls arrive there. */
  ghost predicate ServerAdmissible(w: Window, calls: seq<ToolCall>, forwarded: set<nat>, s: seq<nat>) {
    && |s| == |calls|
    && InjectiveOn(s, forwarded)
    && forall i, j :: 0 <= i < j < |calls| && i in forwarded && j in forwarded && Precedes(w, calls[i], calls[j])
                      ==> s[i] < s[j]
  }

  ghost function EarlierArrivals(forwarded: set<nat>, s: seq<nat>, i: nat): set<nat>
    requires i < |s|
  {
    set j | j in forwarded && j < |s| && s[j] < s[i]
  }

  function SlotAt(slots: seq<Option<int>>, k: nat): Option<int> {
    if k < |slots| then slots[k] else None
  }

  /** The binding of the i-th call if the gateway saw order p and the Server saw order s. */
  ghost function TrueBinding(queue: seq<GatewayEvent>, slots: seq<Option<int>>, p: seq<nat>, s: seq<nat>, i: nat)
    : CallBinding
    requires i < |p| == |s|
    requires forall j :: 0 <= j < |p| ==> p[j] < |p|
    requires queue == [] || |queue| == |p|
  {
    BindingOf(
      FaultAt(queue, p[i]),
      if ForwardedAt(queue, p[i]) then SlotAt(slots, |EarlierArrivals(ForwardedCalls(queue, p), s, i)|) else None)
  }

  /** How many of the first k events forwarded their call. */
  function Rank(queue: seq<GatewayEvent>, k: nat): nat
    requires queue == [] || k <= |queue|
  {
    if k == 0 then 0 else Rank(queue, k - 1) + if ForwardedAt(queue, k - 1) then 1 else 0
  }

  /** The binding bind_calls gives to the call issued k-th. */
  function RankBinding(queue: seq<GatewayEvent>, slots: seq<Option<int>>, k: nat): CallBinding
    requires queue == [] || k < |queue|
  {
    BindingOf(FaultAt(queue, k), if ForwardedAt(queue, k) then SlotAt(slots, Rank(queue, k)) else None)
  }

  // ----- Cuts: instants that separate the calls -----

  /** Every call before index b precedes every call from index b on. */
  ghost predicate Cut(w: Window, calls: seq<ToolCall>, b: nat) {
    forall x, y :: 0 <= x < b <= y < |calls| ==> Precedes(w, calls[x], calls[y])
  }

  ghost predicate ConstantOnOverlaps(w: Window, calls: seq<ToolCall>, bs: seq<CallBinding>) {
    |bs| == |calls| &&
    forall i, j :: 0 <= i < j < |calls| && !Precedes(w, calls[i], calls[j]) ==> bs[i] == bs[j]
  }

  /** Calls bound differently are separated by a cut. */
  lemma DifferentBindingsAreCut(
      w: Window, calls: seq<ToolCall>, bs: seq<CallBinding>, i: nat, k: nat)
    returns (b: nat)
    requires InIssueOrder(calls) && Answered(calls) && ConstantOnOverlaps(w, calls, bs)
    requires i < k < |calls| && bs[i] != bs[k]
    ensures i < b <= k && Cut(w, calls, b)
    decreases k
  {
    if Cut(w, calls, k) {
      b := k;
    } else {
      var x, y :| 0 <= x < k <= y < |calls| && !Precedes(w, calls[x], calls[y]);
      assert !Precedes(w, calls[x], calls[k]);
      assert bs[x] == bs[k];
      assert x < k - 1 ==> !Precedes(w, calls[x], calls[k - 1]);
      assert bs[k - 1] == bs[k];
      b := DifferentBindingsAreCut(w, calls, bs, i, k - 1);
    }
  }

  lemma BeforeCutStays(w: Window, calls: seq<ToolCall>, p: seq<nat>, b: nat, i: nat)
    requires Admissible(w, calls, p) && b <= |calls| && Cut(w, calls, b) && i < b
    ensures p[i] < b
  {
    hide Precedes;
    var n := |calls|;
    var after := Image(p, Range(b, n));
    ImageSize(p, Range(b, n));
    RangeSize(b, n);
    forall v | v in after ensures v in Range(p[i] + 1, n) {
      var y :| b <= y < n && p[y] == v;
      assert Precedes(w, calls[i], calls[y]);
    }
    SubsetSize(after, Range(p[i] + 1, n));
    RangeSize(p[i] + 1, n);
  }

  lemma AfterCutStays(w: Window, calls: seq<ToolCall>, p: seq<nat>, b: nat, i: nat)
    requires Admissible(w, calls, p) && Cut(w, calls, b) && b <= i < |calls|
    ensures b <= p[i]
  {
    hide Precedes;
    var before := Image(p, Range(0, b));
    ImageSize(p, Range(0, b));
    RangeSize(0, b);
    forall v | v in before ensures v in Range(0, p[i]) {
      var x :| 0 <= x < b && p[x] == v;
      assert Precedes(w, calls[x], calls[i]);
    }
    SubsetSize(before, Range(0, p[i]));
    RangeSize(0, p[i]);
  }

  /** An admissible order keeps each side of a cut in place. */
  lemma CutIsKept(w: Window, calls: seq<ToolCall>, p: seq<nat>, b: nat, i: nat)
    requires Admissible(w, calls, p) && b <= |calls| && Cut(w, calls, b) && i < |calls|
    ensures i < b <==> p[i] < b
  {
    hide Cut, Precedes;
    if i < b {
      BeforeCutStays(w, calls, p, b, i);
    } else {
      AfterCutStays(w, calls, p, b, i);
    }
  }

  /** The gateway gave the call an event of the same binding, whatever order it saw. */
  lemma GatewaySlotSameBinding(
      w: Window, calls: seq<ToolCall>, bs: seq<CallBinding>, p: seq<nat>, i: nat)
    requires InIssueOrder(calls) && Answered(calls) && ConstantOnOverlaps(w, calls, bs)
    requires Admissible(w, calls, p) && i < |calls|
    ensures p[i] < |bs| && bs[p[i]] == bs[i]
  {
    if bs[p[i]] != bs[i] {
      if i < p[i] {
        var b := DifferentBindingsAreCut(w, calls, bs, i, p[i]);
        CutIsKept(w, calls, p, b, i);
      } else {
        var b := DifferentBindingsAreCut(w, calls, bs, p[i], i);
        CutIsKept(w, calls, p, b, i);
      }
      assert false;
    }
  }

  // ----- Ranks among the forwarded calls -----

  ghost function ForwardedSlots(queue: seq<GatewayEvent>, k: nat): set<nat>
    requires queue == [] || k <= |queue|
  {
    set m: nat | m < k && ForwardedAt(queue, m)
  }

  lemma {:induction false} RankCounts(queue: seq<GatewayEvent>, k: nat)
    requires queue == [] || k <= |queue|
    ensures Rank(queue, k) == |ForwardedSlots(queue, k)|
  {
    if k == 0 {
      assert ForwardedSlots(queue, 0) == {};
    } else {
      RankCounts(queue, k - 1);
      if ForwardedAt(queue, k - 1) {
        assert ForwardedSlots(queue, k) == ForwardedSlots(queue, k - 1) + {k - 1};
      } else {
        assert ForwardedSlots(queue, k) == ForwardedSlots(queue, k - 1);
      }
    }
  }

  lemma SlotOfRank(queue: seq<GatewayEvent>, n: nat, r: nat) returns (m: nat)
    requires queue == [] || n <= |queue|
    requires r < Rank(queue, n)
    ensures m < n && ForwardedAt(queue, m) && Rank(queue, m) == r
  {
    if r == Rank(queue, n - 1) {
      m := n - 1;
    } else {
      m := SlotOfRank(queue, n - 1, r);
    }
  }

  lemma {:induction false} RankMonotone(queue: seq<GatewayEvent>, a: nat, b: nat)
    requires a <= b && (queue == [] || b <= |queue|)
    ensures Rank(queue, a) <= Rank(queue, b)
    decreases b - a
  {
    if a < b {
      RankMonotone(queue, a, b - 1);
    }
  }

  /** Below a cut, as many calls are forwarded in the true order as in issue order. */
  lemma {:induction false} ForwardedBelowCut(
      w: Window, calls: seq<ToolCall>, queue: seq<GatewayEvent>, p: seq<nat>, b: nat)
    requires Admissible(w, calls, p) && (queue == [] || |queue| == |calls|)
    requires b <= |calls| && Cut(w, calls, b)
    ensures |set i | i in ForwardedCalls(queue, p) && i < b| == Rank(queue, b)
  {
    var below := set i | i in ForwardedCalls(queue, p) && i < b;
    forall i | 0 <= i < |calls| ensures i < b <==> p[i] < b {
      CutIsKept(w, calls, p, b, i);
    }
    ImageSize(p, below);
    RankCounts(queue, b);
    var slots := ForwardedSlots(queue, b);
    assert Image(p, below) <= slots;
    forall m | m in slots ensures m in Image(p, below) {
      var i := Preimage(w, calls, p, m);
      assert i in below;
    }
    assert Image(p, below) == slots;
  }

  lemma Preimage(w: Window, calls: seq<ToolCall>, p: seq<nat>, m: nat) returns (i: nat)
    requires Admissible(w, calls, p) && m < |p|
    ensures i < |p| && p[i] == m
  {
    CoversRange(p, m);
    i :| 0 <= i < |p| && p[i] == m;
  }

  /** No cut lies between a forwarded call and the slot it got at the Server, first direction. */
  lemma {:induction false} SlotNotAfterCut(
      w: Window, calls: seq<ToolCall>, queue: seq<GatewayEvent>, p: seq<nat>, s: seq<nat>, i: nat, b: nat)
    requires queue == [] || |queue| == |calls|
    requires Admissible(w, calls, p) && ServerAdmissible(w, calls, ForwardedCalls(queue, p), s)
    requires i in ForwardedCalls(queue, p) && i < b <= |calls| && Cut(w, calls, b)
    ensures |EarlierArrivals(ForwardedCalls(queue, p), s, i)| < Rank(queue, b)
  {
    var forwarded := ForwardedCalls(queue, p);
    var earlier := EarlierArrivals(forwarded, s, i);
    var below := set j | j in forwarded && j < b;
    ForwardedBelowCut(w, calls, queue, p, b);
    forall j | j in forwarded && b <= j ensures s[i] < s[j] {
      assert Precedes(w, calls[i], calls[j]);
    }
    SubsetSize(earlier + {i}, below);
  }

  lemma {:induction false} SlotNotBeforeCut(
      w: Window, calls: seq<ToolCall>, queue: seq<GatewayEvent>, p: seq<nat>, s: seq<nat>, i: nat, b: nat)
    requires queue == [] || |queue| == |calls|
    requires Admissible(w, calls, p) && ServerAdmissible(w, calls, ForwardedCalls(queue, p), s)
    requires i in ForwardedCalls(queue, p) && b <= i < |calls| && Cut(w, calls, b)
    ensures Rank(queue, b) <= |EarlierArrivals(ForwardedCalls(queue, p), s, i)|
  {
    var forwarded := ForwardedCalls(queue, p);
    var below := set j | j in forwarded && j < b;
    ForwardedBelowCut(w, calls, queue, p, b);
    forall j | j in below ensures s[j] < s[i] {
      assert Precedes(w, calls[j], calls[i]);
    }
    SubsetSize(below, EarlierArrivals(forwarded, s, i));
  }

  lemma {:induction false} SlotExists(
      w: Window, calls: seq<ToolCall>, queue: seq<GatewayEvent>, p: seq<nat>, s: seq<nat>, i: nat)
    requires queue == [] || |queue| == |calls|
    requires Admissible(w, calls, p) && ServerAdmissible(w, calls, ForwardedCalls(queue, p), s)
    requires i in ForwardedCalls(queue, p)
    ensures |EarlierArrivals(ForwardedCalls(queue, p), s, i)| < Rank(queue, |calls|)
  {
    SlotNotAfterCut(w, calls, queue, p, s, i, |calls|);
  }

  /** The Server's slot of a forwarded call has the status of the call's own binding, whatever orders were seen. */
  lemma {:induction false} ServerSlotSameBinding(
      w: Window, calls: seq<ToolCall>, queue: seq<GatewayEvent>, slots: seq<Option<int>>, bs: seq<CallBinding>,
      p: seq<nat>, s: seq<nat>, i: nat)
    requires InIssueOrder(calls) && Answered(calls) && ConstantOnOverlaps(w, calls, bs)
    requires queue == [] || |queue| == |calls|
    requires |slots| == Rank(queue, |calls|)
    requires forall k :: 0 <= k < |calls| ==> bs[k] == RankBinding(queue, slots, k)
    requires Admissible(w, calls, p)
    requires ServerAdmissible(w, calls, ForwardedCalls(queue, p), s)
    requires i in ForwardedCalls(queue, p)
    ensures SlotAt(slots, |EarlierArrivals(ForwardedCalls(queue, p), s, i)|) == bs[i].status
  {
    var r := |EarlierArrivals(ForwardedCalls(queue, p), s, i)|;
    SlotExists(w, calls, queue, p, s, i);
    var m := SlotOfRank(queue, |calls|, r);
    assert bs[m].status == SlotAt(slots, r);
    if bs[m] != bs[i] {
      if i < m {
        var b := DifferentBindingsAreCut(w, calls, bs, i, m);
        SlotNotAfterCut(w, calls, queue, p, s, i, b);
        RankMonotone(queue, b, m);
      } else {
        var b := DifferentBindingsAreCut(w, calls, bs, m, i);
        SlotNotBeforeCut(w, calls, queue, p, s, i, b);
        RankMonotone(queue, m + 1, b);
      }
      assert false;
    }
  }

  /** One operation: if overlapping calls are bound alike, every admissible pair of orders gives the same bindings. */
  lemma {:induction false} OrderIndependent(
      w: Window, calls: seq<ToolCall>, queue: seq<GatewayEvent>, slots: seq<Option<int>>, bs: seq<CallBinding>,
      p: seq<nat>, s: seq<nat>, i: nat)
    requires InIssueOrder(calls) && Answered(calls) && ConstantOnOverlaps(w, calls, bs)
    requires queue == [] || |queue| == |calls|
    requires |slots| == Rank(queue, |calls|)
    requires forall k :: 0 <= k < |calls| ==> bs[k] == RankBinding(queue, slots, k)
    requires Admissible(w, calls, p)
    requires ServerAdmissible(w, calls, ForwardedCalls(queue, p), s)
    requires i < |calls|
    ensures TrueBinding(queue, slots, p, s, i) == bs[i]
  {
    GatewaySlotSameBinding(w, calls, bs, p, i);
    if ForwardedAt(queue, p[i]) {
      ServerSlotSameBinding(w, calls, queue, slots, bs, p, s, i);
    }
  }

  // ----- The check is exact: a refused overlap really is ambiguous -----

  /** Call i arrives just after call k; the calls between them move up. */
  function Rotated(n: nat, i: nat, k: nat): seq<nat>
    requires i < k < n
  {
    seq(n, x requires 0 <= x < n => if x == i then k else if i < x <= k then (x - 1) as nat else x)
  }

  lemma RotatedMovesUp(n: nat, i: nat, k: nat)
    requires i < k < n
    ensures |Rotated(n, i, k)| == n && Rotated(n, i, k)[k] == k - 1
  {
  }

  lemma RotatedAdmissible(w: Window, calls: seq<ToolCall>, i: nat, j: nat, k: nat)
    requires InIssueOrder(calls)
    requires i < k <= j < |calls| && Unordered(w, calls[i], calls[j])
    ensures Admissible(w, calls, Rotated(|calls|, i, k))
  {
    var p := Rotated(|calls|, i, k);
    assert forall y :: i < y <= k ==> calls[y].at <= calls[j].at && !Precedes(w, calls[i], calls[y]);
  }

  /** When both observers saw the same order, a call is bound as the rank it arrived at. */
  lemma SameOrderBinding(
      w: Window, calls: seq<ToolCall>, queue: seq<GatewayEvent>, slots: seq<Option<int>>, p: seq<nat>, i: nat)
    requires queue == [] || |queue| == |calls|
    requires Admissible(w, calls, p) && i < |calls|
    ensures TrueBinding(queue, slots, p, p, i) == RankBinding(queue, slots, p[i])
  {
    var earlier := EarlierArrivals(ForwardedCalls(queue, p), p, i);
    var below := ForwardedSlots(queue, p[i]);
    RankCounts(queue, p[i]);
    ImageSize(p, earlier);
    forall m | m in below ensures m in Image(p, earlier) {
      var j := Preimage(w, calls, p, m);
      assert j in earlier;
    }
    assert Image(p, earlier) == below;
  }

  /** Orders p at the gateway and s at the Server are possible and bind call i differently from its rank. */
  ghost predicate MisboundBy(
      w: Window, calls: seq<ToolCall>, queue: seq<GatewayEvent>, slots: seq<Option<int>>,
      p: seq<nat>, s: seq<nat>, i: nat)
    requires queue == [] || |queue| == |calls|
  {
    && Admissible(w, calls, p)
    && ServerAdmissible(w, calls, ForwardedCalls(queue, p), s)
    && i < |calls|
    && TrueBinding(queue, slots, p, s, i) != RankBinding(queue, slots, i)
  }

  ghost predicate Ambiguous(w: Window, calls: seq<ToolCall>, queue: seq<GatewayEvent>, slots: seq<Option<int>>)
    requires queue == [] || |queue| == |calls|
  {
    exists p, s, i: nat :: MisboundBy(w, calls, queue, slots, p, s, i)
  }

  ghost predicate ConflictingOverlap(w: Window, calls: seq<ToolCall>, queue: seq<GatewayEvent>, slots: seq<Option<int>>)
    requires queue == [] || |queue| == |calls|
  {
    exists i: nat, j: nat :: i < j < |calls| && Unordered(w, calls[i], calls[j]) &&
      RankBinding(queue, slots, i) != RankBinding(queue, slots, j)
  }

  lemma FirstDifference(
      queue: seq<GatewayEvent>, slots: seq<Option<int>>, i: nat, j: nat) returns (k: nat)
    requires i < j && (queue == [] || j < |queue|)
    requires RankBinding(queue, slots, i) != RankBinding(queue, slots, j)
    ensures i < k <= j && RankBinding(queue, slots, k) != RankBinding(queue, slots, i)
    ensures RankBinding(queue, slots, k - 1) == RankBinding(queue, slots, i)
  {
    k := i + 1;
    while RankBinding(queue, slots, k) == RankBinding(queue, slots, i)
      invariant i < k <= j
      invariant RankBinding(queue, slots, k - 1) == RankBinding(queue, slots, i)
      decreases j - k
    {
      k := k + 1;
    }
  }

  lemma AdmissibleAtServer(w: Window, calls: seq<ToolCall>, p: seq<nat>, forwarded: set<nat>)
    requires Admissible(w, calls, p) && forall i :: i in forwarded ==> i < |calls|
    ensures ServerAdmissible(w, calls, forwarded, p)
  {
  }

  lemma ConflictIsAmbiguous(
      w: Window, calls: seq<ToolCall>, queue: seq<GatewayEvent>, slots: seq<Option<int>>)
    requires InIssueOrder(calls)
    requires queue == [] || |queue| == |calls|
    requires ConflictingOverlap(w, calls, queue, slots)
    ensures Ambiguous(w, calls, queue, slots)
  {
    hide Admissible, ServerAdmissible, TrueBinding, RankBinding, Unordered, Rotated;
    var i: nat, j: nat :| i < j < |calls| && Unordered(w, calls[i], calls[j]) &&
      RankBinding(queue, slots, i) != RankBinding(queue, slots, j);
    var k := FirstDifference(queue, slots, i, j);
    var p := Rotated(|calls|, i, k);
    RotatedAdmissible(w, calls, i, j, k);
    assert |p| == |calls| && p[k] == k - 1 by {
      RotatedMovesUp(|calls|, i, k);
    }
    AdmissibleAtServer(w, calls, p, ForwardedCalls(queue, p));
    SameOrderBinding(w, calls, queue, slots, p, k);
    assert MisboundBy(w, calls, queue, slots, p, p, k);
  }

  /** The overlap check of one operation objects exactly when the records do not determine the bindings. */
  lemma {:induction false} OverlapCheckExact(
      w: Window, calls: seq<ToolCall>, queue: seq<GatewayEvent>, slots: seq<Option<int>>)
    requires InIssueOrder(calls) && Answered(calls)
    requires queue == [] || |queue| == |calls|
    requires |slots| == Rank(queue, |calls|)
    ensures ConflictingOverlap(w, calls, queue, slots) <==> Ambiguous(w, calls, queue, slots)
  {
    if ConflictingOverlap(w, calls, queue, slots) {
      ConflictIsAmbiguous(w, calls, queue, slots);
    } else if Ambiguous(w, calls, queue, slots) {
      var bs := seq(|calls|, k requires 0 <= k < |calls| => RankBinding(queue, slots, k));
      var p, s, i: nat :| MisboundBy(w, calls, queue, slots, p, s, i);
      assert ConstantOnOverlaps(w, calls, bs);
      OrderIndependent(w, calls, queue, slots, bs, p, s, i);
      assert false;
    }
  }
}
