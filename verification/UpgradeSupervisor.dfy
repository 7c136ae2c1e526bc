/**
 Owning one upgrade command and reaping its descendants (scripts/upgrade_process.py).

 Between any two system calls the environment takes any finite number of steps, chosen by an oracle.
 */
module UpgradeSupervisor {
  import opened ProcessTable

  function DirectPids(k: Kernel): set<nat> {
    set i | 0 <= i < |k.procs| && Direct(k.procs[i]) :: k.procs[i].pid
  }

  /** Signals as cleanup sends them: each at most once, SIGTERM before SIGKILL. */
  predicate AtMostOnce(got: seq<Signal>) {
    got == [] || got == [Term] || got == [Kill] || got == [Term, Kill]
  }

  /** A call that signals and reaps nothing but possibly the child with the given PID. */
  ghost predicate Waited(a: Kernel, b: Kernel, pid: nat, reaped: bool) {
    && Evolves(a, b)
    && (forall i :: 0 <= i < |a.procs| ==> b.procs[i].got == a.procs[i].got)
    && (forall i :: |a.procs| <= i < |b.procs| ==> b.procs[i].got == [])
    && (forall i :: 0 <= i < |a.procs| && Direct(a.procs[i]) ==>
          if a.procs[i].pid == pid && reaped then b.procs[i].status == Reaped else Direct(b.procs[i]))
    && (!reaped ==> forall i :: 0 <= i < |a.procs| && Direct(a.procs[i]) && a.procs[i].pid == pid ==>
          a.procs[i].status != Zombie)
  }

  /** A call that signals nothing but the child with the given PID, and reaps nothing. */
  ghost predicate Signalled(a: Kernel, b: Kernel, pid: nat, signal: Signal) {
    && Evolves(a, b)
    && (forall i :: 0 <= i < |a.procs| ==>
          b.procs[i].got ==
          if Direct(a.procs[i]) && a.procs[i].pid == pid then a.procs[i].got + [signal] else a.procs[i].got)
    && (forall i :: 0 <= i < |a.procs| && Direct(a.procs[i]) ==> Direct(b.procs[i]))
    && (forall i :: |a.procs| <= i < |b.procs| ==> b.procs[i].got == [])
  }

  /** The child that the PID named before has ended like this. */
  ghost predicate EndedWith(a: Kernel, b: Kernel, pid: nat, code: int) {
    && |a.procs| <= |b.procs|
    && forall i :: 0 <= i < |a.procs| && Direct(a.procs[i]) && a.procs[i].pid == pid ==> b.procs[i].code == code
  }

  lemma ChildOf(k: Kernel, pid: nat) returns (i: nat)
    requires pid in DirectPids(k)
    ensures i < |k.procs| && Direct(k.procs[i]) && k.procs[i].pid == pid
  {
    i :| 0 <= i < |k.procs| && Direct(k.procs[i]) && k.procs[i].pid == pid;
  }

  lemma WaitEvolves(a: Kernel, b: Kernel, i: nat)
    requires Consistent(b) && EnvEvolves(a, b)
    requires i < |b.procs| && Direct(b.procs[i]) && b.procs[i].status == Zombie
    requires b.procs[i].pid in DirectPids(a)
    ensures
      var c := b.(procs := b.procs[i := b.procs[i].(status := Reaped)]);
      Consistent(c) && Waited(a, c, b.procs[i].pid, true)
  {
    var c := b.(procs := b.procs[i := b.procs[i].(status := Reaped)]);
    ReapEvolves(b, i);
    EvolvesTransitive(a, b, c);
    var j := ChildOf(a, b.procs[i].pid);
    assert Direct(b.procs[j]) && b.procs[j].pid == b.procs[i].pid;
    assert j == i;
  }

  lemma NotWaited(a: Kernel, b: Kernel, i: nat)
    requires Consistent(b) && EnvEvolves(a, b)
    requires i < |b.procs| && Direct(b.procs[i]) && b.procs[i].status == Live
    ensures Waited(a, b, b.procs[i].pid, false)
  {
    forall j | 0 <= j < |a.procs| && Direct(a.procs[j]) && a.procs[j].pid == b.procs[i].pid
      ensures a.procs[j].status != Zombie
    {
      assert Direct(b.procs[j]) && j == i;
    }
  }

  function AfterSignal(k: Kernel, i: nat, signal: Signal): Kernel
    requires i < |k.procs|
  {
    k.(procs := k.procs[i := k.procs[i].(got := k.procs[i].got + [signal])])
  }

  lemma SignalStep(k: Kernel, i: nat, signal: Signal)
    requires Consistent(k) && i < |k.procs| && k.procs[i].parent == Supervisor
    ensures Consistent(AfterSignal(k, i, signal)) && Evolves(k, AfterSignal(k, i, signal))
  {
  }

  lemma SignalEvolves(a: Kernel, b: Kernel, i: nat, signal: Signal)
    requires Consistent(b) && EnvEvolves(a, b)
    requires i < |b.procs| && Unreaped(b.procs[i]) && b.procs[i].pid in DirectPids(a)
    ensures Consistent(AfterSignal(b, i, signal))
    ensures Signalled(a, AfterSignal(b, i, signal), b.procs[i].pid, signal)
  {
    var j := ChildOf(a, b.procs[i].pid);
    assert Direct(b.procs[j]) && j == i;
    SignalStep(b, i, signal);
    EvolvesTransitive(a, b, AfterSignal(b, i, signal));
  }

  function FreshPid(procs: seq<Proc>): nat {
    if procs == [] then 1
    else
      var rest := FreshPid(procs[..|procs| - 1]);
      if rest <= procs[|procs| - 1].pid then procs[|procs| - 1].pid + 1 else rest
  }

  lemma {:induction false} AboveAll(procs: seq<Proc>)
    ensures forall i :: 0 <= i < |procs| ==> procs[i].pid < FreshPid(procs)
  {
    if procs != [] {
      AboveAll(procs[..|procs| - 1]);
    }
  }

  lemma FreshPidUnused(k: Kernel)
    ensures Unused(k, FreshPid(k.procs))
  {
    AboveAll(k.procs);
  }

  /** The supervisor's view of the kernel: its system calls. */
  class System {
    const env: nat -> seq<Event>
    /** Whether a cancellation arrives while a wait polls for the n-th time. */
    const cancelled: nat -> bool
    var k: Kernel
    var tick: nat
    /** The incarnations that were sent SIGINT, in order. */
    var interrupted: seq<nat>

    constructor (env: nat -> seq<Event>, cancelled: nat -> bool, k: Kernel)
      requires Consistent(k)
      ensures this.k == k && Consistent(this.k) && interrupted == []
    {
      this.env, this.cancelled, this.k, this.tick, interrupted := env, cancelled, k, 0, [];
    }

    method Interleave()
      requires Consistent(k)
      modifies `k, `tick
      ensures Consistent(k) && EnvEvolves(old(k), k)
    {
      ApplyAllEvolves(k, env(tick));
      k := ApplyAll(k, env(tick));
      tick := tick + 1;
    }

    /** /proc/self/task/PID/children */
    method Children() returns (pids: set<nat>)
      requires Consistent(k)
      modifies `k, `tick
      ensures Consistent(k) && EnvEvolves(old(k), k)
      ensures pids == DirectPids(k)
    {
      Interleave();
      pids := DirectPids(k);
    }

    /** The unreaped process that a PID names now. */
    method Find(pid: nat) returns (i: nat)
      requires pid in DirectPids(k)
      ensures i < |k.procs| && Unreaped(k.procs[i]) && k.procs[i].pid == pid
    {
      ghost var child := ChildOf(k, pid);
      i := 0;
      while !(Unreaped(k.procs[i]) && k.procs[i].pid == pid)
        invariant i <= child
        decreases child - i
      {
        i := i + 1;
      }
    }

    /** waitpid(pid, WNOHANG) for one of our children, with how it ended. */
    method WaitPid(pid: nat) returns (reaped: bool, code: int)
      requires Consistent(k) && pid in DirectPids(k)
      modifies `k, `tick
      ensures Consistent(k) && Waited(old(k), k, pid, reaped)
      ensures reaped ==> EndedWith(old(k), k, pid, code)
    {
      ghost var before := k;
      ghost var child := ChildOf(k, pid);
      Interleave();
      assert Direct(k.procs[child]);
      var i := Find(pid);
      assert i == child;
      reaped, code := k.procs[i].status == Zombie, k.procs[i].code;
      if reaped {
        WaitEvolves(before, k, i);
        k := k.(procs := k.procs[i := k.procs[i].(status := Reaped)]);
      } else {
        NotWaited(before, k, i);
      }
    }

    /** kill(pid, signal): whatever process the PID names now receives the signal. */
    method SendSignal(pid: nat, signal: Signal)
      requires Consistent(k) && pid in DirectPids(k)
      modifies `k, `tick
      ensures Consistent(k) && Signalled(old(k), k, pid, signal)
    {
      ghost var before := k;
      ghost var child := ChildOf(k, pid);
      Interleave();
      assert Direct(k.procs[child]);
      var i := Find(pid);
      SignalEvolves(before, k, i, signal);
      k := AfterSignal(k, i, signal);
    }

    /** send_signal(SIGINT) to a child. */
    method SendInterrupt(pid: nat)
      requires Consistent(k) && pid in DirectPids(k)
      modifies `k, `tick, `interrupted
      ensures Consistent(k) && EnvEvolves(old(k), k)
      ensures forall i: nat :: i < |old(k).procs| && Direct(old(k).procs[i]) && old(k).procs[i].pid == pid ==>
        interrupted == old(interrupted) + [i]
    {
      ghost var before := k;
      ghost var child := ChildOf(k, pid);
      Interleave();
      assert Direct(k.procs[child]);
      var i := Find(pid);
      assert i == child;
      interrupted := interrupted + [i];
    }

    method Monotonic() returns (time: nat)
      requires Consistent(k)
      modifies `k, `tick
      ensures Consistent(k) && EnvEvolves(old(k), k) && time == k.now
    {
      Interleave();
      time := k.now;
    }

    /** Start the command: a new live child with a PID that no unreaped process has. */
    method Spawn(wanted: nat, patience: nat) returns (pid: nat, ghost command: nat)
      requires Consistent(k)
      modifies `k, `tick
      ensures Consistent(k) && pid in DirectPids(k)
      ensures forall i :: 0 <= i < |k.procs| && Unreaped(k.procs[i]) && k.procs[i].pid == pid ==> k.procs[i].got == []
      ensures |old(k).procs| <= command < |k.procs| && Direct(k.procs[command]) && k.procs[command].pid == pid
      ensures forall i :: 0 <= i < |old(k).procs| ==>
        k.procs[i].got == old(k).procs[i].got && ProcEvolves(old(k).procs[i], k.procs[i])
      ensures forall i :: |old(k).procs| <= i < |k.procs| ==> k.procs[i].got == []
    {
      Interleave();
      pid := if Unused(k, wanted) then wanted else FreshPid(k.procs);
      FreshPidUnused(k);
      var p := Fresh(pid, Supervisor, patience);
      ghost var before := k;
      k := k.(procs := k.procs + [p]);
      command := |before.procs|;
      assert forall i :: 0 <= i < |before.procs| ==> k.procs[i] == before.procs[i];
      assert Direct(k.procs[|before.procs|]);
    }

    /** One polling pause: the clock advances, and killed processes get one round closer to their exit. */
    method Sleep()
      requires Consistent(k)
      modifies `k, `tick
      ensures Consistent(k) && EnvEvolves(old(k), k) && old(k).now < k.now
      ensures forall i :: 0 <= i < |old(k).procs| && Dying(old(k).procs[i]) ==>
        Weight(k.procs[i]) < Weight(old(k).procs[i])
    {
      ghost var k0 := k;
      Interleave();
      ghost var k1 := k;
      AgeFirstEvolves(k, |k.procs|);
      var aged := AgeFirst(k, |k.procs|);
      k := aged.(now := aged.now + 1);
      EnvEvolvesTransitive(k0, k1, aged);
      assert EnvEvolves(aged, k);
      EnvEvolvesTransitive(k0, aged, k);
      forall i | 0 <= i < |k0.procs| && Dying(k0.procs[i]) ensures Weight(k.procs[i]) < Weight(k0.procs[i]) {
        assert ProcEvolves(k0.procs[i], k1.procs[i]);
        assert k1.procs[i].got == k0.procs[i].got;
        assert Weight(k.procs[i]) <= Weight(k1.procs[i]) by {
          assert ProcEvolves(k1.procs[i], aged.procs[i]);
        }
        assert Dying(k1.procs[i]) || Weight(k1.procs[i]) < Weight(k0.procs[i]);
      }
    }
  }

  // ----- reap_finished -----

  /** From a to b exactly the children with the given PIDs were reaped, and of the finished ones all but the excluded. */
  ghost predicate ReapedExactly(a: Kernel, b: Kernel, reaped: set<nat>, exclude: set<nat>) {
    && Evolves(a, b)
    && (forall i :: 0 <= i < |a.procs| ==> b.procs[i].got == a.procs[i].got)
    && (forall i :: |a.procs| <= i < |b.procs| ==> b.procs[i].got == [])
    && (forall i :: 0 <= i < |a.procs| && Direct(a.procs[i]) ==>
          if a.procs[i].pid in reaped then b.procs[i].status == Reaped else Direct(b.procs[i]))
    && reaped !! exclude
    && (forall i :: 0 <= i < |a.procs| && Direct(a.procs[i]) && a.procs[i].status == Zombie ==>
          a.procs[i].pid in reaped || a.procs[i].pid in exclude)
  }

  /** The same while some listed PIDs are still to be waited for. */
  ghost predicate ReapedSoFar(a: Kernel, b: Kernel, reaped: set<nat>, left: set<nat>) {
    && Evolves(a, b)
    && (forall i :: 0 <= i < |a.procs| ==> b.procs[i].got == a.procs[i].got)
    && (forall i :: |a.procs| <= i < |b.procs| ==> b.procs[i].got == [])
    && (forall i :: 0 <= i < |a.procs| && Direct(a.procs[i]) ==>
          if a.procs[i].pid in reaped then b.procs[i].status == Reaped else Direct(b.procs[i]))
    && (forall i :: 0 <= i < |a.procs| && Direct(a.procs[i]) && a.procs[i].status == Zombie ==>
          a.procs[i].pid in reaped || a.procs[i].pid in left)
    && left <= DirectPids(a) && reaped !! left
  }

  lemma ReapStart(a: Kernel)
    ensures ReapedSoFar(a, a, {}, DirectPids(a))
  {
  }

  lemma ReapStep(
      a: Kernel, b: Kernel, c: Kernel, reaped: set<nat>, left: set<nat>, pid: nat, gone: bool)
    requires Consistent(a) && ReapedSoFar(a, b, reaped, left) && pid in left
    requires Waited(b, c, pid, gone)
    ensures ReapedSoFar(a, c, if gone then reaped + {pid} else reaped, left - {pid})
  {
    EvolvesTransitive(a, b, c);
    var next := if gone then reaped + {pid} else reaped;
    forall i | 0 <= i < |a.procs| && Direct(a.procs[i])
      ensures if a.procs[i].pid in next then c.procs[i].status == Reaped else Direct(c.procs[i])
      ensures a.procs[i].status == Zombie ==> a.procs[i].pid in next || a.procs[i].pid in left - {pid}
    {
      assert ProcEvolves(a.procs[i], b.procs[i]) && ProcEvolves(b.procs[i], c.procs[i]);
    }
  }

  method ReapFinished(s: System, exclude: set<nat>) returns (reaped: set<nat>)
    requires Consistent(s.k)
    modifies s`k, s`tick
    ensures Consistent(s.k) && ReapedExactly(old(s.k), s.k, reaped, exclude)
  {
    hide Consistent, EnvEvolves, Waited, ReapedSoFar, ReapedExactly;
    ghost var k0 := s.k;
    var pids := s.Children();
    ghost var k1 := s.k;
    reaped := {};
    var left := pids;
    ReapStart(k1);
    assert left + pids * exclude == pids;
    while left != {}
      invariant Consistent(s.k) && Consistent(k1) && left <= pids && reaped !! exclude
      invariant ReapedSoFar(k1, s.k, reaped, left + pids * exclude)
    {
      var pid :| pid in left;
      if pid !in exclude {
        ghost var b := s.k;
        StillChild(k1, b, reaped, left + pids * exclude, pid);
        var gone, code := s.WaitPid(pid);
        ReapStep(k1, b, s.k, reaped, left + pids * exclude, pid, gone);
        assert left + pids * exclude - {pid} == left - {pid} + pids * exclude;
        if gone {
          reaped := reaped + {pid};
        }
      } else {
        assert left + pids * exclude == left - {pid} + pids * exclude;
      }
      left := left - {pid};
    }
    assert left + pids * exclude == DirectPids(k1) * exclude;
    ReapDone(k0, k1, s.k, reaped, exclude);
  }

  lemma StillChild(a: Kernel, b: Kernel, reaped: set<nat>, left: set<nat>, pid: nat)
    requires ReapedSoFar(a, b, reaped, left) && pid in left
    ensures pid in DirectPids(b)
  {
    var i := ChildOf(a, pid);
    assert Direct(b.procs[i]) && b.procs[i].pid == pid;
  }

  lemma ReapDone(k0: Kernel, k1: Kernel, b: Kernel, reaped: set<nat>, exclude: set<nat>)
    requires EnvEvolves(k0, k1) && reaped !! exclude
    requires ReapedSoFar(k1, b, reaped, DirectPids(k1) * exclude)
    ensures ReapedExactly(k0, b, reaped, exclude)
  {
    EvolvesTransitive(k0, k1, b);
    forall i | 0 <= i < |k0.procs| && Direct(k0.procs[i])
      ensures if k0.procs[i].pid in reaped then b.procs[i].status == Reaped else Direct(b.procs[i])
      ensures k0.procs[i].status == Zombie && k0.procs[i].pid !in exclude ==> k0.procs[i].pid in reaped
    {
      assert ProcEvolves(k0.procs[i], k1.procs[i]);
      assert Direct(k1.procs[i]);
    }
  }

  // ----- Who was notified -----

  /** Only direct children were ever signalled, and each got every signal at most once. */
  ghost predicate Disciplined(k: Kernel) {
    forall i :: 0 <= i < |k.procs| ==>
      AtMostOnce(k.procs[i].got) && (k.procs[i].got != [] ==> k.procs[i].parent == Supervisor)
  }

  /** The dictionary holds, for each unreaped child that was signalled, the last signal it got, and nothing else. */
  ghost predicate Tracks(k: Kernel, notified: map<nat, Signal>) {
    && (forall pid :: pid in notified ==> pid in DirectPids(k))
    && (forall i :: 0 <= i < |k.procs| && Unreaped(k.procs[i]) ==> Fits(k.procs[i], notified))
    && Disciplined(k)
  }

  /** A PID of the dictionary that survives a change still names the same incarnation. */
  lemma SameIncarnation(a: Kernel, b: Kernel, pid: nat, j: nat)
    requires Consistent(b) && Evolves(a, b) && pid in DirectPids(a)
    requires forall i :: 0 <= i < |a.procs| && Direct(a.procs[i]) && a.procs[i].pid == pid ==> Direct(b.procs[i])
    requires j < |b.procs| && Unreaped(b.procs[j]) && b.procs[j].pid == pid
    ensures j < |a.procs| && Direct(a.procs[j])
  {
    var i := ChildOf(a, pid);
    assert ProcEvolves(a.procs[i], b.procs[i]);
    assert i == j;
  }

  lemma DisciplineStays(a: Kernel, b: Kernel)
    requires Evolves(a, b) && Disciplined(a)
    requires forall i :: 0 <= i < |a.procs| ==> b.procs[i].got == a.procs[i].got
    requires forall i :: |a.procs| <= i < |b.procs| ==> b.procs[i].got == []
    ensures Disciplined(b)
  {
    forall i | 0 <= i < |a.procs| ensures b.procs[i].got != [] ==> b.procs[i].parent == Supervisor {
      assert ProcEvolves(a.procs[i], b.procs[i]);
    }
  }

  /** Reaping exactly some children and forgetting exactly their PIDs keeps the dictionary right. */
  lemma TracksAfterReaping(
      a: Kernel, b: Kernel, reaped: set<nat>, exclude: set<nat>, notified: map<nat, Signal>)
    requires Consistent(b) && ReapedExactly(a, b, reaped, exclude) && Tracks(a, notified)
    ensures Tracks(b, notified - reaped)
  {
    DisciplineStays(a, b);
    var rest := notified - reaped;
    forall pid | pid in rest ensures pid in DirectPids(b) {
      var i := ChildOf(a, pid);
      assert ProcEvolves(a.procs[i], b.procs[i]);
    }
    forall j | 0 <= j < |b.procs| && Unreaped(b.procs[j]) ensures Fits(b.procs[j], rest) {
      if j < |a.procs| {
        assert ProcEvolves(a.procs[j], b.procs[j]);
        assert Fits(a.procs[j], notified);
      }
      if b.procs[j].pid in rest {
        SameIncarnation(a, b, b.procs[j].pid, j);
      }
    }
  }

  /** The environment cannot make the dictionary wrong. */
  lemma TracksAfterEnv(a: Kernel, b: Kernel, notified: map<nat, Signal>)
    requires Consistent(b) && EnvEvolves(a, b) && Tracks(a, notified)
    ensures Tracks(b, notified)
  {
    TracksAfterReaping(a, b, {}, DirectPids(a), notified);
    assert notified - {} == notified;
  }

  ghost predicate Fits(p: Proc, notified: map<nat, Signal>) {
    if Direct(p) && p.pid in notified then p.got != [] && p.got[|p.got| - 1] == notified[p.pid] else p.got == []
  }

  /** The signalled child is the only process whose signals change. */
  lemma SignalledProc(a: Kernel, b: Kernel, child: nat, signal: Signal, j: nat)
    requires Consistent(a) && Consistent(b) && child < |a.procs| && Direct(a.procs[child])
    requires Signalled(a, b, a.procs[child].pid, signal)
    requires j < |b.procs|
    ensures j < |a.procs| ==>
      b.procs[j].got == if j == child then a.procs[j].got + [signal] else a.procs[j].got
    ensures Unreaped(b.procs[j]) && b.procs[j].pid == a.procs[child].pid ==> j == child
    ensures j < |a.procs| ==> ProcEvolves(a.procs[j], b.procs[j])
    ensures j >= |a.procs| ==> b.procs[j].got == []
    ensures Direct(b.procs[child])
  {
    assert ProcEvolves(a.procs[child], b.procs[child]);
  }

  lemma TrackedFits(k: Kernel, notified: map<nat, Signal>, j: nat)
    requires Tracks(k, notified) && j < |k.procs| && Unreaped(k.procs[j])
    ensures Fits(k.procs[j], notified)
  {
  }

  lemma NotifiedIsChild(k: Kernel, notified: map<nat, Signal>, pid: nat)
    requires Tracks(k, notified) && pid in notified
    ensures pid in DirectPids(k)
  {
  }

  /** A process that was not signalled fits as before: with its own PID, or as a child that keeps its incarnation. */
  lemma OthersFit(
      a: Kernel, b: Kernel, child: nat, signal: Signal, notified: map<nat, Signal>, j: nat)
    requires Consistent(a) && Consistent(b) && child < |a.procs| && Direct(a.procs[child])
    requires Signalled(a, b, a.procs[child].pid, signal) && Tracks(a, notified)
    requires j < |b.procs| && Unreaped(b.procs[j]) && j != child
    ensures b.procs[j].pid != a.procs[child].pid && Fits(b.procs[j], notified)
  {
    hide Consistent, Signalled, Tracks, DirectPids, Disciplined;
    SignalledProc(a, b, child, signal, j);
    if b.procs[j].pid in notified {
      NotifiedIsChild(a, notified, b.procs[j].pid);
      SignalKeepsChildren(a, b, a.procs[child].pid, signal);
      SameIncarnation(a, b, b.procs[j].pid, j);
    }
    if j < |a.procs| {
      if Unreaped(a.procs[j]) {
        TrackedFits(a, notified, j);
      }
    }
  }

  lemma FitsAfterSignal(
      a: Kernel, b: Kernel, child: nat, signal: Signal, notified: map<nat, Signal>, j: nat)
    requires Consistent(a) && Consistent(b) && child < |a.procs| && Direct(a.procs[child])
    requires Signalled(a, b, a.procs[child].pid, signal) && Tracks(a, notified)
    requires j < |b.procs| && Unreaped(b.procs[j])
    ensures Fits(b.procs[j], notified[a.procs[child].pid := signal])
  {
    hide Consistent, Signalled, Tracks;
    if j == child {
      SignalledProc(a, b, child, signal, j);
    } else {
      OthersFit(a, b, child, signal, notified, j);
    }
  }

  lemma DisciplineAfterSignal(
      a: Kernel, b: Kernel, child: nat, signal: Signal, notified: map<nat, Signal>)
    requires Consistent(a) && Consistent(b) && child < |a.procs| && Direct(a.procs[child])
    requires Signalled(a, b, a.procs[child].pid, signal) && Disciplined(a)
    requires Fits(a.procs[child], notified)
    requires a.procs[child].pid !in notified || (notified[a.procs[child].pid] == Term && signal == Kill)
    ensures Disciplined(b)
  {
    forall j | 0 <= j < |b.procs|
      ensures AtMostOnce(b.procs[j].got) && (b.procs[j].got != [] ==> b.procs[j].parent == Supervisor)
    {
      SignalledProc(a, b, child, signal, j);
    }
  }

  /** Recording a signal that the child has not had yet keeps the dictionary right. */
  lemma TracksAfterSignal(a: Kernel, b: Kernel, pid: nat, signal: Signal, notified: map<nat, Signal>)
    requires Consistent(a) && Consistent(b) && Signalled(a, b, pid, signal) && Tracks(a, notified)
    requires pid in DirectPids(a)
    requires pid !in notified || (notified[pid] == Term && signal == Kill)
    ensures Tracks(b, notified[pid := signal])
  {
    hide Consistent, Signalled, Fits, Disciplined;
    var child := ChildOf(a, pid);
    var next := notified[pid := signal];
    DisciplineAfterSignal(a, b, child, signal, notified);
    SignalKeepsChildren(a, b, pid, signal);
    forall p | p in next ensures p in DirectPids(b) {
      ChildrenKept(a, b, p);
    }
    forall j | 0 <= j < |b.procs| && Unreaped(b.procs[j]) ensures Fits(b.procs[j], next) {
      FitsAfterSignal(a, b, child, signal, notified, j);
    }
  }

  // ----- One round of signals -----

  /** Every owned PID was sent the requested signal, now or earlier. */
  ghost predicate AllNotified(owned: set<nat>, notified: map<nat, Signal>, requested: Signal) {
    forall pid :: pid in owned ==> pid in notified && notified[pid] == requested
  }

  ghost predicate KeepsChildren(a: Kernel, b: Kernel) {
    |a.procs| <= |b.procs| && forall i :: 0 <= i < |a.procs| && Direct(a.procs[i]) ==> Direct(b.procs[i])
  }

  lemma ChildrenKept(a: Kernel, b: Kernel, pid: nat)
    requires Evolves(a, b) && KeepsChildren(a, b) && pid in DirectPids(a)
    ensures pid in DirectPids(b)
  {
    var i := ChildOf(a, pid);
    assert ProcEvolves(a.procs[i], b.procs[i]);
  }

  /** Nobody was killed in between who was not killed before. */
  ghost predicate NoneKilled(a: Kernel, b: Kernel) {
    && |a.procs| <= |b.procs|
    && forall i :: 0 <= i < |b.procs| && Killed(b.procs[i]) ==> i < |a.procs| && Killed(a.procs[i])
  }

  lemma NoneKilledTransitive(a: Kernel, b: Kernel, c: Kernel)
    requires NoneKilled(a, b) && NoneKilled(b, c)
    ensures NoneKilled(a, c)
  {
  }

  lemma NoneKilledSelf(a: Kernel)
    ensures NoneKilled(a, a)
  {
  }

  lemma SignalKillsNone(a: Kernel, b: Kernel, pid: nat)
    requires Signalled(a, b, pid, Term)
    ensures NoneKilled(a, b)
  {
  }

  lemma EnvKillsNone(a: Kernel, b: Kernel)
    requires EnvEvolves(a, b)
    ensures NoneKilled(a, b)
  {
  }

  lemma ReapingKillsNone(a: Kernel, b: Kernel, reaped: set<nat>, exclude: set<nat>)
    requires ReapedExactly(a, b, reaped, exclude)
    ensures NoneKilled(a, b)
  {
  }

  method NotifyOwned(s: System, owned: set<nat>, requested: Signal, before: map<nat, Signal>)
    returns (notified: map<nat, Signal>)
    requires Consistent(s.k) && Tracks(s.k, before) && owned <= DirectPids(s.k)
    requires requested == Term ==> forall pid :: pid in before ==> before[pid] == Term
    modifies s`k, s`tick
    ensures Consistent(s.k) && Tracks(s.k, notified)
    ensures Evolves(old(s.k), s.k) && KeepsChildren(old(s.k), s.k)
    ensures AllNotified(owned, notified, requested)
    ensures requested == Term ==>
      NoneKilled(old(s.k), s.k) && forall pid :: pid in notified ==> notified[pid] == Term
  {
    hide Consistent, Tracks, Signalled, ProcEvolves, DirectPids, NoneKilled;
    ghost var k0 := s.k;
    notified := before;
    EvolvesSelf(k0);
    assert NoneKilled(k0, k0) by {
      NoneKilledSelf(k0);
    }
    var left := owned;
    while left != {}
      invariant left <= owned && Consistent(s.k) && Tracks(s.k, notified)
      invariant Evolves(k0, s.k) && KeepsChildren(k0, s.k)
      invariant AllNotified(owned - left, notified, requested)
      invariant requested == Term ==>
        NoneKilled(k0, s.k) && forall pid :: pid in notified ==> notified[pid] == Term
    {
      var pid :| pid in left;
      if !(pid in notified && notified[pid] == requested) {
        ghost var a := s.k;
        ChildrenKept(k0, a, pid);
        s.SendSignal(pid, requested);
        SignalKeepsChildren(a, s.k, pid, requested);
        EvolvesTransitive(k0, a, s.k);
        if requested == Term {
          SignalKillsNone(a, s.k, pid);
          NoneKilledTransitive(k0, a, s.k);
        }
        TracksAfterSignal(a, s.k, pid, requested, notified);
        notified := notified[pid := requested];
      }
      left := left - {pid};
    }
    assert owned - left == owned;
  }

  lemma EvolvesSelf(k: Kernel)
    ensures Evolves(k, k) && KeepsChildren(k, k)
  {
  }

  lemma SignalKeepsChildren(a: Kernel, b: Kernel, pid: nat, signal: Signal)
    requires Signalled(a, b, pid, signal)
    ensures Evolves(a, b) && KeepsChildren(a, b)
  {
  }

  // ----- Termination of the reap loop -----

  /** What one round does, from its start a through its listing l and its signals m to the end b of its pause. */
  ghost predicate Round(a: Kernel, l: Kernel, m: Kernel, b: Kernel) {
    && Evolves(a, l) && Evolves(l, m) && Evolves(m, b)
    && (forall i :: 0 <= i < |m.procs| && Dying(m.procs[i]) ==> Weight(b.procs[i]) < Weight(m.procs[i]))
  }

  /** A killed process is lighter than it was while unkilled, and a dead one lighter than while alive. */
  lemma Lighter(p: Proc, q: Proc)
    requires ProcEvolves(p, q) && Unreaped(q) && q.parent != Outside && Killed(q)
    ensures !Killed(p) || (p.status == Live && q.status == Zombie) ==> Weight(q) < Weight(p)
  {
  }

  /**
   A round that finds a child and ends with every listed child killed makes progress: the fork budget shrinks, or the
   child was killed in this round, or it died in this round, or it comes closer to its exit in the pause.
   */
  lemma RoundProgress(a: Kernel, l: Kernel, m: Kernel, b: Kernel, i: nat)
    requires Round(a, l, m, b)
    requires i < |l.procs| && Direct(l.procs[i]) && Direct(m.procs[i]) && Killed(m.procs[i])
    // A child that was killed and already dead when the round began was reaped before the listing.
    requires i < |a.procs| && Killed(a.procs[i]) ==> a.procs[i].status != Zombie
    ensures Progress(a, b)
  {
    EvolvesTransitive(a, l, m);
    EvolvesTransitive(a, m, b);
    if i < |a.procs| {
      assert ProcEvolves(a.procs[i], m.procs[i]) && ProcEvolves(m.procs[i], b.procs[i]);
      Lighter(a.procs[i], m.procs[i]);
      assert Weight(b.procs[i]) < Weight(a.procs[i]);
      EvolvedProgress(a, b, i);
    } else {
      assert Weight(l.procs[i]) > 0;
    }
  }

  /** A tracked, killed child that is dead when the round begins is reaped, so it is not listed. */
  lemma ListedWasNotDead(
      a: Kernel, r: Kernel, l: Kernel, reaped: set<nat>, notified: map<nat, Signal>, i: nat)
    requires Tracks(a, notified) && ReapedExactly(a, r, reaped, {}) && EnvEvolves(r, l)
    requires i < |a.procs| && i < |l.procs| && Direct(l.procs[i]) && Killed(a.procs[i])
    ensures a.procs[i].status != Zombie
  {
    assert ProcEvolves(a.procs[i], r.procs[i]) && ProcEvolves(r.procs[i], l.procs[i]);
    assert Fits(a.procs[i], notified);
  }

  lemma LastIsKilled(k: Kernel, notified: map<nat, Signal>, i: nat)
    requires Tracks(k, notified) && i < |k.procs| && Direct(k.procs[i])
    requires k.procs[i].pid in notified && notified[k.procs[i].pid] == Kill
    ensures Killed(k.procs[i])
  {
    assert Fits(k.procs[i], notified);
  }

  /** Every process that descends from the supervisor is gone. */
  ghost predicate NothingOwned(k: Kernel) {
    forall i :: 0 <= i < |k.procs| ==> k.procs[i].status == Reaped || k.procs[i].parent == Outside
  }

  lemma EmptyListing(k: Kernel)
    requires Consistent(k) && DirectPids(k) == {}
    ensures NothingOwned(k)
  {
    assert forall j :: 0 <= j < |k.procs| && Direct(k.procs[j]) ==> k.procs[j].pid in DirectPids(k);
    forall i | 0 <= i < |k.procs| ensures k.procs[i].status == Reaped || k.procs[i].parent == Outside {
      NoChildrenNoDescendants(k, i);
    }
  }

  function Remaining(k: Kernel, deadline: nat): nat {
    if k.now < deadline then deadline - k.now else 0
  }

  /** One round of the reap loop; done when no child is left. */
  method ReapRound(s: System, deadline: nat, before: map<nat, Signal>)
    returns (notified: map<nat, Signal>, done: bool)
    requires Consistent(s.k) && Tracks(s.k, before)
    requires s.k.now < deadline ==> forall pid :: pid in before ==> before[pid] == Term
    modifies s`k, s`tick
    ensures Consistent(s.k) && Tracks(s.k, notified)
    ensures s.k.now < deadline ==>
      NoneKilled(old(s.k), s.k) && forall pid :: pid in notified ==> notified[pid] == Term
    ensures Evolves(old(s.k), s.k)
    ensures done ==> NothingOwned(s.k)
    ensures !done && old(s.k.now) < deadline ==> Remaining(s.k, deadline) < old(Remaining(s.k, deadline))
    ensures !done && old(s.k.now) >= deadline ==> s.k.now >= deadline && Progress(old(s.k), s.k)
  {
    hide Consistent, Tracks, ReapedExactly, ProcEvolves, DirectPids, Progress, Dying, Weight, NothingOwned, NoneKilled;
    ghost var a := s.k;
    var reaped := ReapFinished(s, {});
    ghost var r := s.k;
    ReapedEvolves(a, r, reaped, {});
    TracksAfterReaping(a, r, reaped, {}, before);
    notified := before - reaped;
    var owned := s.Children();
    ghost var l := s.k;
    TracksAfterEnv(r, l, notified);
    EvolvesTransitive(a, r, l);
    ReapingKillsNone(a, r, reaped, {});
    EnvKillsNone(r, l);
    NoneKilledTransitive(a, r, l);
    if owned == {} {
      EmptyListing(l);
      return notified, true;
    }
    var now := s.Monotonic();
    ghost var t := s.k;
    TracksAfterEnv(l, t, notified);
    EnvKeepsChildren(l, t);
    var requested := if now < deadline then Term else Kill;
    notified := NotifyOwned(s, owned, requested, notified);
    ghost var m := s.k;
    EvolvesTransitive(l, t, m);
    s.Sleep();
    TracksAfterEnv(m, s.k, notified);
    EvolvesTransitive(a, l, m);
    EvolvesTransitive(a, m, s.k);
    EnvKillsNone(l, t);
    EnvKillsNone(m, s.k);
    if requested == Term {
      NoneKilledTransitive(a, l, t);
      NoneKilledTransitive(a, t, m);
      NoneKilledTransitive(a, m, s.k);
    }
    if a.now >= deadline {
      var pid :| pid in owned;
      var i := ChildOf(l, pid);
      RoundOfChild(a, r, l, t, m, s.k, reaped, before, notified, i);
    }
    done := false;
  }

  lemma ReapedEvolves(a: Kernel, b: Kernel, reaped: set<nat>, exclude: set<nat>)
    requires ReapedExactly(a, b, reaped, exclude)
    ensures Evolves(a, b)
  {
  }

  lemma EnvKeepsChildren(a: Kernel, b: Kernel)
    requires EnvEvolves(a, b)
    ensures KeepsChildren(a, b) && DirectPids(a) <= DirectPids(b)
  {
    forall pid | pid in DirectPids(a) ensures pid in DirectPids(b) {
      ChildrenKept(a, b, pid);
    }
  }

  /** The steps of a killing round, put together for one listed child. */
  lemma RoundOfChild(
      a: Kernel, r: Kernel, l: Kernel, t: Kernel, m: Kernel, b: Kernel,
      reaped: set<nat>, before: map<nat, Signal>, notified: map<nat, Signal>, i: nat)
    requires Tracks(a, before) && ReapedExactly(a, r, reaped, {}) && EnvEvolves(r, l) && EnvEvolves(l, t)
    requires Evolves(t, m) && KeepsChildren(t, m) && Tracks(m, notified) && EnvEvolves(m, b)
    requires forall j :: 0 <= j < |m.procs| && Dying(m.procs[j]) ==> Weight(b.procs[j]) < Weight(m.procs[j])
    requires i < |l.procs| && Direct(l.procs[i])
    requires l.procs[i].pid in notified && notified[l.procs[i].pid] == Kill
    ensures Progress(a, b)
  {
    hide Tracks, Weight, Progress, Dying, Killed;
    EvolvesTransitive(a, r, l);
    EvolvesTransitive(l, t, m);
    assert Direct(t.procs[i]) && Direct(m.procs[i]);
    assert ProcEvolves(l.procs[i], m.procs[i]);
    LastIsKilled(m, notified, i);
    if i < |a.procs| && Killed(a.procs[i]) {
      ListedWasNotDead(a, r, l, reaped, before, i);
    }
    RoundProgress(a, l, m, b, i);
  }

  /**
   Reaps until nothing that descends from the supervisor is left, whatever forks, exits and reparenting happen
   meanwhile, and terminates when forks are finite and killed processes exit. A cleanup that ends within the shutdown
   time has killed nobody.
   */
  method ReapDescendants(s: System, shutdownTimeout: nat)
    requires Consistent(s.k) && Tracks(s.k, map[])
    modifies s`k, s`tick
    ensures Consistent(s.k) && NothingOwned(s.k) && Disciplined(s.k) && Evolves(old(s.k), s.k)
    ensures s.k.now < old(s.k.now) + shutdownTimeout ==> NoneKilled(old(s.k), s.k)
  {
    hide Consistent, NothingOwned, Progress, NoneKilled, ProcEvolves;
    ghost var k0 := s.k;
    var now := s.Monotonic();
    TracksAfterEnv(k0, s.k, map[]);
    EnvKillsNone(k0, s.k);
    var deadline := now + shutdownTimeout;
    var notified: map<nat, Signal> := map[];
    var done := false;
    while !done
      invariant Consistent(s.k) && Tracks(s.k, notified)
      invariant k0.now + shutdownTimeout <= deadline && Evolves(k0, s.k)
      invariant s.k.now < deadline ==>
        NoneKilled(k0, s.k) && forall pid :: pid in notified ==> notified[pid] == Term
      invariant done ==> NothingOwned(s.k)
      decreases !done, Remaining(s.k, deadline), s.k.forks, Total(s.k.procs)
    {
      ghost var before := s.k;
      notified, done := ReapRound(s, deadline, notified);
      ProgressDecreases(before, s.k);
      EvolvesTransitive(k0, before, s.k);
      if s.k.now < deadline {
        NoneKilledTransitive(k0, before, s.k);
      }
    }
  }

  lemma ProgressDecreases(a: Kernel, b: Kernel)
    ensures Progress(a, b) <==> b.forks < a.forks || (b.forks == a.forks && Total(b.procs) < Total(a.procs))
  {
  }

  // ----- supervise -----

  const NONE: map<nat, Signal> := map[]

  datatype WaitResult = Exited(code: int) | TimedOut | Cancelled

  /** A poll reaps exactly the child it reports as gone. */
  lemma WaitReaps(a: Kernel, b: Kernel, pid: nat, gone: bool)
    requires Waited(a, b, pid, gone)
    ensures var reaped := if gone then {pid} else {}; ReapedExactly(a, b, reaped, DirectPids(a) - reaped)
  {
  }

  lemma TracksAfterWait(a: Kernel, b: Kernel, pid: nat, gone: bool, notified: map<nat, Signal>)
    requires Consistent(b) && Waited(a, b, pid, gone) && Tracks(a, notified)
    ensures Tracks(b, if gone then notified - {pid} else notified)
  {
    hide Consistent, Waited, Tracks, ReapedExactly, DirectPids;
    WaitReaps(a, b, pid, gone);
    var reaped := if gone then {pid} else {};
    TracksAfterReaping(a, b, reaped, DirectPids(a) - reaped, notified);
    assert notified - {} == notified;
  }

  lemma WaitKeeps(a: Kernel, b: Kernel, pid: nat)
    requires Waited(a, b, pid, false)
    ensures Evolves(a, b) && KeepsChildren(a, b)
  {
  }

  lemma ExcludedIsKept(a: Kernel, b: Kernel, reaped: set<nat>, exclude: set<nat>, pid: nat)
    requires ReapedExactly(a, b, reaped, exclude) && pid in exclude && pid in DirectPids(a)
    ensures pid in DirectPids(b)
  {
    var i := ChildOf(a, pid);
    assert ProcEvolves(a.procs[i], b.procs[i]);
  }

  /** The child that the PID named before is dead and reaped. */
  ghost predicate Gone(a: Kernel, b: Kernel, pid: nat) {
    && |a.procs| <= |b.procs|
    && forall i :: 0 <= i < |a.procs| && Direct(a.procs[i]) && a.procs[i].pid == pid ==> b.procs[i].status == Reaped
  }

  lemma PollTells(a: Kernel, b: Kernel, c: Kernel, pid: nat, code: int)
    requires KeepsChild(a, b, pid) && EndedWith(b, c, pid, code)
    ensures EndedWith(a, c, pid, code)
  {
  }

  lemma ReapedStays(a: Kernel, b: Kernel, i: nat)
    requires Evolves(a, b) && i < |a.procs| && a.procs[i].status == Reaped
    ensures i < |b.procs| && b.procs[i].status == Reaped && b.procs[i].code == a.procs[i].code
  {
    assert ProcEvolves(a.procs[i], b.procs[i]);
  }

  /** The child that the PID named before is still there. */
  ghost predicate KeepsChild(a: Kernel, b: Kernel, pid: nat) {
    && |a.procs| <= |b.procs|
    && forall i :: 0 <= i < |a.procs| && Direct(a.procs[i]) && a.procs[i].pid == pid ==>
         Direct(b.procs[i]) && b.procs[i].pid == pid
  }

  lemma KeepsChildSelf(a: Kernel, pid: nat)
    ensures KeepsChild(a, a, pid)
  {
  }

  lemma WaitKeepsChild(a: Kernel, b: Kernel, pid: nat)
    requires Waited(a, b, pid, false)
    ensures KeepsChild(a, b, pid)
  {
    forall i | 0 <= i < |a.procs| && Direct(a.procs[i]) && a.procs[i].pid == pid
      ensures Direct(b.procs[i]) && b.procs[i].pid == pid
    {
      assert ProcEvolves(a.procs[i], b.procs[i]);
    }
  }

  lemma KeepsChildTransitive(a: Kernel, b: Kernel, c: Kernel, pid: nat)
    requires KeepsChild(a, b, pid) && KeepsChild(b, c, pid)
    ensures KeepsChild(a, c, pid)
  {
  }

  lemma EnvKeepsChild(a: Kernel, b: Kernel, pid: nat)
    requires EnvEvolves(a, b)
    ensures KeepsChild(a, b, pid)
  {
    forall i | 0 <= i < |a.procs| && Direct(a.procs[i]) ensures b.procs[i].pid == a.procs[i].pid {
      assert ProcEvolves(a.procs[i], b.procs[i]);
    }
  }

  /** A poll that finds nothing, and reaping that excludes the child, leave it where it is. */
  lemma RoundKeepsChild(a: Kernel, b: Kernel, c: Kernel, pid: nat, reaped: set<nat>)
    requires Waited(a, b, pid, false) && ReapedExactly(b, c, reaped, {pid})
    ensures KeepsChild(a, c, pid)
  {
    forall i | 0 <= i < |a.procs| && Direct(a.procs[i]) && a.procs[i].pid == pid
      ensures Direct(c.procs[i]) && c.procs[i].pid == pid
    {
      assert ProcEvolves(a.procs[i], b.procs[i]) && ProcEvolves(b.procs[i], c.procs[i]);
    }
  }

  lemma PollReaps(a: Kernel, b: Kernel, c: Kernel, pid: nat)
    requires KeepsChild(a, b, pid) && Waited(b, c, pid, true)
    ensures Gone(a, c, pid)
  {
  }

  /**
   Waits for the command and reaps adopted processes meanwhile. The command itself is only reaped by the poll that
   returns its result, so its exit status is never lost to the reaping.
   */
  method WaitCommand(s: System, pid: nat, timeout: nat, cancellable: bool) returns (r: WaitResult)
    requires Consistent(s.k) && Tracks(s.k, NONE) && pid in DirectPids(s.k)
    modifies s`k, s`tick
    ensures Consistent(s.k) && Tracks(s.k, NONE)
    ensures !r.Exited? ==> pid in DirectPids(s.k) && KeepsChild(old(s.k), s.k, pid)
    ensures r.Exited? ==> Gone(old(s.k), s.k, pid) && EndedWith(old(s.k), s.k, pid, r.code)
    ensures r == TimedOut ==> s.k.now >= old(s.k.now) + timeout
    ensures r == Cancelled ==> cancellable
  {
    hide Consistent, Tracks, ProcEvolves, DirectPids, EnvEvolves, Waited, ReapedExactly, KeepsChild, Gone, EndedWith;
    ghost var a := s.k;
    var now := s.Monotonic();
    TracksAfterEnv(a, s.k, NONE);
    EnvKeepsChildren(a, s.k);
    EnvKeepsChild(a, s.k, pid);
    var deadline := now + timeout;
    EvolvesSelf(a);
    Later(a, a, a, s.k);
    while true
      invariant Consistent(s.k) && Tracks(s.k, NONE) && pid in DirectPids(s.k)
      invariant KeepsChild(a, s.k, pid) && a.now + timeout <= deadline
      decreases Remaining(s.k, deadline)
    {
      ghost var k0 := s.k;
      var gone, code := s.WaitPid(pid);
      TracksAfterWait(k0, s.k, pid, gone, NONE);
      assert NONE - {pid} == NONE;
      if gone {
        PollReaps(a, k0, s.k, pid);
        PollTells(a, k0, s.k, pid, code);
        return Exited(code);
      }
      WaitKeeps(k0, s.k, pid);
      ChildrenKept(k0, s.k, pid);
      ghost var k1 := s.k;
      var reaped := ReapFinished(s, {pid});
      TracksAfterReaping(k1, s.k, reaped, {pid}, NONE);
      assert NONE - reaped == NONE;
      ExcludedIsKept(k1, s.k, reaped, {pid}, pid);
      RoundKeepsChild(k0, k1, s.k, pid, reaped);
      KeepsChildTransitive(a, k0, s.k, pid);
      ReapedEvolves(k1, s.k, reaped, {pid});
      ghost var k2 := s.k;
      now := s.Monotonic();
      TracksAfterEnv(k2, s.k, NONE);
      EnvKeepsChildren(k2, s.k);
      EnvKeepsChild(k2, s.k, pid);
      KeepsChildTransitive(a, k2, s.k, pid);
      if now >= deadline {
        return TimedOut;
      }
      if cancellable && s.cancelled(s.tick) {
        return Cancelled;
      }
      ghost var k3 := s.k;
      s.Sleep();
      TracksAfterEnv(k3, s.k, NONE);
      EnvKeepsChildren(k3, s.k);
      Later(k0, k1, k2, k3);
      EnvKeepsChild(k3, s.k, pid);
      KeepsChildTransitive(a, k3, s.k, pid);
    }
  }

  lemma Later(a: Kernel, b: Kernel, c: Kernel, d: Kernel)
    requires Evolves(a, b) && Evolves(b, c) && EnvEvolves(c, d)
    ensures a.now <= d.now
  {
  }

  /** process.wait() after process.kill(): returns once the killed command is dead and reaped. */
  method WaitForKilled(s: System, pid: nat)
    requires Consistent(s.k) && Tracks(s.k, map[pid := Kill])
    modifies s`k, s`tick
    ensures Consistent(s.k) && Tracks(s.k, NONE) && Gone(old(s.k), s.k, pid)
  {
    hide Consistent, Tracks, DirectPids, Waited, KeepsChild, Gone, EndedWith;
    ghost var k0 := s.k;
    ghost var i := TrackedChild(s.k, pid);
    KeepsChildSelf(k0, pid);
    while true
      invariant Consistent(s.k) && Tracks(s.k, map[pid := Kill]) && KeepsChild(k0, s.k, pid)
      invariant i < |s.k.procs| && Direct(s.k.procs[i]) && s.k.procs[i].pid == pid && Killed(s.k.procs[i])
      decreases Weight(s.k.procs[i])
    {
      ghost var a := s.k;
      InDirectPids(a, i);
      var gone, code := s.WaitPid(pid);
      ghost var b := s.k;
      TracksAfterWait(a, b, pid, gone, map[pid := Kill]);
      assert map[pid := Kill] - {pid} == NONE;
      if gone {
        PollReaps(k0, a, b, pid);
        return;
      }
      WaitKeepsChild(a, b, pid);
      KeepsChildTransitive(k0, a, b, pid);
      WaitKeeps(a, b, pid);
      WaitedAlive(a, b, pid, i);
      assert ProcEvolves(a.procs[i], b.procs[i]);
      s.Sleep();
      TracksAfterEnv(b, s.k, map[pid := Kill]);
      EnvKeepsChild(b, s.k, pid);
      KeepsChildTransitive(k0, b, s.k, pid);
      assert ProcEvolves(b.procs[i], s.k.procs[i]);
      assert b.procs[i].status != Live ==> Weight(b.procs[i]) < Weight(a.procs[i]) by {
        Lighter(a.procs[i], b.procs[i]);
      }
      assert Dying(b.procs[i]) || b.procs[i].status == Zombie;
    }
  }

  lemma TrackedChild(k: Kernel, pid: nat) returns (i: nat)
    requires Tracks(k, map[pid := Kill])
    ensures i < |k.procs| && Direct(k.procs[i]) && k.procs[i].pid == pid && Killed(k.procs[i])
  {
    i := ChildOf(k, pid);
    LastIsKilled(k, map[pid := Kill], i);
  }

  lemma InDirectPids(k: Kernel, i: nat)
    requires i < |k.procs| && Direct(k.procs[i])
    ensures k.procs[i].pid in DirectPids(k)
  {
  }

  lemma WaitedAlive(a: Kernel, b: Kernel, pid: nat, i: nat)
    requires Waited(a, b, pid, false) && i < |a.procs| && Direct(a.procs[i]) && a.procs[i].pid == pid
    ensures a.procs[i].status == Live && Direct(b.procs[i]) && b.procs[i].got == a.procs[i].got
  {
  }

  lemma SpawnIsUntold(a: Kernel, b: Kernel)
    requires Consistent(b) && Tracks(a, NONE) && |a.procs| < |b.procs|
    requires forall i :: 0 <= i < |a.procs| ==>
      b.procs[i].got == a.procs[i].got && ProcEvolves(a.procs[i], b.procs[i])
    requires forall i :: |a.procs| <= i < |b.procs| ==> b.procs[i].got == []
    ensures Tracks(b, NONE)
  {
    forall i | 0 <= i < |a.procs|
      ensures Unreaped(b.procs[i]) ==> Fits(b.procs[i], NONE)
      ensures b.procs[i].got != [] ==> b.procs[i].parent == Supervisor
    {
      assert ProcEvolves(a.procs[i], b.procs[i]);
      assert Unreaped(a.procs[i]) ==> Fits(a.procs[i], NONE);
    }
  }

  /** The exit status that the supervisor reports. */
  function StatusOf(result: WaitResult): int {
    match result
    case Exited(code) => if code >= 0 then code else 128 - code
    case TimedOut => 124
    case Cancelled => 130
  }

  /** A command that has not ended when its wait does is asked to unwind, given the shutdown time, and then killed. */
  method Unwind(s: System, pid: nat, shutdownTimeout: nat, ghost command: nat)
    requires Consistent(s.k) && Tracks(s.k, NONE) && pid in DirectPids(s.k)
    requires command < |s.k.procs| && Direct(s.k.procs[command]) && s.k.procs[command].pid == pid
    modifies s
    ensures Consistent(s.k) && Tracks(s.k, NONE)
    ensures command < |s.k.procs| && s.k.procs[command].status == Reaped
    ensures s.interrupted == old(s.interrupted) || s.interrupted == old(s.interrupted) + [command]
  {
    hide Consistent, Tracks, Signalled, ProcEvolves, DirectPids, Waited;
    ghost var k0 := s.k;
    var gone, code := s.WaitPid(pid);
    ghost var k1 := s.k;
    TracksAfterWait(k0, k1, pid, gone, NONE);
    assert NONE - {pid} == NONE;
    if gone {
      KeepsChildSelf(k0, pid);
      PollReaps(k0, k0, k1, pid);
      return;
    }
    WaitKeeps(k0, k1, pid);
    WaitKeepsChild(k0, k1, pid);
    ChildrenKept(k0, k1, pid);
    s.SendInterrupt(pid);
    ghost var k2 := s.k;
    TracksAfterEnv(k1, k2, NONE);
    EnvKeepsChildren(k1, k2);
    EnvKeepsChild(k1, k2, pid);
    var unwound := WaitCommand(s, pid, shutdownTimeout, false);
    if !unwound.Exited? {
      ghost var k3 := s.k;
      s.SendSignal(pid, Kill);
      ghost var k4 := s.k;
      TracksAfterSignal(k3, k4, pid, Kill, NONE);
      SignalKeepsChild(k3, k4, pid, Kill);
      WaitForKilled(s, pid);
    }
  }

  lemma SignalKeepsChild(a: Kernel, b: Kernel, pid: nat, signal: Signal)
    requires Signalled(a, b, pid, signal)
    ensures KeepsChild(a, b, pid)
  {
    forall i | 0 <= i < |a.procs| && Direct(a.procs[i]) ensures b.procs[i].pid == a.procs[i].pid {
      assert ProcEvolves(a.procs[i], b.procs[i]);
    }
  }

  /**
   The whole supervisor: whatever the command and its descendants do, and however the wait ends, nothing owned is left
   when it returns, and no process got a cleanup signal twice or without being a child of the supervisor. The status is
   the command's own end if it ended in time, and tells a timeout from a cancellation otherwise; only the command was
   asked to unwind, at most once, and never when it had ended in time.
   */
  method Supervise(s: System, wanted: nat, patience: nat, timeout: nat, shutdownTimeout: nat)
    returns (status: int, result: WaitResult, ghost command: nat)
    requires Consistent(s.k) && Tracks(s.k, NONE)
    modifies s
    ensures Consistent(s.k) && NothingOwned(s.k) && Disciplined(s.k)
    ensures |old(s.k.procs)| <= command < |s.k.procs| && s.k.procs[command].status == Reaped
    ensures status == StatusOf(result) && (result.Exited? ==> s.k.procs[command].code == result.code)
    ensures s.interrupted == old(s.interrupted) ||
            (!result.Exited? && s.interrupted == old(s.interrupted) + [command])
  {
    hide Consistent, Tracks, NothingOwned, Disciplined, ProcEvolves, DirectPids;
    ghost var k0 := s.k;
    var pid;
    pid, command := s.Spawn(wanted, patience);
    SpawnIsUntold(k0, s.k);
    result := WaitCommand(s, pid, timeout, true);
    if !result.Exited? {
      Unwind(s, pid, shutdownTimeout, command);
    }
    ghost var ended := s.k;
    ReapDescendants(s, shutdownTimeout);
    ReapedStays(ended, s.k, command);
    status := StatusOf(result);
  }
}
