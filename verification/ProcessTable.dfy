/**
 The kernel's side of a supervised upgrade command: a process table in which processes fork, exit, are reparented to
 the nearest subreaper above them, are reaped, and reuse process IDs. The supervisor is a subreaper, and any process
 below it may become one too.

 A process incarnation is an index of the table; its PID may be given to a later incarnation once it is reaped.
 */
module ProcessTable {
  datatype Signal = Term | Kill

  datatype Status = Live | Zombie | Reaped

  /** Whose child a process is. Outside processes do not descend from the supervisor. */
  datatype Parent = Supervisor | Child(incarnation: nat) | Outside

  /**
   got: the signals that cleanup sent, in order. patience: how many rounds it survives SIGKILL. code: once it is no
   longer live, how it ended; negative for a signal. subreaper: it takes the orphans below it.
   */
  datatype Proc = Proc(
    pid: nat, parent: Parent, status: Status, got: seq<Signal>, patience: nat, code: int, subreaper: bool)

  /** A process as it starts; the subreaper property is not inherited. */
  function Fresh(pid: nat, parent: Parent, patience: nat): Proc {
    Proc(pid, parent, Live, [], patience, 0, false)
  }

  const KILLED := -9

  /** forks: how many processes the owned ones will still fork. */
  datatype Kernel = Kernel(procs: seq<Proc>, forks: nat, now: nat)

  /** What the environment may do between two system calls of the supervisor; an impossible event does nothing. */
  datatype Event =
    | Fork(parent: nat, pid: nat, patience: nat)
    | Exit(incarnation: nat, code: int)
    | Subreap(incarnation: nat, on: bool)
    | ReapedByParent(incarnation: nat)
    | StartOutside(pid: nat)
    | Advance(time: nat)

  predicate Unreaped(p: Proc) {
    p.status != Reaped
  }

  /** An unreaped direct child of the supervisor. */
  predicate Direct(p: Proc) {
    Unreaped(p) && p.parent == Supervisor
  }

  predicate Unused(k: Kernel, pid: nat) {
    forall i :: 0 <= i < |k.procs| && Unreaped(k.procs[i]) ==> k.procs[i].pid != pid
  }

  /** Who takes the children of a process that exits: the nearest subreaper above it, at last the supervisor. */
  function Heir(procs: seq<Proc>, i: nat): Parent
    requires i < |procs|
  {
    match procs[i].parent
    case Child(above) =>
      if above >= i then Supervisor else if procs[above].subreaper then Child(above) else Heir(procs, above)
    case parent => parent
  }

  function AfterExit(procs: seq<Proc>, i: nat, code: int): seq<Proc>
    requires i < |procs|
  {
    seq(|procs|, j requires 0 <= j < |procs| =>
      if j == i then procs[j].(status := Zombie, code := code)
      else if Unreaped(procs[j]) && procs[j].parent == Child(i) then procs[j].(parent := Heir(procs, i))
      else procs[j])
  }

  function Apply(k: Kernel, e: Event): Kernel {
    match e
    case Fork(parent, pid, patience) =>
      if !(parent < |k.procs| && k.procs[parent].status == Live && Unused(k, pid)) then k
      else if k.procs[parent].parent == Outside then
        k.(procs := k.procs + [Fresh(pid, Outside, patience)])
      else if k.forks == 0 then k
      else k.(procs := k.procs + [Fresh(pid, Child(parent), patience)], forks := k.forks - 1)
    case Exit(i, code) =>
      if i < |k.procs| && k.procs[i].status == Live then k.(procs := AfterExit(k.procs, i, code)) else k
    case Subreap(i, on) =>
      if i < |k.procs| && k.procs[i].status == Live
      then k.(procs := k.procs[i := k.procs[i].(subreaper := on)]) else k
    case ReapedByParent(i) =>
      if i < |k.procs| && k.procs[i].status == Zombie && k.procs[i].parent != Supervisor
      then k.(procs := k.procs[i := k.procs[i].(status := Reaped)]) else k
    case StartOutside(pid) =>
      if Unused(k, pid) then k.(procs := k.procs + [Fresh(pid, Outside, 0)]) else k
    case Advance(time) => k.(now := k.now + time)
  }

  function ApplyAll(k: Kernel, es: seq<Event>): Kernel
    decreases |es|
  {
    if es == [] then k else ApplyAll(Apply(k, es[0]), es[1..])
  }

  // ----- The invariant of the table -----

  /** A parent that process i can have: outside, the supervisor, or an older live owned process. */
  predicate CanParent(procs: seq<Proc>, parent: Parent, i: nat) {
    parent.Child? ==>
      parent.incarnation < i && parent.incarnation < |procs| &&
      procs[parent.incarnation].status == Live && procs[parent.incarnation].parent != Outside
  }

  /** PIDs are unique while unreaped, and every owned process hangs on the supervisor or on a live older process. */
  ghost predicate Consistent(k: Kernel) {
    && (forall i, j :: 0 <= i < j < |k.procs| && Unreaped(k.procs[i]) && Unreaped(k.procs[j]) ==>
          k.procs[i].pid != k.procs[j].pid)
    && forall i :: 0 <= i < |k.procs| && Unreaped(k.procs[i]) ==> CanParent(k.procs, k.procs[i].parent, i)
  }

  /** Without direct children there are no descendants at all, live or zombie. */
  lemma NoChildrenNoDescendants(k: Kernel, i: nat)
    requires Consistent(k) && i < |k.procs|
    requires forall j :: 0 <= j < |k.procs| ==> !Direct(k.procs[j])
    ensures k.procs[i].status == Reaped || k.procs[i].parent == Outside
  {
    if Unreaped(k.procs[i]) && k.procs[i].parent.Child? {
      NoChildrenNoDescendants(k, k.procs[i].parent.incarnation);
    }
  }

  // ----- Weight: what still has to happen to a process before it is gone -----

  predicate Killed(p: Proc) {
    Kill in p.got
  }

  function Weight(p: Proc): nat {
    if p.status == Reaped || p.parent == Outside then 0
    else 1 + (if Killed(p) then 0 else 1) + if p.status == Live then 1 + p.patience else 0
  }

  function Total(procs: seq<Proc>): nat {
    if procs == [] then 0 else Total(procs[..|procs| - 1]) + Weight(procs[|procs| - 1])
  }

  /** How far a process is in its life. */
  function Age(p: Proc): nat {
    match p.status case Live => 0 case Zombie => 1 case Reaped => 2
  }

  /** The later state of the same incarnation. */
  ghost predicate ProcEvolves(a: Proc, b: Proc) {
    && b.pid == a.pid && Weight(b) <= Weight(a) && Age(a) <= Age(b) && a.got <= b.got && b.patience <= a.patience
    && (a.parent == Supervisor ==> b.parent == Supervisor)
    && (a.parent == Outside <==> b.parent == Outside)
    && (a.status != Live ==> b.code == a.code)
  }

  ghost predicate Evolves(a: Kernel, b: Kernel) {
    && |a.procs| <= |b.procs| && a.now <= b.now && b.forks <= a.forks
    && (forall i :: 0 <= i < |a.procs| ==> ProcEvolves(a.procs[i], b.procs[i]))
    && (b.forks == a.forks ==> forall i :: |a.procs| <= i < |b.procs| ==> Weight(b.procs[i]) == 0)
  }

  /** What the environment alone can do: it neither signals for the supervisor nor reaps the supervisor's children. */
  ghost predicate EnvEvolves(a: Kernel, b: Kernel) {
    && Evolves(a, b)
    && (forall i :: 0 <= i < |a.procs| ==> b.procs[i].got == a.procs[i].got)
    && (forall i :: 0 <= i < |a.procs| && Direct(a.procs[i]) ==> Direct(b.procs[i]))
    && (forall i :: |a.procs| <= i < |b.procs| ==> b.procs[i].got == [])
  }

  lemma EvolvesTransitive(a: Kernel, b: Kernel, c: Kernel)
    requires Evolves(a, b) && Evolves(b, c)
    ensures Evolves(a, c)
  {
    forall i | 0 <= i < |a.procs| ensures ProcEvolves(a.procs[i], c.procs[i]) {
      assert ProcEvolves(a.procs[i], b.procs[i]) && ProcEvolves(b.procs[i], c.procs[i]);
    }
    if c.forks == a.forks {
      forall i | |a.procs| <= i < |c.procs| ensures Weight(c.procs[i]) == 0 {
        if i < |b.procs| {
          assert ProcEvolves(b.procs[i], c.procs[i]);
        }
      }
    }
  }

  lemma EnvEvolvesTransitive(a: Kernel, b: Kernel, c: Kernel)
    requires EnvEvolves(a, b) && EnvEvolves(b, c)
    ensures EnvEvolves(a, c)
  {
    EvolvesTransitive(a, b, c);
    forall i | 0 <= i < |a.procs| ensures c.procs[i].got == a.procs[i].got {
      assert b.procs[i].got == a.procs[i].got;
    }
  }

  /** At most reparented. */
  predicate Untouched(p: Proc, q: Proc) {
    q == p.(parent := q.parent) && (p.parent == Outside <==> q.parent == Outside)
  }

  /** The heir is the supervisor, or a live owned process older than the one that exits. */
  lemma {:induction false} HeirIsAbove(k: Kernel, i: nat)
    requires Consistent(k) && i < |k.procs| && Unreaped(k.procs[i]) && k.procs[i].parent != Outside
    ensures Heir(k.procs, i) != Outside && CanParent(k.procs, Heir(k.procs, i), i)
  {
    match k.procs[i].parent
    case Child(above) =>
      if !k.procs[above].subreaper {
        HeirIsAbove(k, above);
      }
    case _ =>
  }

  lemma ExitReparents(k: Kernel, i: nat, code: int, j: nat)
    requires Consistent(k) && i < |k.procs| && k.procs[i].status == Live && j < |k.procs|
    ensures
      var next := AfterExit(k.procs, i, code);
      && (j != i ==> Untouched(k.procs[j], next[j]))
      && (Unreaped(next[j]) ==> CanParent(next, next[j].parent, j))
  {
    assert Unreaped(k.procs[j]) ==> CanParent(k.procs, k.procs[j].parent, j);
    if k.procs[i].parent != Outside {
      HeirIsAbove(k, i);
    }
  }

  lemma ExitConsistent(k: Kernel, i: nat, code: int)
    requires Consistent(k) && i < |k.procs| && k.procs[i].status == Live
    ensures Consistent(k.(procs := AfterExit(k.procs, i, code)))
    ensures forall j :: 0 <= j < |k.procs| && j != i ==> Untouched(k.procs[j], AfterExit(k.procs, i, code)[j])
  {
    hide CanParent, Heir;
    forall j | 0 <= j < |k.procs| ensures
        && (j != i ==> Untouched(k.procs[j], AfterExit(k.procs, i, code)[j]))
        && (Unreaped(k.procs[j]) ==> CanParent(AfterExit(k.procs, i, code), AfterExit(k.procs, i, code)[j].parent, j))
    {
      ExitReparents(k, i, code, j);
    }
  }

  lemma ExitEvolves(k: Kernel, i: nat, code: int)
    requires Consistent(k) && i < |k.procs| && k.procs[i].status == Live
    ensures
      var next := k.(procs := AfterExit(k.procs, i, code));
      && Consistent(next) && EnvEvolves(k, next) && next.procs[i].status == Zombie
      && forall j :: 0 <= j < |k.procs| && j != i ==> Untouched(k.procs[j], next.procs[j])
  {
    ExitConsistent(k, i, code);
    hide Consistent;
    var next := k.(procs := AfterExit(k.procs, i, code));
    forall j | 0 <= j < |k.procs| ensures ProcEvolves(k.procs[j], next.procs[j]) {
      assert j != i ==> Untouched(k.procs[j], next.procs[j]);
    }
  }

  /** A new process with an unused PID, of a live owned parent or outside. */
  lemma BirthEvolves(k: Kernel, p: Proc, forks: nat)
    requires Consistent(k) && Unused(k, p.pid) && p.status == Live && p.got == []
    requires (p.parent == Outside && forks == k.forks) || (p.parent.Child? && forks < k.forks)
    requires CanParent(k.procs, p.parent, |k.procs|)
    ensures
      var next := Kernel(k.procs + [p], forks, k.now);
      Consistent(next) && EnvEvolves(k, next)
  {
    var next := Kernel(k.procs + [p], forks, k.now);
    forall j | 0 <= j < |k.procs| ensures next.procs[j] == k.procs[j] {
    }
  }

  lemma ReapEvolves(k: Kernel, i: nat)
    requires Consistent(k) && i < |k.procs| && k.procs[i].status == Zombie
    ensures
      var next := k.(procs := k.procs[i := k.procs[i].(status := Reaped)]);
      && Consistent(next) && Evolves(k, next)
      && (k.procs[i].parent != Supervisor ==> EnvEvolves(k, next))
  {
    var next := k.(procs := k.procs[i := k.procs[i].(status := Reaped)]);
    forall j | 0 <= j < |k.procs| && j != i ensures next.procs[j] == k.procs[j] {
    }
  }

  lemma SubreapEvolves(k: Kernel, i: nat, on: bool)
    requires Consistent(k) && i < |k.procs| && k.procs[i].status == Live
    ensures
      var next := k.(procs := k.procs[i := k.procs[i].(subreaper := on)]);
      Consistent(next) && EnvEvolves(k, next)
  {
    var next := k.(procs := k.procs[i := k.procs[i].(subreaper := on)]);
    forall j | 0 <= j < |k.procs| && j != i ensures next.procs[j] == k.procs[j] {
    }
  }

  lemma ApplyEvolves(k: Kernel, e: Event)
    requires Consistent(k)
    ensures Consistent(Apply(k, e)) && EnvEvolves(k, Apply(k, e))
  {
    match e
    case Fork(parent, pid, patience) =>
      if parent < |k.procs| && k.procs[parent].status == Live && Unused(k, pid) {
        if k.procs[parent].parent == Outside {
          BirthEvolves(k, Fresh(pid, Outside, patience), k.forks);
        } else if k.forks > 0 {
          BirthEvolves(k, Fresh(pid, Child(parent), patience), k.forks - 1);
        }
      }
    case Exit(i, code) =>
      if i < |k.procs| && k.procs[i].status == Live {
        ExitEvolves(k, i, code);
      }
    case Subreap(i, on) =>
      if i < |k.procs| && k.procs[i].status == Live {
        SubreapEvolves(k, i, on);
      }
    case ReapedByParent(i) =>
      if i < |k.procs| && k.procs[i].status == Zombie {
        ReapEvolves(k, i);
      }
    case StartOutside(pid) =>
      if Unused(k, pid) {
        BirthEvolves(k, Fresh(pid, Outside, 0), k.forks);
      }
    case Advance(time) =>
  }

  lemma {:induction false} ApplyAllEvolves(k: Kernel, es: seq<Event>)
    requires Consistent(k)
    ensures Consistent(ApplyAll(k, es)) && EnvEvolves(k, ApplyAll(k, es))
    decreases |es|
  {
    if es != [] {
      ApplyEvolves(k, es[0]);
      ApplyAllEvolves(Apply(k, es[0]), es[1..]);
      EnvEvolvesTransitive(k, Apply(k, es[0]), ApplyAll(k, es));
    }
  }

  // ----- Totals -----

  lemma {:induction false} TotalOfEvolved(a: seq<Proc>, b: seq<Proc>)
    requires |a| <= |b|
    requires forall i :: 0 <= i < |a| ==> Weight(b[i]) <= Weight(a[i])
    requires forall i :: |a| <= i < |b| ==> Weight(b[i]) == 0
    ensures Total(b) <= Total(a)
    ensures (exists i :: 0 <= i < |a| && Weight(b[i]) < Weight(a[i])) ==> Total(b) < Total(a)
    decreases |b|
  {
    if |b| > |a| {
      TotalOfEvolved(a, b[..|b| - 1]);
    } else if a != [] {
      TotalOfEvolved(a[..|a| - 1], b[..|b| - 1]);
    }
  }

  /** The pair (forks left, total weight) went down. */
  ghost predicate Progress(a: Kernel, b: Kernel) {
    b.forks < a.forks || (b.forks == a.forks && Total(b.procs) < Total(a.procs))
  }

  /** A table that evolves makes progress as soon as one process does. */
  lemma EvolvedProgress(a: Kernel, b: Kernel, i: nat)
    requires Evolves(a, b) && i < |a.procs| && Weight(b.procs[i]) < Weight(a.procs[i])
    ensures Progress(a, b)
  {
    if b.forks == a.forks {
      TotalOfEvolved(a.procs, b.procs);
    }
  }

  // ----- One round of time for killed processes -----

  /** A killed process exits when its patience is over. */
  function AgeOne(k: Kernel, i: nat): Kernel
    requires i < |k.procs|
  {
    var p := k.procs[i];
    if p.status == Live && Killed(p) && p.parent != Outside then
      if p.patience == 0 then k.(procs := AfterExit(k.procs, i, KILLED))
      else k.(procs := k.procs[i := p.(patience := p.patience - 1)])
    else k
  }

  function AgeFirst(k: Kernel, n: nat): Kernel
    requires n <= |k.procs|
    ensures |AgeFirst(k, n).procs| == |k.procs|
  {
    if n == 0 then k else AgeOne(AgeFirst(k, n - 1), n - 1)
  }

  predicate Dying(p: Proc) {
    p.status == Live && Killed(p) && p.parent != Outside
  }

  lemma AgeOneEvolves(k: Kernel, i: nat)
    requires Consistent(k) && i < |k.procs|
    ensures Consistent(AgeOne(k, i)) && EnvEvolves(k, AgeOne(k, i)) && |AgeOne(k, i).procs| == |k.procs|
    ensures forall j :: 0 <= j < |k.procs| && j != i ==> Untouched(k.procs[j], AgeOne(k, i).procs[j])
    ensures Dying(k.procs[i]) ==> Weight(AgeOne(k, i).procs[i]) < Weight(k.procs[i])
  {
    hide Consistent, EnvEvolves;
    if Dying(k.procs[i]) {
      if k.procs[i].patience == 0 {
        ExitEvolves(k, i, KILLED);
      } else {
        ImpatientEvolves(k, i);
      }
    } else {
      AgedNone(k);
    }
  }

  lemma ImpatientEvolves(k: Kernel, i: nat)
    requires Consistent(k) && i < |k.procs| && k.procs[i].status == Live && k.procs[i].patience > 0
    ensures
      var next := k.(procs := k.procs[i := k.procs[i].(patience := k.procs[i].patience - 1)]);
      Consistent(next) && EnvEvolves(k, next)
  {
    var next := k.(procs := k.procs[i := k.procs[i].(patience := k.procs[i].patience - 1)]);
    forall j | 0 <= j < |k.procs| && j != i ensures next.procs[j] == k.procs[j] {
    }
  }

  /** The first n processes had their round; the others are at most reparented. */
  ghost predicate AgedTo(a: Kernel, b: Kernel, n: nat) {
    && |b.procs| == |a.procs|
    && (forall i :: 0 <= i < n && i < |a.procs| && Dying(a.procs[i]) ==> Weight(b.procs[i]) < Weight(a.procs[i]))
    && (forall i :: n <= i < |a.procs| ==> Untouched(a.procs[i], b.procs[i]))
  }

  lemma AgedStep(a: Kernel, b: Kernel, n: nat)
    requires n < |a.procs| && AgedTo(a, b, n) && Consistent(b)
    ensures AgedTo(a, AgeOne(b, n), n + 1)
  {
    hide Weight, AgeOne, Dying, Consistent;
    AgeOneEvolves(b, n);
    var c := AgeOne(b, n);
    SameWeight(a.procs[n], b.procs[n]);
    forall i | 0 <= i < |a.procs| && i != n ensures Weight(c.procs[i]) == Weight(b.procs[i]) {
      SameWeight(b.procs[i], c.procs[i]);
    }
  }

  /** Every dying process gets closer to its exit. */
  lemma {:induction false} AgeFirstEvolves(k: Kernel, n: nat)
    requires Consistent(k) && n <= |k.procs|
    ensures Consistent(AgeFirst(k, n)) && EnvEvolves(k, AgeFirst(k, n)) && AgedTo(k, AgeFirst(k, n), n)
  {
    hide Consistent, EnvEvolves, AgedTo, AgeOne;
    if n == 0 {
      AgedNone(k);
    } else {
      var before := AgeFirst(k, n - 1);
      AgeFirstEvolves(k, n - 1);
      AgeOneEvolves(before, n - 1);
      AgedStep(k, before, n - 1);
      EnvEvolvesTransitive(k, before, AgeFirst(k, n));
    }
  }

  lemma AgedNone(k: Kernel)
    ensures EnvEvolves(k, k) && AgedTo(k, k, 0)
  {
  }

  lemma SameWeight(p: Proc, q: Proc)
    requires Untouched(p, q)
    ensures Weight(q) == Weight(p) && (Dying(q) <==> Dying(p))
  {
  }
}
