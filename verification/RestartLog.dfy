/**
 Recognising restarts in the lifecycle log of native generations (scripts/probe_seekdb_migration_lock.py,
 restart_evidence). One pass over an interleaved log decides a property of each path's own sequence of steps.
 */
module RestartLog {
  import opened Sequences

  datatype Event =
    | Opened(path: string, pid: int)
    | Exited(path: string, pid: int)
    | OtherEvent

  predicate Concerns(e: Event, path: string) {
    !e.OtherEvent? && e.path == path
  }

  function PidOf(e: Event): int {
    if e.OtherEvent? then 0 else e.pid
  }

  /** The steps of one path, in order. */
  function Projection(events: seq<Event>, path: string): seq<Event> {
    if events == [] then []
    else
      var rest := Projection(events[..|events| - 1], path);
      var last := events[|events| - 1];
      if Concerns(last, path) then rest + [last] else rest
  }

  /** The PIDs that a path's steps open, in order. */
  function Generations(steps: seq<Event>): seq<int> {
    if steps == [] then []
    else
      var rest := Generations(steps[..|steps| - 1]);
      var last := steps[|steps| - 1];
      if last.Opened? then rest + [last.pid] else rest
  }

  /** open p1, exit p1, open p2, exit p2 and so on, with positive distinct PIDs; the last generation may be open. */
  ghost predicate Alternating(steps: seq<Event>) {
    && (forall i :: 0 <= i < |steps| ==> !steps[i].OtherEvent?)
    && (forall i :: 0 <= i < |steps| && i % 2 == 0 ==> steps[i].Opened? && steps[i].pid > 0)
    && (forall i :: 0 <= i < |steps| && i % 2 == 1 ==> steps[i].Exited? && steps[i].pid == steps[i - 1].pid)
    && Distinct(Generations(steps))
  }

  /** Alternating, and every generation has exited. */
  ghost predicate Closed(steps: seq<Event>) {
    Alternating(steps) && |steps| % 2 == 0
  }

  /** The log shows a confirmed restart: every path is closed, and some path had at least two generations. */
  ghost predicate ShowsRestart(events: seq<Event>) {
    && (forall path :: Closed(Projection(events, path)))
    && exists path :: |Projection(events, path)| >= 4
  }

  /** An alternating sequence opens a generation with every other step. */
  lemma {:induction false} GenerationsOfAlternating(steps: seq<Event>)
    requires Alternating(steps)
    ensures |Generations(steps)| == (|steps| + 1) / 2
  {
    if steps != [] {
      var n := |steps| - 1;
      assert steps[..n] + [steps[n]] == steps;
      AlternatingFits(steps[..n], steps[n]);
      GenerationsOfAlternating(steps[..n]);
    }
  }

  /** What a step must be for the sequence to stay alternating. */
  predicate Fits(steps: seq<Event>, step: Event) {
    && !step.OtherEvent?
    && if step.Opened? then |steps| % 2 == 0 && step.pid > 0 && step.pid !in Generations(steps)
       else |steps| % 2 == 1 && PidOf(steps[|steps| - 1]) == step.pid
  }

  lemma {:induction false} OneMoreGeneration(steps: seq<Event>, step: Event)
    ensures Generations(steps + [step]) ==
      if step.Opened? then Generations(steps) + [step.pid] else Generations(steps)
  {
    assert (steps + [step])[..|steps|] == steps;
  }

  lemma FittingAlternates(steps: seq<Event>, step: Event)
    requires Alternating(steps) && Fits(steps, step)
    ensures Alternating(steps + [step])
  {
    hide Generations;
    OneMoreGeneration(steps, step);
  }

  lemma AlternatingFits(steps: seq<Event>, step: Event)
    requires Alternating(steps + [step])
    ensures Alternating(steps) && Fits(steps, step)
  {
    hide Generations;
    var all := steps + [step];
    OneMoreGeneration(steps, step);
    assert forall i :: 0 <= i < |steps| ==> all[i] == steps[i];
    assert all[|steps|] == step;
    var pids := Generations(steps);
    if step.Opened? {
      assert forall i :: 0 <= i < |pids| ==> pids[i] == Generations(all)[i];
      assert Generations(all)[|pids|] == step.pid;
      assert |steps| % 2 == 0 by {
        assert all[|steps|].Opened?;
      }
    } else {
      assert all[|steps|].Exited? && |steps| % 2 == 1;
      assert all[|steps| - 1] == steps[|steps| - 1];
    }
  }

  ghost predicate AllAlternate(events: seq<Event>) {
    forall path :: Alternating(Projection(events, path))
  }

  lemma {:induction false} OneMore(events: seq<Event>, e: Event, path: string)
    ensures Projection(events + [e], path) ==
      if Concerns(e, path) then Projection(events, path) + [e] else Projection(events, path)
  {
    assert (events + [e])[..|events|] == events;
  }

  /** The log stays valid exactly when the new event fits its own path. */
  lemma {:induction false} ValidityStep(events: seq<Event>, e: Event)
    ensures AllAlternate(events + [e]) <==>
      AllAlternate(events) && (!e.OtherEvent? ==> Fits(Projection(events, e.path), e))
  {
    hide Alternating, Projection, Fits;
    if AllAlternate(events + [e]) {
      forall path ensures Alternating(Projection(events, path)) {
        OneMore(events, e, path);
        assert Alternating(Projection(events + [e], path));
        if Concerns(e, path) {
          AlternatingFits(Projection(events, path), e);
        }
      }
      if !e.OtherEvent? {
        OneMore(events, e, e.path);
        assert Alternating(Projection(events + [e], e.path));
        AlternatingFits(Projection(events, e.path), e);
      }
    } else if AllAlternate(events) && (!e.OtherEvent? ==> Fits(Projection(events, e.path), e)) {
      forall path ensures Alternating(Projection(events + [e], path)) {
        OneMore(events, e, path);
        if Concerns(e, path) {
          FittingAlternates(Projection(events, path), e);
        }
      }
    }
  }

  /** What the recogniser holds about one path, whose steps so far these are. */
  ghost predicate ReadsPath(
      steps: seq<Event>, processes: map<string, seq<int>>, running: map<string, int>, valid: bool, path: string)
  {
    && (path in processes <==> Generations(steps) != [])
    && (path in processes ==> processes[path] == Generations(steps))
    && (valid ==> (path in running <==> |steps| % 2 == 1))
    && (valid && path in running ==> |steps| > 0 && running[path] == PidOf(steps[|steps| - 1]))
  }

  /** What the recogniser has in hand after a prefix of the log. */
  ghost predicate Reads(
      events: seq<Event>, processes: map<string, seq<int>>, running: map<string, int>, valid: bool)
  {
    && (valid <==> AllAlternate(events))
    && forall path :: ReadsPath(Projection(events, path), processes, running, valid, path)
  }

  /** Lasting knowledge about one path: a later state with the same entries, at most as valid, still reads it. */
  lemma {:induction false} OtherPath(
      events: seq<Event>, e: Event, path: string,
      processes: map<string, seq<int>>, running: map<string, int>, valid: bool,
      newProcesses: map<string, seq<int>>, newRunning: map<string, int>, newValid: bool)
    requires ReadsPath(Projection(events, path), processes, running, valid, path)
    requires !Concerns(e, path) && (newValid ==> valid)
    requires path in processes <==> path in newProcesses
    requires path in processes ==> newProcesses[path] == processes[path]
    requires path in running <==> path in newRunning
    requires path in running ==> newRunning[path] == running[path]
    ensures ReadsPath(Projection(events + [e], path), newProcesses, newRunning, newValid, path)
  {
    hide Projection, Generations;
    OneMore(events, e, path);
  }

  lemma OpenStep(
      events: seq<Event>, e: Event, processes: map<string, seq<int>>, running: map<string, int>, valid: bool)
    requires Reads(events, processes, running, valid) && e.Opened?
    ensures
      var pids := if e.path in processes then processes[e.path] else [];
      Reads(
        events + [e], processes[e.path := pids + [e.pid]], running[e.path := e.pid],
        valid && e.path !in running && e.pid > 0 && e.pid !in pids)
  {
    hide Alternating, Projection, Generations, AllAlternate;
    var steps := Projection(events, e.path);
    var pids := if e.path in processes then processes[e.path] else [];
    var newProcesses := processes[e.path := pids + [e.pid]];
    var newRunning := running[e.path := e.pid];
    var newValid := valid && e.path !in running && e.pid > 0 && e.pid !in pids;
    assert ReadsPath(steps, processes, running, valid, e.path);
    assert pids == Generations(steps);
    ValidityStep(events, e);
    forall path ensures ReadsPath(Projection(events + [e], path), newProcesses, newRunning, newValid, path) {
      assert ReadsPath(Projection(events, path), processes, running, valid, path);
      if path == e.path {
        OneMore(events, e, path);
        OneMoreGeneration(steps, e);
      } else {
        OtherPath(events, e, path, processes, running, valid, newProcesses, newRunning, newValid);
      }
    }
  }

  lemma ExitStep(
      events: seq<Event>, e: Event, processes: map<string, seq<int>>, running: map<string, int>, valid: bool)
    requires Reads(events, processes, running, valid) && e.Exited?
    ensures Reads(
      events + [e], processes, running - {e.path}, valid && e.path in running && running[e.path] == e.pid)
  {
    hide Alternating, Projection, Generations, AllAlternate;
    var steps := Projection(events, e.path);
    var newRunning := running - {e.path};
    var newValid := valid && e.path in running && running[e.path] == e.pid;
    assert ReadsPath(steps, processes, running, valid, e.path);
    ValidityStep(events, e);
    forall path ensures ReadsPath(Projection(events + [e], path), processes, newRunning, newValid, path) {
      assert ReadsPath(Projection(events, path), processes, running, valid, path);
      if path == e.path {
        OneMore(events, e, path);
        OneMoreGeneration(steps, e);
      } else {
        OtherPath(events, e, path, processes, running, valid, processes, newRunning, newValid);
      }
    }
  }

  lemma OtherStep(
      events: seq<Event>, processes: map<string, seq<int>>, running: map<string, int>, valid: bool)
    requires Reads(events, processes, running, valid)
    ensures Reads(events + [OtherEvent], processes, running, valid)
  {
    hide Alternating, Projection, Generations, AllAlternate;
    ValidityStep(events, OtherEvent);
    forall path ensures ReadsPath(Projection(events + [OtherEvent], path), processes, running, valid, path) {
      assert ReadsPath(Projection(events, path), processes, running, valid, path);
      OtherPath(events, OtherEvent, path, processes, running, valid, processes, running, valid);
    }
  }

  /** The final verdict, read off the state after the whole log. */
  lemma Verdict(
      events: seq<Event>, processes: map<string, seq<int>>, running: map<string, int>, valid: bool)
    requires Reads(events, processes, running, valid)
    ensures ShowsRestart(events) <==>
      valid && running == map[] && exists path :: path in processes && |processes[path]| > 1
  {
    if valid {
      forall path ensures |Generations(Projection(events, path))| == (|Projection(events, path)| + 1) / 2 {
        GenerationsOfAlternating(Projection(events, path));
      }
      if running != map[] {
        var path :| path in running;
        assert !Closed(Projection(events, path));
      } else {
        assert forall path :: Closed(Projection(events, path)) by {
          assert forall path :: path !in running;
        }
        forall path ensures |Projection(events, path)| >= 4 <==> path in processes && |processes[path]| > 1 {
          assert Closed(Projection(events, path));
        }
      }
    }
  }

  method RestartEvidence(events: seq<Event>) returns (passed: bool, processes: map<string, seq<int>>)
    ensures passed <==> ShowsRestart(events)
    ensures forall path :: path in processes ==> processes[path] == Generations(Projection(events, path))
    ensures forall path :: path !in processes ==> Generations(Projection(events, path)) == []
  {
    processes := map[];
    var running: map<string, int> := map[];
    var valid := true;
    for i := 0 to |events|
      invariant Reads(events[..i], processes, running, valid)
    {
      var event := events[i];
      assert events[..i + 1] == events[..i] + [event];
      match event {
        case Opened(path, pid) =>
          OpenStep(events[..i], event, processes, running, valid);
          var pids := if path in processes then processes[path] else [];
          valid := valid && path !in running && pid > 0 && pid !in pids;
          processes := processes[path := pids + [pid]];
          running := running[path := pid];
        case Exited(path, pid) =>
          ExitStep(events[..i], event, processes, running, valid);
          valid := valid && path in running && running[path] == pid;
          running := running - {path};
        case OtherEvent =>
          OtherStep(events[..i], processes, running, valid);
      }
    }
    assert events[..|events|] == events;
    Verdict(events, processes, running, valid);
    passed := valid && running == map[] && exists path :: path in processes && |processes[path]| > 1;
  }
}
