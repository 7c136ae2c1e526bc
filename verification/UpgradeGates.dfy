/**
 The upgrade release gate, run in one process (scripts/upgrade_release_gate.py, gate) and split over runners
 (scripts/parallel_upgrade_release_gate.py, selected_indexes, execute_case and collect).
 */
module UpgradeGates {
  import opened Wrappers
  import opened Counting

  type Digest = string

  datatype Case = Case(sourceVersion: string, backend: string, configuration: string)

  datatype Installed = Installed(source: string, target: string)

  datatype CaseResult = CaseResult(case_: Case, installed: Installed, database: string)

  /** What installing and testing one case yields in a given environment. */
  datatype Attempt = Broken(error: string) | Tested(installed: Installed, database: string)

  datatype Selection = Full | Automatic | SeekdbCode | UnknownSelection

  datatype Mode = SupportedUpgrades | OtherMode

  datatype Plan = Plan(
    sha: Digest, cases: seq<Case>, selection: Selection, release: bool, mode: Mode,
    targetVersion: string, targetWheel: string, artifacts: map<string, Digest>)

  /** The prepared directory as it is read: the plan file and the distributions beside it. */
  datatype Prepared = Prepared(plan: Plan, inputs: map<string, Digest>, reviewed: seq<Case>, mode: Mode)

  /** One runner's result.json and the acceptance directory beside it. */
  datatype ResultFile = ResultFile(
    planSha: Digest, index: Option<int>, passed: bool, result: Option<CaseResult>,
    database: Option<string>, installed: Installed)

  // ----- One case -----

  /** run_case: raises, or returns a result whose installed versions are the planned ones. */
  function RunCase(case_: Case, attempt: Attempt, targetVersion: string): Result<CaseResult, string> {
    match attempt
    case Broken(error) => Err(error)
    case Tested(installed, database) =>
      if installed.source != case_.sourceVersion then Err("Source release mismatch")
      else if installed.target != targetVersion then Err("Target wheel version mismatch")
      else Ok(CaseResult(case_, installed, database))
  }

  // ----- The sequential gate -----

  datatype Evidence = Evidence(cases: seq<Result<CaseResult, string>>, passed: bool)

  method SequentialGate(cases: seq<Case>, attempts: seq<Attempt>, targetVersion: string, release: bool, mode: Mode)
    returns (accepted: bool, evidence: Evidence)
    requires |attempts| == |cases|
    ensures accepted == SequentialAccepts(cases, attempts, targetVersion, release, mode)
    ensures evidence.passed == accepted
    // A broken case does not keep the others from running.
    ensures |evidence.cases| == |cases|
    ensures forall i :: 0 <= i < |cases| ==> evidence.cases[i] == RunCase(cases[i], attempts[i], targetVersion)
  {
    evidence := Evidence([], false);
    var failures: seq<string> := [];
    for i := 0 to |cases|
      invariant |evidence.cases| == i && !evidence.passed
      invariant forall k :: 0 <= k < i ==> evidence.cases[k] == RunCase(cases[k], attempts[k], targetVersion)
      invariant failures == [] <==> forall k :: 0 <= k < i ==> evidence.cases[k].Ok?
    {
      var result := RunCase(cases[i], attempts[i], targetVersion);
      if result.Err? {
        failures := failures + [cases[i].backend];
      }
      evidence := evidence.(cases := evidence.cases + [result]);
    }
    if cases == [] || failures != [] {
      return false, evidence;
    }
    if release && mode != SupportedUpgrades {
      return false, evidence;
    }
    return true, evidence.(passed := true);
  }

  ghost predicate SequentialAccepts(
      cases: seq<Case>, attempts: seq<Attempt>, targetVersion: string, release: bool, mode: Mode)
    requires |attempts| == |cases|
  {
    && cases != []
    && (forall i :: 0 <= i < |cases| ==> RunCase(cases[i], attempts[i], targetVersion).Ok?)
    && (release ==> mode == SupportedUpgrades)
  }

  // ----- Selection and plan -----

  predicate Selects(selection: Selection, case_: Case) {
    selection == Full || selection == Automatic ||
    (case_.backend == "seekdb" &&
     (case_.configuration == "full-server-code" || case_.configuration == "full-server-vector-code"))
  }

  function Matching(cases: seq<Case>, n: nat, selection: Selection): (r: seq<nat>)
    requires n <= |cases|
    ensures forall k :: 0 <= k < |r| ==> r[k] < n && Selects(selection, cases[r[k]])
    ensures forall j, k :: 0 <= j < k < |r| ==> r[j] < r[k]
    ensures forall i: nat :: i < n && Selects(selection, cases[i]) ==> i in r
  {
    if n == 0 then []
    else
      var rest := Matching(cases, n - 1, selection);
      if Selects(selection, cases[n - 1]) then rest + [n - 1] else rest
  }

  function SelectedIndexes(cases: seq<Case>, selection: Selection, release: bool): Result<seq<nat>, string> {
    if selection == UnknownSelection then Err("Unknown upgrade selection")
    else if release && selection == SeekdbCode then Err("Manual-only acceptance cannot authorize publication")
    else
      var selected := Matching(cases, |cases|, selection);
      if selected == [] then Err("No cases match the upgrade selection") else Ok(selected)
  }

  /** read_plan: the prepared bytes and the reviewed policy are still those of the plan. */
  function ReadPlan(prepared: Prepared): Result<Plan, string> {
    var plan := prepared.plan;
    if prepared.inputs != plan.artifacts then Err("Prepared distributions changed")
    else if plan.targetWheel !in plan.artifacts then Err("Missing prepared target wheel")
    else if plan.mode != prepared.mode then Err("Target changed")
    else if plan.cases != prepared.reviewed || plan.cases == [] then Err("Prepared matrix differs from reviewed cases")
    else
      match SelectedIndexes(plan.cases, plan.selection, plan.release)
      case Err(e) => Err(e)
      case Ok(_) => Ok(plan)
  }

  /** execute_case: the result file a runner leaves; afterwards says whether the second reading of the plan succeeded. */
  function ExecuteCase(plan: Plan, index: nat, attempt: Attempt, afterwards: bool): ResultFile
    requires index < |plan.cases|
  {
    match RunCase(plan.cases[index], attempt, plan.targetVersion)
    case Err(_) => ResultFile(plan.sha, Some(index), false, None, None, Installed("", ""))
    case Ok(result) =>
      ResultFile(plan.sha, Some(index), afterwards, Some(result), Some(result.database), result.installed)
  }

  // ----- Collection -----

  /** One result file that collect accepts on its own. */
  predicate GoodResult(file: ResultFile, plan: Plan, selected: seq<nat>) {
    && file.planSha == plan.sha
    && file.index.Some? && 0 <= file.index.value < |plan.cases| && file.index.value in selected
    && file.passed && file.result.Some?
    && file.result.value.case_ == plan.cases[file.index.value]
    && file.database == Some(file.result.value.database)
    && file.installed == file.result.value.installed
    && file.installed.source == plan.cases[file.index.value].sourceVersion
    && file.installed.target == plan.targetVersion
  }

  ghost predicate DistinctIndexes(files: seq<ResultFile>, n: nat)
    requires n <= |files|
  {
    forall j, k :: 0 <= j < k < n ==> files[j].index != files[k].index
  }

  /** File k is the only result of case i, and it passes. */
  ghost predicate OnlyResult(files: seq<ResultFile>, plan: Plan, selected: seq<nat>, i: nat, k: nat) {
    && k < |files| && files[k].index == Some(i) && GoodResult(files[k], plan, selected)
    && forall l :: 0 <= l < |files| && files[l].index == Some(i) ==> l == k
  }

  /** Every selected case has exactly one passing result. */
  ghost predicate ExactlyOnce(files: seq<ResultFile>, plan: Plan, selected: seq<nat>) {
    forall i :: i in selected ==> exists k :: OnlyResult(files, plan, selected, i, k)
  }

  /** As many good results as selected cases, all distinct, leave no case out: the lookup by index cannot fail. */
  lemma CountCovers(files: seq<ResultFile>, plan: Plan, selected: seq<nat>, i: nat)
    requires |files| == |selected| && DistinctIndexes(files, |files|)
    requires forall k :: 0 <= k < |files| ==> GoodResult(files[k], plan, selected)
    requires i in selected
    ensures exists k :: 0 <= k < |files| && files[k].index == Some(i)
  {
    var p: seq<nat> := seq(|files|, k requires 0 <= k < |files| => files[k].index.value as nat);
    forall k | 0 <= k < |p| ensures p[k] in selected {
      assert GoodResult(files[k], plan, selected);
    }
    CoversList(p, selected, i);
    var k :| 0 <= k < |p| && p[k] == i;
    assert files[k].index == Some(i);
  }

  lemma CoveredExactlyOnce(files: seq<ResultFile>, plan: Plan, selected: seq<nat>)
    requires |files| == |selected| && DistinctIndexes(files, |files|)
    requires forall k :: 0 <= k < |files| ==> GoodResult(files[k], plan, selected)
    ensures ExactlyOnce(files, plan, selected)
  {
    forall i | i in selected ensures exists k :: OnlyResult(files, plan, selected, i, k) {
      CountCovers(files, plan, selected, i);
      var k :| 0 <= k < |files| && files[k].index == Some(i);
      assert OnlyResult(files, plan, selected, i, k);
    }
  }

  /** What collect accepts. */
  ghost predicate Collectable(before: Prepared, after: Prepared, copied: map<string, Digest>, files: seq<ResultFile>) {
    && ReadPlan(before).Ok? && ReadPlan(after).Ok?
    && var plan := before.plan;
       var selected := Matching(plan.cases, |plan.cases|, plan.selection);
       && |files| == |selected| && DistinctIndexes(files, |files|)
       && (forall k :: 0 <= k < |files| ==> GoodResult(files[k], plan, selected))
       && (plan.release ==> plan.mode == SupportedUpgrades)
       && (plan.selection != SeekdbCode ==>
             forall name :: name in plan.artifacts ==> name in copied && copied[name] == plan.artifacts[name])
  }

  datatype Publication = Publication(artifacts: map<string, Digest>, complete: bool, cases: seq<CaseResult>)

  method GatherResults(files: seq<ResultFile>, plan: Plan, selected: seq<nat>)
    returns (r: Result<map<int, CaseResult>, string>)
    ensures r.Ok? <==>
      DistinctIndexes(files, |files|) && forall k :: 0 <= k < |files| ==> GoodResult(files[k], plan, selected)
    ensures r.Ok? ==> forall k :: 0 <= k < |files| ==>
      files[k].index.value in r.value && r.value[files[k].index.value] == files[k].result.value
  {
    var byIndex: map<int, CaseResult> := map[];
    for n := 0 to |files|
      invariant DistinctIndexes(files, n)
      invariant forall k :: 0 <= k < n ==> GoodResult(files[k], plan, selected)
      invariant forall k :: 0 <= k < n ==>
        files[k].index.value in byIndex && byIndex[files[k].index.value] == files[k].result.value
      invariant forall i :: i in byIndex ==> exists k :: 0 <= k < n && files[k].index == Some(i)
    {
      var file := files[n];
      if file.planSha != plan.sha {
        return Err("Stale or mixed upgrade results");
      }
      if file.index.None? || !(0 <= file.index.value < |plan.cases|) || file.index.value !in selected {
        return Err("Unknown upgrade result index");
      }
      if file.index.value in byIndex {
        return Err("Duplicate upgrade result");
      }
      if !file.passed || file.result.None? {
        return Err("Upgrade case failed");
      }
      if !GoodResult(file, plan, selected) {
        return Err("Case identity, installed versions or backend evidence mismatch");
      }
      byIndex := byIndex[file.index.value := file.result.value];
    }
    return Ok(byIndex);
  }

  /** [by_index[index] for index in selected] */
  method InSelectionOrder(
      byIndex: map<int, CaseResult>, plan: Plan, selected: seq<nat>, ghost files: seq<ResultFile>)
    returns (cases: seq<CaseResult>)
    requires forall k :: 0 <= k < |selected| ==> selected[k] < |plan.cases|
    requires ExactlyOnce(files, plan, selected)
    requires forall k :: 0 <= k < |files| && GoodResult(files[k], plan, selected) ==>
      files[k].index.value in byIndex && byIndex[files[k].index.value] == files[k].result.value
    ensures |cases| == |selected|
    ensures forall k :: 0 <= k < |selected| ==> cases[k].case_ == plan.cases[selected[k]]
  {
    cases := [];
    for n := 0 to |selected|
      invariant |cases| == n
      invariant forall k :: 0 <= k < n ==> cases[k].case_ == plan.cases[selected[k]]
    {
      assert selected[n] in selected;
      ghost var k :| OnlyResult(files, plan, selected, selected[n], k);
      cases := cases + [byIndex[selected[n]]];
    }
  }

  method Collect(before: Prepared, after: Prepared, copied: map<string, Digest>, files: seq<ResultFile>)
    returns (r: Result<Publication, string>)
    ensures r.Ok? <==> Collectable(before, after, copied, files)
    ensures r.Ok? ==>
      var plan := before.plan;
      var selected := Matching(plan.cases, |plan.cases|, plan.selection);
      && ExactlyOnce(files, plan, selected)
      && |r.value.cases| == |selected|
      && (forall i :: 0 <= i < |selected| ==> r.value.cases[i].case_ == plan.cases[selected[i]])
      && r.value.artifacts == (if plan.selection == SeekdbCode then map[] else plan.artifacts)
      && (r.value.complete <==> |selected| == |plan.cases|)
  {
    var read := ReadPlan(before);
    if read.Err? {
      return Err(read.error);
    }
    var plan := read.value;
    var selected := Matching(plan.cases, |plan.cases|, plan.selection);
    if |files| != |selected| {
      return Err("Missing or extra upgrade case results");
    }
    var gathered := GatherResults(files, plan, selected);
    if gathered.Err? {
      return Err(gathered.error);
    }
    CoveredExactlyOnce(files, plan, selected);
    var cases := InSelectionOrder(gathered.value, plan, selected, files);
    if plan.release && plan.mode != SupportedUpgrades {
      return Err("Update the reviewed support declaration before publication");
    }
    if ReadPlan(after).Err? {
      return Err("Prepared distributions changed");
    }
    var complete := |selected| == |plan.cases|;
    if plan.selection == SeekdbCode {
      return Ok(Publication(map[], complete, cases));
    }
    if exists name :: name in plan.artifacts && !(name in copied && copied[name] == plan.artifacts[name]) {
      return Err("Validated distribution copy changed");
    }
    return Ok(Publication(plan.artifacts, complete, cases));
  }

  // ----- Agreement -----

  /** Every case is selected by a full selection. */
  lemma {:induction false} FullSelection(cases: seq<Case>, n: nat)
    requires n <= |cases|
    ensures |Matching(cases, n, Full)| == n
    ensures forall i: nat :: i < n ==> Matching(cases, n, Full)[i] == i
  {
    if n > 0 {
      FullSelection(cases, n - 1);
    }
  }

  /** The runners of a full selection reported once each, in any order. */
  ghost predicate AllReported(plan: Plan, attempts: seq<Attempt>, order: seq<nat>, files: seq<ResultFile>)
    requires |attempts| == |plan.cases|
  {
    && |files| == |order| == |plan.cases|
    && (forall k :: 0 <= k < |order| ==> order[k] < |plan.cases|)
    && (forall j, k :: 0 <= j < k < |order| ==> order[j] != order[k])
    && forall k :: 0 <= k < |files| ==> files[k] == ExecuteCase(plan, order[k], attempts[order[k]], true)
  }

  lemma EveryIndexReported(order: seq<nat>, i: nat)
    requires i < |order|
    requires forall k :: 0 <= k < |order| ==> order[k] < |order|
    requires forall j, k :: 0 <= j < k < |order| ==> order[j] != order[k]
    ensures exists k :: 0 <= k < |order| && order[k] == i
  {
    CoversRange(order, i);
  }

  /** A runner's own report is accepted exactly when its case passed. */
  lemma PassingRunIsGood(plan: Plan, selected: seq<nat>, i: nat, attempt: Attempt)
    requires i < |plan.cases| && i in selected
    ensures GoodResult(ExecuteCase(plan, i, attempt, true), plan, selected) <==>
      RunCase(plan.cases[i], attempt, plan.targetVersion).Ok?
    ensures ExecuteCase(plan, i, attempt, true).index == Some(i)
  {
  }

  /** All reports of a full selection are accepted exactly when all cases passed; they are distinct in any case. */
  lemma AllGoodAllPassed(
      plan: Plan, attempts: seq<Attempt>, order: seq<nat>, files: seq<ResultFile>, selected: seq<nat>)
    requires |attempts| == |plan.cases| && AllReported(plan, attempts, order, files)
    requires selected == Matching(plan.cases, |plan.cases|, Full)
    ensures |selected| == |files| && DistinctIndexes(files, |files|)
    ensures (forall k :: 0 <= k < |files| ==> GoodResult(files[k], plan, selected)) <==>
      forall i :: 0 <= i < |plan.cases| ==> RunCase(plan.cases[i], attempts[i], plan.targetVersion).Ok?
  {
    hide GoodResult, ExecuteCase, RunCase;
    FullSelection(plan.cases, |plan.cases|);
    forall k | 0 <= k < |files|
      ensures files[k].index == Some(order[k])
      ensures GoodResult(files[k], plan, selected) <==>
        RunCase(plan.cases[order[k]], attempts[order[k]], plan.targetVersion).Ok?
    {
      assert selected[order[k]] == order[k];
      PassingRunIsGood(plan, selected, order[k], attempts[order[k]]);
    }
    if forall k :: 0 <= k < |files| ==> GoodResult(files[k], plan, selected) {
      forall i | 0 <= i < |plan.cases| ensures RunCase(plan.cases[i], attempts[i], plan.targetVersion).Ok? {
        EveryIndexReported(order, i);
        var k :| 0 <= k < |order| && order[k] == i;
        assert GoodResult(files[k], plan, selected);
      }
    }
  }

  /**
   With a full selection, unchanged inputs and one report from every runner in whatever order, the parallel gate
   accepts exactly when the sequential gate accepts the same attempts.
   */
  lemma GatesAgree(
      prepared: Prepared, attempts: seq<Attempt>, order: seq<nat>, files: seq<ResultFile>)
    requires ReadPlan(prepared).Ok? && prepared.plan.selection == Full
    requires |attempts| == |prepared.plan.cases|
    requires AllReported(prepared.plan, attempts, order, files)
    ensures
      var plan := prepared.plan;
      Collectable(prepared, prepared, prepared.inputs, files) <==>
      SequentialAccepts(plan.cases, attempts, plan.targetVersion, plan.release, plan.mode)
  {
    hide GoodResult, ExecuteCase, RunCase, Matching, AllReported, SelectedIndexes, DistinctIndexes;
    var plan := prepared.plan;
    AllGoodAllPassed(plan, attempts, order, files, Matching(plan.cases, |plan.cases|, Full));
  }
}
