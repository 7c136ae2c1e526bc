/**
 Exactly-once acceptance over strided shards: the producers (scripts/run_atomic_memory_clean_migration.py, main) and
 the verifier of their summaries (scripts/check_atomic_memory_migration_shards.py, verify_group).
 */
module AcceptanceShards {
  import opened Wrappers
  import opened Counting
  import opened Sequences

  /** A summary file. None stands for a value of another type than the source asks for. */
  datatype Report =
    | NotAnObject
    | Summary(
        index: Option<int>, count: Option<int>, backend: string, complete: bool,
        nodes: Option<seq<string>>, passed: Option<seq<string>>)

  datatype Problem =
    | ExpectedObject(report: nat)
    | InvalidIdentity(report: nat)
    | InvalidNodes(report: nat)
    | CollectionsDiffer(report: nat)
    | WrongShard(report: nat)
    | IncompleteCoverage

  const BACKEND := "oceanbase"

  /** nodes[i::n] */
  function Stride<T>(nodes: seq<T>, i: nat, n: nat): seq<T>
    requires n > 0
    decreases |nodes| - i
  {
    if i >= |nodes| then [] else [nodes[i]] + Stride(nodes, i + n, n)
  }

  predicate ValidCollection(nodes: seq<string>) {
    nodes != [] && Distinct(nodes) && forall i :: 0 <= i < |nodes| ==> nodes[i] != ""
  }

  // ----- The strides partition the collection -----

  /** The nodes of the m strides from k on, counted with multiplicity. */
  ghost function Strides<T>(nodes: seq<T>, k: nat, m: nat, n: nat): multiset<T>
    requires n > 0
  {
    if m == 0 then multiset{} else Strides(nodes, k, m - 1, n) + multiset(Stride(nodes, k + m - 1, n))
  }

  lemma FirstStride<T>(nodes: seq<T>, k: nat, m: nat, n: nat)
    requires n > 0 && m > 0
    ensures Strides(nodes, k, m, n) == multiset(Stride(nodes, k, n)) + Strides(nodes, k + 1, m - 1, n)
  {
    if m > 1 {
      FirstStride(nodes, k, m - 1, n);
    } else {
      assert Strides(nodes, k, 0, n) == multiset{};
    }
  }

  lemma {:induction false} NoStrides<T>(nodes: seq<T>, k: nat, m: nat, n: nat)
    requires n > 0 && k >= |nodes|
    ensures Strides(nodes, k, m, n) == multiset{}
  {
    if m > 0 {
      NoStrides(nodes, k, m - 1, n);
    }
  }

  lemma LastStride<T>(nodes: seq<T>, k: nat, m: nat, n: nat, last: nat)
    requires n > 0 && m > 0 && last == k + m - 1
    ensures Strides(nodes, k, m, n) == Strides(nodes, k, m - 1, n) + multiset(Stride(nodes, last, n))
  {
  }

  lemma StrideHead<T>(nodes: seq<T>, k: nat, n: nat)
    requires n > 0 && k < |nodes|
    ensures multiset(Stride(nodes, k, n)) == multiset{nodes[k]} + multiset(Stride(nodes, k + n, n))
  {
    assert Stride(nodes, k, n) == [nodes[k]] + Stride(nodes, k + n, n);
  }

  /** Moving the window of n strides by one gives up exactly the node at its start. */
  lemma WindowMoves<T>(nodes: seq<T>, k: nat, n: nat)
    requires n > 0 && k < |nodes|
    ensures Strides(nodes, k, n, n) == multiset{nodes[k]} + Strides(nodes, k + 1, n, n)
  {
    hide Strides, Stride;
    FirstStride(nodes, k, n, n);
    StrideHead(nodes, k, n);
    LastStride(nodes, k + 1, n, n, k + n);
  }

  lemma {:induction false} StridesFrom<T>(nodes: seq<T>, k: nat, n: nat)
    requires n > 0 && k <= |nodes|
    ensures Strides(nodes, k, n, n) == multiset(nodes[k..])
    decreases |nodes| - k
  {
    hide Strides;
    if k == |nodes| {
      NoStrides(nodes, k, n, n);
    } else {
      StridesFrom(nodes, k + 1, n);
      WindowMoves(nodes, k, n);
      assert nodes[k..] == [nodes[k]] + nodes[k + 1..];
    }
  }

  /** For every collection and shard count, the slices nodes[i::n] partition the collection as a multiset. */
  lemma {:induction false} StridesPartition<T>(nodes: seq<T>, n: nat)
    requires n > 0
    ensures Strides(nodes, 0, n, n) == multiset(nodes)
  {
    StridesFrom(nodes, 0, n);
    assert nodes[0..] == nodes;
  }

  /** The nodes of the strides below m whose index is in the set. */
  ghost function StridesIn<T>(nodes: seq<T>, indices: set<int>, m: nat, n: nat): multiset<T>
    requires n > 0
  {
    if m == 0 then multiset{}
    else if m - 1 in indices then StridesIn(nodes, indices, m - 1, n) + multiset(Stride(nodes, m - 1, n))
    else StridesIn(nodes, indices, m - 1, n)
  }

  lemma Swap<T>(a: multiset<T>, b: multiset<T>, c: multiset<T>)
    ensures a + b + c == a + c + b
  {
  }

  lemma {:induction false} AddIndex<T>(nodes: seq<T>, indices: set<int>, i: nat, m: nat, n: nat)
    requires n > 0 && i !in indices
    ensures StridesIn(nodes, indices + {i}, m, n) ==
      if i < m then StridesIn(nodes, indices, m, n) + multiset(Stride(nodes, i, n)) else StridesIn(nodes, indices, m, n)
  {
    hide Stride;
    if m > 0 {
      AddIndex(nodes, indices, i, m - 1, n);
      if i < m - 1 && m - 1 in indices {
        Swap(StridesIn(nodes, indices, m - 1, n), multiset(Stride(nodes, i, n)), multiset(Stride(nodes, m - 1, n)));
      }
    }
  }

  lemma {:induction false} NoIndex<T>(nodes: seq<T>, m: nat, n: nat)
    requires n > 0
    ensures StridesIn(nodes, {}, m, n) == multiset{}
  {
    if m > 0 {
      NoIndex(nodes, m - 1, n);
    }
  }

  lemma {:induction false} AllIndices<T>(nodes: seq<T>, indices: set<int>, m: nat, n: nat)
    requires n > 0 && forall i :: 0 <= i < m ==> i in indices
    ensures StridesIn(nodes, indices, m, n) == Strides(nodes, 0, m, n)
  {
    if m > 0 {
      AllIndices(nodes, indices, m - 1, n);
    }
  }

  // ----- Verification of a group -----

  /** set(range(shards)) */
  function IndexRange(shards: int): (r: set<int>)
    ensures forall i :: i in r <==> 0 <= i < shards
  {
    if shards <= 0 then {} else IndexRange(shards - 1) + {shards - 1}
  }

  /** The checks on one report that do not depend on the others. */
  function CheckAlone(report: Report, k: nat, shards: int): Option<Problem> {
    if report.NotAnObject? then Some(ExpectedObject(k))
    else if report.index.None? || !(0 <= report.index.value < shards) || report.count != Some(shards) ||
            report.backend != BACKEND || !report.complete then Some(InvalidIdentity(k))
    else if report.nodes.None? || !ValidCollection(report.nodes.value) || report.passed.None? then Some(InvalidNodes(k))
    else None
  }

  /** A report that by itself is a complete account of its own stride. */
  predicate Accounts(report: Report, shards: int) {
    && report.Summary?
    && report.index.Some? && 0 <= report.index.value < shards
    && report.count == Some(shards) && report.backend == BACKEND && report.complete
    && report.nodes.Some? && ValidCollection(report.nodes.value)
    && report.passed == Some(Stride(report.nodes.value, report.index.value, shards))
  }

  predicate HasIndex(reports: seq<Report>, i: int) {
    exists k :: 0 <= k < |reports| && reports[k].Summary? && reports[k].index == Some(i)
  }

  /** One complete account of every stride of one collection. */
  ghost predicate Exhaustive(reports: seq<Report>, shards: int) {
    && (forall k :: 0 <= k < |reports| ==>
          Accounts(reports[k], shards) && reports[0].Summary? && reports[k].nodes == reports[0].nodes)
    && (forall j, k :: 0 <= j < k < |reports| ==> reports[j].index != reports[k].index)
    && forall i :: 0 <= i < shards ==> HasIndex(reports, i)
  }

  ghost predicate Scanned(reports: seq<Report>, n: nat, shards: int, indices: set<int>, passed: seq<string>)
    requires n <= |reports|
  {
    && (forall k :: 0 <= k < n ==> Accounts(reports[k], shards) && reports[0].Summary? && reports[k].nodes == reports[0].nodes)
    && (forall j, k :: 0 <= j < k < n ==> reports[j].index != reports[k].index)
    && (forall k :: 0 <= k < n ==> reports[k].index.value in indices)
    && (forall i :: i in indices ==> 0 <= i < shards && exists k :: 0 <= k < n && reports[k].index == Some(i))
    && (n == 0 ==> passed == [] && indices == {})
    && (n > 0 ==> multiset(passed) == StridesIn(reports[0].nodes.value, indices, shards, shards))
  }

  lemma {:induction false} PassedStep(
      nodes: seq<string>, indices: set<int>, i: nat, n: nat, passed: seq<string>, first: bool)
    requires i < n && i !in indices
    requires if first then passed == [] && indices == {} else multiset(passed) == StridesIn(nodes, indices, n, n)
    ensures multiset(passed + Stride(nodes, i, n)) == StridesIn(nodes, indices + {i}, n, n)
  {
    hide StridesIn, Stride;
    NoIndex(nodes, n, n);
    AddIndex(nodes, indices, i, n, n);
  }

  lemma ScanStep(reports: seq<Report>, n: nat, shards: int, indices: set<int>, passed: seq<string>)
    requires n < |reports| && Scanned(reports, n, shards, indices, passed)
    requires Accounts(reports[n], shards) && reports[n].nodes == reports[0].nodes
    requires reports[n].index.value !in indices
    ensures Scanned(reports, n + 1, shards, indices + {reports[n].index.value}, passed + reports[n].passed.value)
  {
    var i := reports[n].index.value;
    PassedStep(reports[0].nodes.value, indices, i, shards, passed, n == 0);
    forall x | x in indices + {i} ensures exists k :: 0 <= k < n + 1 && reports[k].index == Some(x) {
      if x == i {
        assert reports[n].index == Some(x);
      }
    }
  }

  /** Complete indices already imply that every collected node passed exactly once. */
  lemma {:induction false} CompleteIndicesSuffice(
      reports: seq<Report>, shards: int, indices: set<int>, passed: seq<string>)
    requires reports != [] && Scanned(reports, |reports|, shards, indices, passed)
    requires indices == IndexRange(shards)
    ensures multiset(passed) == multiset(reports[0].nodes.value)
    ensures |passed| == |reports[0].nodes.value|
  {
    var nodes := reports[0].nodes.value;
    AllIndices(nodes, indices, shards, shards);
    StridesPartition(nodes, shards);
    assert |multiset(passed)| == |passed| && |multiset(nodes)| == |nodes|;
  }

  /** The checks on one report against those before it. */
  method CheckReport(reports: seq<Report>, k: nat, shards: int, ghost passed: seq<string>, indices: set<int>)
    returns (problem: Option<Problem>)
    requires k < |reports| && Scanned(reports, k, shards, indices, passed)
    ensures problem.Some? ==> problem.value != IncompleteCoverage && !Exhaustive(reports, shards)
    ensures problem.None? ==>
      Accounts(reports[k], shards) && reports[k].nodes == reports[0].nodes && reports[k].index.value !in indices
  {
    var report := reports[k];
    problem := CheckAlone(report, k, shards);
    if problem.Some? {
      return;
    }
    if report.index.value in indices {
      return Some(InvalidIdentity(k));
    }
    if report.nodes != reports[0].nodes {
      return Some(CollectionsDiffer(k));
    }
    if report.passed.value != Stride(report.nodes.value, report.index.value, shards) {
      return Some(WrongShard(k));
    }
  }

  method VerifyGroup(reports: seq<Report>, shards: int) returns (r: Result<nat, Problem>)
    // Accepted exactly when the reports are one complete account of every stride.
    ensures r.Ok? <==> Exhaustive(reports, shards)
    ensures r.Ok? ==> r.value == if reports == [] then 0 else |reports[0].nodes.value|
    // The last check fails only for a missing index: the count of passes adds nothing to it.
    ensures r == Err(IncompleteCoverage) ==>
      exists i :: 0 <= i < shards && forall k :: 0 <= k < |reports| ==> reports[k].Summary? && reports[k].index != Some(i)
  {
    hide Accounts, Stride, StridesIn, CheckAlone;
    var passed: seq<string> := [];
    var indices: set<int> := {};
    for k := 0 to |reports|
      invariant Scanned(reports, k, shards, indices, passed)
    {
      var problem := CheckReport(reports, k, shards, passed, indices);
      if problem.Some? {
        return Err(problem.value);
      }
      AccountsFields(reports[k], shards);
      ScanStep(reports, k, shards, indices, passed);
      indices := indices + {reports[k].index.value};
      passed := passed + reports[k].passed.value;
    }
    forall k | 0 <= k < |reports| ensures reports[k].Summary? && reports[k].nodes.Some? && reports[k].index.Some? {
      AccountsFields(reports[k], shards);
    }
    var collection := if reports == [] then [] else reports[0].nodes.value;
    if reports != [] && indices == IndexRange(shards) {
      CompleteIndicesSuffice(reports, shards, indices, passed);
    }
    if indices != IndexRange(shards) || multiset(passed) != multiset(collection) {
      MissingIndex(shards, indices);
      ghost var i :| 0 <= i < shards && i !in indices;
      assert forall k :: 0 <= k < |reports| ==> reports[k].index != Some(i);
      assert !HasIndex(reports, i);
      return Err(IncompleteCoverage);
    }
    return Ok(|passed|);
  }

  lemma AccountsFields(report: Report, shards: int)
    requires Accounts(report, shards)
    ensures report.Summary? && report.nodes.Some? && report.passed.Some? && report.index.Some?
  {
  }

  lemma {:induction false} MissingIndex(shards: int, indices: set<int>)
    requires forall i :: i in indices ==> 0 <= i < shards
    ensures indices != IndexRange(shards) ==> exists i :: 0 <= i < shards && i !in indices
  {
    if forall i :: 0 <= i < shards ==> i in indices {
      assert indices == IndexRange(shards);
    }
  }

  // ----- The producers -----

  predicate OfSuite(line: string, suites: seq<string>) {
    exists s :: 0 <= s < |suites| && suites[s] + "::" <= line
  }

  function CollectedNodes(lines: seq<string>, suites: seq<string>): seq<string> {
    if lines == [] then []
    else
      var rest := CollectedNodes(lines[..|lines| - 1], suites);
      var last := lines[|lines| - 1];
      if OfSuite(last, suites) then rest + [last] else rest
  }

  predicate EverySuiteCollected(nodes: seq<string>, suites: seq<string>) {
    forall s :: 0 <= s < |suites| ==> exists i :: 0 <= i < |nodes| && suites[s] + "::" <= nodes[i]
  }

  lemma {:induction false} CollectedNotEmptyStrings(lines: seq<string>, suites: seq<string>)
    ensures forall i :: 0 <= i < |CollectedNodes(lines, suites)| ==> CollectedNodes(lines, suites)[i] != ""
  {
    if lines != [] {
      CollectedNotEmptyStrings(lines[..|lines| - 1], suites);
    }
  }

  /**
   One producer run. lines is the collection listing, or None when collection failed; outcome says whether the run of
   the k-th selected node passes. The summary returned is the last one written.
   */
  method Produce(
      backend: string, index: nat, count: nat, suites: seq<string>, collectOnly: bool,
      lines: Option<seq<string>>, outcome: nat -> bool)
    returns (summary: Report, code: int)
    requires index < count
    ensures summary.Summary? && summary.index == Some(index) && summary.count == Some(count) && summary.backend == backend
    ensures summary.nodes == Some(if lines.Some? then CollectedNodes(lines.value, suites) else [])
    ensures summary.complete ==>
      code == 0 && ValidCollection(summary.nodes.value) &&
      summary.passed == Some(Stride(summary.nodes.value, index, count))
    // Only an actual pass of every selected node completes the summary.
    ensures summary.complete <==>
      && lines.Some? && !collectOnly
      && ValidCollection(summary.nodes.value) && EverySuiteCollected(summary.nodes.value, suites)
      && forall k :: 0 <= k < |Stride(summary.nodes.value, index, count)| ==> outcome(k)
    ensures summary.passed.Some? && summary.passed.value <= Stride(summary.nodes.value, index, count)
  {
    summary := Summary(Some(index), Some(count), backend, false, Some([]), Some([]));
    if lines.None? {
      return summary, 1;
    }
    var nodes := CollectedNodes(lines.value, suites);
    CollectedNotEmptyStrings(lines.value, suites);
    summary := summary.(nodes := Some(nodes));
    if nodes == [] || !Distinct(nodes) || !EverySuiteCollected(nodes, suites) {
      return summary, 1;
    }
    if collectOnly {
      return summary, 0;
    }
    var selected := Stride(nodes, index, count);
    var passed: seq<string> := [];
    for k := 0 to |selected|
      invariant passed == selected[..k]
      invariant forall j :: 0 <= j < k ==> outcome(j)
    {
      if !outcome(k) {
        return summary.(passed := Some(passed)), 1;
      }
      passed := passed + [selected[k]];
    }
    assert passed == selected;
    return summary.(passed := Some(passed), complete := true), 0;
  }

  /** Completed summaries of one collection, one for each shard in any order, are exhaustive. */
  lemma {:induction false} CompletedProducersAccepted(reports: seq<Report>, nodes: seq<string>, shards: nat)
    requires shards > 0
    requires forall k :: 0 <= k < |reports| ==>
      && reports[k].Summary? && reports[k].complete && reports[k].backend == BACKEND
      && reports[k].nodes == Some(nodes) && ValidCollection(nodes)
      && reports[k].count == Some(shards)
      && reports[k].index.Some? && 0 <= reports[k].index.value < shards
      && reports[k].passed == Some(Stride(nodes, reports[k].index.value, shards))
    requires forall j, k :: 0 <= j < k < |reports| ==> reports[j].index != reports[k].index
    requires |reports| == shards
    ensures Exhaustive(reports, shards)
  {
    hide Stride, ValidCollection;
    forall i | 0 <= i < shards ensures HasIndex(reports, i) {
      AllShardsPresent(reports, |reports|, shards, i);
    }
  }

  /** n distinct shard indices below n leave none out. */
  lemma AllShardsPresent(reports: seq<Report>, n: nat, shards: nat, i: nat)
    requires n == |reports| == shards && i < shards
    requires forall k :: 0 <= k < n ==>
      reports[k].Summary? && reports[k].index.Some? && 0 <= reports[k].index.value < shards
    requires forall j, k :: 0 <= j < k < n ==> reports[j].index != reports[k].index
    ensures HasIndex(reports, i)
  {
    var p: seq<nat> := seq(n, k requires 0 <= k < n => reports[k].index.value as nat);
    CoversRange(p, i);
    var k :| 0 <= k < |p| && p[k] == i;
    assert reports[k].index == Some(i);
  }
}
