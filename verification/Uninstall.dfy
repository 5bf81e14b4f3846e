/** The uninstall plan (pkg/cli/uninstall/uninstall.go, pkg/cli/namespaces/remove.go), the
    poll-until-gone deletion of database clusters (pkg/kubernetes/database_cluster.go), and
    what they guarantee when the step runner runs them. */
module Uninstall {
  import opened Wrappers
  import opened StepRunner

  const MONITORING_NAMESPACE := "everest-monitoring"
  const SYSTEM_NAMESPACE := "everest-system"

  datatype Step =
    | DeleteClusters(ns: string)
    | DeleteBackupStorages(ns: string)
    | DeleteMonitoringConfigs(ns: string)
    | RemoveNamespace(ns: string, keep: bool)
    | UninstallChart
    | DeletePlainNamespace(ns: string)
    | DeleteCRDs

  /** What a step does to the cluster, as far as the safety claims need it. */
  datatype Call =
    | ListedClusters(ns: string, count: nat)
    | DeletedAllClusters(ns: string)
    | OtherCall

  // ---------- the plan ----------

  function RemoveNamespaceSteps(ns: string, keep: bool): seq<Step> {
    [DeleteClusters(ns), DeleteBackupStorages(ns), DeleteMonitoringConfigs(ns), RemoveNamespace(ns, keep)]
  }

  /** The plan of the namespace removal command; the uninstall plan starts with one. */
  function NamespaceSteps(namespaces: seq<string>, keep: bool): seq<Step> {
    if namespaces == [] then []
    else
      NamespaceSteps(namespaces[..|namespaces| - 1], keep) + RemoveNamespaceSteps(namespaces[|namespaces| - 1], keep)
  }

  const CLOSING_STEPS: seq<Step> := [
    UninstallChart,
    DeletePlainNamespace(MONITORING_NAMESPACE),
    DeletePlainNamespace(SYSTEM_NAMESPACE),
    DeleteCRDs]

  function Plan(namespaces: Option<seq<string>>): (steps: seq<Step>)
    ensures |steps| >= 4 && steps[|steps| - 1] == DeleteCRDs
  {
    (if namespaces.Some? then NamespaceSteps(namespaces.value, false) else []) + CLOSING_STEPS
  }

  method NewRemovalSteps(namespaceList: seq<string>, keepNamespace: bool) returns (removalSteps: seq<Step>)
    ensures removalSteps == NamespaceSteps(namespaceList, keepNamespace)
  {
    removalSteps := [];
    for i := 0 to |namespaceList|
      invariant removalSteps == NamespaceSteps(namespaceList[..i], keepNamespace)
    {
      removalSteps := removalSteps + RemoveNamespaceSteps(namespaceList[i], keepNamespace);
      assert namespaceList[..i + 1][..i] == namespaceList[..i];
    }
    assert namespaceList[..|namespaceList|] == namespaceList;
  }

  method NewUninstallSteps(namespaces: Option<seq<string>>) returns (uninstallSteps: seq<Step>)
    ensures uninstallSteps == Plan(namespaces)
  {
    uninstallSteps := [];
    if namespaces != None {
      uninstallSteps := NewRemovalSteps(namespaces.value, false);
    }
    ghost var forNamespaces := uninstallSteps;
    uninstallSteps := uninstallSteps + [UninstallChart];
    uninstallSteps := uninstallSteps + [DeletePlainNamespace(MONITORING_NAMESPACE)];
    uninstallSteps := uninstallSteps + [DeletePlainNamespace(SYSTEM_NAMESPACE)];
    uninstallSteps := uninstallSteps + [DeleteCRDs];
    assert uninstallSteps == forNamespaces + CLOSING_STEPS;
  }

  /** Just before step j the clusters, backup storages and monitoring configs of the namespace
      are deleted. */
  predicate Cleared(steps: seq<Step>, j: nat, ns: string) {
    && 3 <= j < |steps|
    && steps[j - 3] == DeleteClusters(ns)
    && steps[j - 2] == DeleteBackupStorages(ns)
    && steps[j - 1] == DeleteMonitoringConfigs(ns)
  }

  /** Every namespace is cleared before it is removed. */
  ghost predicate ClearedFirst(steps: seq<Step>) {
    forall j | 0 <= j < |steps| && steps[j].RemoveNamespace? :: Cleared(steps, j, steps[j].ns)
  }

  predicate OfNamespace(s: Step) {
    s.DeleteClusters? || s.DeleteBackupStorages? || s.DeleteMonitoringConfigs? || s.RemoveNamespace?
  }

  lemma ClearedFirstAppend(steps: seq<Step>, more: seq<Step>)
    requires ClearedFirst(steps) && ClearedFirst(more)
    ensures ClearedFirst(steps + more)
  {
    var all, n := steps + more, |steps|;
    forall j | 0 <= j < |all| && all[j].RemoveNamespace?
      ensures Cleared(all, j, all[j].ns)
    {
      if j >= n {
        assert all[j] == more[j - n] && Cleared(more, j - n, all[j].ns);
      } else {
        assert all[j] == steps[j] && Cleared(steps, j, all[j].ns);
      }
    }
  }

  /** In the plan a namespace is removed only after it was cleared, and exactly the given
      namespaces are removed. */
  lemma {:induction false} NamespaceStepsOrder(namespaces: seq<string>, keep: bool)
    ensures var steps := NamespaceSteps(namespaces, keep);
      && ClearedFirst(steps)
      && (forall ns :: RemoveNamespace(ns, keep) in steps <==> ns in namespaces)
      && (forall s | s in steps :: OfNamespace(s))
  {
    if namespaces != [] {
      var before, last := namespaces[..|namespaces| - 1], namespaces[|namespaces| - 1];
      NamespaceStepsOrder(before, keep);
      var steps, more := NamespaceSteps(before, keep), RemoveNamespaceSteps(last, keep);
      ClearedFirstAppend(steps, more);
      assert more[3] == RemoveNamespace(last, keep);
      assert namespaces == before + [last];
    }
  }

  lemma PlanOrder(namespaces: Option<seq<string>>)
    ensures ClearedFirst(Plan(namespaces))
  {
    NamespaceStepsOrder(namespaces.GetOr([]), false);
    ClearedFirstAppend(if namespaces.Some? then NamespaceSteps(namespaces.value, false) else [], CLOSING_STEPS);
  }

  // ---------- deleting clusters until none is listed ----------

  /** The calls of one deletion: every delete directly follows a list that found clusters,
      and every list but the first directly follows a delete. */
  ghost predicate PollTrace(ns: string, calls: seq<Call>)
    decreases |calls|
  {
    calls != [] ==>
      var before := calls[..|calls| - 1];
      PollTrace(ns, before) && MayFollow(ns, LastOf(before), calls[|calls| - 1])
  }

  function LastOf(calls: seq<Call>): Option<Call> {
    if calls == [] then None else Some(calls[|calls| - 1])
  }

  predicate MayFollow(ns: string, previous: Option<Call>, call: Call) {
    match call
    case ListedClusters(n, _) => n == ns && (previous == None || previous == Some(DeletedAllClusters(ns)))
    case DeletedAllClusters(n) =>
      n == ns && previous.Some? && previous.value.ListedClusters? && previous.value.count > 0
    case OtherCall => false
  }

  lemma PollTraceSnoc(ns: string, calls: seq<Call>, call: Call)
    requires PollTrace(ns, calls) && MayFollow(ns, LastOf(calls), call)
    ensures PollTrace(ns, calls + [call])
  {
    assert (calls + [call])[..|calls|] == calls;
  }

  /** Success is reported only after a list that found nothing. */
  predicate SawNone(ns: string, calls: seq<Call>) {
    calls != [] && calls[|calls| - 1] == ListedClusters(ns, 0)
  }

  /** The requests to the API server, and how many of them failed. */
  class ClusterApi {
    ghost var failures: nat

    /** A number of clusters or an error. */
    method List(ns: string) returns (found: Option<nat>)
      modifies this
      ensures failures == old(failures) + if found.None? then 1 else 0
    {
      var failed: bool, count: int := *, *;
      if failed || count < 0 {
        failures := failures + 1;
        return None;
      }
      return Some(count);
    }

    method DeleteAll(ns: string) returns (ok: bool)
      modifies this
      ensures failures == old(failures) + if ok then 0 else 1
    {
      ok := *;
      failures := failures + if ok then 0 else 1;
    }
  }

  /** The delete requests among the calls. */
  function Deletes(calls: seq<Call>): nat {
    if calls == [] then 0
    else Deletes(calls[..|calls| - 1]) + if calls[|calls| - 1].DeletedAllClusters? then 1 else 0
  }

  lemma DeletesSnoc(calls: seq<Call>, call: Call)
    ensures Deletes(calls + [call]) == Deletes(calls) + if call.DeletedAllClusters? then 1 else 0
  {
    assert (calls + [call])[..|calls|] == calls;
  }

  method ListClusters(api: ClusterApi, ns: string, calls: seq<Call>) returns (found: Option<nat>, more: seq<Call>)
    requires PollTrace(ns, calls) && (calls == [] || calls[|calls| - 1] == DeletedAllClusters(ns))
    modifies api
    ensures api.failures == old(api.failures) + if found.None? then 1 else 0
    ensures more == if found.None? then calls else calls + [ListedClusters(ns, found.value)]
    ensures PollTrace(ns, more) && Deletes(more) == Deletes(calls)
  {
    found := api.List(ns);
    more := calls;
    if found.Some? {
      PollTraceSnoc(ns, calls, ListedClusters(ns, found.value));
      DeletesSnoc(calls, ListedClusters(ns, found.value));
      more := calls + [ListedClusters(ns, found.value)];
    }
  }

  /** polls bounds the iterations that fit into the timeout. It fails only when a request
      failed or that many deletions were not enough. */
  method DeleteDatabaseClusters(api: ClusterApi, ns: string, polls: nat) returns (ok: bool, calls: seq<Call>)
    modifies api
    ensures PollTrace(ns, calls)
    ensures ok ==> SawNone(ns, calls)
    ensures !ok ==> api.failures > old(api.failures) || Deletes(calls) == polls
  {
    var delList: Option<nat>;
    delList, calls := ListClusters(api, ns, []);
    if delList == None {
      return false, calls;
    }
    if delList.value == 0 {
      return true, calls;
    }
    var poll := 0;
    while poll < polls
      invariant poll <= polls && Deletes(calls) == poll && api.failures == old(api.failures)
      invariant PollTrace(ns, calls) && calls != []
      invariant delList.Some? ==> delList.value > 0 && calls == [ListedClusters(ns, delList.value)]
      invariant delList.None? ==> calls[|calls| - 1] == DeletedAllClusters(ns)
    {
      if delList == None {
        delList, calls := ListClusters(api, ns, calls);
        if delList == None {
          return false, calls;
        }
        if delList.value == 0 {
          return true, calls;
        }
      }
      delList := None;
      var deleted := api.DeleteAll(ns);
      if !deleted {
        return false, calls;
      }
      PollTraceSnoc(ns, calls, DeletedAllClusters(ns));
      DeletesSnoc(calls, DeletedAllClusters(ns));
      calls := calls + [DeletedAllClusters(ns)];
      poll := poll + 1;
    }
    return false, calls;
  }

  // ---------- safety of every run of the plan ----------

  /** What a step has done when it reports success: the deletion of clusters ends with an
      empty list; nothing is asked of the other steps. */
  function StepContract(steps: seq<Step>): (nat, seq<Call>) -> bool {
    (i: nat, calls: seq<Call>) =>
      i < |steps| && steps[i].DeleteClusters? ==> SawNone(steps[i].ns, calls)
  }

  lemma {:induction false} CallInLog(log: seq<Event<Call>>, step: nat, call: Call)
    requires call in CallsOf(log, step)
    ensures exists u | 0 <= u < |log| :: log[u] == Did(step, call)
    decreases |log|
  {
    var before, last := log[..|log| - 1], log[|log| - 1];
    if call in CallsOf(before, step) {
      CallInLog(before, step, call);
      var u :| 0 <= u < |before| && before[u] == Did(step, call);
      assert log[u] == Did(step, call);
    } else {
      assert log[|log| - 1] == Did(step, call);
    }
  }

  /** The events of a run of these steps. */
  function LogOf(steps: seq<Step>, actions: seq<Action<Call>>): seq<Event<Call>> {
    Run(Initial<Call>(), |steps|, StepContract(steps), actions).log
  }

  /** The event t starts the removal of a namespace. */
  predicate StartsRemoval(steps: seq<Step>, log: seq<Event<Call>>, t: nat) {
    t < |log| && log[t].Started? && log[t].step < |steps| && steps[log[t].step].RemoveNamespace?
  }

  /** Before the event t an earlier step of the plan listed the clusters of the namespace
      and found none. */
  ghost predicate SeenEmptyBefore(steps: seq<Step>, log: seq<Event<Call>>, t: nat)
    requires StartsRemoval(steps, log, t)
  {
    exists u, i | 0 <= u < t && 0 <= i < log[t].step :: log[u] == Did(i, ListedClusters(steps[log[t].step].ns, 0))
  }

  lemma ClustersSeenGone(steps: seq<Step>, actions: seq<Action<Call>>, t: nat, i: nat) returns (v: nat)
    requires i < |steps| && steps[i].DeleteClusters?
    requires var log := LogOf(steps, actions); t < |log| && log[t].Started? && i < log[t].step
    ensures v < t && LogOf(steps, actions)[v] == Did(i, ListedClusters(steps[i].ns, 0))
  {
    StartedAfterSuccess(|steps|, StepContract(steps), actions, t, i);
    var log := LogOf(steps, actions);
    var u :| 0 <= u < t && log[u] == Finished(i, None) && StepContract(steps)(i, CallsOf(log[..u], i));
    v := SawNoneAt(log, u, i, steps[i].ns);
  }

  lemma RemovedOnlyWhenEmpty(steps: seq<Step>, actions: seq<Action<Call>>, t: nat)
    requires ClearedFirst(steps) && StartsRemoval(steps, LogOf(steps, actions), t)
    ensures SeenEmptyBefore(steps, LogOf(steps, actions), t)
  {
    var log := LogOf(steps, actions);
    var j := log[t].step;
    assert Cleared(steps, j, steps[j].ns);
    var v := ClustersSeenGone(steps, actions, t, j - 3);
    assert log[v] == Did(j - 3, ListedClusters(steps[j].ns, 0));
  }

  lemma SawNoneAt(log: seq<Event<Call>>, u: nat, step: nat, ns: string) returns (v: nat)
    requires u <= |log| && SawNone(ns, CallsOf(log[..u], step))
    ensures v < u && log[v] == Did(step, ListedClusters(ns, 0))
  {
    var before := log[..u];
    CallInLog(before, step, ListedClusters(ns, 0));
    v :| 0 <= v < |before| && before[v] == Did(step, ListedClusters(ns, 0));
  }

  /** In every run of the uninstall plan, and of the plan of the namespace removal command
      with or without the flag to keep the namespace, whatever the order of messages: the
      removal of a namespace starts only after a list of its clusters came back empty. */
  lemma NamespaceRemovedOnlyWhenEmpty(namespaces: Option<seq<string>>, keep: bool, actions: seq<Action<Call>>, t: nat)
    ensures var steps := Plan(namespaces);
      StartsRemoval(steps, LogOf(steps, actions), t) ==> SeenEmptyBefore(steps, LogOf(steps, actions), t)
    ensures var steps := NamespaceSteps(namespaces.GetOr([]), keep);
      StartsRemoval(steps, LogOf(steps, actions), t) ==> SeenEmptyBefore(steps, LogOf(steps, actions), t)
  {
    var plan, removal := Plan(namespaces), NamespaceSteps(namespaces.GetOr([]), keep);
    PlanOrder(namespaces);
    NamespaceStepsOrder(namespaces.GetOr([]), keep);
    if StartsRemoval(plan, LogOf(plan, actions), t) {
      RemovedOnlyWhenEmpty(plan, actions, t);
    }
    if StartsRemoval(removal, LogOf(removal, actions), t) {
      RemovedOnlyWhenEmpty(removal, actions, t);
    }
  }

  /** Before the event t an earlier step of the plan, this one, succeeded. */
  ghost predicate DoneBefore(steps: seq<Step>, log: seq<Event<Call>>, t: nat, s: Step)
    requires t < |log| && log[t].Started? && log[t].step < |steps|
  {
    exists u, i | 0 <= u < t && 0 <= i < log[t].step :: steps[i] == s && log[u] == Finished(i, None)
  }

  lemma EarlierDone(steps: seq<Step>, actions: seq<Action<Call>>, t: nat, i: nat)
    requires var log := LogOf(steps, actions); t < |log| && log[t].Started? && i < log[t].step < |steps|
    ensures DoneBefore(steps, LogOf(steps, actions), t, steps[i])
  {
    StartedAfterSuccess(|steps|, StepContract(steps), actions, t, i);
  }

  /** A namespace is removed after its backup storages and monitoring configs were deleted. */
  lemma ClearedBeforeRemoval(namespaces: Option<seq<string>>, keep: bool, actions: seq<Action<Call>>, t: nat)
    ensures var steps := Plan(namespaces);
      StartsRemoval(steps, LogOf(steps, actions), t) ==> ClearedBefore(steps, LogOf(steps, actions), t)
    ensures var steps := NamespaceSteps(namespaces.GetOr([]), keep);
      StartsRemoval(steps, LogOf(steps, actions), t) ==> ClearedBefore(steps, LogOf(steps, actions), t)
  {
    PlanOrder(namespaces);
    NamespaceStepsOrder(namespaces.GetOr([]), keep);
    ClearedInRun(Plan(namespaces), actions, t);
    ClearedInRun(NamespaceSteps(namespaces.GetOr([]), keep), actions, t);
  }

  ghost predicate ClearedBefore(steps: seq<Step>, log: seq<Event<Call>>, t: nat)
    requires StartsRemoval(steps, log, t)
  {
    var ns := steps[log[t].step].ns;
    DoneBefore(steps, log, t, DeleteBackupStorages(ns)) && DoneBefore(steps, log, t, DeleteMonitoringConfigs(ns))
  }

  lemma ClearedInRun(steps: seq<Step>, actions: seq<Action<Call>>, t: nat)
    requires ClearedFirst(steps)
    ensures StartsRemoval(steps, LogOf(steps, actions), t) ==> ClearedBefore(steps, LogOf(steps, actions), t)
  {
    var log := LogOf(steps, actions);
    if StartsRemoval(steps, log, t) {
      var j := log[t].step;
      assert Cleared(steps, j, steps[j].ns);
      EarlierDone(steps, actions, t, j - 2);
      EarlierDone(steps, actions, t, j - 1);
    }
  }

  /** Where the plan's closing steps stand: behind all steps of namespaces, in this order. */
  lemma ClosingOrder(namespaces: Option<seq<string>>)
    ensures var steps := Plan(namespaces);
      var n := |steps| - 4;
      && n >= 0
      && steps[n] == UninstallChart
      && steps[n + 1] == DeletePlainNamespace("everest-monitoring")
      && steps[n + 2] == DeletePlainNamespace("everest-system")
      && steps[n + 3] == DeleteCRDs
      && (forall i | 0 <= i < n :: OfNamespace(steps[i]))
      && (forall ns | ns in namespaces.GetOr([]) :: exists i | 0 <= i < n :: steps[i] == RemoveNamespace(ns, false))
  {
    NamespaceStepsOrder(namespaces.GetOr([]), false);
    ClosingAfter(if namespaces.Some? then NamespaceSteps(namespaces.value, false) else [], namespaces.GetOr([]));
  }

  lemma ClosingAfter(before: seq<Step>, namespaces: seq<string>)
    requires forall s | s in before :: OfNamespace(s)
    requires forall ns | ns in namespaces :: RemoveNamespace(ns, false) in before
    ensures var steps, n := before + CLOSING_STEPS, |before|;
      && steps[n] == UninstallChart
      && steps[n + 1] == DeletePlainNamespace("everest-monitoring")
      && steps[n + 2] == DeletePlainNamespace("everest-system")
      && steps[n + 3] == DeleteCRDs
      && (forall i | 0 <= i < n :: OfNamespace(steps[i]))
      && (forall ns | ns in namespaces :: exists i | 0 <= i < n :: steps[i] == RemoveNamespace(ns, false))
  {
    var steps := before + CLOSING_STEPS;
    forall ns | ns in namespaces
      ensures exists i | 0 <= i < |before| :: steps[i] == RemoveNamespace(ns, false)
    {
      var i :| 0 <= i < |before| && before[i] == RemoveNamespace(ns, false);
      assert steps[i] == before[i];
    }
  }

  /** In every run of the uninstall plan the chart is uninstalled after all given namespaces
      were removed, then the monitoring namespace is deleted, then the system namespace. */
  lemma ChartThenNamespaces(namespaces: Option<seq<string>>, actions: seq<Action<Call>>, t: nat, ns: string)
    requires var steps := Plan(namespaces);
      var log := LogOf(steps, actions);
      t < |log| && log[t].Started? && log[t].step < |steps|
    ensures var steps := Plan(namespaces);
      var log := LogOf(steps, actions);
      var s := steps[log[t].step];
      && (s == UninstallChart && ns in namespaces.GetOr([]) ==> DoneBefore(steps, log, t, RemoveNamespace(ns, false)))
      && (s == DeletePlainNamespace("everest-monitoring") ==> DoneBefore(steps, log, t, UninstallChart))
      && (s == DeletePlainNamespace("everest-system") ==>
            DoneBefore(steps, log, t, DeletePlainNamespace("everest-monitoring")))
  {
    var steps := Plan(namespaces);
    var log := LogOf(steps, actions);
    var n, j := |steps| - 4, log[t].step;
    ClosingOrder(namespaces);
    if steps[j] == UninstallChart && ns in namespaces.GetOr([]) {
      var i :| 0 <= i < n && steps[i] == RemoveNamespace(ns, false);
      EarlierDone(steps, actions, t, i);
    } else if steps[j].DeletePlainNamespace? {
      EarlierDone(steps, actions, t, j - 1);
    }
  }

  /** The CRDs are deleted last: when that step starts every other step has succeeded. */
  lemma CRDsDeletedLast(namespaces: Option<seq<string>>, actions: seq<Action<Call>>, t: nat, i: nat)
    requires var steps := Plan(namespaces);
      var log := Run(Initial<Call>(), |steps|, StepContract(steps), actions).log;
      t < |log| && log[t].Started? && log[t].step < |steps| && steps[log[t].step] == DeleteCRDs
      && i < |steps| && i != log[t].step
    ensures var steps := Plan(namespaces);
      var log := Run(Initial<Call>(), |steps|, StepContract(steps), actions).log;
      exists u | 0 <= u < t :: log[u] == Finished(i, None)
  {
    var steps := Plan(namespaces);
    var log := Run(Initial<Call>(), |steps|, StepContract(steps), actions).log;
    OneCRDStep(namespaces, log[t].step);
    StartedAfterSuccess(|steps|, StepContract(steps), actions, t, i);
  }

  lemma OneCRDStep(namespaces: Option<seq<string>>, j: nat)
    requires j < |Plan(namespaces)| && Plan(namespaces)[j] == DeleteCRDs
    ensures j == |Plan(namespaces)| - 1
  {
    ClosingOrder(namespaces);
  }

  /** A nil result of a run that was not interrupted means that every step succeeded, so
      every given namespace was removed. */
  lemma NilMeansAllDone(namespaces: seq<string>, actions: seq<Action<Call>>, ns: string)
    requires ns in namespaces
    requires var steps := Plan(Some(namespaces));
      ReturnsNil(Run(Initial<Call>(), |steps|, StepContract(steps), actions))
    ensures var steps := Plan(Some(namespaces));
      AllDone(steps, LogOf(steps, actions)) && Removed(steps, LogOf(steps, actions), ns, false)
  {
    var steps, removal := Plan(Some(namespaces)), NamespaceSteps(namespaces, false);
    StepsRunInOrder(|steps|, StepContract(steps), actions);
    NamespaceStepsOrder(namespaces, false);
    var i :| 0 <= i < |removal| && removal[i] == RemoveNamespace(ns, false);
    assert steps[i] == RemoveNamespace(ns, false);
    StepSucceeded(steps, LogOf(steps, actions), i);
  }

  /** The same of the namespace removal command. */
  lemma NilMeansRemoved(namespaces: seq<string>, keep: bool, actions: seq<Action<Call>>, ns: string)
    requires ns in namespaces
    requires var steps := NamespaceSteps(namespaces, keep);
      ReturnsNil(Run(Initial<Call>(), |steps|, StepContract(steps), actions))
    ensures var steps := NamespaceSteps(namespaces, keep);
      AllDone(steps, LogOf(steps, actions)) && Removed(steps, LogOf(steps, actions), ns, keep)
  {
    var steps := NamespaceSteps(namespaces, keep);
    NamespaceStepsOrder(namespaces, keep);
    var i :| 0 <= i < |steps| && steps[i] == RemoveNamespace(ns, keep);
    StepsRunInOrder(|steps|, StepContract(steps), actions);
    StepSucceeded(steps, LogOf(steps, actions), i);
  }

  ghost predicate AllDone(steps: seq<Step>, log: seq<Event<Call>>) {
    Milestones(log) == AllSucceeded<Call>(|steps|)
  }

  ghost predicate Removed(steps: seq<Step>, log: seq<Event<Call>>, ns: string, keep: bool) {
    exists i | 0 <= i < |steps| :: steps[i] == RemoveNamespace(ns, keep) && Finished(i, None) in log
  }

  lemma StepSucceeded(steps: seq<Step>, log: seq<Event<Call>>, i: nat)
    requires AllDone(steps, log) && i < |steps|
    ensures Finished(i, None) in log
  {
    SuccessListed<Call>(|steps|, i);
    MilestoneInLog(log, Finished(i, None));
  }
}
