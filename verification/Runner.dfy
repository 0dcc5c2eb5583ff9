/** `Runner.Run` (internal/testgate/runner.go) as the loop it is, proved against the turns of
    the Scheduler module; and the whole gate: validate, select, run, summarise. */
module Runner {
  import opened Lex
  import opened Manifest
  import opened Prelude
  import opened CycleFinding
  import opened Validation
  import opened Selection
  import opened Execution
  import opened Scheduler
  import opened SchedulerFacts
  import opened SchedulerTheorems

  /** `dependencyBlock`: which prerequisites have a result that is neither PASS nor SKIPPED. */
  method DependencyBlock(check: Check, results: map<string, Result>) returns (failed: seq<string>)
    ensures failed == FailedDeps(check.dependencies, results)
  {
    failed := [];
    var deps := check.dependencies;
    for i := 0 to |deps|
      invariant failed == FailedDeps(deps[..i], results)
    {
      FailedDepsStep(deps, i, results);
      if deps[i] in results && results[deps[i]].status != Pass && results[deps[i]].status != Skipped {
        failed := failed + [deps[i]];
      }
    }
    TakeAll(deps);
  }

  lemma FailedDepsStep(deps: seq<string>, i: nat, results: map<string, Result>)
    requires i < |deps|
    ensures var before, d := FailedDeps(deps[..i], results), deps[i];
      FailedDeps(deps[..i + 1], results) == if d in results && !Satisfied(results[d].status) then before + [d] else before
  {
    assert deps[..i + 1][..i] == deps[..i];
  }

  /** `dependenciesComplete`. */
  method DependenciesComplete(check: Check, results: map<string, Result>) returns (complete: bool)
    ensures complete == Complete(check, results)
  {
    for i := 0 to |check.dependencies|
      invariant forall j :: 0 <= j < i ==> check.dependencies[j] in results
    {
      if check.dependencies[i] !in results {
        return false;
      }
    }
    return true;
  }

  /** The sweep that marks what can no longer start. */
  method ResolvePass(plan: Plan, st: State, ids: seq<string>) returns (r: State, progress: bool)
    ensures r == Resolve(plan, st, ids)
    ensures !progress ==> r == st
    ensures progress ==> exists id :: id in ids && id in r.results
  {
    r, progress := st, false;
    ghost var mark := "";
    for i := 0 to |ids|
      invariant r == Resolve(plan, st, ids[..i])
      invariant !progress ==> r == st
      invariant progress ==> mark in ids && mark in r.results
    {
      TakeSnoc(ids, i);
      var check := Lookup(plan.byId, ids[i]);
      var failed := DependencyBlock(check, r.results);
      if r.safetyStop && (check.privilege != "local" || "adversarial" in check.tags) {
        r := State(r.pending - {ids[i]}, r.results[ids[i] := BlockedResult(check, SafetyStop, [])], r.safetyStop);
        progress, mark := true, ids[i];
      } else if failed != [] {
        r := State(r.pending - {ids[i]}, r.results[ids[i] := BlockedResult(check, Blocked, failed)], r.safetyStop);
        progress, mark := true, ids[i];
      }
    }
    TakeAll(ids);
  }

  /** Choose the wave, remembering the groups and isolation keys already taken. */
  method PickWave(plan: Plan, results: map<string, Result>, ids: seq<string>) returns (ready: seq<Check>)
    requires plan.jobs >= 1
    ensures ready == Pick(plan, results, ids)
  {
    ready := [];
    var usedGroups: set<string>, usedIsolation: set<string> := {}, {};
    for i := 0 to |ids|
      invariant ready == Pick(plan, results, ids[..i]) && |ready| < plan.jobs
      invariant usedGroups == set c | c in ready :: c.concurrencyGroup
      invariant usedIsolation == set c | c in ready :: c.isolationKey
    {
      TakeSnoc(ids, i);
      var check := Lookup(plan.byId, ids[i]);
      var complete := DependenciesComplete(check, results);
      assert Conflicts(ready, check) <==> check.concurrencyGroup in usedGroups || check.isolationKey in usedIsolation;
      if !complete || check.concurrencyGroup in usedGroups || check.isolationKey in usedIsolation {
        continue;
      }
      ghost var before := ready;
      ready := ready + [check];
      usedGroups := usedGroups + {check.concurrencyGroup};
      usedIsolation := usedIsolation + {check.isolationKey};
      assert forall c :: c in ready <==> c in before || c == check;
      if |ready| == plan.jobs {
        FullWaveStays(plan, results, ids, i + 1);
        return;
      }
    }
    TakeAll(ids);
  }

  /** Once the wave is full the rest of the list changes nothing, so stopping early is sound. */
  lemma {:induction false} FullWaveStays(plan: Plan, results: map<string, Result>, ids: seq<string>, n: nat)
    requires n <= |ids| && |Pick(plan, results, ids[..n])| == plan.jobs
    ensures Pick(plan, results, ids) == Pick(plan, results, ids[..n])
  {
    if n < |ids| {
      var front := ids[..|ids| - 1];
      assert front[..n] == ids[..n];
      FullWaveStays(plan, results, front, n);
    } else {
      TakeAll(ids);
    }
  }

  /** Run the wave; executions complete in any order. */
  method RunWave(plan: Plan, world: World, st: State, ready: seq<Check>, k: nat) returns (s: State)
    requires plan.Valid() && forall c :: c in ready ==> c.id in plan.byId && plan.byId[c.id] == c
    ensures s == Settle(plan, world, st, ready, k)
  {
    var running := set c | c in ready :: c.id;
    var pending, results, safetyStop := st.pending - running, st.results, st.safetyStop;
    ghost var done: set<string> := {};
    assert running == IdSet(ready);
    while running != {}
      invariant running !! done && running + done == IdSet(ready)
      invariant results == st.results + Outcomes(plan, world, done, k)
      invariant safetyStop <==> st.safetyStop || AnyStops(plan, world, done, k)
      decreases running
    {
      var id :| id in running;
      var execution := Execute(plan.byId[id], world.observe(k, id), plan.retry, plan.goos);
      OneMoreOutcome(plan, world, st.results, done, id, k);
      results := results[execution.id := execution];
      if execution.status == SafetyStop {
        safetyStop := true;
      }
      running, done := running - {id}, done + {id};
    }
    s := State(pending, results, safetyStop);
  }

  lemma OneMoreOutcome(plan: Plan, world: World, results: map<string, Result>, done: set<string>, id: string, k: nat)
    ensures results + Outcomes(plan, world, done + {id}, k)
         == (results + Outcomes(plan, world, done, k))[id := Outcome(plan, world, id, k)]
    ensures AnyStops(plan, world, done + {id}, k)
         <==> AnyStops(plan, world, done, k) || Outcome(plan, world, id, k).status == SafetyStop
  {
    var a, x := Outcomes(plan, world, done, k), Outcome(plan, world, id, k);
    assert Outcomes(plan, world, done + {id}, k) == a[id := x];
  }

  datatype RunOutcome = Completed(results: map<string, Result>, safetyStop: bool) | NoProgress

  function PlanOf(checks: seq<Check>, jobs: int, retry: bool, goos: string): (p: Plan)
    ensures p.Valid() && p.byId == ById(checks) && p.retry == retry && p.goos == goos
    ensures jobs >= 1 ==> p.jobs == jobs
    ensures jobs < 1 ==> p.jobs == 1
  {
    Plan(ById(checks), if jobs < 1 then 1 else jobs, retry, goos)
  }

  /** The loop-head states t lead to this outcome: the last one has nothing pending and is
      reported as it is, or its turn stalls. */
  ghost predicate Leads(plan: Plan, world: World, t: seq<State>, outcome: RunOutcome) {
    && IsRun(plan, world, t)
    && match outcome
       case Completed(results, stop) => t[|t| - 1] == State({}, results, stop)
       case NoProgress => t[|t| - 1].pending != {} && Turn(plan, world, t[|t| - 1], |t| - 1).Stalled?
  }

  /** `Run`'s loop. Its loop-head states form a run; it returns the results of the last one,
      or the "made no progress" error, which a well-founded selection never yields. */
  method Run(checks: seq<Check>, jobs: int, retry: bool, goos: string, world: World) returns (outcome: RunOutcome)
    ensures exists t :: Leads(PlanOf(checks, jobs, retry, goos), world, t, outcome)
    ensures WellFounded(PlanOf(checks, jobs, retry, goos)) ==> outcome.Completed?
  {
    var p := PlanOf(checks, jobs, retry, goos);
    var st := State(p.byId.Keys, map[], false);
    ghost var t := [st];
    var k: nat := 0;
    while st.pending != {}
      invariant IsRun(p, world, t) && |t| == k + 1 && t[k] == st
      decreases st.pending
    {
      RunKeeps(p, world, t, k);
      if WellFounded(p) {
        NeverStalls(p, world, st, k);
      }
      var next, moved := OneTurn(p, world, st, k);
      if !moved {
        assert Leads(p, world, t, NoProgress);
        return NoProgress;
      }
      TurnKeeps(p, world, st, k);
      ExtendRun(p, world, t, next);
      st, t, k := next, t + [next], k + 1;
    }
    outcome := Completed(st.results, st.safetyStop);
    assert Leads(p, world, t, outcome);
  }

  /** A plan and a world lead to one outcome only: since RunWave reaches the settled state whatever the
      completion order, nothing else can influence it. */
  lemma {:induction false} OneOutcome(plan: Plan, world: World, t: seq<State>, u: seq<State>, a: RunOutcome, b: RunOutcome)
    requires Leads(plan, world, t, a) && Leads(plan, world, u, b)
    ensures t == u && a == b
  {
    NoFurther(plan, world, t, a, u);
    NoFurther(plan, world, u, b, t);
    SameRun(plan, world, t, u, |t|);
    TakeAll(t);
    TakeAll(u);
  }

  /** No run goes on beyond an outcome. */
  lemma NoFurther(plan: Plan, world: World, t: seq<State>, a: RunOutcome, u: seq<State>)
    requires Leads(plan, world, t, a) && IsRun(plan, world, u)
    ensures |u| <= |t|
  {
    if |u| > |t| {
      var n := |t|;
      SameRun(plan, world, t, u, n);
      NotTheEnd(plan, world, u, t[..n], n);
    }
  }

  lemma NotTheEnd(plan: Plan, world: World, u: seq<State>, t: seq<State>, n: nat)
    requires IsRun(plan, world, u) && 1 <= n < |u| && t == u[..n]
    ensures t[n - 1].pending != {} && !Turn(plan, world, t[n - 1], n - 1).Stalled?
  {
    assert Reaches(plan, world, u, n);
  }

  lemma {:induction false} SameRun(plan: Plan, world: World, t: seq<State>, u: seq<State>, n: nat)
    requires IsRun(plan, world, t) && IsRun(plan, world, u) && n <= |t| && n <= |u|
    ensures t[..n] == u[..n]
  {
    if n > 1 {
      SameRun(plan, world, t, u, n - 1);
      assert t[n - 2] == t[..n - 1][n - 2] == u[..n - 1][n - 2];
      assert Reaches(plan, world, t, n - 1) && Reaches(plan, world, u, n - 1);
      TakeSnoc(t, n - 1);
      TakeSnoc(u, n - 1);
    }
  }

  lemma ExtendRun(plan: Plan, world: World, t: seq<State>, next: State)
    requires IsRun(plan, world, t) && t[|t| - 1].pending != {}
    requires var m := Turn(plan, world, t[|t| - 1], |t| - 1); !m.Stalled? && m.state == next
    ensures IsRun(plan, world, t + [next])
  {
    var u := t + [next];
    forall i | 1 <= i < |u| ensures Reaches(plan, world, u, i) {
      if i < |t| { assert Reaches(plan, world, t, i); }
    }
  }

  /** The body of the loop. */
  method OneTurn(plan: Plan, world: World, st: State, k: nat) returns (next: State, moved: bool)
    requires plan.Valid() && Inv(plan, st) && st.pending != {}
    ensures moved <==> !Turn(plan, world, st, k).Stalled?
    ensures moved ==> next == Turn(plan, world, st, k).state
  {
    var ids := SortedKeys(st.pending);
    if world.cancelled(k) {
      next := InterruptAll(plan, st);
      return next, true;
    }
    SweptKeeps(plan, st);
    var r, progress := ResolvePass(plan, st, ids);
    if r.pending == {} {
      return r, true;
    }
    var left := SortedKeys(r.pending);
    var ready := PickWave(plan, r.results, left);
    if ready == [] {
      ProgressMeansFewer(plan, st, r, progress, ids);
      return r, progress;
    }
    WaveFacts(plan, r);
    next := RunWave(plan, world, r, ready, k);
    return next, true;
  }

  lemma ProgressMeansFewer(plan: Plan, st: State, r: State, progress: bool, ids: seq<string>)
    requires plan.Valid() && Partition(plan, st) && Partition(plan, r) && ids == SortedIds(st.pending)
    requires !progress ==> r == st
    requires progress ==> exists id :: id in ids && id in r.results
    ensures progress <==> r.pending != st.pending
  {
    if progress {
      var id :| id in ids && id in r.results;
      SortedIdsMember(st.pending, id);
    }
  }

  /** A cancelled context blocks everything that has not started. */
  method InterruptAll(plan: Plan, st: State) returns (s: State)
    ensures s == Interrupt(plan, st)
  {
    var results, pending := st.results, st.pending;
    while pending != {}
      invariant pending <= st.pending
      invariant results == st.results + map id | id in st.pending - pending :: BlockedResult(Lookup(plan.byId, id), Blocked, [])
      decreases pending
    {
      var id :| id in pending;
      ghost var done := st.pending - pending;
      results := results[id := BlockedResult(Lookup(plan.byId, id), Blocked, [])];
      pending := pending - {id};
      assert st.pending - pending == done + {id};
    }
    assert st.pending - pending == st.pending;
    s := State(pending, results, st.safetyStop);
  }

  // ----- from a validated manifest to a well-founded plan

  /** The plan of a selection holds exactly the selected checks, unchanged. */
  lemma PlanOfSelection(all: map<string, Check>, checks: seq<Check>, s: set<string>)
    requires SelectedExactly(all, checks, s)
    ensures ById(checks).Keys == s && forall id :: id in s ==> ById(checks)[id] == all[id]
  {
    var ids := Ids(checks);
    forall id ensures id in ById(checks) <==> id in s {
      if id in s {
        var i :| 0 <= i < |ids| && ids[i] == id;
        assert checks[i] in checks && checks[i].id == id;
      }
      if id in ById(checks) {
        var i :| 0 <= i < |checks| && checks[i] == ById(checks)[id];
        assert ids[i] == id;
      }
    }
  }

  /** Acyclicity with known dependencies survives selection, because the selection is closed. */
  lemma SelectionIsWellFounded(all: map<string, Check>, rank: map<string, nat>, seeds: set<string>,
                               checks: seq<Check>, s: set<string>, plan: Plan)
    requires IsRank(all, rank) && IsClosure(all, seeds, s) && SelectedExactly(all, checks, s)
    requires plan.byId == ById(checks)
    ensures WellFounded(plan)
  {
    PlanOfSelection(all, checks, s);
    forall id | id in plan.byId ensures AllIn(Deps(plan.byId, id), plan.byId.Keys) {
      assert AllIn(Deps(all, id), s);
    }
    forall id, d | id in plan.byId && d in Deps(plan.byId, id)
      ensures id in rank && d in rank && rank[d] < rank[id]
    {
      assert d in Deps(all, id);
    }
    assert IsRank(plan.byId, rank);
  }

  datatype GateOutcome =
    | Rejected(problems: seq<Problem>)
    | NothingSelected
    | Stuck
    | Ran(results: map<string, Result>, safetyStop: bool)

  /** The results of running these declared checks: what the loop's last state holds. */
  ghost predicate RunOf(all: map<string, Check>, checks: seq<Check>, jobs: int, retry: bool, goos: string, world: World,
                        results: map<string, Result>, safetyStop: bool)
  {
    && (forall c :: c in checks ==> c.id in all && all[c.id] == c)
    && exists t :: Leads(PlanOf(checks, jobs, retry, goos), world, t, Completed(results, safetyStop))
  }

  /** Load, validate, select and run. For every manifest, selection, job count, cancellation and
      command outcome the gate never gets stuck, and a gate that runs reports the results of a run of
      exactly what was asked for and everything that it depends on. */
  method RunGate(declared: seq<Check>, scenarios: seq<Scenario>, options: Options, affected: set<string>,
                 jobs: int, retry: bool, goos: string, world: World)
    returns (r: GateOutcome)
    requires affected <= ById(Loaded(declared, scenarios)).Keys
    ensures !r.Stuck?
    ensures r.Rejected? <==> !ValidGraph(Loaded(declared, scenarios))
    ensures r.NothingSelected? <==>
      ValidGraph(Loaded(declared, scenarios)) && Unselectable(ById(Loaded(declared, scenarios)), options, affected)
    ensures r.Ran? ==> forall id :: id in r.results <==> Wanted(ById(Loaded(declared, scenarios)), options, affected, id)
    ensures r.Ran? ==> exists checks ::
      RunOf(ById(Loaded(declared, scenarios)), checks, jobs, retry, goos, world, r.results, r.safetyStop)
    ensures r.Ran? ==> (r.safetyStop <==> exists id :: id in r.results && Stop(r.results[id]))
  {
    var problems := Validate(declared, scenarios);
    if problems != [] {
      return Rejected(problems);
    }
    r := RunValidated(Loaded(declared, scenarios), options, affected, jobs, retry, goos, world);
  }

  method RunValidated(manifest: seq<Check>, options: Options, affected: set<string>,
                      jobs: int, retry: bool, goos: string, world: World)
    returns (r: GateOutcome)
    requires ValidGraph(manifest) && (exists rank :: IsRank(ById(manifest), rank)) && affected <= ById(manifest).Keys
    ensures r.NothingSelected? || r.Ran?
    ensures r.NothingSelected? <==> Unselectable(ById(manifest), options, affected)
    ensures r.Ran? ==> forall id :: id in r.results <==> Wanted(ById(manifest), options, affected, id)
    ensures r.Ran? ==> exists checks :: RunOf(ById(manifest), checks, jobs, retry, goos, world, r.results, r.safetyStop)
    ensures r.Ran? ==> (r.safetyStop <==> exists id :: id in r.results && Stop(r.results[id]))
  {
    var all := ById(manifest);
    var some, checks, seeds, s := SelectAll(manifest, options, affected);
    if !some {
      return NothingSelected;
    }
    r := RunSelection(all, seeds, checks, jobs, retry, goos, world);
    ClosureUnique(all, seeds, s, r.results.Keys);
  }

  /** `SelectChecks`, with the set it selects. */
  method SelectAll(manifest: seq<Check>, options: Options, affected: set<string>)
    returns (some: bool, checks: seq<Check>, ghost seeds: set<string>, ghost s: set<string>)
    requires affected <= ById(manifest).Keys
    ensures some <==> !Unselectable(ById(manifest), options, affected)
    ensures seeds == Seeds(ById(manifest), options, affected)
    ensures some ==> Selects(ById(manifest), seeds, checks, s)
    ensures some ==> forall id :: id in s <==> Wanted(ById(manifest), options, affected, id)
    ensures some && options.onlyChecks != [] ==> Elems(options.onlyChecks) <= s
  {
    seeds, s := Seeds(ById(manifest), options, affected), {};
    var selected := SelectChecks(manifest, options, affected);
    if !selected.Checks? {
      return false, [], seeds, s;
    }
    s :| Selects(ById(manifest), seeds, selected.checks, s);
    AllWanted(ById(manifest), options, affected, s);
    return true, selected.checks, seeds, s;
  }

  lemma AllWanted(all: map<string, Check>, options: Options, affected: set<string>, s: set<string>)
    requires IsClosure(all, Seeds(all, options, affected), s)
    ensures forall id :: id in s <==> Wanted(all, options, affected, id)
  {
    forall id ensures id in s <==> Wanted(all, options, affected, id) {
      SelectedIffWanted(all, options, affected, s, id);
    }
  }

  /** Run a selection of a manifest that validated. */
  method RunSelection(all: map<string, Check>, ghost seeds: set<string>, checks: seq<Check>,
                      jobs: int, retry: bool, goos: string, world: World)
    returns (r: GateOutcome)
    requires KnownDeps(all) && exists rank :: IsRank(all, rank)
    requires exists s :: Selects(all, seeds, checks, s)
    ensures r.Ran? && IsClosure(all, seeds, r.results.Keys)
    ensures RunOf(all, checks, jobs, retry, goos, world, r.results, r.safetyStop)
    ensures r.safetyStop <==> exists id :: id in r.results && Stop(r.results[id])
    ensures forall id :: id in r.results ==> r.results[id].id == id
  {
    ghost var rank :| IsRank(all, rank);
    ghost var s :| Selects(all, seeds, checks, s);
    PlanOfSelection(all, checks, s);
    ghost var plan := PlanOf(checks, jobs, retry, goos);
    var outcome := Run(checks, jobs, retry, goos, world);
    ghost var t :| Leads(plan, world, t, outcome);
    SelectionIsWellFounded(all, rank, seeds, checks, s, plan);
    r := match outcome case Completed(results, stop) => Ran(results, stop) case NoProgress => Stuck;
    assert Leads(plan, world, t, Completed(r.results, r.safetyStop));
    FinalResults(plan, world, t);
  }

  /** When the loop ends, every selected check has exactly one result, filed under its ID. */
  lemma FinalResults(plan: Plan, world: World, t: seq<State>)
    requires plan.Valid() && IsRun(plan, world, t) && t[|t| - 1].pending == {}
    ensures var last := t[|t| - 1];
      && last.results.Keys == plan.byId.Keys
      && (last.safetyStop <==> exists id :: id in last.results && Stop(last.results[id]))
      && forall id :: id in last.results ==> last.results[id].id == id
  {
    RunKeeps(plan, world, t, |t| - 1);
    assert t[|t| - 1].pending + t[|t| - 1].results.Keys == t[|t| - 1].results.Keys;
  }
}
