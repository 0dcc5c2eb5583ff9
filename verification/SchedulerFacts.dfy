/** What every turn of the scheduler loop keeps, and what follows for whole runs. */
module SchedulerFacts {
  import opened Lex
  import opened Manifest
  import opened Prelude
  import opened CycleFinding
  import opened Execution
  import opened Scheduler

  // ----- the resolve pass

  /** The selected IDs are split between pending and results. */
  ghost predicate Partition(plan: Plan, st: State) {
    st.pending !! st.results.Keys && st.pending + st.results.Keys == plan.byId.Keys
  }

  /** A result that this sweep wrote: the check did not start and did not pass. */
  ghost predicate Marked(r: Result) {
    r.cache == NotExecuted && (r.status == Blocked || r.status == SafetyStop)
  }

  /** `later` holds every result of `earlier` unchanged. */
  ghost predicate Keeps(earlier: map<string, Result>, later: map<string, Result>) {
    forall id :: id in earlier ==> id in later && later[id] == earlier[id]
  }

  ghost predicate OnlyMarks(ids: seq<string>, earlier: map<string, Result>, later: map<string, Result>) {
    forall id :: id in later && id !in earlier ==> id in ids && Marked(later[id])
  }

  lemma ResolveOneKeeps(plan: Plan, st: State, id: string)
    requires plan.Valid() && Partition(plan, st) && id in st.pending
    ensures var r := ResolveOne(plan, st, id);
      && Partition(plan, r) && r.safetyStop == st.safetyStop && Keeps(st.results, r.results)
      && (r == st || (r.pending == st.pending - {id} && r.results.Keys == st.results.Keys + {id} && Marked(r.results[id])))
  {
  }

  lemma {:induction false} ResolveKeeps(plan: Plan, st: State, ids: seq<string>)
    requires plan.Valid() && Partition(plan, st) && Sorted(ids) && AllIn(ids, st.pending)
    ensures var r := Resolve(plan, st, ids);
      && Partition(plan, r) && r.pending <= st.pending && r.safetyStop == st.safetyStop
      && Keeps(st.results, r.results) && OnlyMarks(ids, st.results, r.results)
      && forall id :: id in st.pending && id !in ids ==> id in r.pending
  {
    if ids == [] {
    } else {
      var front, id := ids[..|ids| - 1], ids[|ids| - 1];
      assert ids == front + [id];
      ResolveKeeps(plan, st, front);
      LastIsNew(ids);
      ResolveOneKeeps(plan, Resolve(plan, st, front), id);
    }
  }

  lemma LastIsNew(ids: seq<string>)
    requires Sorted(ids) && ids != []
    ensures ids[|ids| - 1] !in ids[..|ids| - 1]
  {
    var last := ids[|ids| - 1];
    if last in ids[..|ids| - 1] {
      var i :| 0 <= i < |ids| - 1 && ids[i] == last;
      Irreflexive(last);
    }
  }

  lemma LeftPending(plan: Plan, m: State, id: string, d: string)
    requires id in ResolveOne(plan, m, id).pending && d in Deps(plan.byId, id)
    ensures ResolveOne(plan, m, id) == m && (d in m.results ==> Satisfied(m.results[d].status))
  {
    assert d in m.results && !Satisfied(m.results[d].status) ==> d in FailedDeps(Lookup(plan.byId, id).dependencies, m.results);
  }

  /** A check that the sweep leaves pending: no safety stop holds it back, every dependency
      that already had a result is satisfied, and a dependency that the sweep itself marked
      sorts later. */
  lemma {:induction false} ResolveUnmarked(plan: Plan, st: State, ids: seq<string>, id: string, d: string)
    requires plan.Valid() && Partition(plan, st) && Sorted(ids) && AllIn(ids, st.pending)
    requires id in ids && id in Resolve(plan, st, ids).pending && d in Deps(plan.byId, id)
    ensures d in st.results ==> Satisfied(st.results[d].status)
    ensures d in Resolve(plan, st, ids).results && d !in st.results ==> Less(id, d)
  {
    var front, last := ids[..|ids| - 1], ids[|ids| - 1];
    assert ids == front + [last];
    ResolveKeeps(plan, st, front);
    LastIsNew(ids);
    var m := Resolve(plan, st, front);
    ResolveOneKeeps(plan, m, last);
    if id == last {
      LeftPending(plan, m, last, d);
    } else {
      ResolveUnmarked(plan, st, front, id, d);
      var i :| 0 <= i < |front| && front[i] == id;
      assert Less(ids[i], ids[|ids| - 1]);
    }
  }

  /** After a safety stop the sweep leaves no restricted check pending. */
  lemma {:induction false} ResolveStopsRestricted(plan: Plan, st: State, ids: seq<string>, id: string)
    requires plan.Valid() && Partition(plan, st) && Sorted(ids) && AllIn(ids, st.pending)
    requires st.safetyStop && id in ids && Restricted(plan.byId[id])
    ensures id !in Resolve(plan, st, ids).pending
  {
    var front, last := ids[..|ids| - 1], ids[|ids| - 1];
    assert ids == front + [last];
    ResolveKeeps(plan, st, front);
    LastIsNew(ids);
    ResolveOneKeeps(plan, Resolve(plan, st, front), last);
    if id != last {
      ResolveStopsRestricted(plan, st, front, id);
    }
  }

  /** A result for a check that was not started. */
  predicate NotStarted(r: Result, id: string, status: Status) {
    r.id == id && r.status == status && r.failureClass == MissingPrerequisite
    && r.cache == NotExecuted && r.cleanup == NotRun && r.retry == None
  }

  /** `names` lists prerequisites that neither passed nor were skipped, among them all that had such a
      result before. */
  ghost predicate NamesFailed(c: Check, before: map<string, Result>, after: map<string, Result>, names: seq<string>) {
    && names != []
    && (forall d :: d in c.dependencies && d in before && before[d].status != Pass && before[d].status != Skipped ==> d in names)
    && (forall d :: d in names ==>
          d in c.dependencies && d in after && after[d].status != Pass && after[d].status != Skipped)
  }

  /** What a sweep from `before` to `after` decides about the check: after a safety stop a non-local or
      adversarial check is stopped, whatever its prerequisites; otherwise a failed prerequisite blocks it;
      and it stays pending only if every prerequisite that had a result passed or was skipped. */
  ghost predicate Decided(c: Check, before: State, after: State) {
    var held := before.safetyStop && (c.privilege != "local" || "adversarial" in c.tags);
    && (held ==> c.id in after.results && NotStarted(after.results[c.id], c.id, SafetyStop) && after.results[c.id].blockedBy == [])
    && (!held && c.id in after.results ==>
          NotStarted(after.results[c.id], c.id, Blocked) && NamesFailed(c, before.results, after.results, after.results[c.id].blockedBy))
    && (c.id !in after.results ==>
          forall d :: d in c.dependencies && d in before.results ==> before.results[d].status == Pass || before.results[d].status == Skipped)
  }

  lemma ResolveOneDecides(plan: Plan, st: State, m: State, id: string)
    requires plan.Valid() && Partition(plan, m) && id in m.pending
    requires m.safetyStop == st.safetyStop && Keeps(st.results, m.results)
    ensures Decided(plan.byId[id], st, ResolveOne(plan, m, id))
  {
    ResolveOneKeeps(plan, m, id);
  }

  /** The sweep decides every check it visits. */
  lemma {:induction false} ResolveDecides(plan: Plan, st: State, ids: seq<string>, id: string)
    requires plan.Valid() && Partition(plan, st) && Sorted(ids) && AllIn(ids, st.pending) && id in ids
    ensures Decided(plan.byId[id], st, Resolve(plan, st, ids))
  {
    var front, last := ids[..|ids| - 1], ids[|ids| - 1];
    assert ids == front + [last];
    ResolveKeeps(plan, st, front);
    LastIsNew(ids);
    var m := Resolve(plan, st, front);
    if id == last {
      ResolveOneDecides(plan, st, m, id);
    } else {
      ResolveDecides(plan, st, front, id);
      ResolveOneKeeps(plan, m, last);
    }
  }

  // ----- picking the wave

  ghost predicate Exclusive(ready: seq<Check>) {
    forall i, j :: 0 <= i < j < |ready| ==>
      && ready[i].concurrencyGroup != ready[j].concurrencyGroup
      && ready[i].isolationKey != ready[j].isolationKey
      && ready[i].id != ready[j].id
  }

  /** The wave respects the job limit and never holds two checks that share a concurrency
      group or an isolation key; it holds only complete checks from the list. */
  lemma {:induction false} PickIsExclusive(plan: Plan, results: map<string, Result>, ids: seq<string>)
    requires plan.Valid() && Sorted(ids) && AllIn(ids, plan.byId.Keys)
    ensures var ready := Pick(plan, results, ids);
      && |ready| <= plan.jobs && Exclusive(ready)
      && forall c :: c in ready ==> c.id in ids && c == plan.byId[c.id] && Complete(c, results)
  {
    if ids == [] {
    } else {
      var front, last := ids[..|ids| - 1], ids[|ids| - 1];
      assert ids == front + [last];
      LastIsNew(ids);
      PickIsExclusive(plan, results, front);
    }
  }

  ghost predicate Shares(r: Check, c: Check) {
    r.concurrencyGroup == c.concurrencyGroup || r.isolationKey == c.isolationKey
  }

  /** The wave is filled in ID order: a complete check is left out only because an earlier one shares its
      concurrency group or isolation key, or because earlier ones fill the wave. */
  lemma {:induction false} PickIsMaximal(plan: Plan, results: map<string, Result>, ids: seq<string>, id: string)
    requires plan.Valid() && Sorted(ids) && AllIn(ids, plan.byId.Keys) && id in ids && Complete(plan.byId[id], results)
    ensures var ready := Pick(plan, results, ids);
      || plan.byId[id] in ready
      || (exists r :: r in ready && Less(r.id, id) && Shares(r, plan.byId[id]))
      || (|ready| >= plan.jobs && forall r :: r in ready ==> Less(r.id, id))
  {
    var front, last := ids[..|ids| - 1], ids[|ids| - 1];
    assert ids == front + [last];
    PickIsExclusive(plan, results, front);
    if id != last {
      PickIsMaximal(plan, results, front, id);
    } else {
      forall r | r in Pick(plan, results, front) ensures Less(r.id, id) {
        var i :| 0 <= i < |front| && front[i] == r.id;
        assert Less(ids[i], ids[|ids| - 1]);
      }
    }
  }

  // ----- one turn of the loop

  ghost function Swept(plan: Plan, st: State): State {
    Resolve(plan, st, SortedIds(st.pending))
  }

  ghost function Wave(plan: Plan, r: State): seq<Check> {
    Pick(plan, r.results, SortedIds(r.pending))
  }

  lemma SweptKeeps(plan: Plan, st: State)
    requires plan.Valid() && Partition(plan, st)
    ensures var r := Swept(plan, st);
      && Partition(plan, r) && r.pending <= st.pending && r.safetyStop == st.safetyStop
      && Keeps(st.results, r.results)
      && forall id :: id in r.results && id !in st.results ==> Marked(r.results[id])
  {
    ResolveKeeps(plan, st, SortedIds(st.pending));
  }

  lemma WaveFacts(plan: Plan, r: State)
    requires plan.Valid() && Partition(plan, r)
    ensures var ready := Wave(plan, r);
      && |ready| <= plan.jobs && Exclusive(ready)
      && (forall c :: c in ready ==> c.id in r.pending && c == plan.byId[c.id] && Complete(c, r.results))
      && IdSet(ready) <= r.pending
  {
    PickIsExclusive(plan, r.results, SortedIds(r.pending));
  }

  ghost predicate Stop(r: Result) {
    r.cache == Executed && r.status == SafetyStop
  }

  /** The latch holds exactly when a check that ran ended in SAFETY STOP. */
  ghost predicate Latched(st: State) {
    st.safetyStop <==> exists id :: id in st.results && Stop(st.results[id])
  }

  /** Results sit under their own ID, and a check that did not run is BLOCKED or stopped. */
  ghost predicate Filed(st: State) {
    forall id :: id in st.results ==>
      st.results[id].id == id && (st.results[id].cache == NotExecuted ==> Marked(st.results[id]))
  }

  ghost predicate Inv(plan: Plan, st: State) {
    Partition(plan, st) && Latched(st) && Filed(st)
  }

  lemma ResolveOneFiles(plan: Plan, st: State, id: string)
    requires plan.Valid() && Inv(plan, st) && id in st.pending
    ensures Inv(plan, ResolveOne(plan, st, id))
  {
    ResolveOneKeeps(plan, st, id);
    var r := ResolveOne(plan, st, id);
    assert forall x :: x in r.results && Stop(r.results[x]) ==> x in st.results && Stop(st.results[x]);
    assert forall x :: x in st.results && Stop(st.results[x]) ==> x in r.results && Stop(r.results[x]);
  }

  lemma {:induction false} ResolveFiles(plan: Plan, st: State, ids: seq<string>)
    requires plan.Valid() && Inv(plan, st) && Sorted(ids) && AllIn(ids, st.pending)
    ensures Inv(plan, Resolve(plan, st, ids))
  {
    if ids == [] {
    } else {
      var front, id := ids[..|ids| - 1], ids[|ids| - 1];
      assert ids == front + [id];
      ResolveFiles(plan, st, front);
      assert id in Resolve(plan, st, front).pending by {
        ResolveKeeps(plan, st, front);
        LastIsNew(ids);
      }
      ResolveOneFiles(plan, Resolve(plan, st, front), id);
    }
  }

  lemma SettleKeeps(plan: Plan, world: World, r: State, ready: seq<Check>, k: nat)
    requires plan.Valid() && Inv(plan, r) && IdSet(ready) <= r.pending
    ensures var s := Settle(plan, world, r, ready, k);
      Inv(plan, s) && Keeps(r.results, s.results) && s.pending == r.pending - IdSet(ready)
  {
    var s := Settle(plan, world, r, ready, k);
    assert s.results.Keys == r.results.Keys + IdSet(ready);
  }

  lemma InterruptKeeps(plan: Plan, st: State)
    requires plan.Valid() && Inv(plan, st)
    ensures Inv(plan, Interrupt(plan, st)) && Keeps(st.results, Interrupt(plan, st).results)
  {
    var s := Interrupt(plan, st);
    assert s.results.Keys == st.results.Keys + st.pending;
    if st.safetyStop {
      var id :| id in st.results && Stop(st.results[id]);
      assert Stop(s.results[id]);
    }
  }

  /** Results are only added, pending only shrinks, the latch never opens. */
  ghost predicate Advances(a: State, b: State) {
    Keeps(a.results, b.results) && b.pending <= a.pending && (a.safetyStop ==> b.safetyStop)
  }

  lemma AdvancesTransitive(a: State, b: State, c: State)
    requires Advances(a, b) && Advances(b, c)
    ensures Advances(a, c)
  {
  }

  lemma SweepKeeps(plan: Plan, st: State)
    requires plan.Valid() && Inv(plan, st)
    ensures Inv(plan, Swept(plan, st)) && Advances(st, Swept(plan, st))
  {
    ResolveFiles(plan, st, SortedIds(st.pending));
    SweptKeeps(plan, st);
  }

  lemma WaveKeeps(plan: Plan, world: World, r: State, k: nat)
    requires plan.Valid() && Inv(plan, r)
    ensures var ready := Wave(plan, r); var s := Settle(plan, world, r, ready, k);
      Inv(plan, s) && Advances(r, s) && (ready != [] ==> s.pending < r.pending)
  {
    var ready := Wave(plan, r);
    WaveFacts(plan, r);
    SettleKeeps(plan, world, r, ready, k);
    if ready != [] {
      assert ready[0].id in IdSet(ready);
    }
  }

  lemma UncancelledTurnKeeps(plan: Plan, world: World, st: State, k: nat)
    requires plan.Valid() && Inv(plan, st) && !world.cancelled(k) && !Turn(plan, world, st, k).Stalled?
    ensures var s := Turn(plan, world, st, k).state; Inv(plan, s) && Advances(st, s)
  {
    var r := Swept(plan, st);
    SweepKeeps(plan, st);
    WaveKeeps(plan, world, r, k);
    AdvancesTransitive(st, r, Settle(plan, world, r, Wave(plan, r), k));
  }

  lemma UncancelledTurnShrinks(plan: Plan, world: World, st: State, k: nat)
    requires plan.Valid() && Inv(plan, st) && st.pending != {} && !world.cancelled(k) && !Turn(plan, world, st, k).Stalled?
    ensures Turn(plan, world, st, k).state.pending < st.pending
  {
    var r := Swept(plan, st);
    SweepKeeps(plan, st);
    WaveKeeps(plan, world, r, k);
  }

  /** Every turn keeps the invariant, keeps all results, never opens the latch and settles
      at least one more check. */
  lemma TurnKeeps(plan: Plan, world: World, st: State, k: nat)
    requires plan.Valid() && Inv(plan, st) && st.pending != {}
    requires !Turn(plan, world, st, k).Stalled?
    ensures var s := Turn(plan, world, st, k).state;
      Inv(plan, s) && Advances(st, s) && s.pending < st.pending
    ensures Turn(plan, world, st, k).Finished? ==> Turn(plan, world, st, k).state.pending == {}
  {
    if world.cancelled(k) {
      InterruptKeeps(plan, st);
    } else {
      UncancelledTurnKeeps(plan, world, st, k);
      UncancelledTurnShrinks(plan, world, st, k);
    }
  }

  /** Every loop-head state of every run satisfies the invariant and lies beyond the one before it. */
  lemma {:induction false} RunKeeps(plan: Plan, world: World, t: seq<State>, i: nat)
    requires plan.Valid() && IsRun(plan, world, t) && i < |t|
    ensures Inv(plan, t[i])
    ensures i > 0 ==> Advances(t[i - 1], t[i]) && |t[i].pending| < |t[i - 1].pending|
  {
    if i > 0 {
      var a, k := t[i - 1], i - 1;
      assert Inv(plan, a) by { RunKeeps(plan, world, t, k); }
      assert Reaches(plan, world, t, i);
      TurnKeeps(plan, world, a, k);
      SmallerSet(t[i].pending, a.pending);
    } else {
      StartHolds(plan);
    }
  }

  lemma StartHolds(plan: Plan)
    ensures Inv(plan, Start(plan))
  {
  }

  /** Between two loop heads a run advances, settling at least one check a turn. */
  lemma {:induction false} RunProgresses(plan: Plan, world: World, t: seq<State>, i: nat, j: nat)
    requires plan.Valid() && IsRun(plan, world, t) && i <= j < |t|
    ensures Advances(t[i], t[j]) && |t[j].pending| + (j - i) <= |t[i].pending|
  {
    if i < j {
      RunProgresses(plan, world, t, i, j - 1);
      RunKeeps(plan, world, t, j);
      AdvancesTransitive(t[i], t[j - 1], t[j]);
    }
  }
}
