/** The scheduler's promises over whole runs. */
module SchedulerTheorems {
  import opened Lex
  import opened Manifest
  import opened CycleFinding
  import opened Selection
  import opened Execution
  import opened Scheduler
  import opened SchedulerFacts

  // ----- a validated manifest cannot stall the scheduler

  /** The selected checks can be ranked and depend only on selected checks. */
  ghost predicate WellFounded(plan: Plan) {
    ClosedOver(plan.byId, plan.byId.Keys) && exists rank :: IsRank(plan.byId, rank)
  }

  ghost function RankOf(rank: map<string, nat>, id: string): nat {
    if id in rank then rank[id] else 0
  }

  lemma {:induction false} LowestRank(s: set<string>, rank: map<string, nat>) returns (low: string)
    requires s != {}
    ensures low in s && forall id :: id in s ==> RankOf(rank, low) <= RankOf(rank, id)
  {
    var x :| x in s;
    if s == {x} {
      low := x;
    } else {
      var y := LowestRank(s - {x}, rank);
      low := if RankOf(rank, x) <= RankOf(rank, y) then x else y;
    }
  }

  /** A pending check of least rank has a result for every dependency. */
  lemma SomeCheckIsComplete(plan: Plan, r: State) returns (id: string)
    requires plan.Valid() && Partition(plan, r) && WellFounded(plan) && r.pending != {}
    ensures id in r.pending && Complete(plan.byId[id], r.results)
  {
    var rank :| IsRank(plan.byId, rank);
    id := LowestRank(r.pending, rank);
    forall d | d in plan.byId[id].dependencies ensures d in r.results {
      assert d in Deps(plan.byId, id);
      assert AllIn(Deps(plan.byId, id), plan.byId.Keys);
      assert RankOf(rank, d) < RankOf(rank, id);
    }
  }

  /** No turn stalls; every turn that does not end the run starts a check. */
  lemma NeverStalls(plan: Plan, world: World, st: State, k: nat)
    requires plan.Valid() && Inv(plan, st) && WellFounded(plan) && st.pending != {}
    ensures !Turn(plan, world, st, k).Stalled?
    ensures Turn(plan, world, st, k).Continue? ==> Turn(plan, world, st, k).started != []
  {
    if !world.cancelled(k) {
      SweptKeeps(plan, st);
      var r := Swept(plan, st);
      if r.pending != {} {
        var id := SomeCheckIsComplete(plan, r);
        PickIsMaximal(plan, r.results, SortedIds(r.pending), id);
      }
    }
  }

  /** A run has at most as many turns as selected checks. */
  lemma WavesBounded(plan: Plan, world: World, t: seq<State>)
    requires plan.Valid() && IsRun(plan, world, t)
    ensures |t| <= |plan.byId| + 1
  {
    RunProgresses(plan, world, t, 0, |t| - 1);
    assert |plan.byId.Keys| == |plan.byId|;
  }

  // ----- what a started check knows about its dependencies

  ghost predicate Fine(r: Result) {
    r.status == Pass || r.status == Skipped
  }

  lemma StartedWhere(plan: Plan, world: World, st: State, k: nat, c: Check)
    requires plan.Valid() && Inv(plan, st) && c in Started(plan, world, st, k)
    ensures !world.cancelled(k) && c in Wave(plan, Swept(plan, st))
    ensures c.id in Swept(plan, st).pending && c.id in st.pending && c == plan.byId[c.id]
    ensures Complete(c, Swept(plan, st).results)
  {
    SweptKeeps(plan, st);
    WaveFacts(plan, Swept(plan, st));
  }

  /** Every dependency of a started check has a result. One that had it at the loop head
      passed or was skipped; any other was marked by this very sweep, under a later ID. */
  lemma StartCondition(plan: Plan, world: World, st: State, k: nat, c: Check, d: string)
    requires plan.Valid() && Inv(plan, st) && c in Started(plan, world, st, k) && d in c.dependencies
    ensures d in Swept(plan, st).results
    ensures d in st.results ==> Fine(Swept(plan, st).results[d])
    ensures d !in st.results ==> Marked(Swept(plan, st).results[d]) && Less(c.id, d)
  {
    StartedWhere(plan, world, st, k, c);
    SweptKeeps(plan, st);
    assert d in Deps(plan.byId, c.id);
    ResolveUnmarked(plan, st, SortedIds(st.pending), c.id, d);
  }

  /** The started check's prerequisites all passed or were skipped exactly when each of them
      already had its result at the loop head. */
  lemma StartsSatisfiedIff(plan: Plan, world: World, st: State, k: nat, c: Check)
    requires plan.Valid() && Inv(plan, st) && c in Started(plan, world, st, k)
    ensures (forall d :: d in c.dependencies ==>
               d in Swept(plan, st).results && Fine(Swept(plan, st).results[d]))
       <==> (forall d :: d in c.dependencies ==> d in st.results)
  {
    forall d | d in c.dependencies
      ensures d in Swept(plan, st).results
      ensures Fine(Swept(plan, st).results[d]) <==> d in st.results
    {
      StartCondition(plan, world, st, k, c, d);
    }
  }

  /** Dependencies sort before their dependents. */
  ghost predicate SortsTopologically(plan: Plan) {
    forall id, d {:trigger d in Deps(plan.byId, id)} :: id in plan.byId && d in Deps(plan.byId, id) ==> Less(d, id)
  }

  /** If IDs sort topologically, nothing ever starts behind an unsatisfied prerequisite. */
  lemma SortedIdsStartSatisfied(plan: Plan, world: World, t: seq<State>, i: nat, c: Check, d: string)
    requires plan.Valid() && IsRun(plan, world, t) && SortsTopologically(plan) && i < |t|
    requires c in Started(plan, world, t[i], i) && d in c.dependencies
    ensures d in t[i].results && Fine(t[i].results[d])
  {
    RunKeeps(plan, world, t, i);
    StartCondition(plan, world, t[i], i, c, d);
    StartedWhere(plan, world, t[i], i, c);
    assert d in Deps(plan.byId, c.id);
    if d !in t[i].results {
      Asymmetric(c.id, d);
    }
    SweptKeeps(plan, t[i]);
  }

  // ----- exclusion, at-most-once, safety latch

  /** A wave never exceeds the job limit and never overlaps a group or an isolation key. */
  lemma WavesExclude(plan: Plan, world: World, t: seq<State>, i: nat)
    requires plan.Valid() && IsRun(plan, world, t) && i < |t|
    ensures |Started(plan, world, t[i], i)| <= plan.jobs && Exclusive(Started(plan, world, t[i], i))
  {
    var st := t[i];
    assert Inv(plan, st) by { RunKeeps(plan, world, t, i); }
    SweptKeeps(plan, st);
    WaveFacts(plan, Swept(plan, st));
  }

  lemma MoveAt(plan: Plan, world: World, t: seq<State>, i: nat)
    requires IsRun(plan, world, t) && i + 1 < |t|
    ensures Moves(plan, world, t[i], t[i + 1], i)
  {
    assert Reaches(plan, world, t, i + 1);
  }

  lemma FiledNext(plan: Plan, world: World, t: seq<State>, i: nat, c: Check)
    requires IsRun(plan, world, t) && i + 1 < |t| && c in Started(plan, world, t[i], i)
    ensures c.id in t[i + 1].results && t[i + 1].results[c.id] == Outcome(plan, world, c.id, i)
  {
    MoveAt(plan, world, t, i);
  }

  /** The result of a started check is the outcome of that start, ever after. */
  lemma ResultStays(plan: Plan, world: World, t: seq<State>, i: nat, j: nat, c: Check)
    requires plan.Valid() && IsRun(plan, world, t) && i < j < |t| && c in Started(plan, world, t[i], i)
    ensures c.id in t[j].results && t[j].results[c.id] == Outcome(plan, world, c.id, i)
  {
    var next := i + 1;
    assert c.id in t[next].results && t[next].results[c.id] == Outcome(plan, world, c.id, i) by {
      FiledNext(plan, world, t, i, c);
    }
    ResultKept(plan, world, t, next, j, c.id);
  }

  lemma ResultKept(plan: Plan, world: World, t: seq<State>, i: nat, j: nat, id: string)
    requires plan.Valid() && IsRun(plan, world, t) && i <= j < |t|
    ensures id in t[i].results ==> id in t[j].results && t[j].results[id] == t[i].results[id]
  {
    RunProgresses(plan, world, t, i, j);
  }

  lemma WithResultNotStarted(plan: Plan, world: World, st: State, k: nat, c: Check)
    requires plan.Valid() && Inv(plan, st) && c.id in st.results
    ensures c !in Started(plan, world, st, k)
  {
    if c in Started(plan, world, st, k) {
      StartedWhere(plan, world, st, k, c);
    }
  }

  lemma StartedIsDeclared(plan: Plan, world: World, t: seq<State>, i: nat, c: Check)
    requires plan.Valid() && IsRun(plan, world, t) && i < |t| && c in Started(plan, world, t[i], i)
    ensures Lookup(plan.byId, c.id) == c
  {
    var st := t[i];
    assert Inv(plan, st) by { RunKeeps(plan, world, t, i); }
    StartedWhere(plan, world, st, i, c);
  }

  /** No check starts in two different turns, and its one result, what executing it in that turn
      came to, is never overwritten. */
  lemma StartsOnce(plan: Plan, world: World, t: seq<State>, i: nat, j: nat, c: Check)
    requires plan.Valid() && IsRun(plan, world, t) && i < j < |t|
    requires c in Started(plan, world, t[i], i)
    ensures c !in Started(plan, world, t[j], j)
    ensures c.id in t[j].results
         && t[j].results[c.id] == ResultOf(c, world.observe(i, c.id), plan.retry, plan.goos)
  {
    StartedIsDeclared(plan, world, t, i, c);
    ResultStays(plan, world, t, i, j, c);
    RunKeeps(plan, world, t, j);
    WithResultNotStarted(plan, world, t[j], j, c);
  }

  /** Once a check that ran ended in SAFETY STOP, no non-local or adversarial check ever starts. */
  lemma SafetyStopLatches(plan: Plan, world: World, t: seq<State>, i: nat, j: nat, id: string, c: Check)
    requires plan.Valid() && IsRun(plan, world, t) && i <= j < |t|
    requires id in t[i].results && Stop(t[i].results[id])
    requires c in Started(plan, world, t[j], j)
    ensures c.privilege == "local" && "adversarial" !in c.tags
  {
    RunKeeps(plan, world, t, i);
    RunProgresses(plan, world, t, i, j);
    RunKeeps(plan, world, t, j);
    StartedWhere(plan, world, t[j], j, c);
    if Restricted(c) {
      ResolveStopsRestricted(plan, t[j], SortedIds(t[j].pending), c.id);
    }
  }

  // ----- why a check did not start

  /** The resolve pass of every turn that is not cancelled decides every pending check. */
  lemma SweepDecides(plan: Plan, st: State, id: string)
    requires plan.Valid() && Inv(plan, st) && id in st.pending
    ensures Decided(plan.byId[id], st, Swept(plan, st))
  {
    ResolveDecides(plan, st, SortedIds(st.pending), id);
  }

  /** A cancelled turn starts nothing and ends the run: what has a result keeps it, everything else is
      BLOCKED without naming a prerequisite. */
  lemma CancelledTurnBlocksTheRest(plan: Plan, world: World, st: State, k: nat)
    requires plan.Valid() && Inv(plan, st) && world.cancelled(k)
    ensures Turn(plan, world, st, k).Finished? && Started(plan, world, st, k) == []
    ensures var s := Turn(plan, world, st, k).state;
      && s.pending == {} && s.safetyStop == st.safetyStop && s.results.Keys == plan.byId.Keys
      && (forall id :: id in st.results ==> s.results[id] == st.results[id])
      && (forall id :: id in st.pending ==> NotStarted(s.results[id], id, Blocked) && s.results[id].blockedBy == [])
  {
    assert Interrupt(plan, st).results.Keys == st.results.Keys + st.pending;
  }

  /** Without cancellation a check that did not run either is restricted and met the latched stop,
      or names prerequisites that ended neither PASS nor SKIPPED. */
  ghost predicate HasReason(plan: Plan, st: State, id: string)
    requires id in st.results
  {
    var r := st.results[id];
    r.cache == NotExecuted ==>
      || (r.status == SafetyStop && st.safetyStop
          && (Lookup(plan.byId, id).privilege != "local" || "adversarial" in Lookup(plan.byId, id).tags))
      || (r.status == Blocked && r.blockedBy != [] && forall d :: d in r.blockedBy ==>
            d in Deps(plan.byId, id) && d in st.results && !Fine(st.results[d]))
  }

  ghost predicate Justified(plan: Plan, st: State) {
    forall id :: id in st.results ==> HasReason(plan, st, id)
  }

  lemma ReasonLasts(plan: Plan, a: State, b: State, id: string)
    requires Advances(a, b) && id in a.results && HasReason(plan, a, id)
    ensures HasReason(plan, b, id)
  {
  }

  lemma ResolveOneJustifies(plan: Plan, st: State, id: string)
    requires plan.Valid() && Partition(plan, st) && id in st.pending && Justified(plan, st)
    ensures Justified(plan, ResolveOne(plan, st, id)) && Advances(st, ResolveOne(plan, st, id))
  {
    ResolveOneKeeps(plan, st, id);
    var r := ResolveOne(plan, st, id);
    forall x | x in r.results ensures HasReason(plan, r, x) {
      if x in st.results { ReasonLasts(plan, st, r, x); }
    }
  }

  lemma {:induction false} ResolveJustifies(plan: Plan, st: State, ids: seq<string>)
    requires plan.Valid() && Partition(plan, st) && Sorted(ids) && AllIn(ids, st.pending) && Justified(plan, st)
    ensures Justified(plan, Resolve(plan, st, ids))
  {
    if ids == [] {
    } else {
      var front, id := ids[..|ids| - 1], ids[|ids| - 1];
      assert ids == front + [id];
      ResolveJustifies(plan, st, front);
      ResolveKeeps(plan, st, front);
      LastIsNew(ids);
      ResolveOneJustifies(plan, Resolve(plan, st, front), id);
    }
  }

  lemma SettleJustifies(plan: Plan, world: World, r: State, ready: seq<Check>, k: nat)
    requires plan.Valid() && Inv(plan, r) && Justified(plan, r) && IdSet(ready) <= r.pending
    ensures Justified(plan, Settle(plan, world, r, ready, k))
  {
    var s := Settle(plan, world, r, ready, k);
    SettleKeeps(plan, world, r, ready, k);
    forall x | x in s.results ensures HasReason(plan, s, x) {
      if x in IdSet(ready) {
        assert s.results[x] == Outcome(plan, world, x, k);
      } else {
        ReasonLasts(plan, r, s, x);
      }
    }
  }

  lemma MoveJustifies(plan: Plan, world: World, a: State, b: State, k: nat)
    requires plan.Valid() && Inv(plan, a) && Moves(plan, world, a, b, k) && !world.cancelled(k) && Justified(plan, a)
    ensures Justified(plan, b)
  {
    ResolveJustifies(plan, a, SortedIds(a.pending));
    SweepKeeps(plan, a);
    var r := Swept(plan, a);
    WaveFacts(plan, r);
    SettleJustifies(plan, world, r, Wave(plan, r), k);
  }

  /** A run that is not cancelled blocks only what a failed prerequisite or a safety stop holds back. */
  lemma {:induction false} BlocksOnlyForAReason(plan: Plan, world: World, t: seq<State>, i: nat)
    requires plan.Valid() && IsRun(plan, world, t) && i < |t| && forall k: nat :: k < i ==> !world.cancelled(k)
    ensures Justified(plan, t[i])
  {
    if i > 0 {
      BlocksOnlyForAReason(plan, world, t, i - 1);
      RunKeeps(plan, world, t, i - 1);
      assert Reaches(plan, world, t, i);
      MoveJustifies(plan, world, t[i - 1], t[i], i - 1);
    }
  }
}
