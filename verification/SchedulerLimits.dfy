/** Where the scheduler's natural promises end: a run in which a check starts behind a BLOCKED
    prerequisite, and why validation is what prevents a stall. */
module SchedulerLimits {
  import opened Lex
  import opened Manifest
  import opened CycleFinding
  import opened Selection
  import opened Execution
  import opened Scheduler
  import opened SchedulerFacts
  import opened SchedulerTheorems
  import opened Runner

  // ----- what would happen to a cyclic selection

  /** Nothing is cancelled and everything that runs passes or is skipped. */
  ghost predicate AllPass(plan: Plan, world: World) {
    (forall k: nat :: !world.cancelled(k)) && forall k: nat, id :: Satisfied(Outcome(plan, world, id, k).status)
  }

  ghost predicate Untroubled(st: State) {
    !st.safetyStop && forall id :: id in st.results ==> Satisfied(st.results[id].status)
  }

  lemma {:induction false} NothingFailed(deps: seq<string>, results: map<string, Result>)
    requires forall d :: d in deps && d in results ==> Satisfied(results[d].status)
    ensures FailedDeps(deps, results) == []
  {
    if deps == [] {
    } else {
      NothingFailed(deps[..|deps| - 1], results);
    }
  }

  lemma {:induction false} UntroubledSweep(plan: Plan, st: State, ids: seq<string>)
    requires Untroubled(st)
    ensures Resolve(plan, st, ids) == st
  {
    if ids == [] {
    } else {
      UntroubledSweep(plan, st, ids[..|ids| - 1]);
      var c := Lookup(plan.byId, ids[|ids| - 1]);
      NothingFailed(c.dependencies, st.results);
    }
  }

  /** A check of the cycle waits for the next one, so none of them is picked. */
  lemma CycleIsNotPicked(plan: Plan, st: State, w: seq<string>, j: nat)
    requires plan.Valid() && Partition(plan, st) && ClosedWalk(plan.byId, w) && AllIn(w, st.pending) && j < |w|
    ensures w[j] !in IdSet(Wave(plan, st))
  {
    WaveFacts(plan, st);
    var k := if j == |w| - 1 then 0 else j;
    assert Edge(plan.byId, w, k + 1);
    assert w[k + 1] in st.pending;
  }

  lemma CycleSurvivesTurn(plan: Plan, world: World, a: State, b: State, k: nat, w: seq<string>)
    requires plan.Valid() && AllPass(plan, world) && Partition(plan, a) && Moves(plan, world, a, b, k)
    requires ClosedWalk(plan.byId, w) && Untroubled(a) && AllIn(w, a.pending)
    ensures Untroubled(b) && AllIn(w, b.pending)
  {
    UntroubledSweep(plan, a, SortedIds(a.pending));
    forall x | x in w ensures x !in IdSet(Wave(plan, a)) {
      var j :| 0 <= j < |w| && w[j] == x;
      CycleIsNotPicked(plan, a, w, j);
    }
  }

  /** However well the other checks do, the checks of a dependency cycle stay pending. */
  lemma {:induction false} CycleStaysPending(plan: Plan, world: World, t: seq<State>, i: nat, w: seq<string>)
    requires plan.Valid() && AllPass(plan, world) && IsRun(plan, world, t) && i < |t|
    requires ClosedWalk(plan.byId, w) && AllIn(w, plan.byId.Keys)
    ensures Untroubled(t[i]) && AllIn(w, t[i].pending)
  {
    if i > 0 {
      var a, b := t[i - 1], t[i];
      CycleStaysPending(plan, world, t, i - 1, w);
      assert Partition(plan, a) by { RunKeeps(plan, world, t, i - 1); }
      assert Moves(plan, world, a, b, i - 1) by { assert Reaches(plan, world, t, i); }
      CycleSurvivesTurn(plan, world, a, b, i - 1, w);
    }
  }

  /** So with every outcome favourable a cyclic selection never drains, and ends in the "made no
      progress" error. */
  lemma CyclicNeverFinishes(plan: Plan, world: World, t: seq<State>, outcome: RunOutcome, w: seq<string>)
    requires plan.Valid() && AllPass(plan, world) && Leads(plan, world, t, outcome) && ClosedWalk(plan.byId, w)
    ensures outcome == NoProgress
  {
    CycleInside(plan.byId, w);
    CycleStaysPending(plan, world, t, |t| - 1, w);
    assert w[0] in t[|t| - 1].pending;
  }

  /** The checks of a closed walk are all declared: only a declared check lists dependencies. */
  lemma CycleInside(all: map<string, Check>, w: seq<string>)
    requires ClosedWalk(all, w)
    ensures AllIn(w, all.Keys)
  {
    forall x | x in w ensures x in all {
      var i :| 0 <= i < |w| && w[i] == x;
      assert Edge(all, w, if i == |w| - 1 then 1 else i + 1);
    }
  }

  /** A command that does everything right. */
  function Clean(check: Check): Command {
    Command(0, false, false, false, seq(|Required(check)|, i requires 0 <= i < |Required(check)| => Event("pass", Required(check)[i])), false)
  }

  function CleanRun(check: Check): Observation {
    Observation(Clean(check), Clean(check), Clean(check), Clean(check))
  }

  lemma CleanRunPasses(check: Check, retry: bool, goos: string)
    ensures Satisfied(ResultOf(check, CleanRun(check), retry, goos).status)
  {
    var lines, names := Clean(check).lines, Required(check);
    forall name | name in names ensures Event("pass", name) in lines {
      var i :| 0 <= i < |names| && names[i] == name;
      assert lines[i] == Event("pass", name);
    }
    assert ParserAccepts(check, Clean(check));
  }

  /** The world in which nothing goes wrong. */
  ghost function Favourable(plan: Plan): World {
    World(_ => false, (_, id) => CleanRun(Lookup(plan.byId, id)))
  }

  lemma FavourablePasses(plan: Plan)
    ensures AllPass(plan, Favourable(plan))
  {
    forall k: nat, id ensures Satisfied(Outcome(plan, Favourable(plan), id, k).status) {
      CleanRunPasses(Lookup(plan.byId, id), plan.retry, plan.goos);
    }
  }

  ghost predicate Over(plan: Plan, world: World, t: seq<State>)
    requires t != []
  {
    t[|t| - 1].pending == {} || Turn(plan, world, t[|t| - 1], |t| - 1).Stalled?
  }

  lemma EndsHere(plan: Plan, world: World, t: seq<State>) returns (outcome: RunOutcome)
    requires IsRun(plan, world, t) && Over(plan, world, t)
    ensures Leads(plan, world, t, outcome)
  {
    var last := t[|t| - 1];
    outcome := if last.pending == {} then Completed(last.results, last.safetyStop) else NoProgress;
  }

  /** Every run can be continued to an outcome. */
  lemma {:induction false} RunEnds(plan: Plan, world: World, t: seq<State>) returns (u: seq<State>, outcome: RunOutcome)
    requires plan.Valid() && IsRun(plan, world, t)
    ensures Leads(plan, world, u, outcome)
    decreases |plan.byId| + 1 - |t|
  {
    if Over(plan, world, t) {
      u := t;
      outcome := EndsHere(plan, world, t);
    } else {
      var more := t + [Turn(plan, world, t[|t| - 1], |t| - 1).state];
      ExtendRun(plan, world, t, more[|t|]);
      WavesBounded(plan, world, more);
      u, outcome := RunEnds(plan, world, more);
    }
  }

  lemma AcyclicGoesOn(plan: Plan, world: World, t: seq<State>)
    requires plan.Valid() && WellFounded(plan) && IsRun(plan, world, t) && t[|t| - 1].pending != {}
    ensures !Turn(plan, world, t[|t| - 1], |t| - 1).Stalled?
  {
    var last, k := t[|t| - 1], |t| - 1;
    assert Inv(plan, last) by { RunKeeps(plan, world, t, k); }
    NeverStalls(plan, world, last, k);
  }

  lemma AcyclicCannotStall(plan: Plan, world: World, t: seq<State>)
    requires plan.Valid() && WellFounded(plan)
    ensures !Leads(plan, world, t, NoProgress)
  {
    if IsRun(plan, world, t) && t[|t| - 1].pending != {} {
      AcyclicGoesOn(plan, world, t);
    }
  }

  lemma CyclicCanStall(plan: Plan, w: seq<string>)
    requires plan.Valid() && ClosedWalk(plan.byId, w)
    ensures exists world, t :: Leads(plan, world, t, NoProgress)
  {
    var world := Favourable(plan);
    FavourablePasses(plan);
    var t, outcome := RunEnds(plan, world, [Start(plan)]);
    CyclicNeverFinishes(plan, world, t, outcome, w);
    assert Leads(plan, world, t, NoProgress);
  }

  /** A closed selection can end in the "made no progress" error if and only if it has a cycle. */
  lemma StallsIff(plan: Plan)
    requires plan.Valid() && ClosedOver(plan.byId, plan.byId.Keys)
    ensures (exists world, t :: Leads(plan, world, t, NoProgress)) <==> !Acyclic(plan.byId)
  {
    if Acyclic(plan.byId) {
      AcyclicIsRanked(plan.byId);
      forall world, t ensures !Leads(plan, world, t, NoProgress) {
        AcyclicCannotStall(plan, world, t);
      }
    } else {
      var w :| ClosedWalk(plan.byId, w);
      CyclicCanStall(plan, w);
    }
  }

  // ----- a check that starts behind a blocked prerequisite

  lemma ResolveSnoc(plan: Plan, st: State, ids: seq<string>, id: string)
    ensures Resolve(plan, st, ids + [id]) == ResolveOne(plan, Resolve(plan, st, ids), id)
  {
    assert (ids + [id])[..|ids + [id]| - 1] == ids;
  }

  lemma Listing(keys: set<string>, ids: seq<string>)
    requires Sorted(ids) && Elems(ids) == keys
    ensures SortedIds(keys) == ids
  {
    SortedUnique(SortedIds(keys), ids);
  }

  /** `a` needs `b`, `b` needs `c`, and the IDs sort against the dependencies. */
  ghost predicate Chain(plan: Plan, a: string, b: string, c: string) {
    && plan.Valid() && Less(a, b) && Less(b, c) && Less(a, c)
    && plan.byId.Keys == {a, b, c}
    && plan.byId[a].dependencies == [b] && plan.byId[b].dependencies == [c] && plan.byId[c].dependencies == []
  }

  lemma ChainListing(a: string, b: string, c: string)
    requires Less(a, b) && Less(b, c) && Less(a, c)
    ensures SortedIds({a, b, c}) == [a] + [b] + [c]
  {
    assert Elems([a] + [b] + [c]) == {a, b, c};
    Listing({a, b, c}, [a] + [b] + [c]);
  }

  lemma PickLeaves(plan: Plan, results: map<string, Result>, ids: seq<string>, id: string, d: string)
    requires d in Lookup(plan.byId, id).dependencies && d !in results
    ensures Pick(plan, results, ids + [id]) == Pick(plan, results, ids)
  {
  }

  lemma PickTakes(plan: Plan, results: map<string, Result>, ids: seq<string>, id: string)
    requires plan.jobs >= 1 && Pick(plan, results, ids) == [] && Complete(Lookup(plan.byId, id), results)
    ensures Pick(plan, results, ids + [id]) == [Lookup(plan.byId, id)]
  {
  }

  lemma ChainFirstWave(plan: Plan, a: string, b: string, c: string)
    requires Chain(plan, a, b, c)
    ensures Wave(plan, Start(plan)) == [plan.byId[c]]
  {
    ChainListing(a, b, c);
    assert [] + [a] == [a];
    PickLeaves(plan, map[], [], a, b);
    PickLeaves(plan, map[], [a], b, c);
    PickTakes(plan, map[], [a] + [b], c);
  }

  /** Only `c` has run, and it failed. */
  ghost predicate AfterFailure(st: State, a: string, b: string, c: string) {
    st.pending == {a, b} && st.results.Keys == {c} && st.results[c].status == Fail && !st.safetyStop
  }

  lemma ChainFirstTurn(plan: Plan, world: World, a: string, b: string, c: string) returns (next: State)
    requires Chain(plan, a, b, c) && !world.cancelled(0) && Outcome(plan, world, c, 0).status == Fail
    ensures Turn(plan, world, Start(plan), 0) == Continue([plan.byId[c]], next) && AfterFailure(next, a, b, c)
  {
    var st, ready := Start(plan), [plan.byId[c]];
    UntroubledSweep(plan, st, SortedIds(st.pending));
    ChainFirstWave(plan, a, b, c);
    next := Settle(plan, world, st, ready, 0);
    ChainSettles(plan, world, a, b, c);
  }

  lemma ChainSettles(plan: Plan, world: World, a: string, b: string, c: string)
    requires Chain(plan, a, b, c) && Outcome(plan, world, c, 0).status == Fail
    ensures AfterFailure(Settle(plan, world, Start(plan), [plan.byId[c]], 0), a, b, c)
  {
    Asymmetric(b, c);
    Asymmetric(a, c);
    assert IdSet([plan.byId[c]]) == {c};
    assert plan.byId.Keys - {c} == {a, b};
  }

  lemma ChainBlocks(plan: Plan, a: string, b: string, c: string, st: State)
    requires Chain(plan, a, b, c) && AfterFailure(st, a, b, c)
    ensures ResolveOne(plan, st, a) == st
    ensures var r := ResolveOne(plan, st, b);
      r.pending == {a} && r.results.Keys == {b, c} && r.results[b].status == Blocked
  {
    Asymmetric(a, b);
    Asymmetric(b, c);
    NothingFailed([b], st.results);
    assert c in FailedDeps([c], st.results);
  }

  lemma ChainSecondSweep(plan: Plan, a: string, b: string, c: string, st: State)
    requires Chain(plan, a, b, c) && AfterFailure(st, a, b, c)
    ensures var r := Swept(plan, st);
      r.pending == {a} && r.results.Keys == {b, c} && r.results[b].status == Blocked
  {
    assert Elems([a] + [b]) == {a, b};
    Listing({a, b}, [a] + [b]);
    ChainBlocks(plan, a, b, c, st);
    assert [] + [a] == [a];
    ResolveSnoc(plan, st, [], a);
    ResolveSnoc(plan, st, [a], b);
  }

  lemma ChainSecondWave(plan: Plan, a: string, b: string, c: string, r: State)
    requires Chain(plan, a, b, c) && r.pending == {a} && b in r.results
    ensures Wave(plan, r) == [plan.byId[a]]
  {
    assert Elems([a]) == {a};
    Listing({a}, [a]);
    assert [] + [a] == [a];
    PickTakes(plan, r.results, [], a);
  }

  /** When `c` fails, the sweep passes `a` before it blocks `b`, and `a` starts behind the
      BLOCKED `b`. */
  lemma StartsBehindBlocked(plan: Plan, world: World, a: string, b: string, c: string) returns (t: seq<State>)
    requires Chain(plan, a, b, c) && !world.cancelled(0) && !world.cancelled(1)
    requires Outcome(plan, world, c, 0).status == Fail
    ensures |t| == 2 && IsRun(plan, world, t) && plan.byId[a] in Started(plan, world, t[1], 1)
    ensures b in plan.byId[a].dependencies
    ensures b in Swept(plan, t[1]).results && Swept(plan, t[1]).results[b].status == Blocked
  {
    var next := ChainFirstTurn(plan, world, a, b, c);
    t := [Start(plan), next];
    assert Reaches(plan, world, t, 1);
    ChainSecondSweep(plan, a, b, c, next);
    ChainSecondWave(plan, a, b, c, Swept(plan, next));
  }

  lemma {:induction false} LessLonger(b: string, c: char)
    ensures Less(b, b + [c])
  {
    if b == "" {
    } else {
      LessLonger(b[1..], c);
      assert (b + [c])[1..] == b[1..] + [c];
    }
  }

  function Bare(id: string, deps: seq<string>): Check {
    ZERO_CHECK.(id := id, dependencies := deps)
  }

  /** For any two IDs in ascending order there are such a plan and a world in which its last check fails. */
  lemma ChainExists(a: string, b: string) returns (plan: Plan, world: World, c: string)
    requires Less(a, b)
    ensures Chain(plan, a, b, c) && !world.cancelled(0) && !world.cancelled(1)
    ensures Outcome(plan, world, c, 0).status == Fail
  {
    c := b + "x";
    LessLonger(b, 'x');
    Transitive(a, b, c);
    Asymmetric(a, b);
    Asymmetric(b, c);
    Asymmetric(a, c);
    plan := Plan(map[a := Bare(a, [b]), b := Bare(b, [c]), c := Bare(c, [])], 1, false, "linux");
    var broken := Command(1, false, false, false, [], false);
    world := World(_ => false, (_, _) => Observation(broken, broken, broken, broken));
  }

  /** In turn `i` of a run `a` starts although its prerequisite `b` neither passed nor was skipped. */
  ghost predicate StartsBehind(plan: Plan, world: World, t: seq<State>, i: nat, a: string, b: string) {
    && plan.Valid() && IsRun(plan, world, t) && i < |t|
    && a in plan.byId && b in plan.byId[a].dependencies && plan.byId[a] in Started(plan, world, t[i], i)
    && (b in Swept(plan, t[i]).results ==> !Satisfied(Swept(plan, t[i]).results[b].status))
  }

  /** Whether that can happen is decided by the two names alone: some plan and world start `a` behind
      an unsatisfied `b` if and only if `a` sorts before `b`. */
  lemma StartsBehindIff(a: string, b: string)
    ensures (exists plan, world, t, i :: StartsBehind(plan, world, t, i, a, b)) <==> Less(a, b)
  {
    if plan, world, t, i :| StartsBehind(plan, world, t, i, a, b) {
      RunKeeps(plan, world, t, i);
      StartCondition(plan, world, t[i], i, plan.byId[a], b);
    }
    if Less(a, b) {
      var plan, world, c := ChainExists(a, b);
      var t := StartsBehindBlocked(plan, world, a, b, c);
      assert StartsBehind(plan, world, t, 1, a, b);
    }
  }
}
