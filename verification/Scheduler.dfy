/** The wave scheduler of `Runner.Run` (internal/testgate/runner.go): what one pass of its
    loop does, and what every run keeps. */
module Scheduler {
  import opened Lex
  import opened Manifest
  import opened Prelude
  import opened Execution

  /** The selected checks by ID and the options of the run. */
  datatype Plan = Plan(byId: map<string, Check>, jobs: nat, retry: bool, goos: string) {
    ghost predicate Valid() {
      jobs >= 1 && forall id :: id in byId ==> byId[id].id == id
    }
  }

  /** Everything outside the scheduler's control, any of it possible: whether the context is
      cancelled at the head of pass `k`, and what the commands of a check started in pass `k` do. */
  datatype World = World(cancelled: nat -> bool, observe: (nat, string) -> Observation)

  datatype State = State(pending: set<string>, results: map<string, Result>, safetyStop: bool)

  ghost function Start(plan: Plan): State {
    State(plan.byId.Keys, map[], false)
  }

  /** A prerequisite with this status does not hold anything back. */
  predicate Satisfied(s: Status): (ok: bool)
    ensures ok <==> s != Fail && s != Blocked && s != SafetyStop
  {
    s == Pass || s == Skipped
  }

  /** Non-local and adversarial checks do not start after a safety stop. */
  predicate Restricted(c: Check) {
    c.privilege != "local" || "adversarial" in c.tags
  }

  function BlockedResult(c: Check, status: Status, blockedBy: seq<string>): Result {
    Result(c.id, status, MissingPrerequisite, NotExecuted, NotRun, None, blockedBy)
  }

  // ----- dependencyBlock and dependenciesComplete

  /** The dependencies that have a result which is neither PASS nor SKIPPED. */
  function FailedDeps(deps: seq<string>, results: map<string, Result>): (failed: seq<string>)
    ensures forall d :: d in failed <==> d in deps && d in results && !Satisfied(results[d].status)
  {
    if deps == [] then []
    else
      var d := deps[|deps| - 1];
      var rest := FailedDeps(deps[..|deps| - 1], results);
      assert deps == deps[..|deps| - 1] + [d];
      if d in results && !Satisfied(results[d].status) then rest + [d] else rest
  }

  predicate Complete(c: Check, results: map<string, Result>) {
    forall d :: d in c.dependencies ==> d in results
  }

  // ----- the resolve pass: one sweep over the pending IDs

  function ResolveOne(plan: Plan, st: State, id: string): State {
    var c := Lookup(plan.byId, id);
    var failed := FailedDeps(c.dependencies, st.results);
    if st.safetyStop && Restricted(c) then
      st.(pending := st.pending - {id}, results := st.results[id := BlockedResult(c, SafetyStop, [])])
    else if failed != [] then
      st.(pending := st.pending - {id}, results := st.results[id := BlockedResult(c, Blocked, failed)])
    else st
  }

  function Resolve(plan: Plan, st: State, ids: seq<string>): State {
    if ids == [] then st
    else ResolveOne(plan, Resolve(plan, st, ids[..|ids| - 1]), ids[|ids| - 1])
  }

  // ----- picking the wave

  predicate Conflicts(ready: seq<Check>, c: Check) {
    exists r :: r in ready && (r.concurrencyGroup == c.concurrencyGroup || r.isolationKey == c.isolationKey)
  }

  function Pick(plan: Plan, results: map<string, Result>, ids: seq<string>): seq<Check> {
    if ids == [] then []
    else
      var ready := Pick(plan, results, ids[..|ids| - 1]);
      var c := Lookup(plan.byId, ids[|ids| - 1]);
      if |ready| < plan.jobs && Complete(c, results) && !Conflicts(ready, c) then ready + [c] else ready
  }

  // ----- one pass of the loop

  ghost function Outcome(plan: Plan, world: World, id: string, k: nat): Result {
    ResultOf(Lookup(plan.byId, id), world.observe(k, id), plan.retry, plan.goos)
  }

  ghost function Outcomes(plan: Plan, world: World, ids: set<string>, k: nat): map<string, Result> {
    map id | id in ids :: Outcome(plan, world, id, k)
  }

  ghost predicate AnyStops(plan: Plan, world: World, ids: set<string>, k: nat) {
    exists id :: id in ids && Outcome(plan, world, id, k).status == SafetyStop
  }

  /** All checks of the wave run; their results are stored under their IDs. */
  ghost function Settle(plan: Plan, world: World, st: State, ready: seq<Check>, k: nat): State {
    State(st.pending - IdSet(ready),
          st.results + Outcomes(plan, world, IdSet(ready), k),
          st.safetyStop || AnyStops(plan, world, IdSet(ready), k))
  }

  ghost function Interrupt(plan: Plan, st: State): State {
    State({}, st.results + map id | id in st.pending :: BlockedResult(Lookup(plan.byId, id), Blocked, []), st.safetyStop)
  }

  datatype Move = Finished(state: State) | Stalled | Continue(started: seq<Check>, state: State)

  ghost function Turn(plan: Plan, world: World, st: State, k: nat): Move {
    if world.cancelled(k) then Finished(Interrupt(plan, st))
    else
      var r := Resolve(plan, st, SortedIds(st.pending));
      if r.pending == {} then Finished(r)
      else
        var ready := Pick(plan, r.results, SortedIds(r.pending));
        if ready != [] then Continue(ready, Settle(plan, world, r, ready, k))
        else if r.pending != st.pending then Continue([], r)
        else Stalled
  }

  /** Turn `k` leads from loop head `a` to `b`. */
  ghost predicate Moves(plan: Plan, world: World, a: State, b: State, k: nat) {
    && a.pending != {}
    && var m := Turn(plan, world, a, k);
    && !m.Stalled? && m.state == b
  }

  ghost predicate Reaches(plan: Plan, world: World, t: seq<State>, i: int)
    requires 1 <= i < |t|
  {
    Moves(plan, world, t[i - 1], t[i], i - 1)
  }

  /** The loop-head states of a run, up to any point of it. */
  ghost predicate IsRun(plan: Plan, world: World, t: seq<State>) {
    t != [] && t[0] == Start(plan) && forall i :: 1 <= i < |t| ==> Reaches(plan, world, t, i)
  }

  /** The checks started in pass `k` of a run. */
  ghost function Started(plan: Plan, world: World, st: State, k: nat): seq<Check> {
    var m := Turn(plan, world, st, k);
    if m.Continue? then m.started else []
  }
}
