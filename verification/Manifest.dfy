/** The check manifest and its dependency graph (internal/testgate/model.go, manifest.go). */
module Manifest {
  import opened Prelude

  /** One node of the validation DAG; the fields the scheduler and `execute` read. */
  datatype Check = Check(
    id: string,
    dependencies: seq<string>,
    gates: seq<string>,
    privilege: string,
    isolationKey: string,
    concurrencyGroup: string,
    failureClass: string,
    resultParser: string,
    hasCleanup: bool,
    cleanupSafetyCritical: bool,
    safetyCritical: bool,
    platforms: seq<string>,
    tags: seq<string>,
    requiredTestPasses: seq<string>,
    scenario: Option<seq<string>>)  // the scenario's required assertions, when there is one

  /** What a lookup of an unknown ID yields in the source: the zero value. */
  const ZERO_CHECK := Check("", [], [], "", "", "", "", "", false, false, false, [], [], [], None)

  datatype Scenario = Scenario(
    id: string,
    dependencies: seq<string>,
    requiredPrivileges: string,
    isolationKey: string,
    failureClass: string,
    hasCleanup: bool,
    safetyCritical: bool,
    requiredTestPasses: seq<string>,
    validationForms: seq<string>,
    affectedPaths: seq<string>)

  function Prefixed(prefix: string, items: seq<string>): (r: seq<string>)
    ensures |r| == |items|
    ensures forall i :: 0 <= i < |items| ==> r[i] == prefix + items[i]
  {
    if items == [] then [] else [prefix + items[0]] + Prefixed(prefix, items[1..])
  }

  function ScenarioId(s: Scenario): string {
    "adversarial:" + s.id
  }

  /** `scenarioCheck`: every scenario becomes an adversarial check whose cleanup is safety critical. */
  function ScenarioCheck(s: Scenario): (c: Check)
    ensures "adversarial" in c.tags && c.cleanupSafetyCritical && c.scenario.Some?
  {
    Check(ScenarioId(s), s.dependencies,
          ["check-local", "check-adversarial", "check-merge-local", "ci-adversarial"],
          s.requiredPrivileges, s.isolationKey, "adversarial", s.failureClass,
          "go-test-json-required-passes", s.hasCleanup, true, s.safetyCritical, [],
          ["adversarial", "deterministic-replay"]
          + Prefixed("affected:", s.affectedPaths) + Prefixed("form:", s.validationForms),
          s.requiredTestPasses, Some(s.requiredTestPasses))
  }

  /** What a scenario's check takes over from it, and what it always is. */
  lemma ScenarioCarriedOver(s: Scenario)
    ensures var c := ScenarioCheck(s);
      && c.id == "adversarial:" + s.id && "adversarial" in c.tags && c.concurrencyGroup == "adversarial"
      && c.cleanupSafetyCritical && c.hasCleanup == s.hasCleanup && c.safetyCritical == s.safetyCritical
      && c.dependencies == s.dependencies && c.privilege == s.requiredPrivileges && c.isolationKey == s.isolationKey
      && c.resultParser == "go-test-json-required-passes" && c.requiredTestPasses == s.requiredTestPasses
      && c.scenario == Some(s.requiredTestPasses) && c.failureClass == s.failureClass && c.platforms == []
      && (forall p :: p in s.affectedPaths ==> "affected:" + p in c.tags)
      && (forall f :: f in s.validationForms ==> "form:" + f in c.tags)
  {
    var c, affected, forms := ScenarioCheck(s), Prefixed("affected:", s.affectedPaths), Prefixed("form:", s.validationForms);
    assert c.tags == ["adversarial", "deterministic-replay"] + affected + forms;
    forall p | p in s.affectedPaths ensures "affected:" + p in c.tags {
      var i :| 0 <= i < |s.affectedPaths| && s.affectedPaths[i] == p;
      assert affected[i] in affected;
    }
    forall f | f in s.validationForms ensures "form:" + f in c.tags {
      var i :| 0 <= i < |s.validationForms| && s.validationForms[i] == f;
      assert forms[i] in forms;
    }
  }

  /** The four gates that run scenarios. */
  lemma ScenarioGates(s: Scenario, gate: string)
    ensures gate in ScenarioCheck(s).gates <==>
      gate == "check-local" || gate == "check-adversarial" || gate == "check-merge-local" || gate == "ci-adversarial"
  {
  }

  function ScenarioChecks(ss: seq<Scenario>): (r: seq<Check>)
    ensures |r| == |ss|
    ensures forall i :: 0 <= i < |ss| ==> r[i] == ScenarioCheck(ss[i])
  {
    seq(|ss|, i requires 0 <= i < |ss| => ScenarioCheck(ss[i]))
  }

  /** The ID-indexed map every pass builds from a check list; a later duplicate wins. */
  function ById(checks: seq<Check>): (all: map<string, Check>)
    ensures forall id :: id in all ==> all[id].id == id && all[id] in checks
    ensures forall c :: c in checks ==> c.id in all
  {
    if checks == [] then map[]
    else
      var c := checks[|checks| - 1];
      ById(checks[..|checks| - 1])[c.id := c]
  }

  ghost function IdSet(checks: seq<Check>): set<string> {
    set c | c in checks :: c.id
  }

  ghost predicate DistinctIds(checks: seq<Check>) {
    forall i, j :: 0 <= i < j < |checks| ==> checks[i].id != checks[j].id
  }

  /** Looking up a declared check finds that very check: nothing is shadowed by a duplicate ID. */
  ghost predicate FindsEach(checks: seq<Check>) {
    forall c :: c in checks ==> c.id in ById(checks) && ById(checks)[c.id] == c
  }

  function Lookup(all: map<string, Check>, id: string): Check {
    if id in all then all[id] else ZERO_CHECK
  }

  function Deps(all: map<string, Check>, id: string): seq<string> {
    Lookup(all, id).dependencies
  }

  // ----- walks, cycles and ranks of the dependency graph

  ghost predicate Edge(all: map<string, Check>, w: seq<string>, i: int)
    requires 1 <= i < |w|
  {
    w[i] in Deps(all, w[i - 1])
  }

  /** Each element is listed as a dependency by the one before it. */
  ghost predicate Walk(all: map<string, Check>, w: seq<string>) {
    forall i :: 1 <= i < |w| ==> Edge(all, w, i)
  }

  ghost predicate ClosedWalk(all: map<string, Check>, w: seq<string>) {
    |w| >= 2 && Walk(all, w) && w[0] == w[|w| - 1]
  }

  /** A closed walk that meets no check twice before it closes. */
  ghost predicate SimpleCycle(all: map<string, Check>, w: seq<string>) {
    ClosedWalk(all, w) && forall i, j :: 0 <= i < j < |w| - 1 ==> w[i] != w[j]
  }

  ghost predicate Acyclic(all: map<string, Check>) {
    forall w :: !ClosedWalk(all, w)
  }

  /** `rank` drops along every dependency edge. */
  ghost predicate IsRank(all: map<string, Check>, rank: map<string, nat>) {
    forall id, d {:trigger d in Deps(all, id)} :: id in all && d in Deps(all, id) ==>
      id in rank && d in rank && rank[d] < rank[id]
  }

  lemma {:induction false} RankFallsAlongWalk(all: map<string, Check>, rank: map<string, nat>, w: seq<string>, k: nat)
    requires IsRank(all, rank) && Walk(all, w) && 1 <= k < |w|
    ensures w[0] in rank && w[k] in rank && rank[w[k]] < rank[w[0]]
  {
    assert Edge(all, w, k);
    if k > 1 {
      RankFallsAlongWalk(all, rank, w, k - 1);
    }
  }

  lemma RankedIsAcyclic(all: map<string, Check>, rank: map<string, nat>)
    requires IsRank(all, rank)
    ensures Acyclic(all)
  {
    forall w ensures !ClosedWalk(all, w) {
      if ClosedWalk(all, w) {
        RankFallsAlongWalk(all, rank, w, |w| - 1);
      }
    }
  }

  ghost predicate KnownDeps(all: map<string, Check>) {
    forall id, d {:trigger d in Deps(all, id)} :: id in all && d in Deps(all, id) ==> d in all
  }

  /** Everything an ID can name: the checks and the dependencies they list. */
  ghost function Universe(all: map<string, Check>): set<string> {
    all.Keys + set id, d | id in all && d in all[id].dependencies :: d
  }

  /** A walk of at least one edge leads from `a` to `b`. */
  ghost predicate WalkBetween(all: map<string, Check>, w: seq<string>, a: string, b: string) {
    |w| >= 2 && Walk(all, w) && w[0] == a && w[|w| - 1] == b
  }

  /** What a check depends on, directly or through others. */
  ghost function Needs(all: map<string, Check>, a: string): set<string> {
    set x | x in Universe(all) && exists w :: WalkBetween(all, w, a, x)
  }

  lemma StepNeeds(all: map<string, Check>, a: string, d: string, x: string)
    requires d in Deps(all, a)
    ensures x in Needs(all, d) ==> x in Needs(all, a)
  {
    if x in Needs(all, d) {
      var w :| WalkBetween(all, w, d, x);
      var v := [a] + w;
      forall i | 1 <= i < |v| ensures Edge(all, v, i) {
        if i > 1 { assert Edge(all, w, i - 1); }
      }
      assert WalkBetween(all, v, a, x);
    }
  }

  lemma NeedsShrink(all: map<string, Check>, a: string, d: string)
    requires Acyclic(all) && a in all && d in Deps(all, a)
    ensures |Needs(all, d)| < |Needs(all, a)|
  {
    assert WalkBetween(all, [a, d], a, d) by {
      assert Edge(all, [a, d], 1);
    }
    if d in Needs(all, d) {
      var w :| WalkBetween(all, w, d, d);
      assert ClosedWalk(all, w);
    }
    forall x ensures x in Needs(all, d) ==> x in Needs(all, a) {
      StepNeeds(all, a, d, x);
    }
    SmallerSet(Needs(all, d), Needs(all, a));
  }

  /** An acyclic graph has a rank: the number of checks each one needs. */
  lemma AcyclicIsRanked(all: map<string, Check>)
    requires Acyclic(all)
    ensures exists rank :: IsRank(all, rank)
  {
    var rank: map<string, nat> := map id | id in Universe(all) :: |Needs(all, id)|;
    forall id, d {:trigger d in Deps(all, id)} | id in all && d in Deps(all, id)
      ensures id in rank && d in rank && rank[d] < rank[id]
    {
      NeedsShrink(all, id, d);
    }
    assert IsRank(all, rank);
  }
}
