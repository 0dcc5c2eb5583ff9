/** The graph part of `Validate` (internal/testgate/manifest.go): what a manifest must
    satisfy before `LoadManifests` hands it to the scheduler. */
module Validation {
  import opened Manifest
  import opened Prelude
  import opened CycleFinding

  datatype Problem =
    | DuplicateCheck(id: string)
    | DuplicateScenario(id: string)
    | UnknownDependency(id: string, dep: string)
    | DependencyCycle(cycle: seq<string>)

  /** The check list that `LoadManifests` returns: the declared checks, then one check per scenario. */
  function Loaded(checks: seq<Check>, scenarios: seq<Scenario>): seq<Check> {
    checks + ScenarioChecks(scenarios)
  }

  /** Nothing declared is lost. */
  lemma LoadedHolds(checks: seq<Check>, scenarios: seq<Scenario>)
    ensures var all := Loaded(checks, scenarios);
      && |all| == |checks| + |scenarios|
      && (forall i :: 0 <= i < |checks| ==> all[i] == checks[i])
      && (forall i :: 0 <= i < |scenarios| ==> all[|checks| + i] == ScenarioCheck(scenarios[i]))
  {
  }

  ghost predicate ValidGraph(checks: seq<Check>) {
    && DistinctIds(checks)
    && KnownDeps(ById(checks))
    && Acyclic(ById(checks))
  }

  lemma IdSetSnoc(checks: seq<Check>, c: Check)
    ensures IdSet(checks + [c]) == IdSet(checks) + {c.id}
    ensures DistinctIds(checks + [c]) <==> DistinctIds(checks) && c.id !in IdSet(checks)
  {
    var cs := checks + [c];
    forall d | d in cs ensures d.id in IdSet(checks) + {c.id} {
      assert d in checks || d == c;
    }
    assert c in cs && forall d :: d in checks ==> d in cs;
    if DistinctIds(cs) {
      forall i, j | 0 <= i < j < |checks| ensures checks[i].id != checks[j].id {
        assert cs[i].id != cs[j].id;
      }
      forall d | d in checks ensures d.id != c.id {
        var i :| 0 <= i < |checks| && checks[i] == d;
        assert cs[i].id != cs[|checks|].id;
      }
    }
  }

  /** Duplicate detection over the declared checks, then over the scenarios. */
  method DuplicateProblems(checks: seq<Check>, scenarios: seq<Scenario>) returns (problems: seq<Problem>)
    ensures problems == [] <==> DistinctIds(Loaded(checks, scenarios))
  {
    problems := [];
    var seen: set<string> := {};
    for i := 0 to |checks|
      invariant seen == IdSet(checks[..i])
      invariant problems == [] <==> DistinctIds(checks[..i])
    {
      if checks[i].id in seen {
        problems := problems + [DuplicateCheck(checks[i].id)];
      }
      seen := seen + {checks[i].id};
      IdSetSnoc(checks[..i], checks[i]);
      TakeSnoc(checks, i);
    }
    TakeAll(checks);
    assert Loaded(checks, scenarios[..0]) == checks;
    for i := 0 to |scenarios|
      invariant seen == IdSet(Loaded(checks, scenarios[..i]))
      invariant problems == [] <==> DistinctIds(Loaded(checks, scenarios[..i]))
    {
      if ScenarioId(scenarios[i]) in seen {
        problems := problems + [DuplicateScenario(scenarios[i].id)];
      }
      seen := seen + {ScenarioId(scenarios[i])};
      IdSetSnoc(Loaded(checks, scenarios[..i]), ScenarioCheck(scenarios[i]));
      LoadedSnoc(checks, scenarios, i);
    }
    TakeAll(scenarios);
  }

  lemma LoadedSnoc(checks: seq<Check>, scenarios: seq<Scenario>, i: nat)
    requires i < |scenarios|
    ensures Loaded(checks, scenarios[..i + 1]) == Loaded(checks, scenarios[..i]) + [ScenarioCheck(scenarios[i])]
  {
  }

  ghost predicate DepsKnown(all: map<string, Check>, id: string) {
    forall d :: d in Deps(all, id) ==> d in all
  }

  /** One problem per dependency that names no check. */
  method UnknownDependencyProblems(all: map<string, Check>) returns (problems: seq<Problem>)
    ensures problems == [] <==> KnownDeps(all)
    ensures forall p :: p in problems ==>
      p.UnknownDependency? && p.id in all && p.dep in Deps(all, p.id) && p.dep !in all
  {
    problems := [];
    var rest := all.Keys;
    while rest != {}
      invariant rest <= all.Keys
      invariant problems == [] <==> forall id :: id in all && id !in rest ==> DepsKnown(all, id)
      invariant forall p :: p in problems ==>
        p.UnknownDependency? && p.id in all && p.dep in Deps(all, p.id) && p.dep !in all
      decreases rest
    {
      var id :| id in rest;
      var deps := all[id].dependencies;
      ghost var before := problems;
      for i := 0 to |deps|
        invariant problems == [] <==> before == [] && forall j :: 0 <= j < i ==> deps[j] in all
        invariant forall p :: p in problems ==>
          p.UnknownDependency? && p.id in all && p.dep in Deps(all, p.id) && p.dep !in all
      {
        if deps[i] !in all {
          problems := problems + [UnknownDependency(id, deps[i])];
        }
      }
      assert (forall j :: 0 <= j < |deps| ==> deps[j] in all) <==> DepsKnown(all, id);
      rest := rest - {id};
    }
    assert KnownDeps(all) <==> forall id :: id in all ==> DepsKnown(all, id);
  }

  /** A manifest is accepted exactly when its check IDs are distinct, every dependency
      names a check and no dependency cycle exists; it then has a rank, and looking up a
      declared check finds that very check. */
  method Validate(checks: seq<Check>, scenarios: seq<Scenario>) returns (problems: seq<Problem>)
    ensures problems == [] <==> ValidGraph(Loaded(checks, scenarios))
    ensures problems == [] ==> exists rank :: IsRank(ById(Loaded(checks, scenarios)), rank)
    ensures problems == [] ==> FindsEach(Loaded(checks, scenarios))
  {
    problems := DuplicateProblems(checks, scenarios);
    var all := ById(Loaded(checks, scenarios));
    var unknown := UnknownDependencyProblems(all);
    problems := problems + unknown;
    var cycle := FindCycle(all);
    if |cycle| > 0 {
      problems := problems + [DependencyCycle(cycle)];
    }
  }
}
