/** `SelectChecks` (internal/testgate/select.go): seed the selection, close it under
    dependencies by recursive mutation of a map, list it in ID order. */
module Selection {
  import opened Lex
  import opened Manifest
  import opened Prelude
  import opened CycleFinding

  // ----- the dependency closure of a seed set

  ghost predicate ClosedOver(all: map<string, Check>, s: set<string>) {
    ClosedExcept(all, s, {})
  }

  /** Every member outside `open` has all its dependencies in `s`. */
  ghost predicate ClosedExcept(all: map<string, Check>, s: set<string>, open: set<string>) {
    forall id :: id in s && id !in open ==> AllIn(Deps(all, id), s)
  }

  /** `s` is contained in every closed superset of the seeds. */
  ghost predicate Necessary(all: map<string, Check>, seeds: set<string>, s: set<string>) {
    forall t :: seeds <= t && ClosedOver(all, t) ==> s <= t
  }

  /** The least dependency-closed superset of the seeds. */
  ghost predicate IsClosure(all: map<string, Check>, seeds: set<string>, s: set<string>) {
    seeds <= s && ClosedOver(all, s) && Necessary(all, seeds, s)
  }

  lemma ClosureUnique(all: map<string, Check>, seeds: set<string>, s: set<string>, t: set<string>)
    requires IsClosure(all, seeds, s) && IsClosure(all, seeds, t)
    ensures s == t
  {
  }

  ghost predicate WalkFromSet(all: map<string, Check>, w: seq<string>, from: set<string>, to: string) {
    w != [] && Walk(all, w) && w[0] in from && w[|w| - 1] == to
  }

  lemma {:induction false} ClosedUnderWalks(all: map<string, Check>, s: set<string>, w: seq<string>, k: nat)
    requires ClosedOver(all, s) && Walk(all, w) && k < |w| && w[0] in s
    ensures w[k] in s
  {
    if k > 0 {
      ClosedUnderWalks(all, s, w, k - 1);
      assert Edge(all, w, k);
    }
  }

  ghost predicate Reachable(all: map<string, Check>, from: set<string>, to: string) {
    exists w :: WalkFromSet(all, w, from, to)
  }

  lemma ReachableSeed(all: map<string, Check>, from: set<string>, id: string)
    requires id in from
    ensures Reachable(all, from, id)
  {
    assert WalkFromSet(all, [id], from, id);
  }

  lemma ReachableStep(all: map<string, Check>, from: set<string>, id: string, d: string)
    requires Reachable(all, from, id) && d in Deps(all, id)
    ensures Reachable(all, from, d)
  {
    var w :| WalkFromSet(all, w, from, id);
    var v := w + [d];
    forall i | 1 <= i < |v| ensures Edge(all, v, i) {
      if i < |w| { assert Edge(all, w, i); }
    }
    assert WalkFromSet(all, v, from, d);
  }

  /** The closure holds exactly the checks that a dependency walk reaches from a seed. */
  lemma ClosureIsReachability(all: map<string, Check>, seeds: set<string>, s: set<string>, id: string)
    requires IsClosure(all, seeds, s)
    ensures id in s <==> Reachable(all, seeds, id)
  {
    var reached := set x | x in s && Reachable(all, seeds, x);
    forall x | x in seeds ensures x in reached {
      ReachableSeed(all, seeds, x);
    }
    forall x, d | x in reached && d in Deps(all, x) ensures d in reached {
      ReachableStep(all, seeds, x, d);
      assert AllIn(Deps(all, x), s);
    }
    assert ClosedOver(all, reached);
    if Reachable(all, seeds, id) {
      var w :| WalkFromSet(all, w, seeds, id);
      ClosedUnderWalks(all, s, w, |w| - 1);
    }
  }

  // ----- the map that `addDeps` mutates

  class DependencyAdder {
    const all: map<string, Check>
    var selected: set<string>
    ghost const seeds: set<string>
    ghost const nodes: set<string>

    ghost predicate Valid()
      reads this
    {
      Covers(all, nodes) && seeds <= selected <= nodes && Necessary(all, seeds, selected)
    }

    constructor (all: map<string, Check>, seeds: set<string>)
      ensures this.all == all && selected == seeds == this.seeds && Valid()
    {
      this.all, selected, this.seeds, nodes := all, seeds, seeds, Universe(all) + seeds;
    }

    /** `addDeps` skips checks that are already selected; those still on the recursion
        stack (`open`) get their own dependencies later. */
    method AddDeps(id: string, ghost open: set<string>)
      requires Valid() && id in selected && ClosedExcept(all, selected, open + {id})
      modifies this
      ensures Valid() && old(selected) <= selected && ClosedExcept(all, selected, open)
      decreases nodes - selected
    {
      var deps := Deps(all, id);
      for i := 0 to |deps|
        invariant Valid() && old(selected) <= selected
        invariant ClosedExcept(all, selected, open + {id}) && AllIn(deps[..i], selected)
      {
        assert deps[i] in Deps(all, id);
        if deps[i] !in selected {
          selected := selected + {deps[i]};
          AddDeps(deps[i], open + {id});
        }
        TakeSnoc(deps, i);
      }
      TakeAll(deps);
    }

    /** Go's `range` over a map that grows while it is being ranged over: every original
        key is produced, a key added on the way may or may not be. */
    method AddAllDeps()
      requires Valid() && selected == seeds
      modifies this
      ensures IsClosure(all, seeds, selected)
    {
      var roots := selected;
      var produced: set<string> := {};
      while produced < selected
        invariant Valid() && produced <= selected && roots == seeds
        invariant ClosedExcept(all, selected, roots - produced)
        decreases nodes - produced
      {
        if roots <= produced {
          if * { break; }
        }
        var id :| id in selected && id !in produced;
        AddDeps(id, (roots - produced) - {id});
        produced := produced + {id};
      }
      assert roots - produced == {};
    }
  }

  // ----- SelectChecks

  datatype Options = Options(gate: string, onlyChecks: seq<string>)

  datatype Selected = Unknown(id: string) | Empty(gate: string) | Checks(checks: seq<Check>)

  function GateChecks(all: map<string, Check>, gate: string): set<string> {
    set id | id in all && gate in all[id].gates
  }

  /** Which checks a run asks for before closure. `affected` is what the path rules of
      `selectAffected` and `selectPR` chose for the changed files. */
  function Seeds(all: map<string, Check>, options: Options, affected: set<string>): (seeds: set<string>)
    ensures options.onlyChecks == [] && affected <= all.Keys ==> seeds <= all.Keys
  {
    if options.onlyChecks != [] then set id | id in options.onlyChecks
    else if options.gate == "check-fast" || options.gate == "check-pr-local" || options.gate == "check-pr" then affected
    else if options.gate == "check-integration-full" || options.gate == "check-campaign" then
      GateChecks(all, "check-merge-local")
    else GateChecks(all, options.gate)
  }

  /** The run asks for this check: by name, through the changed files, or because the check lists the gate;
      the two broad gates ask for what the local merge gate does. */
  ghost predicate Asks(all: map<string, Check>, options: Options, affected: set<string>, id: string) {
    if options.onlyChecks != [] then id in options.onlyChecks
    else if options.gate in {"check-fast", "check-pr-local", "check-pr"} then id in affected
    else if options.gate in {"check-integration-full", "check-campaign"} then
      id in all && "check-merge-local" in all[id].gates
    else id in all && options.gate in all[id].gates
  }

  /** An unknown check is asked for, or nothing at all. */
  ghost predicate Unselectable(all: map<string, Check>, options: Options, affected: set<string>) {
    (exists id :: id in options.onlyChecks && id !in all) || forall id :: !Asks(all, options, affected, id)
  }

  /** It is asked for, or something asked for depends on it, directly or through others. */
  ghost predicate Wanted(all: map<string, Check>, options: Options, affected: set<string>, id: string) {
    exists root :: Asks(all, options, affected, root) && Reachable(all, {root}, id)
  }

  /** The closure of the seeds is exactly what is wanted. */
  lemma SelectedIffWanted(all: map<string, Check>, options: Options, affected: set<string>, s: set<string>, id: string)
    requires IsClosure(all, Seeds(all, options, affected), s)
    ensures id in s <==> Wanted(all, options, affected, id)
  {
    var seeds := Seeds(all, options, affected);
    SeedsAreAsked(all, options, affected);
    ClosureIsReachability(all, seeds, s, id);
    if Reachable(all, seeds, id) {
      var w :| WalkFromSet(all, w, seeds, id);
      assert WalkFromSet(all, w, {w[0]}, id);
      assert Asks(all, options, affected, w[0]);
    }
    if root :| Asks(all, options, affected, root) && Reachable(all, {root}, id) {
      var w :| WalkFromSet(all, w, {root}, id);
      assert WalkFromSet(all, w, seeds, id);
    }
  }

  lemma NothingAsked(all: map<string, Check>, options: Options, affected: set<string>)
    ensures Seeds(all, options, affected) == {} <==> forall id :: !Asks(all, options, affected, id)
    ensures forall id :: id in options.onlyChecks ==> Asks(all, options, affected, id)
  {
    SeedsAreAsked(all, options, affected);
  }

  lemma SeedsAreAsked(all: map<string, Check>, options: Options, affected: set<string>)
    ensures forall id :: id in Seeds(all, options, affected) <==> Asks(all, options, affected, id)
  {
  }

  ghost function Ids(checks: seq<Check>): seq<string> {
    seq(|checks|, i requires 0 <= i < |checks| => checks[i].id)
  }

  /** Ascending by ID, equal IDs side by side. */
  ghost predicate OrderedById(checks: seq<Check>) {
    forall i, j :: 0 <= i < j < |checks| ==> !Less(checks[j].id, checks[i].id)
  }

  lemma NotLessTransitive(a: string, b: string, c: string)
    requires !Less(b, a) && !Less(c, b)
    ensures !Less(c, a)
  {
    Total(a, b);
    Total(b, c);
    if Less(c, a) {
      if a != b { Transitive(c, a, b); }
    }
  }

  /** Insertion by ID, as the final `sort.Slice` orders the list. */
  method Insert(checks: seq<Check>, c: Check) returns (r: seq<Check>)
    requires OrderedById(checks)
    ensures OrderedById(r) && multiset(r) == multiset(checks) + multiset{c}
  {
    var k := 0;
    while k < |checks| && !Less(c.id, checks[k].id)
      invariant 0 <= k <= |checks|
      invariant forall j :: 0 <= j < k ==> !Less(c.id, checks[j].id)
    {
      k := k + 1;
    }
    r := checks[..k] + [c] + checks[k..];
    assert checks == checks[..k] + checks[k..];
    forall j | k <= j < |checks| ensures !Less(checks[j].id, c.id) {
      Asymmetric(c.id, checks[k].id);
      if j > k { NotLessTransitive(c.id, checks[k].id, checks[j].id); }
    }
    InsertedOrdered(checks, k, c);
  }

  lemma InsertedOrdered(checks: seq<Check>, k: nat, c: Check)
    requires OrderedById(checks) && k <= |checks|
    requires forall j :: 0 <= j < k ==> !Less(c.id, checks[j].id)
    requires forall j :: k <= j < |checks| ==> !Less(checks[j].id, c.id)
    ensures OrderedById(checks[..k] + [c] + checks[k..])
  {
    var r := checks[..k] + [c] + checks[k..];
    forall a, b | 0 <= a < b < |r| ensures !Less(r[b].id, r[a].id) {
      assert r[a] == if a < k then checks[a] else if a == k then c else checks[a - 1];
      assert r[b] == if b < k then checks[b] else if b == k then c else checks[b - 1];
    }
  }

  /** The list holds one check per member of `s`, the zero check for an ID nobody declares. */
  ghost predicate Lists(all: map<string, Check>, checks: seq<Check>, s: set<string>) {
    && |checks| == |s|
    && (forall id :: id in s ==> Lookup(all, id) in checks)
    && (forall c :: c in checks ==> exists id :: id in s && c == Lookup(all, id))
  }

  ghost predicate SelectedExactly(all: map<string, Check>, checks: seq<Check>, s: set<string>) {
    s <= all.Keys && Sorted(Ids(checks)) && Elems(Ids(checks)) == s && (forall c :: c in checks ==> c.id in all && all[c.id] == c)
  }

  /** `checks` lists the dependency closure of the seeds in ID order. */
  ghost predicate Selects(all: map<string, Check>, seeds: set<string>, checks: seq<Check>, s: set<string>) {
    && IsClosure(all, seeds, s)
    && Lists(all, checks, s) && OrderedById(checks)
    && (KnownDeps(all) ==> SelectedExactly(all, checks, s))
  }

  /** Refuses an unknown requested check and an empty selection. Otherwise the answer lists
      exactly the least dependency-closed superset of the seeds in ID order, whatever order
      the maps are ranged over in; with known dependencies it has no duplicates. */
  method SelectChecks(manifest: seq<Check>, options: Options, affected: set<string>) returns (r: Selected)
    requires affected <= ById(manifest).Keys
    ensures r.Unknown? ==> r.id in options.onlyChecks && r.id !in ById(manifest)
    ensures r.Unknown? <==> exists id :: id in options.onlyChecks && id !in ById(manifest)
    ensures r.Empty? <==> forall id :: !Asks(ById(manifest), options, affected, id)
    ensures r.Checks? ==> exists s :: Selects(ById(manifest), Seeds(ById(manifest), options, affected), r.checks, s)
    ensures r.Checks? && KnownDeps(ById(manifest)) ==> ListsWanted(ById(manifest), options, affected, r.checks)
  {
    var all := ById(manifest);
    NothingAsked(all, options, affected);
    var unknown := FirstUnknown(all, options.onlyChecks);
    if unknown.Some? {
      assert unknown.value in Seeds(all, options, affected);
      return Unknown(unknown.value);
    }
    var seeds := Seeds(all, options, affected);
    if seeds == {} {
      return Empty(options.gate);
    }
    var checks := CloseAndList(all, seeds);
    ListedAreWanted(all, options, affected, checks);
    return Checks(checks);
  }

  ghost predicate ListsWanted(all: map<string, Check>, options: Options, affected: set<string>, checks: seq<Check>) {
    forall c :: c in checks <==> c.id in all && all[c.id] == c && Wanted(all, options, affected, c.id)
  }

  lemma ListedAreWanted(all: map<string, Check>, options: Options, affected: set<string>, checks: seq<Check>)
    requires exists s :: Selects(all, Seeds(all, options, affected), checks, s)
    ensures KnownDeps(all) ==> ListsWanted(all, options, affected, checks)
  {
    if KnownDeps(all) {
      var s :| Selects(all, Seeds(all, options, affected), checks, s);
      ChecksAreWanted(all, options, affected, checks, s);
    }
  }

  lemma ChecksAreWanted(all: map<string, Check>, options: Options, affected: set<string>, checks: seq<Check>, s: set<string>)
    requires IsClosure(all, Seeds(all, options, affected), s) && SelectedExactly(all, checks, s)
    ensures ListsWanted(all, options, affected, checks)
  {
    forall c ensures c in checks <==> c.id in all && all[c.id] == c && Wanted(all, options, affected, c.id) {
      SelectedIffWanted(all, options, affected, s, c.id);
      var ids := Ids(checks);
      if c in checks {
        var i :| 0 <= i < |checks| && checks[i] == c;
        assert ids[i] == c.id;
      }
      if c.id in s && c.id in all && all[c.id] == c {
        var i :| 0 <= i < |ids| && ids[i] == c.id;
        assert checks[i] in checks;
      }
    }
  }

  method FirstUnknown(all: map<string, Check>, ids: seq<string>) returns (r: Option<string>)
    ensures r.Some? ==> r.value in ids && r.value !in all
    ensures r.None? ==> forall id :: id in ids ==> id in all
  {
    for i := 0 to |ids|
      invariant forall j :: 0 <= j < i ==> ids[j] in all
    {
      if ids[i] !in all {
        return Some(ids[i]);
      }
    }
    return None;
  }

  method CloseAndList(all: map<string, Check>, seeds: set<string>) returns (checks: seq<Check>)
    requires seeds <= all.Keys && forall id :: id in all ==> all[id].id == id
    ensures exists s :: Selects(all, seeds, checks, s)
  {
    var adder := new DependencyAdder(all, seeds);
    adder.AddAllDeps();
    checks := ListById(all, adder.selected);
    if KnownDeps(all) {
      KnownSelection(all, seeds, adder.selected, checks);
    }
    assert Selects(all, seeds, checks, adder.selected);
  }

  method ListById(all: map<string, Check>, selected: set<string>) returns (checks: seq<Check>)
    ensures Lists(all, checks, selected) && OrderedById(checks)
  {
    checks := [];
    var rest := selected;
    while rest != {}
      invariant rest <= selected
      invariant Lists(all, checks, selected - rest) && OrderedById(checks)
      decreases rest
    {
      var id :| id in rest;
      ghost var before, done := checks, selected - rest;
      checks := Insert(checks, Lookup(all, id));
      ListsOneMore(all, before, done, id, checks);
      rest := rest - {id};
      assert selected - rest == done + {id};
    }
    assert selected - rest == selected;
  }

  lemma ListsOneMore(all: map<string, Check>, checks: seq<Check>, s: set<string>, id: string, r: seq<Check>)
    requires Lists(all, checks, s) && id !in s
    requires multiset(r) == multiset(checks) + multiset{Lookup(all, id)}
    ensures Lists(all, r, s + {id})
  {
    assert |multiset(r)| == |r| && |multiset(checks)| == |checks|;
    forall c ensures c in r <==> c in checks || c == Lookup(all, id) {
      assert c in multiset(r) <==> c in multiset(checks) + multiset{Lookup(all, id)};
      assert c in multiset(r) <==> c in r;
      assert c in multiset(checks) <==> c in checks;
    }
  }

  /** When every dependency names a check, the selection is a duplicate-free ascending list
      of declared checks. */
  lemma KnownSelection(all: map<string, Check>, seeds: set<string>, s: set<string>, checks: seq<Check>)
    requires KnownDeps(all) && seeds <= all.Keys && IsClosure(all, seeds, s)
    requires forall id :: id in all ==> all[id].id == id
    requires Lists(all, checks, s) && OrderedById(checks)
    ensures SelectedExactly(all, checks, s)
  {
    assert ClosedOver(all, all.Keys);
    assert s <= all.Keys;
    ListedIds(all, s, checks);
    DistinctByCount(Ids(checks));
    OrderedIsSorted(checks);
  }

  lemma ListedIds(all: map<string, Check>, s: set<string>, checks: seq<Check>)
    requires s <= all.Keys && Lists(all, checks, s) && forall id :: id in all ==> all[id].id == id
    ensures Elems(Ids(checks)) == s
  {
    var ids := Ids(checks);
    forall x ensures x in Elems(ids) <==> x in s {
      if x in s {
        assert Lookup(all, x) in checks;
        var i :| 0 <= i < |checks| && checks[i] == all[x];
        assert ids[i] == x;
      }
      if x in ids {
        var i :| 0 <= i < |ids| && ids[i] == x;
        assert checks[i] in checks;
      }
    }
  }

  /** In ID order and without repetition is strictly ascending. */
  lemma OrderedIsSorted(checks: seq<Check>)
    requires OrderedById(checks) && forall i, j :: 0 <= i < j < |checks| ==> Ids(checks)[i] != Ids(checks)[j]
    ensures Sorted(Ids(checks))
  {
    var ids := Ids(checks);
    forall i, j | 0 <= i < j < |ids| ensures Less(ids[i], ids[j]) {
      assert !Less(checks[j].id, checks[i].id) && ids[i] != ids[j];
      Total(ids[i], ids[j]);
    }
  }

  /** A list as long as the set of its elements repeats nothing. */
  lemma {:induction false} DistinctByCount(s: seq<string>)
    ensures |Elems(s)| <= |s|
    ensures |Elems(s)| == |s| ==> forall i, j :: 0 <= i < j < |s| ==> s[i] != s[j]
  {
    if s == [] {
    } else {
      var t := s[..|s| - 1];
      var last := s[|s| - 1];
      DistinctByCount(t);
      assert Elems(s) == Elems(t) + {last} by {
        assert s == t + [last];
      }
      if last in Elems(t) {
        assert Elems(t) + {last} == Elems(t);
      } else {
        assert |Elems(t) + {last}| == |Elems(t)| + 1;
        forall i, j | |Elems(s)| == |s| && 0 <= i < j < |s| ensures s[i] != s[j] {
          if j == |s| - 1 { assert t[i] in Elems(t); } else { assert t[i] != t[j]; }
        }
      }
    }
  }
}
