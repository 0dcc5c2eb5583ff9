/** `findCycle` (internal/testgate/manifest.go): a three-colour depth-first search. */
module CycleFinding {
  import opened Lex
  import opened Manifest
  import opened Prelude

  type Colours = map<string, int>  // absent = unvisited, 1 = on the stack, 2 = finished

  /** State 1 iff on the stack, and the stack is a dependency path without repetition. */
  ghost predicate StackIsPath(checks: map<string, Check>, state: Colours, stack: seq<string>) {
    && (forall id :: id in stack <==> id in state && state[id] == 1)
    && (forall i, j :: 0 <= i < j < |stack| ==> stack[i] != stack[j])
    && Walk(checks, stack)
  }

  /** The finished checks are ranked, each above everything it depends on. */
  ghost predicate FinishedRanked(checks: map<string, Check>, state: Colours, rank: map<string, nat>) {
    && (forall id :: id in rank <==> id in state && state[id] == 2)
    && (forall id :: id in rank ==> rank[id] < |rank|)
    && (forall id, d {:trigger d in Deps(checks, id)} :: id in rank && d in Deps(checks, id) ==>
          d in rank && rank[d] < rank[id])
  }

  ghost predicate Coloured(state: Colours, nodes: set<string>) {
    forall id :: id in state ==> id in nodes && (state[id] == 1 || state[id] == 2)
  }

  /** `nodes` holds every check and everything a check depends on. */
  ghost predicate Covers(checks: map<string, Check>, nodes: set<string>) {
    && (forall id :: id in checks ==> id in nodes)
    && (forall id, d {:trigger d in Deps(checks, id)} :: d in Deps(checks, id) ==> d in nodes)
  }

  ghost predicate AllIn(ids: seq<string>, s: set<string>) {
    forall d :: d in ids ==> d in s
  }

  ghost predicate Searching(checks: map<string, Check>, state: Colours, stack: seq<string>,
                            rank: map<string, nat>, nodes: set<string>)
  {
    && Covers(checks, nodes)
    && Coloured(state, nodes)
    && StackIsPath(checks, state, stack)
    && FinishedRanked(checks, state, rank)
  }

  lemma PushKeepsPath(checks: map<string, Check>, state: Colours, stack: seq<string>, id: string)
    requires StackIsPath(checks, state, stack) && id !in state
    requires stack != [] ==> id in Deps(checks, stack[|stack| - 1])
    ensures StackIsPath(checks, state[id := 1], stack + [id])
  {
    var path := stack + [id];
    forall i | 1 <= i < |path| ensures Edge(checks, path, i) {
      if i < |stack| { assert Edge(checks, stack, i); }
    }
  }

  lemma PopKeepsPath(checks: map<string, Check>, state: Colours, stack: seq<string>, id: string)
    requires StackIsPath(checks, state, stack + [id])
    ensures StackIsPath(checks, state[id := 2], stack)
  {
    var path := stack + [id];
    assert path[|stack|] == id;
    forall i | 1 <= i < |stack| ensures Edge(checks, stack, i) { assert Edge(checks, path, i); }
    forall x ensures x in stack <==> x in path && x != id {
      if x in stack { var i :| 0 <= i < |stack| && stack[i] == x; assert path[i] == x; }
    }
    forall i, j | 0 <= i < j < |stack| ensures stack[i] != stack[j] {
      assert path[i] != path[j];
    }
  }

  lemma PushKeepsSearching(checks: map<string, Check>, state: Colours, stack: seq<string>,
                           rank: map<string, nat>, nodes: set<string>, id: string)
    requires Searching(checks, state, stack, rank, nodes) && id in nodes && id !in state
    requires stack != [] ==> id in Deps(checks, stack[|stack| - 1])
    ensures Searching(checks, state[id := 1], stack + [id], rank, nodes)
  {
    PushKeepsPath(checks, state, stack, id);
  }

  lemma PopKeepsSearching(checks: map<string, Check>, state: Colours, stack: seq<string>,
                          rank: map<string, nat>, nodes: set<string>, id: string)
    requires Searching(checks, state, stack + [id], rank, nodes)
    requires AllIn(Deps(checks, id), rank.Keys)
    ensures Searching(checks, state[id := 2], stack, rank[id := |rank|], nodes)
  {
    assert id in stack + [id];
    PopKeepsPath(checks, state, stack, id);
  }

  lemma KeysAfterPop(state: Colours, rank: map<string, nat>, id: string)
    requires id in state
    ensures rank[id := |rank|].Keys == rank.Keys + {id} && state[id := 2].Keys == state.Keys
  {
  }

  lemma OneMoreIn(ids: seq<string>, i: nat, s: set<string>, t: set<string>)
    requires i < |ids| && AllIn(ids[..i], s) && s <= t && ids[i] in t
    ensures AllIn(ids[..i + 1], t)
  {
    TakeSnoc(ids, i);
  }

  /** Meeting a check that is on the stack closes a cycle. */
  lemma StackClosesCycle(checks: map<string, Check>, state: Colours, stack: seq<string>, i: nat)
    requires StackIsPath(checks, state, stack) && i < |stack|
    requires stack[i] in Deps(checks, stack[|stack| - 1])
    ensures SimpleCycle(checks, stack[i..] + [stack[i]])
  {
    var cycle := stack[i..] + [stack[i]];
    forall k | 1 <= k < |cycle| ensures Edge(checks, cycle, k) {
      if k < |cycle| - 1 { assert Edge(checks, stack, i + k); }
    }
  }

  /** The variables that `findCycle`'s recursive closure captures and changes. */
  class CycleFinder {
    const checks: map<string, Check>
    var state: Colours
    var stack: seq<string>
    ghost var rank: map<string, nat>  // finishing order
    ghost const nodes: set<string>

    ghost predicate Valid()
      reads this
    {
      Searching(checks, state, stack, rank, nodes)
    }

    constructor (checks: map<string, Check>)
      ensures this.checks == checks && Valid() && stack == [] && rank == map[]
    {
      this.checks := checks;
      state, stack, rank, nodes := map[], [], map[], Universe(checks);
    }

    /** The stack from `id` on, closed by `id` itself. */
    method CycleThrough(id: string) returns (cycle: seq<string>)
      requires Valid() && id in stack && id in Deps(checks, stack[|stack| - 1])
      ensures SimpleCycle(checks, cycle) && cycle[0] == id
    {
      for i := 0 to |stack|
        invariant id !in stack[..i]
      {
        if stack[i] == id {
          StackClosesCycle(checks, state, stack, i);
          return stack[i..] + [id];
        }
      }
      assert false;
    }

    /** Search below `id`: either the checks reachable from it are finished and the
        stack is back to what it was, or a cycle is returned. */
    method Visit(id: string) returns (cycle: seq<string>)
      requires Valid() && id in nodes
      requires stack != [] ==> id in Deps(checks, stack[|stack| - 1])
      modifies this
      ensures cycle != [] ==> SimpleCycle(checks, cycle)
      ensures cycle == [] ==> Valid() && stack == old(stack) && id in rank
      ensures cycle == [] ==> old(rank.Keys) <= rank.Keys && old(state.Keys) <= state.Keys
      decreases nodes - state.Keys, 0
    {
      if id in state && state[id] == 1 {
        cycle := CycleThrough(id);
        return;
      }
      if id in state && state[id] == 2 {
        return [];
      }
      Push(id);
      cycle := VisitDeps(id);
      if cycle == [] {
        Pop(id);
      }
    }

    method Push(id: string)
      requires Valid() && id in nodes && id !in state
      requires stack != [] ==> id in Deps(checks, stack[|stack| - 1])
      modifies this
      ensures Valid() && stack == old(stack) + [id] && rank == old(rank)
      ensures state.Keys == old(state.Keys) + {id}
    {
      PushKeepsSearching(checks, state, stack, rank, nodes, id);
      state, stack := state[id := 1], stack + [id];
    }

    method Pop(id: string)
      requires Valid() && stack != [] && stack[|stack| - 1] == id
      requires AllIn(Deps(checks, id), rank.Keys)
      modifies this
      ensures Valid() && stack == old(stack)[..|old(stack)| - 1]
      ensures rank.Keys == old(rank.Keys) + {id} && state.Keys == old(state.Keys)
    {
      ghost var below := stack[..|stack| - 1];
      assert stack == below + [id];
      PopKeepsSearching(checks, state, below, rank, nodes, id);
      KeysAfterPop(state, rank, id);
      stack, state, rank := stack[..|stack| - 1], state[id := 2], rank[id := |rank|];
    }

    /** The loop over the dependencies of the check on top of the stack. */
    method VisitDeps(id: string) returns (cycle: seq<string>)
      requires Valid() && stack != [] && stack[|stack| - 1] == id
      modifies this
      ensures cycle != [] ==> SimpleCycle(checks, cycle)
      ensures cycle == [] ==> Valid() && stack == old(stack)
      ensures cycle == [] ==> AllIn(Deps(checks, id), rank.Keys)
      ensures cycle == [] ==> old(rank.Keys) <= rank.Keys && old(state.Keys) <= state.Keys
      decreases nodes - state.Keys, 1
    {
      cycle := [];
      var deps := Deps(checks, id);
      for i := 0 to |deps|
        invariant Valid() && stack == old(stack)
        invariant cycle == [] && AllIn(deps[..i], rank.Keys)
        invariant old(rank.Keys) <= rank.Keys && old(state.Keys) <= state.Keys
      {
        assert deps[i] in Deps(checks, id);
        assert nodes - state.Keys <= old(nodes - state.Keys);
        ghost var before := rank.Keys;
        cycle := Visit(deps[i]);
        if cycle != [] {
          return;
        }
        OneMoreIn(deps, i, before, rank.Keys);
      }
      TakeAll(deps);
    }
  }

  /** A non-empty answer is a genuine simple cycle; an empty one means that no closed
      walk exists at all, and then the checks can be ranked so that every dependency
      has a smaller rank than its dependent. */
  method FindCycle(checks: map<string, Check>) returns (cycle: seq<string>)
    ensures cycle != [] ==> SimpleCycle(checks, cycle)
    ensures cycle == [] <==> Acyclic(checks)
    ensures cycle == [] ==> exists rank :: IsRank(checks, rank)
  {
    var finder := new CycleFinder(checks);
    var ids := SortedKeys(checks.Keys);
    for i := 0 to |ids|
      invariant finder.Valid() && finder.stack == [] && finder.checks == checks
      invariant AllIn(ids[..i], finder.rank.Keys)
    {
      SortedIdsMember(checks.Keys, ids[i]);
      var found := finder.Visit(ids[i]);
      if found != [] {
        return found;
      }
      TakeSnoc(ids, i);
    }
    TakeAll(ids);
    forall id | id in checks ensures id in finder.rank {
      SortedIdsMember(checks.Keys, id);
    }
    assert IsRank(checks, finder.rank);
    RankedIsAcyclic(checks, finder.rank);
    return [];
  }
}
