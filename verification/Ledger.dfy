/** The summary of a run and the LAST_FAILED ledger across runs
    (internal/testgate/artifacts.go, the replay part of cmd/testgate/main.go). */
module Ledger {
  import opened Lex
  import opened Manifest
  import opened Prelude
  import opened Validation
  import opened Selection
  import opened Execution
  import opened Scheduler
  import opened Runner

  datatype Summary = Summary(runId: string, parentRunId: string, results: seq<Result>, counts: map<Status, nat>)

  predicate Failing(s: Status): (bad: bool)
    ensures bad <==> s != Pass && s != Skipped
  {
    s == Fail || s == Blocked || s == SafetyStop
  }

  // ----- counting

  function CountOf(results: seq<Result>, s: Status): nat {
    if results == [] then 0
    else CountOf(results[..|results| - 1], s) + if results[|results| - 1].status == s then 1 else 0
  }

  function CountIn(counts: map<Status, nat>, s: Status): nat {
    if s in counts then counts[s] else 0
  }

  /** The status counts of a run add up to the number of results. */
  lemma {:induction false} CountsAddUp(results: seq<Result>)
    ensures CountOf(results, Pass) + CountOf(results, Fail) + CountOf(results, Blocked)
          + CountOf(results, Skipped) + CountOf(results, SafetyStop) == |results|
  {
    if results == [] {
    } else {
      CountsAddUp(results[..|results| - 1]);
    }
  }

  lemma {:induction false} CountedIffPresent(results: seq<Result>, s: Status)
    ensures CountOf(results, s) > 0 <==> exists r :: r in results && r.status == s
  {
    if results == [] {
    } else {
      var front, last := results[..|results| - 1], results[|results| - 1];
      assert results == front + [last];
      CountedIffPresent(front, s);
      if CountOf(front, s) > 0 {
        var r :| r in front && r.status == s;
        assert r in results;
      }
    }
  }

  ghost predicate Tallies(counts: map<Status, nat>, results: seq<Result>) {
    forall s :: CountIn(counts, s) == CountOf(results, s)
  }

  lemma TallyOneMore(counts: map<Status, nat>, rs: seq<Result>, r: Result)
    requires Tallies(counts, rs)
    ensures Tallies(counts[r.status := CountIn(counts, r.status) + 1], rs + [r])
  {
    assert (rs + [r])[..|rs|] == rs;
    var more := counts[r.status := CountIn(counts, r.status) + 1];
    forall s ensures CountIn(more, s) == CountOf(rs + [r], s) {
      assert CountIn(counts, s) == CountOf(rs, s);
    }
  }

  ghost predicate CountsMatch(summary: Summary) {
    Tallies(summary.counts, summary.results)
  }

  ghost function ResultIds(summary: Summary): set<string> {
    set r | r in summary.results :: r.id
  }

  /** `summary` reports exactly `results`, counted by status. */
  ghost predicate Reports(summary: Summary, results: map<string, Result>) {
    && CountsMatch(summary) && |summary.results| == |results|
    && (forall r :: r in summary.results <==> r.id in results && results[r.id] == r)
    && ResultIds(summary) == results.Keys
  }

  /** The closing loop of `Run`. */
  method Summarize(runId: string, parentRunId: string, results: map<string, Result>) returns (summary: Summary)
    requires forall id :: id in results ==> results[id].id == id
    ensures summary.runId == runId && summary.parentRunId == parentRunId
    ensures Reports(summary, results)
    ensures forall i, j :: 0 <= i < j < |summary.results| ==> Less(summary.results[i].id, summary.results[j].id)
  {
    var ids := SortedKeys(results.Keys);
    ListingFacts(results.Keys);
    var rs: seq<Result>, counts: map<Status, nat> := [], map[];
    for i := 0 to |ids|
      invariant Gathered(results, ids[..i], rs)
      invariant Tallies(counts, rs)
    {
      assert ids[i] in ids;
      var r := results[ids[i]];
      TallyOneMore(counts, rs, r);
      TakeSnoc(ids, i);
      GatheredSnoc(results, ids[..i], rs, ids[i]);
      rs := rs + [r];
      counts := counts[r.status := CountIn(counts, r.status) + 1];
    }
    TakeAll(ids);
    summary := Summary(runId, parentRunId, rs, counts);
    assert forall j :: 0 <= j < |ids| ==> rs[j].id == ids[j];
    GatheredAll(results, ids, summary);
  }

  ghost predicate Gathered(results: map<string, Result>, ids: seq<string>, rs: seq<Result>) {
    |rs| == |ids| && forall j :: 0 <= j < |ids| ==> ids[j] in results && rs[j] == results[ids[j]]
  }

  lemma GatheredSnoc(results: map<string, Result>, ids: seq<string>, rs: seq<Result>, id: string)
    requires Gathered(results, ids, rs) && id in results
    ensures Gathered(results, ids + [id], rs + [results[id]])
  {
  }

  lemma GatheredAll(results: map<string, Result>, ids: seq<string>, summary: Summary)
    requires forall id :: id in results ==> results[id].id == id
    requires forall id :: id in ids <==> id in results
    requires |ids| == |results| && Gathered(results, ids, summary.results) && CountsMatch(summary)
    ensures Reports(summary, results)
  {
    var rs := summary.results;
    forall r ensures r in rs <==> r.id in results && results[r.id] == r {
      if r in rs {
        var j :| 0 <= j < |rs| && rs[j] == r;
      }
      if r.id in results && results[r.id] == r {
        var j :| 0 <= j < |ids| && ids[j] == r.id;
        assert rs[j] == r;
      }
    }
    forall id | id in results ensures id in ResultIds(summary) {
      assert results[id] in rs;
    }
  }

  lemma ListingFacts(keys: set<string>)
    ensures |SortedIds(keys)| == |keys| && forall id :: id in SortedIds(keys) <==> id in keys
  {
    forall id ensures id in SortedIds(keys) <==> id in keys { SortedIdsMember(keys, id); }
    ListingLength(keys);
  }

  lemma {:induction false} ListingLength(keys: set<string>)
    ensures |SortedIds(keys)| == |keys|
  {
    if keys == {} {
    } else {
      var m := Least(keys);
      ListingLength(keys - {m});
    }
  }

  // ----- GateFailed, LastFailedIDs

  predicate GateFailed(summary: Summary) {
    CountIn(summary.counts, Fail) > 0 || CountIn(summary.counts, Blocked) > 0 || CountIn(summary.counts, SafetyStop) > 0
  }

  lemma GateFailedIff(summary: Summary)
    requires CountsMatch(summary)
    ensures GateFailed(summary) <==> exists r :: r in summary.results && r.status != Pass && r.status != Skipped
  {
    CountedIffPresent(summary.results, Fail);
    CountedIffPresent(summary.results, Blocked);
    CountedIffPresent(summary.results, SafetyStop);
    if r :| r in summary.results && Failing(r.status) {
      assert CountOf(summary.results, r.status) > 0;
    }
  }

  predicate IsAdversarial(id: string) {
    "adversarial:" <= id
  }

  /** The checks a summary owes: those that failed, were blocked or hit a safety stop. */
  ghost function FailedIds(summary: Summary, adversarialOnly: bool): set<string> {
    set r | r in summary.results && Failing(r.status) && (adversarialOnly ==> IsAdversarial(r.id)) :: r.id
  }

  method LastFailedIDs(summary: Summary, adversarialOnly: bool) returns (ids: seq<string>)
    ensures ids == SortedIds(FailedIds(summary, adversarialOnly))
    ensures Sorted(ids) && forall id :: id in ids <==> exists r ::
      r in summary.results && r.id == id && r.status != Pass && r.status != Skipped && (adversarialOnly ==> "adversarial:" <= id)
  {
    var failed: set<string> := {};
    for i := 0 to |summary.results|
      invariant failed == set r | r in summary.results[..i] && Failing(r.status)
                                  && (adversarialOnly ==> IsAdversarial(r.id)) :: r.id
    {
      var r := summary.results[i];
      TakeSnoc(summary.results, i);
      if Failing(r.status) && (!adversarialOnly || IsAdversarial(r.id)) {
        failed := failed + {r.id};
      }
    }
    TakeAll(summary.results);
    ids := SortedKeys(failed);
    assert forall id :: id in ids <==> id in Elems(ids);
  }

  // ----- the pointer files

  datatype Store = Store(lastFailed: Option<string>, summaries: map<string, Summary>)

  ghost predicate ValidStore(s: Store) {
    && (s.lastFailed.Some? ==> s.lastFailed.value in s.summaries)
    && "" !in s.summaries
    && forall id :: id in s.summaries ==> s.summaries[id].runId == id && CountsMatch(s.summaries[id])
  }

  /** What the ledger currently asks to be replayed. */
  ghost function Owed(s: Store): set<string>
    requires ValidStore(s)
  {
    if s.lastFailed.None? then {} else FailedIds(s.summaries[s.lastFailed.value], false)
  }

  /** One finished run: its summary and whether it replays the complete ledger. */
  datatype RunRecord = RunRecord(summary: Summary, complete: bool)

  function Recorded(s: Store, f: RunRecord): Store {
    var written := s.(summaries := s.summaries[f.summary.runId := f.summary]);
    if f.summary.parentRunId != "" && !f.complete then written
    else if GateFailed(f.summary) then written.(lastFailed := Some(f.summary.runId))
    else if f.summary.parentRunId != "" && s.lastFailed == Some(f.summary.parentRunId) then written.(lastFailed := None)
    else written
  }

  /** The artifact directory: what `WriteArtifacts` and `updatePointers` change. */
  class ArtifactStore {
    var latest: Option<string>
    var lastFailed: Option<string>
    var summaries: map<string, Summary>

    ghost function Model(): Store
      reads this
    {
      Store(lastFailed, summaries)
    }

    constructor ()
      ensures Model() == Store(None, map[]) && latest == None
    {
      latest, lastFailed, summaries := None, None, map[];
    }

    method WriteArtifacts(summary: Summary)
      modifies this`summaries
      ensures summaries == old(summaries)[summary.runId := summary]
    {
      summaries := summaries[summary.runId := summary];
    }

    method UpdatePointers(summary: Summary, complete: bool)
      modifies this`latest, this`lastFailed
      ensures latest == Some(summary.runId)
      ensures Store(lastFailed, summaries[summary.runId := summary])
           == Recorded(Store(old(lastFailed), summaries), RunRecord(summary, complete))
    {
      latest := Some(summary.runId);
      if summary.parentRunId != "" && !complete {
        return;
      }
      if GateFailed(summary) {
        lastFailed := Some(summary.runId);
      } else if summary.parentRunId != "" {
        if lastFailed == Some(summary.parentRunId) {
          lastFailed := None;
        }
      }
    }

    /** The end of a run: write its artifacts, then move the pointers. */
    method Record(summary: Summary, complete: bool)
      modifies this
      ensures Model() == Recorded(old(Model()), RunRecord(summary, complete)) && latest == Some(summary.runId)
    {
      WriteArtifacts(summary);
      assert summaries[summary.runId := summary] == summaries;
      UpdatePointers(summary, complete);
    }
  }

  // ----- ledger safety

  /** The check has a PASS or SKIPPED result in the run. */
  ghost predicate Resolves(summary: Summary, id: string) {
    exists r :: r in summary.results && r.id == id && (r.status == Pass || r.status == Skipped)
  }

  ghost predicate OneResultEach(summary: Summary) {
    forall r, q :: r in summary.results && q in summary.results && r.id == q.id ==> r == q
  }

  /** What the driver guarantees about a run it records: a fresh run ID, an honest summary, and,
      for a complete replay, a selection that covers everything owed. */
  ghost predicate Driven(s: Store, f: RunRecord) {
    && ValidStore(s) && CountsMatch(f.summary) && OneResultEach(f.summary)
    && f.summary.runId !in s.summaries && f.summary.runId != ""
    && (f.complete ==> f.summary.parentRunId != "" && Owed(s) <= ResultIds(f.summary))
  }

  lemma RanAndDidNotFail(summary: Summary, id: string)
    requires id in ResultIds(summary) && id !in FailedIds(summary, false)
    ensures Resolves(summary, id)
  {
    var r :| r in summary.results && r.id == id;
    assert !Failing(r.status);
  }

  /** A fresh run or a complete replay that fails is what LAST_FAILED names from then on, whatever it
      named before, and exactly the checks that did not pass in it are owed. */
  lemma FailureIsRecorded(s: Store, f: RunRecord)
    requires Driven(s, f) && (f.summary.parentRunId == "" || f.complete)
    requires exists r :: r in f.summary.results && r.status != Pass && r.status != Skipped
    ensures ValidStore(Recorded(s, f)) && Recorded(s, f).lastFailed == Some(f.summary.runId)
    ensures Owed(Recorded(s, f)) == set r | r in f.summary.results && r.status != Pass && r.status != Skipped :: r.id
  {
    GateFailedIff(f.summary);
  }

  /** Every recorded run is kept, and recording disturbs no other. */
  lemma SummariesAreKept(s: Store, f: RunRecord)
    ensures var r := Recorded(s, f).summaries;
      && r.Keys == s.summaries.Keys + {f.summary.runId} && r[f.summary.runId] == f.summary
      && forall id :: id in s.summaries && id != f.summary.runId ==> r[id] == s.summaries[id]
  {
  }

  /** The pointer is removed only by a complete replay of the run it names, in which every check
      of that ledger passed or was skipped. */
  lemma RemovedOnlyByResolution(s: Store, f: RunRecord)
    requires Driven(s, f) && s.lastFailed.Some? && Recorded(s, f).lastFailed.None?
    ensures f.complete && f.summary.parentRunId == s.lastFailed.value && !GateFailed(f.summary)
    ensures forall id :: id in Owed(s) ==> Resolves(f.summary, id)
  {
    GateFailedIff(f.summary);
    forall id | id in Owed(s) ensures Resolves(f.summary, id) {
      RanAndDidNotFail(f.summary, id);
    }
  }

  /** Adversarial-only replays and fresh runs that pass leave the ledger alone. */
  lemma LeavesLedgerAlone(s: Store, f: RunRecord)
    requires Driven(s, f) && !f.complete && (f.summary.parentRunId != "" || !GateFailed(f.summary))
    ensures Recorded(s, f).lastFailed == s.lastFailed && Owed(Recorded(s, f)) == Owed(s)
  {
  }

  /** An owed check leaves the ledger without having passed exactly when a fresh run fails
      without having selected it. */
  lemma ForgottenIff(s: Store, f: RunRecord, id: string)
    requires Driven(s, f) && id in Owed(s)
    ensures ValidStore(Recorded(s, f))
    ensures id !in Owed(Recorded(s, f)) && !Resolves(f.summary, id)
       <==> f.summary.parentRunId == "" && GateFailed(f.summary) && id !in ResultIds(f.summary)
  {
    GateFailedIff(f.summary);
    if id in ResultIds(f.summary) {
      if id !in FailedIds(f.summary, false) { RanAndDidNotFail(f.summary, id); }
    }
    if Resolves(f.summary, id) {
      var r :| r in f.summary.results && r.id == id && (r.status == Pass || r.status == Skipped);
      assert id in ResultIds(f.summary);
    }
  }

  /** A fresh run in which one check ran, and failed. */
  function OneFailure(runId: string, id: string): Summary {
    Summary(runId, "", [Result(id, Fail, Declared(""), Executed, NotRequired, None, [])], map[Fail := 1])
  }

  /** The displacement happens: `x` failed once, then a fresh run of `y` alone fails. */
  lemma DisplacementHappens()
    ensures exists s, f :: Driven(s, f) && "x" in Owed(s) && "x" !in Owed(Recorded(s, f)) && !Resolves(f.summary, "x")
  {
    var s := Store(Some("1"), map["1" := OneFailure("1", "x")]);
    var f := RunRecord(OneFailure("2", "y"), false);
    ForgottenIff(s, f, "x");
  }

  // ----- over a sequence of runs

  ghost function After(s: Store, runs: seq<RunRecord>): Store {
    if runs == [] then s else Recorded(After(s, runs[..|runs| - 1]), runs[|runs| - 1])
  }

  ghost predicate AllDriven(s: Store, runs: seq<RunRecord>) {
    && ValidStore(s)
    && (runs != [] ==> AllDriven(s, runs[..|runs| - 1]) && Driven(After(s, runs[..|runs| - 1]), runs[|runs| - 1]))
  }

  /** A fresh failing run that never looked at `id`. */
  ghost predicate Displaces(f: RunRecord, id: string) {
    f.summary.parentRunId == "" && GateFailed(f.summary) && id !in ResultIds(f.summary)
  }

  /** Over any sequence of runs a check that was owed and no longer is has passed in one of
      them, unless a fresh failing run without it displaced the ledger. */
  lemma {:induction false} NeverForgotten(s: Store, runs: seq<RunRecord>, id: string)
    requires AllDriven(s, runs) && id in Owed(s)
    ensures ValidStore(After(s, runs))
    ensures id in Owed(After(s, runs))
      || exists i :: 0 <= i < |runs| && (Resolves(runs[i].summary, id) || Displaces(runs[i], id))
  {
    if runs != [] {
      var front, last := runs[..|runs| - 1], runs[|runs| - 1];
      NeverForgotten(s, front, id);
      if id in Owed(After(s, front)) {
        ForgottenIff(After(s, front), last, id);
        assert runs[|runs| - 1] == last;
      } else {
        var i :| 0 <= i < |front| && (Resolves(front[i].summary, id) || Displaces(front[i], id));
        assert runs[i] == front[i];
      }
    }
  }

  // ----- repeating a complete replay

  /** All runs replay the same parent, completely or not. */
  ghost predicate AllWith(runs: seq<RunRecord>, parentRunId: string, complete: bool) {
    forall i :: 0 <= i < |runs| ==> runs[i].summary.parentRunId == parentRunId && runs[i].complete == complete
  }

  ghost predicate AnyFailed(runs: seq<RunRecord>) {
    exists i :: 0 <= i < |runs| && GateFailed(runs[i].summary)
  }

  lemma AnyFailedSnoc(runs: seq<RunRecord>, f: RunRecord)
    ensures AnyFailed(runs + [f]) == (AnyFailed(runs) || GateFailed(f.summary))
  {
    var more := runs + [f];
    assert more[|runs|] == f;
    if i :| 0 <= i < |runs| && GateFailed(runs[i].summary) {
      assert more[i] == runs[i];
    }
  }

  /** The run ID of the last failing run. */
  function LastFailing(runs: seq<RunRecord>): Option<string> {
    if runs == [] then None
    else if GateFailed(runs[|runs| - 1].summary) then Some(runs[|runs| - 1].summary.runId)
    else LastFailing(runs[..|runs| - 1])
  }

  lemma {:induction false} LastFailingIff(runs: seq<RunRecord>)
    ensures LastFailing(runs).Some? <==> AnyFailed(runs)
  {
    if runs != [] {
      var front, last := runs[..|runs| - 1], runs[|runs| - 1];
      LastFailingIff(front);
      AnyFailedSnoc(front, last);
      assert runs == front + [last];
    }
  }

  /** Summaries are never lost, and a failing run was not known before. */
  lemma {:induction false} FailingIsNew(s: Store, runs: seq<RunRecord>)
    requires AllDriven(s, runs)
    ensures s.summaries.Keys <= After(s, runs).summaries.Keys
    ensures LastFailing(runs).Some? ==> LastFailing(runs).value !in s.summaries
  {
    if runs != [] {
      FailingIsNew(s, runs[..|runs| - 1]);
    }
  }

  /** Repeating a complete replay of the run LAST_FAILED names: the pointer moves to the last repetition
      that fails, whatever passes after it; without one it is gone as soon as one repetition has run. */
  lemma {:induction false} RepeatedReplay(s: Store, runs: seq<RunRecord>, parent: string)
    requires AllDriven(s, runs) && AllWith(runs, parent, true) && s.lastFailed == Some(parent)
    ensures After(s, runs).lastFailed == if runs == [] then Some(parent) else LastFailing(runs)
  {
    if runs != [] {
      var front, f := runs[..|runs| - 1], runs[|runs| - 1];
      assert AllWith(front, parent, true) by {
        assert forall i :: 0 <= i < |front| ==> front[i] == runs[i];
      }
      RepeatedReplay(s, front, parent);
      FailingIsNew(s, front);
      assert f.summary.parentRunId == parent != "" && f.complete;
    }
  }

  /** So the ledger is cleared exactly when at least one repetition ran and every one of them passed. */
  lemma ClearedByRepetitionIff(s: Store, runs: seq<RunRecord>, parent: string)
    requires AllDriven(s, runs) && AllWith(runs, parent, true) && s.lastFailed == Some(parent)
    ensures After(s, runs).lastFailed == None
       <==> runs != [] && !AnyFailed(runs)
  {
    RepeatedReplay(s, runs, parent);
    LastFailingIff(runs);
  }

  // ----- the driver

  /** How a replay asks for checks: everything that failed, or a refusal if that is nothing; then, if
      the working tree changed, whatever the changed files affect and is not listed yet. */
  method ReplayChecks(parent: Summary, adversarialOnly: bool, manifest: seq<Check>,
                      treeChanged: bool, changedAffected: set<string>)
    returns (ok: bool, only: seq<string>)
    requires KnownDeps(ById(manifest)) && changedAffected <= ById(manifest).Keys
    ensures ok <==> FailedIds(parent, adversarialOnly) != {} && (treeChanged ==> changedAffected != {})
    ensures ok ==> SortedIds(FailedIds(parent, adversarialOnly)) <= only
    ensures ok ==> Elems(only) <= FailedIds(parent, adversarialOnly) + ById(manifest).Keys
    ensures ok && !treeChanged ==> Elems(only) == FailedIds(parent, adversarialOnly)
    ensures ok && treeChanged ==> exists affected ::
      IsClosure(ById(manifest), changedAffected, affected) && Elems(only) == FailedIds(parent, adversarialOnly) + affected
  {
    only := LastFailedIDs(parent, adversarialOnly);
    assert Elems(only) == FailedIds(parent, adversarialOnly);
    if only == [] {
      return false, only;
    }
    assert only[0] in Elems(only);
    if treeChanged {
      var some, checks, s := AffectedChecks(manifest, changedAffected);
      if !some {
        return false, only;
      }
      only := AppendUnseen(only, checks);
    }
    ok := true;
  }

  /** The affected expansion: the fast gate's selection for the changed files. */
  method AffectedChecks(manifest: seq<Check>, changedAffected: set<string>)
    returns (some: bool, checks: seq<Check>, ghost s: set<string>)
    requires KnownDeps(ById(manifest)) && changedAffected <= ById(manifest).Keys
    ensures some <==> changedAffected != {}
    ensures some ==> IsClosure(ById(manifest), changedAffected, s) && s <= ById(manifest).Keys && IdSet(checks) == s
  {
    ghost var seeds;
    FastSeeds(ById(manifest), changedAffected);
    some, checks, seeds, s := SelectAll(manifest, Options("check-fast", []), changedAffected);
    if some {
      SelectedIds(ById(manifest), checks, s);
    }
  }

  lemma FastSeeds(all: map<string, Check>, affected: set<string>)
    ensures Seeds(all, Options("check-fast", []), affected) == affected
    ensures Unselectable(all, Options("check-fast", []), affected) == (affected == {})
  {
    NothingAsked(all, Options("check-fast", []), affected);
  }

  lemma SelectedIds(all: map<string, Check>, checks: seq<Check>, s: set<string>)
    requires SelectedExactly(all, checks, s)
    ensures IdSet(checks) == s
  {
    PlanOfSelection(all, checks, s);
  }

  method AppendUnseen(ids: seq<string>, checks: seq<Check>) returns (r: seq<string>)
    ensures ids <= r && Elems(r) == Elems(ids) + IdSet(checks)
  {
    r := ids;
    for i := 0 to |checks|
      invariant ids <= r && Elems(r) == Elems(ids) + IdSet(checks[..i])
    {
      TakeSnoc(checks, i);
      IdSetSnoc(checks[..i], checks[i]);
      ElemsSnoc(r, checks[i].id);
      if checks[i].id !in r {
        r := r + [checks[i].id];
      }
    }
    TakeAll(checks);
  }

  lemma ElemsSnoc(ids: seq<string>, id: string)
    ensures Elems(ids + [id]) == Elems(ids) + {id}
    ensures id in ids <==> id in Elems(ids)
  {
    forall x ensures x in Elems(ids + [id]) <==> x in Elems(ids) + {id} {
      assert x in ids + [id] <==> x in ids || x == id;
    }
  }

  /** What stays fixed over the repetitions of one invocation: the whole selection is run each time. */
  ghost predicate CoversOwed(s: Store, selection: set<string>, complete: bool) {
    ValidStore(s) && (complete ==> Owed(s) <= selection)
  }

  lemma RecordKeepsCover(s: Store, f: RunRecord, selection: set<string>)
    requires Driven(s, f) && CoversOwed(s, selection, f.complete) && ResultIds(f.summary) == selection
    ensures CoversOwed(Recorded(s, f), selection, f.complete)
  {
    forall id | f.complete && id in Owed(Recorded(s, f)) ensures id in selection {
      if Recorded(s, f).lastFailed == Some(f.summary.runId) {
        var r :| r in f.summary.results && r.id == id;
      }
    }
  }

  /** What one invocation runs, and how. */
  datatype Job = Job(all: map<string, Check>, checks: seq<Check>, jobs: int, retry: bool, goos: string)

  ghost predicate Runnable(job: Job, seeds: set<string>, s: set<string>) {
    KnownDeps(job.all) && (exists rank :: IsRank(job.all, rank)) && Selects(job.all, seeds, job.checks, s)
  }

  /** The set that the job runs, if it is a selection of a validated manifest. */
  ghost function SelectionOf(job: Job, seeds: set<string>): (r: Option<set<string>>)
    ensures r.Some? ==> Runnable(job, seeds, r.value)
  {
    if exists s :: Runnable(job, seeds, s) then
      var s :| Runnable(job, seeds, s);
      Some(s)
    else None
  }

  lemma SelectionIs(job: Job, seeds: set<string>, s: set<string>)
    requires Runnable(job, seeds, s)
    ensures SelectionOf(job, seeds) == Some(s)
  {
    ClosureUnique(job.all, seeds, s, SelectionOf(job, seeds).value);
  }

  /** The summary reports the results of running these checks. */
  ghost predicate SummaryOf(job: Job, world: World, summary: Summary) {
    exists results, stop ::
      RunOf(job.all, job.checks, job.jobs, job.retry, job.goos, world, results, stop) && Reports(summary, results)
  }

  /** One run of a validated selection, summarised. */
  method RunOnce(job: Job, ghost seeds: set<string>, ghost s: set<string>, runId: string, parentRunId: string, world: World)
    returns (summary: Summary)
    requires SelectionOf(job, seeds) == Some(s)
    ensures summary.runId == runId && summary.parentRunId == parentRunId
    ensures CountsMatch(summary) && OneResultEach(summary) && ResultIds(summary) == s
    ensures SummaryOf(job, world, summary)
  {
    var ran := RunSelection(job.all, seeds, job.checks, job.jobs, job.retry, job.goos, world);
    ClosureUnique(job.all, seeds, s, ran.results.Keys);
    summary := Summarize(runId, parentRunId, ran.results);
    assert RunOf(job.all, job.checks, job.jobs, job.retry, job.goos, world, ran.results, ran.safetyStop)
        && Reports(summary, ran.results);
  }

  /** What is fixed over the repetitions of one invocation: the selection, the kind of run, the run IDs,
      which summaries repetition `n` can produce, and the store it starts from. */
  datatype Series = Series(selection: set<string>, parentRunId: string, complete: bool,
                           runIds: seq<string>, made: (nat, Summary) -> bool, start: Store)

  /** Record `n` is that of repetition `n`. */
  ghost predicate Records(z: Series, n: nat, f: RunRecord) {
    && n < |z.runIds|
    && f.summary.runId == z.runIds[n] && f.summary.parentRunId == z.parentRunId && f.complete == z.complete
    && ResultIds(f.summary) == z.selection && z.made(n, f.summary)
  }

  /** The summaries that running the job in these worlds, one after the other, can produce. */
  ghost function MadeBy(job: Job, worlds: seq<World>): (nat, Summary) -> bool {
    (n: nat, summary: Summary) => n < |worlds| && SummaryOf(job, worlds[n], summary)
  }

  /** `z` accepts them. */
  ghost predicate Accepts(z: Series, job: Job, worlds: seq<World>) {
    forall n: nat, summary {:trigger SummaryOf(job, worlds[n], summary)} ::
      n < |worlds| && SummaryOf(job, worlds[n], summary) ==> z.made(n, summary)
  }

  /** The store after these records, if each of them is that of its repetition. */
  ghost function Follow(z: Series, runs: seq<RunRecord>): Option<Store> {
    if runs == [] then if CoversOwed(z.start, z.selection, z.complete) then Some(z.start) else None
    else
      var n := |runs| - 1;
      var before := Follow(z, runs[..n]);
      if before.Some? && Driven(before.value, runs[n]) && Records(z, n, runs[n]) then Some(Recorded(before.value, runs[n]))
      else None
  }

  lemma {:induction false} FollowHolds(z: Series, runs: seq<RunRecord>)
    requires Follow(z, runs).Some?
    ensures var now := Follow(z, runs).value;
      AllDriven(z.start, runs) && now == After(z.start, runs) && CoversOwed(now, z.selection, z.complete)
    ensures AllWith(runs, z.parentRunId, z.complete)
  {
    if runs != [] {
      var front := runs[..|runs| - 1];
      FollowHolds(z, front);
      RecordKeepsCover(After(z.start, front), runs[|runs| - 1], z.selection);
      assert forall i :: 0 <= i < |front| ==> front[i] == runs[i];
    }
  }

  lemma {:induction false} FollowAt(z: Series, runs: seq<RunRecord>, i: nat)
    requires Follow(z, runs).Some? && i < |runs|
    ensures Records(z, i, runs[i])
  {
    if i < |runs| - 1 {
      FollowAt(z, runs[..|runs| - 1], i);
    }
  }

  /** Each record is a run of the job in its own world. */
  lemma RanAt(z: Series, job: Job, worlds: seq<World>, runs: seq<RunRecord>, i: nat)
    requires Follow(z, runs).Some? && i < |runs|
    ensures z.made == MadeBy(job, worlds) ==> i < |worlds| && SummaryOf(job, worlds[i], runs[i].summary)
  {
    FollowAt(z, runs, i);
  }

  lemma FollowSnoc(z: Series, runs: seq<RunRecord>, now: Store, f: RunRecord)
    requires Follow(z, runs) == Some(now) && Records(z, |runs|, f)
    requires CountsMatch(f.summary) && OneResultEach(f.summary) && (f.complete ==> f.summary.parentRunId != "")
    requires f.summary.runId !in now.summaries && f.summary.runId != ""
    ensures Follow(z, runs + [f]) == Some(Recorded(now, f))
  {
    FollowHolds(z, runs);
    assert (runs + [f])[..|runs|] == runs;
  }

  /** `n` repetitions are all of them, or as many as it took until the context was cancelled. */
  predicate RanUntilStopped(n: nat, stopped: seq<bool>) {
    && n <= |stopped| && (forall i :: 0 <= i < n - 1 ==> !stopped[i])
    && (n == |stopped| || (n > 0 && stopped[n - 1]))
  }

  /** How many repetitions are made: up to the first after which the context is cancelled. */
  function Repetitions(stopped: seq<bool>): (n: nat)
    ensures n <= |stopped|
  {
    if stopped == [] then 0 else if stopped[0] then 1 else 1 + Repetitions(stopped[1..])
  }

  lemma {:induction false} RepetitionsIff(n: nat, stopped: seq<bool>)
    ensures n == Repetitions(stopped) <==> RanUntilStopped(n, stopped)
  {
    if stopped != [] && !stopped[0] {
      var rest := stopped[1..];
      assert forall i :: 0 <= i < |rest| ==> rest[i] == stopped[i + 1];
      if n > 0 {
        RepetitionsIff(n - 1, rest);
        assert forall i :: 0 < i < |stopped| ==> stopped[i] == rest[i - 1];
      }
    }
  }

  /** The repeat loop of `run`: the same selection is run `repeat` times, or until the context is
      cancelled, and every run is recorded; the store goes through exactly those records. */
  method RunRepeatedly(store: ArtifactStore, job: Job, ghost seeds: set<string>, ghost z: Series,
                       parentRunId: string, complete: bool,
                       runIds: seq<string>, worlds: seq<World>, stopped: seq<bool>)
    returns (failed: bool, ghost runs: seq<RunRecord>)
    requires SelectionOf(job, seeds) == Some(z.selection) && Accepts(z, job, worlds)
    requires z == Series(z.selection, parentRunId, complete, runIds, z.made, store.Model())
    requires CoversOwed(store.Model(), z.selection, complete) && (complete ==> parentRunId != "")
    requires |runIds| == |worlds| == |stopped| && FreshIds(runIds, store.summaries.Keys)
    modifies store
    ensures Follow(z, runs) == Some(store.Model())
    ensures |runs| == Repetitions(stopped)
    ensures failed == (AnyFailed(runs) || (runs != [] && stopped[|runs| - 1]))
  {
    failed, runs := false, [];
    assert stopped[0..] == stopped;
    for n := 0 to |runIds|
      invariant Follow(z, runs) == Some(store.Model())
      invariant FreshIds(runIds[n..], store.summaries.Keys)
      invariant |runs| == n && Repetitions(stopped) == n + Repetitions(stopped[n..]) && failed == AnyFailed(runs)
      invariant n > 0 ==> !stopped[n - 1]
    {
      FreshRest(runIds, n, store.summaries.Keys);
      var one;
      one, runs := Repetition(store, job, seeds, z, runs, n, runIds[n], parentRunId, complete, worlds);
      failed := failed || one;
      if stopped[n] {
        failed := true;
        break;
      }
    }
  }

  /** Run the selection once; the series accepts the summary. */
  method RunAccepted(job: Job, ghost seeds: set<string>, ghost z: Series, n: nat, runId: string, parentRunId: string,
                     worlds: seq<World>)
    returns (summary: Summary)
    requires SelectionOf(job, seeds) == Some(z.selection) && n < |worlds| && Accepts(z, job, worlds)
    ensures summary.runId == runId && summary.parentRunId == parentRunId
    ensures CountsMatch(summary) && OneResultEach(summary) && ResultIds(summary) == z.selection && z.made(n, summary)
  {
    summary := RunOnce(job, seeds, z.selection, runId, parentRunId, worlds[n]);
  }

  /** One repetition: run the selection and record the run. */
  method Repetition(store: ArtifactStore, job: Job, ghost seeds: set<string>, ghost z: Series, ghost runs: seq<RunRecord>,
                    n: nat, runId: string, parentRunId: string, complete: bool, worlds: seq<World>)
    returns (failed: bool, ghost more: seq<RunRecord>)
    requires z.parentRunId == parentRunId && z.complete == complete && SelectionOf(job, seeds) == Some(z.selection)
    requires n == |runs| < |z.runIds| && n < |worlds| && z.runIds[n] == runId && Accepts(z, job, worlds)
    requires Follow(z, runs) == Some(store.Model())
    requires runId !in store.summaries && runId != "" && (complete ==> parentRunId != "")
    modifies store
    ensures Follow(z, more) == Some(store.Model()) && |more| == n + 1
    ensures AnyFailed(more) == (AnyFailed(runs) || failed)
    ensures store.summaries.Keys == old(store.summaries.Keys) + {runId}
  {
    var summary := RunAccepted(job, seeds, z, n, runId, parentRunId, worlds);
    ghost var f := RunRecord(summary, complete);
    FollowSnoc(z, runs, store.Model(), f);
    AnyFailedSnoc(runs, f);
    store.Record(summary, complete);
    failed, more := GateFailed(summary), runs + [f];
  }

  lemma FreshRest(runIds: seq<string>, n: nat, known: set<string>)
    requires n < |runIds| && FreshIds(runIds[n..], known)
    ensures runIds[n] !in known && runIds[n] != "" && FreshIds(runIds[n + 1..], known + {runIds[n]})
  {
    var rest := runIds[n..];
    assert rest[0] == runIds[n] && rest[1..] == runIds[n + 1..];
  }

  /** Run IDs are timestamps: new to the store and different from each other. */
  ghost predicate FreshIds(runIds: seq<string>, known: set<string>) {
    && (forall i :: 0 <= i < |runIds| ==> runIds[i] !in known && runIds[i] != "")
    && forall i, j :: 0 <= i < j < |runIds| ==> runIds[i] != runIds[j]
  }

  /** The flags of `testgate run` that decide what is replayed. */
  datatype Flags = Flags(gate: string, checks: seq<string>, lastFailed: bool, adversarialLast: bool)

  datatype CommandResult = Refused | Done(failed: bool)

  /** The ledger as it stands can be replayed under these flags: there is one, it is compatible, some
      check of it matches, and a changed tree affects something. */
  ghost predicate Replayable(s: Store, flags: Flags, compatible: bool, treeChanged: bool, changedAffected: set<string>)
    requires ValidStore(s)
  {
    && s.lastFailed.Some? && compatible
    && FailedIds(s.summaries[s.lastFailed.value], flags.adversarialLast) != {}
    && (treeChanged ==> changedAffected != {})
  }

  predicate IsReplay(flags: Flags) {
    flags.lastFailed || flags.adversarialLast
  }

  /** The replay part of `run`: which checks are asked for, and under which parent. */
  method PlanCommand(store: ArtifactStore, manifest: seq<Check>, flags: Flags,
                     compatible: bool, treeChanged: bool, changedAffected: set<string>)
    returns (ok: bool, only: seq<string>, parentRunId: string, complete: bool)
    requires ValidStore(store.Model()) && KnownDeps(ById(manifest)) && changedAffected <= ById(manifest).Keys
    ensures ok <==> !IsReplay(flags) || Replayable(store.Model(), flags, compatible, treeChanged, changedAffected)
    ensures !IsReplay(flags) ==> only == flags.checks && parentRunId == "" && !complete
    ensures ok && IsReplay(flags) ==>
      var owed := FailedIds(store.summaries[store.lastFailed.value], flags.adversarialLast);
      && store.lastFailed == Some(parentRunId) && complete == (flags.lastFailed && !flags.adversarialLast)
      && owed <= Elems(only) <= owed + ById(manifest).Keys
    ensures ok && complete ==> Owed(store.Model()) <= Elems(only)
  {
    only, parentRunId, complete := flags.checks, "", false;
    if !flags.lastFailed && !flags.adversarialLast {
      return true, only, parentRunId, complete;
    }
    if store.lastFailed.None? || !compatible {
      return false, only, parentRunId, complete;
    }
    var parent := store.summaries[store.lastFailed.value];
    ok, only := ReplayChecks(parent, flags.adversarialLast, manifest, treeChanged, changedAffected);
    parentRunId, complete := parent.runId, flags.lastFailed && !flags.adversarialLast;
  }

  /** What an invocation cannot run: a replay of nothing, or of a check the manifest no longer declares;
      an unknown check, or a gate that selects nothing. */
  ghost predicate Refuses(s: Store, manifest: seq<Check>, flags: Flags, affected: set<string>,
                          compatible: bool, treeChanged: bool, changedAffected: set<string>)
    requires ValidStore(s)
  {
    if IsReplay(flags) then
      || !Replayable(s, flags, compatible, treeChanged, changedAffected)
      || !(FailedIds(s.summaries[s.lastFailed.value], flags.adversarialLast) <= ById(manifest).Keys)
    else Unselectable(ById(manifest), Options(flags.gate, flags.checks), affected)
  }

  lemma NamedIsSelectable(all: map<string, Check>, gate: string, only: seq<string>, affected: set<string>)
    requires only != []
    ensures Unselectable(all, Options(gate, only), affected) <==> !(Elems(only) <= all.Keys)
  {
    assert Asks(all, Options(gate, only), affected, only[0]);
  }

  /** One invocation of `testgate run` on a validated manifest. It is refused exactly when there is nothing
      it could run. Otherwise it makes all its repetitions, unless cancelled, and whatever it does to the
      artifact store is the sequence of those runs; a replay's runs all name the run the ledger pointed
      to, and a complete replay clears the ledger exactly when it ran and never failed. */
  method RunCommand(store: ArtifactStore, manifest: seq<Check>, flags: Flags, affected: set<string>,
                    compatible: bool, treeChanged: bool, changedAffected: set<string>,
                    runIds: seq<string>, worlds: seq<World>, stopped: seq<bool>, jobs: int, retry: bool, goos: string)
    returns (r: CommandResult, ghost runs: seq<RunRecord>, ghost z: Series)
    requires ValidGraph(manifest) && exists rank :: IsRank(ById(manifest), rank)
    requires affected <= ById(manifest).Keys && changedAffected <= ById(manifest).Keys
    requires ValidStore(store.Model())
    requires |runIds| == |worlds| == |stopped| && FreshIds(runIds, store.summaries.Keys)
    modifies store
    ensures r.Refused? <==> Refuses(old(store.Model()), manifest, flags, affected, compatible, treeChanged, changedAffected)
    ensures r.Refused? ==> store.Model() == old(store.Model()) && runs == []
    ensures r.Done? ==> Follow(z, runs) == Some(store.Model()) && |runs| == Repetitions(stopped)
    ensures r.Done? ==>
      && z.start == old(store.Model()) && z.runIds == runIds && z.complete == (flags.lastFailed && !flags.adversarialLast)
      && exists checks :: z.made == MadeBy(Job(ById(manifest), checks, jobs, retry, goos), worlds)
    ensures r.Done? ==> r.failed == (AnyFailed(runs) || (runs != [] && stopped[|runs| - 1]))
    ensures r.Done? && IsReplay(flags) ==>
      && old(store.lastFailed) == Some(z.parentRunId)
      && FailedIds(old(store.summaries)[z.parentRunId], flags.adversarialLast) <= z.selection
    ensures r.Done? && !IsReplay(flags) ==> z.parentRunId == "" && forall id ::
      id in z.selection <==> Wanted(ById(manifest), Options(flags.gate, flags.checks), affected, id)
    ensures r.Done? && flags.lastFailed && !flags.adversarialLast ==>
      (store.lastFailed == None <==> runs != [] && !AnyFailed(runs))
  {
    runs, z := [], Series({}, "", false, [], (_, _) => false, store.Model());
    var ok, only, parentRunId, complete := PlanCommand(store, manifest, flags, compatible, treeChanged, changedAffected);
    if !ok {
      return Refused, runs, z;
    }
    r, runs, z := RunPlanned(store, manifest, Options(flags.gate, only), affected, parentRunId, complete,
                             runIds, worlds, stopped, jobs, retry, goos);
    if IsReplay(flags) {
      NamedIsSelectable(ById(manifest), flags.gate, only, affected);
    }
    if complete && r.Done? {
      FollowHolds(z, runs);
      ClearedByRepetitionIff(z.start, runs, parentRunId);
    }
  }

  /** Select what is asked for and run it. */
  method RunPlanned(store: ArtifactStore, manifest: seq<Check>, options: Options, affected: set<string>,
                    parentRunId: string, complete: bool,
                    runIds: seq<string>, worlds: seq<World>, stopped: seq<bool>, jobs: int, retry: bool, goos: string)
    returns (r: CommandResult, ghost runs: seq<RunRecord>, ghost z: Series)
    requires ValidGraph(manifest) && exists rank :: IsRank(ById(manifest), rank)
    requires affected <= ById(manifest).Keys && ValidStore(store.Model())
    requires complete ==> options.onlyChecks != [] && Owed(store.Model()) <= Elems(options.onlyChecks) && parentRunId != ""
    requires |runIds| == |worlds| == |stopped| && FreshIds(runIds, store.summaries.Keys)
    modifies store
    ensures r.Refused? <==> Unselectable(ById(manifest), options, affected)
    ensures r.Refused? ==> store.Model() == old(store.Model()) && runs == []
    ensures r.Done? ==> Follow(z, runs) == Some(store.Model()) && |runs| == Repetitions(stopped)
    ensures r.Done? ==>
      && z == Series(z.selection, parentRunId, complete, runIds, z.made, old(store.Model()))
      && (exists checks :: z.made == MadeBy(Job(ById(manifest), checks, jobs, retry, goos), worlds))
      && forall id :: id in z.selection <==> Wanted(ById(manifest), options, affected, id)
    ensures r.Done? && options.onlyChecks != [] ==> Elems(options.onlyChecks) <= z.selection
    ensures r.Done? ==> r.failed == (AnyFailed(runs) || (runs != [] && stopped[|runs| - 1]))
  {
    runs, z := [], Series({}, "", false, [], (_, _) => false, store.Model());
    var some, checks, seeds, s := SelectAll(manifest, options, affected);
    if !some {
      return Refused, runs, z;
    }
    var job := Job(ById(manifest), checks, jobs, retry, goos);
    z := Series(s, parentRunId, complete, runIds, MadeBy(job, worlds), store.Model());
    SelectionIs(job, seeds, s);
    var failed;
    failed, runs := RunRepeatedly(store, job, seeds, z, parentRunId, complete, runIds, worlds, stopped);
    r := Done(failed);
  }
}
