/** `capturingEngine` (internal/boot/boot.go): which scope the durable side effects of a verdict
    and of a reported outcome land under. */
module Capture {
  import opened Contract
  import opened TokenBucket

  const MAX_PENDING: nat := 4096

  type Scope = string

  /** A signal event as it arrives; `scope` is the wire scope, which the sender chooses. */
  datatype Event = Event(cookie: u64, scope: Scope, canary: string, timestamp: int)

  /** What the inner engine answers; `scope` is the one it resolved from the flow. */
  datatype Answer = EngineError | Ruled(scope: Scope, tier: int, score: real)

  /** A reported outcome; its `scope` comes over the wire too. */
  datatype Outcome = Outcome(cookie: u64, scope: Scope, timestamp: int, body: string)

  datatype Captured = Captured(scope: Scope, cookie: u64, canary: string, timestamp: int, tier: int, score: real)
  datatype Amend = Amend(scope: Scope, cookie: u64, timestamp: int, body: string)
  datatype Jailed = Jailed(scope: Scope, cookie: u64, timestamp: int)

  datatype Call = Submit(ev: Event, inner: Answer) | Report(rec: Outcome)

  /** The captured events, amended outcomes and confirmed-malicious records, and the cookies whose
      jail awaits its outcome, with the scope resolved for them. */
  datatype State = State(pending: map<u64, Scope>, events: seq<Captured>, amends: seq<Amend>, jails: seq<Jailed>)

  const EMPTY := State(map[], [], [], [])

  function Submitted(s: State, ev: Event, inner: Answer, sharpen: bool): State {
    match inner
    case EngineError => s
    case Ruled(scope, tier, score) =>
      var t := if tier < TAG then s
               else s.(events := s.events + [Captured(scope, ev.cookie, ev.canary, ev.timestamp, tier, score)]);
      if tier == JAIL_TIER && sharpen && |t.pending| < MAX_PENDING then t.(pending := t.pending[ev.cookie := scope])
      else t
  }

  /** The wire scope counts only for a cookie without a tracked, non-empty resolved scope. */
  predicate Tracked(s: State, cookie: u64) {
    cookie in s.pending && s.pending[cookie] != ""
  }

  function Reported(s: State, rec: Outcome, sharpen: bool): State {
    var jailed := rec.cookie in s.pending;
    var scope := if Tracked(s, rec.cookie) then s.pending[rec.cookie] else rec.scope;
    State(s.pending - {rec.cookie},
          s.events,
          s.amends + [Amend(scope, rec.cookie, rec.timestamp, rec.body)],
          if jailed && sharpen then s.jails + [Jailed(s.pending[rec.cookie], rec.cookie, rec.timestamp)] else s.jails)
  }

  function Step(s: State, c: Call, sharpen: bool): State {
    match c
    case Submit(ev, inner) => Submitted(s, ev, inner, sharpen)
    case Report(rec) => Reported(s, rec, sharpen)
  }

  function Run(calls: seq<Call>, sharpen: bool): State {
    if calls == [] then EMPTY else Step(Run(calls[..|calls| - 1], sharpen), calls[|calls| - 1], sharpen)
  }

  // ----- the imperative form

  class CapturingEngine {
    const sharpen: bool
    var pendingJails: map<u64, Scope>
    var events: seq<Captured>
    var amends: seq<Amend>
    var jails: seq<Jailed>

    ghost function Model(): State
      reads this
    {
      State(pendingJails, events, amends, jails)
    }

    constructor (sharpen: bool)
      ensures Model() == EMPTY && this.sharpen == sharpen
    {
      this.sharpen := sharpen;
      pendingJails, events, amends, jails := map[], [], [], [];
    }

    /** Returns the inner answer unchanged; every side effect keys on the resolved scope. */
    method Submit(ev: Event, inner: Answer) returns (r: Answer)
      modifies this
      ensures r == inner && Model() == Step(old(Model()), Call.Submit(ev, inner), sharpen)
    {
      if inner.EngineError? {
        return inner;
      }
      var e := ev.(scope := inner.scope);
      if inner.tier >= TAG {
        events := events + [Captured(e.scope, e.cookie, e.canary, e.timestamp, inner.tier, inner.score)];
      }
      if inner.tier == JAIL_TIER && sharpen {
        if |pendingJails| < MAX_PENDING {
          pendingJails := pendingJails[e.cookie := inner.scope];
        }
      }
      return inner;
    }

    method ReportOutcome(rec: Outcome)
      modifies this
      ensures Model() == Step(old(Model()), Report(rec), sharpen)
    {
      var authScope, jailed := "", false;
      if rec.cookie in pendingJails {
        authScope, jailed := pendingJails[rec.cookie], true;
      }
      if jailed {
        pendingJails := pendingJails - {rec.cookie};
      } else {
        assert pendingJails - {rec.cookie} == pendingJails;
      }
      var r := rec;
      if jailed && authScope != "" {
        r := r.(scope := authScope);
      }
      amends := amends + [Amend(r.scope, r.cookie, r.timestamp, r.body)];
      if jailed && sharpen {
        jails := jails + [Jailed(authScope, rec.cookie, rec.timestamp)];
      }
    }
  }

  // ----- non-interference of the wire scope

  function Erased(c: Call): Call {
    match c
    case Submit(ev, inner) => Submit(ev.(scope := ""), inner)
    case Report(rec) => Report(rec.(scope := ""))
  }

  /** Two call sequences that differ only in wire scopes. */
  ghost predicate SameButWire(xs: seq<Call>, ys: seq<Call>) {
    |xs| == |ys| && forall i :: 0 <= i < |xs| ==> Erased(xs[i]) == Erased(ys[i])
  }

  /** Amends agree in everything but their scope. */
  ghost predicate SameAmend(a: Amend, b: Amend) {
    a.(scope := "") == b.(scope := "")
  }

  ghost predicate Agree(s: State, t: State) {
    && s.events == t.events && s.jails == t.jails && s.pending == t.pending
    && |s.amends| == |t.amends| && forall i :: 0 <= i < |s.amends| ==> SameAmend(s.amends[i], t.amends[i])
  }

  lemma StepAgrees(s: State, t: State, x: Call, y: Call, sharpen: bool)
    requires Agree(s, t) && Erased(x) == Erased(y)
    ensures Agree(Step(s, x, sharpen), Step(t, y, sharpen))
  {
  }

  lemma {:induction false} RunsAgree(xs: seq<Call>, ys: seq<Call>, sharpen: bool)
    requires SameButWire(xs, ys)
    ensures Agree(Run(xs, sharpen), Run(ys, sharpen))
  {
    if xs == [] {
    } else {
      var fx, fy := xs[..|xs| - 1], ys[..|ys| - 1];
      assert SameButWire(fx, fy) by {
        forall i | 0 <= i < |fx| ensures Erased(fx[i]) == Erased(fy[i]) {
          assert fx[i] == xs[i] && fy[i] == ys[i];
        }
      }
      RunsAgree(fx, fy, sharpen);
      StepAgrees(Run(fx, sharpen), Run(fy, sharpen), xs[|xs| - 1], ys[|ys| - 1], sharpen);
    }
  }

  /** Where the amend of reported outcome `k` stands among all amends of the run. */
  ghost function AmendPlace(calls: seq<Call>, k: nat, sharpen: bool): nat
    requires k < |calls|
  {
    |Run(calls[..k], sharpen).amends|
  }

  lemma {:induction false} AmendsOnlyGrow(calls: seq<Call>, k: nat, sharpen: bool)
    requires k <= |calls|
    ensures Run(calls[..k], sharpen).amends <= Run(calls, sharpen).amends
  {
    if k < |calls| {
      var front := calls[..|calls| - 1];
      assert front[..k] == calls[..k];
      AmendsOnlyGrow(front, k, sharpen);
    } else {
      assert calls[..k] == calls;
    }
  }

  /** Outcome `k` leaves the same amend at the same place in both runs. */
  ghost predicate SameAmendAt(xs: seq<Call>, ys: seq<Call>, k: nat, sharpen: bool)
    requires k < |xs| == |ys|
  {
    var place := AmendPlace(xs, k, sharpen);
    var a, b := Run(xs, sharpen).amends, Run(ys, sharpen).amends;
    place == AmendPlace(ys, k, sharpen) && place < |a| && place < |b| && a[place] == b[place]
  }

  /** Changing wire scopes changes no captured event, no jail record and no pending scope. Of the amends
      it can change only the scope, and not even that where the cookie had a tracked one: that amend is
      the same, at the same place of the store. */
  lemma WireScopeIsInert(xs: seq<Call>, ys: seq<Call>, sharpen: bool)
    requires SameButWire(xs, ys)
    ensures Agree(Run(xs, sharpen), Run(ys, sharpen))
    ensures forall k :: 0 <= k < |xs| && xs[k].Report? && Tracked(Run(xs[..k], sharpen), xs[k].rec.cookie) ==>
      SameAmendAt(xs, ys, k, sharpen)
  {
    RunsAgree(xs, ys, sharpen);
    forall k | 0 <= k < |xs| && xs[k].Report? && Tracked(Run(xs[..k], sharpen), xs[k].rec.cookie)
      ensures SameAmendAt(xs, ys, k, sharpen)
    {
      TrackedAmend(xs, ys, k, sharpen);
    }
  }

  lemma TrackedAmend(xs: seq<Call>, ys: seq<Call>, k: nat, sharpen: bool)
    requires SameButWire(xs, ys) && k < |xs| && xs[k].Report? && Tracked(Run(xs[..k], sharpen), xs[k].rec.cookie)
    ensures SameAmendAt(xs, ys, k, sharpen)
  {
    assert SameButWire(xs[..k], ys[..k]) by {
      forall i | 0 <= i < k ensures Erased(xs[..k][i]) == Erased(ys[..k][i]) {
        assert xs[..k][i] == xs[i] && ys[..k][i] == ys[i];
      }
    }
    RunsAgree(xs[..k], ys[..k], sharpen);
    assert Erased(xs[k]) == Erased(ys[k]);
    AmendAtPlace(xs, k, sharpen);
    AmendAtPlace(ys, k, sharpen);
  }

  /** The amend of outcome `k` is filed under the scope known when it was reported, and stays there. */
  lemma AmendAtPlace(calls: seq<Call>, k: nat, sharpen: bool)
    requires k < |calls| && calls[k].Report?
    ensures var amends, place, s, rec := Run(calls, sharpen).amends, AmendPlace(calls, k, sharpen), Run(calls[..k], sharpen), calls[k].rec;
      place < |amends| &&
      amends[place] == Amend(if rec.cookie in s.pending && s.pending[rec.cookie] != "" then s.pending[rec.cookie] else rec.scope,
                             rec.cookie, rec.timestamp, rec.body)
  {
    RunSnoc(calls, k, sharpen);
    AmendsOnlyGrow(calls, k + 1, sharpen);
  }

  /** Where an amend lands depends on the wire scope exactly for untracked cookies. */
  lemma AmendFollowsWireIff(calls: seq<Call>, rec: Outcome, other: Scope, sharpen: bool)
    requires other != rec.scope
    ensures var s := Run(calls, sharpen);
      Reported(s, rec, sharpen).amends != Reported(s, rec.(scope := other), sharpen).amends <==> !Tracked(s, rec.cookie)
  {
    var s := Run(calls, sharpen);
    var a, b := Reported(s, rec, sharpen).amends, Reported(s, rec.(scope := other), sharpen).amends;
    assert a[|s.amends|].scope == (if Tracked(s, rec.cookie) then s.pending[rec.cookie] else rec.scope);
    assert b[|s.amends|].scope == (if Tracked(s, rec.cookie) then s.pending[rec.cookie] else other);
  }

  // ----- what is captured

  /** An event is captured exactly for a verdict of Tier 1 or above, under the resolved scope, with what
      was decided; a jail of Tier 3 is marked pending under that scope while there is room for it. */
  lemma CapturedByTier(s: State, ev: Event, inner: Answer, sharpen: bool)
    ensures var t := Submitted(s, ev, inner, sharpen);
      && (inner.EngineError? ==> t == s)
      && (inner.Ruled? && inner.tier >= 1 ==>
            t.events == s.events + [Captured(inner.scope, ev.cookie, ev.canary, ev.timestamp, inner.tier, inner.score)])
      && (inner.Ruled? && inner.tier <= 0 ==> t.events == s.events)
      && (inner.Ruled? && inner.tier == 3 && sharpen && |s.pending| < 4096 ==> t.pending == s.pending[ev.cookie := inner.scope])
      && (inner.Ruled? && !(inner.tier == 3 && sharpen && |s.pending| < 4096) ==> t.pending == s.pending)
      && t.amends == s.amends && t.jails == s.jails
  {
  }

  /** A jail verdict that found room leads to a jail record under its scope when the outcome comes, if no
      other event of the cookie came in between. */
  lemma {:induction false} JailIsRecorded(calls: seq<Call>, k: nat, cookie: u64, scope: Scope, rec: Outcome)
    requires k < |calls| && JailVerdict(calls[k], cookie, scope) && rec.cookie == cookie
    requires |Run(calls[..k], true).pending| < 4096
    requires forall m :: k < m < |calls| ==>
      !ReportsOn(calls[m], cookie) && !(calls[m].Submit? && calls[m].ev.cookie == cookie)
    ensures var s := Run(calls, true);
      && cookie in s.pending && s.pending[cookie] == scope
      && Reported(s, rec, true).jails == s.jails + [Jailed(scope, cookie, rec.timestamp)]
      && cookie !in Reported(s, rec, true).pending
  {
    var front, c := calls[..|calls| - 1], calls[|calls| - 1];
    if k == |calls| - 1 {
      assert calls[..k] == front;
    } else {
      assert front[..k] == calls[..k] && front[k] == calls[k];
      assert forall m :: 0 <= m < |front| ==> front[m] == calls[m];
      JailIsRecorded(front, k, cookie, scope, rec);
      assert !ReportsOn(c, cookie) && !(c.Submit? && c.ev.cookie == cookie);
    }
  }

  // ----- where jail records come from

  /** A jail verdict for the cookie, resolved to that scope. */
  ghost predicate JailVerdict(c: Call, cookie: u64, scope: Scope) {
    c.Submit? && c.ev.cookie == cookie && c.inner.Ruled? && c.inner.tier == 3 && c.inner.scope == scope
  }

  ghost predicate ReportsOn(c: Call, cookie: u64) {
    c.Report? && c.rec.cookie == cookie
  }

  /** Call `k` is a jail verdict for the cookie and no outcome was reported for it since. */
  ghost predicate AwaitedSince(calls: seq<Call>, k: int, cookie: u64, scope: Scope) {
    && 0 <= k < |calls| && JailVerdict(calls[k], cookie, scope)
    && forall m :: k < m < |calls| ==> !ReportsOn(calls[m], cookie)
  }

  lemma {:induction false} PendingIsAwaited(calls: seq<Call>, cookie: u64, sharpen: bool)
    requires cookie in Run(calls, sharpen).pending
    ensures exists k :: AwaitedSince(calls, k, cookie, Run(calls, sharpen).pending[cookie])
  {
    var front, c := calls[..|calls| - 1], calls[|calls| - 1];
    assert calls == front + [c];
    var s, t := Run(front, sharpen), Run(calls, sharpen);
    if cookie in s.pending && s.pending[cookie] == t.pending[cookie] && !JailVerdict(c, cookie, t.pending[cookie]) {
      PendingIsAwaited(front, cookie, sharpen);
      var k :| AwaitedSince(front, k, cookie, s.pending[cookie]);
      assert AwaitedSince(calls, k, cookie, t.pending[cookie]);
    } else {
      assert AwaitedSince(calls, |calls| - 1, cookie, t.pending[cookie]);
    }
  }

  /** Call `i` adds a jail record. */
  ghost predicate Records(calls: seq<Call>, i: int, sharpen: bool) {
    0 <= i < |calls| && calls[i].Report? && sharpen && calls[i].rec.cookie in Run(calls[..i], sharpen).pending
  }

  lemma RunSnoc(calls: seq<Call>, i: nat, sharpen: bool)
    requires i < |calls|
    ensures Run(calls[..i + 1], sharpen) == Step(Run(calls[..i], sharpen), calls[i], sharpen)
  {
    assert calls[..i + 1][..i] == calls[..i];
  }

  /** Every jail record carries a scope that the engine resolved for that cookie at an earlier jail
      verdict, with no report in between. */
  lemma RecordHasVerdict(calls: seq<Call>, i: nat, sharpen: bool) returns (k: nat)
    requires Records(calls, i, sharpen)
    ensures k < i && forall m :: k < m < i ==> !ReportsOn(calls[m], calls[i].rec.cookie)
    ensures var r := Run(calls[..i + 1], sharpen).jails;
      r != [] && r[|r| - 1].cookie == calls[i].rec.cookie && JailVerdict(calls[k], calls[i].rec.cookie, r[|r| - 1].scope)
  {
    var cookie := calls[i].rec.cookie;
    PendingIsAwaited(calls[..i], cookie, sharpen);
    RunSnoc(calls, i, sharpen);
    k :| AwaitedSince(calls[..i], k, cookie, Run(calls[..i], sharpen).pending[cookie]);
    forall m | k < m < i ensures !ReportsOn(calls[m], cookie) {
      assert calls[..i][m] == calls[m];
    }
  }

  /** Two records for one cookie have a fresh jail verdict for it between them. */
  lemma RecordsAreSeparated(calls: seq<Call>, i: nat, j: nat, sharpen: bool)
    requires i < j && Records(calls, i, sharpen) && Records(calls, j, sharpen)
    requires calls[i].rec.cookie == calls[j].rec.cookie
    ensures exists k, scope :: i < k < j && JailVerdict(calls[k], calls[j].rec.cookie, scope)
  {
    var k := RecordHasVerdict(calls, j, sharpen);
    var r := Run(calls[..j + 1], sharpen).jails;
    if k < i {
      assert ReportsOn(calls[i], calls[j].rec.cookie);
    }
    assert JailVerdict(calls[k], calls[j].rec.cookie, r[|r| - 1].scope);
  }

  /** The bridge between verdict and outcome stays bounded. */
  lemma {:induction false} PendingBounded(calls: seq<Call>, sharpen: bool)
    ensures |Run(calls, sharpen).pending| <= 4096
  {
    if calls == [] {
    } else {
      var s, c := Run(calls[..|calls| - 1], sharpen), calls[|calls| - 1];
      PendingBounded(calls[..|calls| - 1], sharpen);
      if c.Submit? {
        GrowsByOne(s.pending, c.ev.cookie, if c.inner.Ruled? then c.inner.scope else "");
      }
    }
  }

  lemma GrowsByOne(m: map<u64, Scope>, c: u64, scope: Scope)
    ensures |m[c := scope]| <= |m| + 1
  {
    assert m[c := scope].Keys == m.Keys + {c};
    assert |m.Keys + {c}| <= |m.Keys| + 1;
  }
}
