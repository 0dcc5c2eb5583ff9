/** The operator kill switch in front of enforcement (internal/boot/boot.go), and enforcement with
    the sequencer's lock released between admission and enforcement (cmd/envoy-adapter/main.go). */
module KillSwitch {
  import opened Prelude
  import opened Contract
  import opened TokenBucket
  import opened KernelMap
  import opened Sequencer
  import opened Enforcement

  datatype Submitted = Failed | Emitted(v: Verdict)

  /** `killSwitchEngine.Submit`: an active switch floors the tier of the emitted copy and nothing else. */
  method Submit(inner: Submitted, active: bool) returns (r: Submitted)
    ensures r.Failed? <==> inner.Failed?
    ensures r.Emitted? && !active ==> r.v == inner.v
    ensures r.Emitted? && active ==> r.v == inner.v.(tier := 0)
  {
    if inner.Failed? {
      return inner;
    }
    if active {
      var floored := inner.v;
      floored := floored.(tier := OBSERVE);
      return Emitted(floored);
    }
    return inner;
  }

  function Floored(v: Verdict): (f: Verdict)
    ensures f.tier == OBSERVE && f.cookie == v.cookie && f.mode == v.mode
    ensures f.scope == v.scope && f.score == v.score && f.calibrated == v.calibrated
  {
    v.(tier := OBSERVE)
  }

  /** Delivering a floored async verdict frees its cookie exactly when the sequencer admits it and the
      kernel accepts the release, or the cookie was not contained to begin with. */
  lemma FlooredReleasesIff(z: Sizing, n: Node, v: Verdict, ordinal: Ordinal, accepted: bool)
    requires v.mode == Async && v.cookie != 0
    ensures v.cookie !in Deliver(z, n, Delivery(Floored(v), ordinal, accepted)).entries
       <==> (Admits(n.high, v.cookie, ordinal) && accepted) || v.cookie !in n.entries
  {
  }

  lemma {:induction false} StaysFree(m: Entries, steps: seq<Step>, c: u64)
    requires c !in m && forall i :: 0 <= i < |steps| ==> !Programs(steps[i], c)
    ensures c !in Run(m, steps)
  {
    if steps == [] {
    } else {
      StaysFree(m, steps[..|steps| - 1], c);
    }
  }

  /** From any state, a floored async verdict newer than the cookie's mark releases the cookie, and
      all its packets pass for as long as nothing programs it again. */
  lemma KillSwitchFrees(z: Sizing, n: Node, v: Verdict, ordinal: Ordinal, steps: seq<Step>, len: nat, now: u64)
    requires v.mode == Async && v.cookie != 0
    requires v.cookie in n.high ==> n.high[v.cookie] < ordinal
    requires forall i :: 0 <= i < |steps| ==> !Programs(steps[i], v.cookie)
    ensures Passes(Run(Deliver(z, n, Delivery(Floored(v), ordinal, true)).entries, steps), v.cookie, len, now)
  {
    FlooredReleasesIff(z, n, v, ordinal, true);
    StaysFree(Deliver(z, n, Delivery(Floored(v), ordinal, true)).entries, steps, v.cookie);
  }

  /** Where something is in force in `m`, the same is in force in `n`. */
  ghost predicate WithinViews(m: Entries, n: Entries) {
    forall c :: View(m, c) == None || View(m, c) == View(n, c)
  }

  /** Arrivals are floored, and nothing else programs the map. */
  ghost predicate Disarmed(es: seq<Event>) {
    forall i :: 0 <= i < |es| ==>
      match es[i]
      case Arrive(d) => d.v == Floored(d.v)
      case Kernel(s) => !s.Program?
  }

  lemma DisarmedStep(z: Sizing, n: Node, e: Event)
    requires Disarmed([e])
    ensures WithinViews(Happens(z, n, e).entries, n.entries)
  {
    assert [e][0] == e;
    forall c: u64 ensures View(Happens(z, n, e).entries, c) == None || View(Happens(z, n, e).entries, c) == View(n.entries, c) {
      if e.Arrive? {
        EnforcedView(z, n.entries, e.d, c);
      } else if e.step.Send? {
        SendKeepsViews(n.entries, e.step, c);
      }
    }
  }

  /** While the switch is active, whatever the engine decides, in whatever order it arrives, among
      packets, closes, evictions and releases, no flow becomes contained and no containment changes; it
      is only lifted. */
  lemma {:induction false} ActiveSwitchOnlyLifts(z: Sizing, n: Node, es: seq<Event>)
    requires Disarmed(es)
    ensures WithinViews(HappenAll(z, n, es).entries, n.entries)
  {
    if es != [] {
      var front, e := es[..|es| - 1], es[|es| - 1];
      assert Disarmed(front) && Disarmed([e]) by {
        assert es == front + [e];
        assert forall i :: 0 <= i < |front| ==> front[i] == es[i];
      }
      ActiveSwitchOnlyLifts(z, n, front);
      DisarmedStep(z, HappenAll(z, n, front), e);
    }
  }

  /** Among deliveries alone, what remains is untouched down to its counters and tokens. */
  lemma {:induction false} FlooredOnlyRemoves(z: Sizing, n: Node, ds: seq<Delivery>, c: u64)
    requires forall i :: 0 <= i < |ds| ==> ds[i].v == Floored(ds[i].v)
    ensures c in DeliverAll(z, n, ds).entries ==> SameAt(DeliverAll(z, n, ds).entries, n.entries, c)
  {
    if ds != [] {
      var front, d := ds[..|ds| - 1], ds[|ds| - 1];
      FlooredOnlyRemoves(z, n, front, c);
      assert ds[|ds| - 1].v == Floored(ds[|ds| - 1].v);
    }
  }

  // ----- admission and enforcement as two steps

  /** `admit` holds the lock, the enforcement that follows does not. */
  datatype Phase = Check(d: Delivery) | Apply(d: Delivery)

  function Phased(z: Sizing, n: Node, p: Phase): Node {
    match p
    case Check(d) => n.(high := Admitted(n.high, d.v.cookie, d.ordinal))
    case Apply(d) => n.(entries := Enforced(z, n.entries, d))
  }

  function PhasedAll(z: Sizing, n: Node, ps: seq<Phase>): Node {
    if ps == [] then n else Phased(z, PhasedAll(z, n, ps[..|ps| - 1]), ps[|ps| - 1])
  }

  function Checks(ps: seq<Phase>): seq<Delivery> {
    if ps == [] then []
    else
      var front := Checks(ps[..|ps| - 1]);
      if ps[|ps| - 1].Check? then front + [ps[|ps| - 1].d] else front
  }

  /** The verdicts of `c` in the order the enforcer applied them. */
  function AppliedTo(ps: seq<Phase>, c: u64): seq<Delivery> {
    if ps == [] then []
    else
      var front, p := AppliedTo(ps[..|ps| - 1], c), ps[|ps| - 1];
      if p.Apply? && p.d.v.cookie == c then front + [p.d] else front
  }

  /** The verdicts of `c` in the order the sequencer admits them. */
  function AdmittedTo(z: Sizing, n: Node, ds: seq<Delivery>, c: u64): seq<Delivery> {
    if ds == [] then []
    else
      var front, d := ds[..|ds| - 1], ds[|ds| - 1];
      var before := AdmittedTo(z, n, front, c);
      if d.v.cookie == c && Admits(DeliverAll(z, n, front).high, c, d.ordinal) then before + [d] else before
  }

  /** What the last effective verdict of a list asks for; without one, what was in force. */
  function LastAsked(z: Sizing, ds: seq<Delivery>, before: Option<Policy>): Option<Policy> {
    if ds == [] then before
    else if Effective(ds[|ds| - 1]) then Asked(z, ds[|ds| - 1].v)
    else LastAsked(z, ds[..|ds| - 1], before)
  }

  /** Whatever the interleaving, what is in force for `c` is what its enforced verdicts leave in the
      order they were enforced. */
  lemma {:induction false} AppliedDecides(z: Sizing, n: Node, ps: seq<Phase>, c: u64)
    ensures View(PhasedAll(z, n, ps).entries, c) == LastAsked(z, AppliedTo(ps, c), View(n.entries, c))
  {
    if ps == [] {
    } else {
      var front, p := ps[..|ps| - 1], ps[|ps| - 1];
      AppliedDecides(z, n, front, c);
      if p.Apply? {
        EnforcedView(z, PhasedAll(z, n, front).entries, p.d, c);
      }
    }
  }

  /** Atomically, it is what its admitted verdicts leave in the order they were admitted. */
  lemma {:induction false} AdmittedDecides(z: Sizing, n: Node, ds: seq<Delivery>, c: u64)
    ensures View(DeliverAll(z, n, ds).entries, c) == LastAsked(z, AdmittedTo(z, n, ds, c), View(n.entries, c))
  {
    if ds == [] {
    } else {
      var front, d := ds[..|ds| - 1], ds[|ds| - 1];
      AdmittedDecides(z, n, front, c);
      EnforcedView(z, DeliverAll(z, n, front).entries, d, c);
    }
  }

  /** Up to enforcement the marks are the atomic ones, so the same verdicts are admitted. */
  lemma {:induction false} SameAdmissions(z: Sizing, n: Node, ps: seq<Phase>)
    ensures PhasedAll(z, n, ps).high == DeliverAll(z, n, Checks(ps)).high
  {
    if ps == [] {
    } else {
      var front, p := ps[..|ps| - 1], ps[|ps| - 1];
      SameAdmissions(z, n, front);
      if p.Check? {
        DeliverSnoc(z, n, Checks(front), p.d);
      }
    }
  }

  /** The last effective verdict enforced for `c` asks for the same as the last one admitted for it. */
  ghost predicate EnforcedLikeAdmitted(z: Sizing, n: Node, ps: seq<Phase>, c: u64) {
    LastAsked(z, AppliedTo(ps, c), View(n.entries, c)) == LastAsked(z, AdmittedTo(z, n, Checks(ps), c), View(n.entries, c))
  }

  /** For every interleaving and from every node: `c` ends as under atomic delivery if and only if that
      holds. */
  lemma PhasedIsAtomicIff(z: Sizing, n: Node, ps: seq<Phase>, c: u64)
    ensures View(PhasedAll(z, n, ps).entries, c) == View(DeliverAll(z, n, Checks(ps)).entries, c)
       <==> EnforcedLikeAdmitted(z, n, ps, c)
  {
    AppliedDecides(z, n, ps, c);
    AdmittedDecides(z, n, Checks(ps), c);
  }

  // ----- which batches are safe under every schedule

  /** A schedule of the batch: its checks are those of `ds` in this order, and of `c` it enforces exactly
      the verdicts that were admitted, each after its admission, in any order. */
  ghost predicate Schedules(z: Sizing, n: Node, ps: seq<Phase>, ds: seq<Delivery>, c: u64) {
    && Checks(ps) == ds
    && multiset(AppliedTo(ps, c)) == multiset(AdmittedTo(z, n, ds, c))
    && forall m :: 0 <= m <= |ps| ==> AppliedSoFar(z, n, ps, m, c)
  }

  ghost predicate AppliedSoFar(z: Sizing, n: Node, ps: seq<Phase>, m: nat, c: u64)
    requires m <= |ps|
  {
    multiset(AppliedTo(ps[..m], c)) <= multiset(AdmittedTo(z, n, Checks(ps[..m]), c))
  }

  /** Every admitted verdict of `c` that takes effect asks for what atomic delivery leaves in force. */
  ghost predicate AllAskTheSame(z: Sizing, n: Node, ds: seq<Delivery>, c: u64) {
    forall d :: d in AdmittedTo(z, n, ds, c) && Effective(d) ==>
      Asked(z, d.v) == View(DeliverAll(z, n, ds).entries, c)
  }

  /** `LastAsked` is what some effective verdict of the list asks for, if it has one. */
  lemma {:induction false} LastAskedBySome(z: Sizing, ds: seq<Delivery>, before: Option<Policy>)
    ensures (exists d :: d in ds && Effective(d) && LastAsked(z, ds, before) == Asked(z, d.v))
         || ((forall d :: d in ds ==> !Effective(d)) && LastAsked(z, ds, before) == before)
  {
    if ds != [] {
      var front, last := ds[..|ds| - 1], ds[|ds| - 1];
      assert ds == front + [last];
      LastAskedBySome(z, front, before);
    }
  }

  lemma SameAskedEitherWay(z: Sizing, n: Node, ps: seq<Phase>, ds: seq<Delivery>, c: u64)
    requires AllAskTheSame(z, n, ds, c) && multiset(AppliedTo(ps, c)) == multiset(AdmittedTo(z, n, ds, c))
    ensures View(PhasedAll(z, n, ps).entries, c) == View(DeliverAll(z, n, ds).entries, c)
  {
    var applied, admitted, before := AppliedTo(ps, c), AdmittedTo(z, n, ds, c), View(n.entries, c);
    AppliedDecides(z, n, ps, c);
    AdmittedDecides(z, n, ds, c);
    LastAskedBySome(z, applied, before);
    LastAskedBySome(z, admitted, before);
    forall d ensures d in applied <==> d in admitted {
      SameElements(applied, admitted, d);
    }
  }

  function AllChecked(ds: seq<Delivery>): (ps: seq<Phase>)
    ensures |ps| == |ds| && forall i :: 0 <= i < |ds| ==> ps[i] == Check(ds[i])
  {
    Mapped(d => Check(d), ds)
  }

  function AllApplied(ds: seq<Delivery>): (ps: seq<Phase>)
    ensures |ps| == |ds| && forall i :: 0 <= i < |ds| ==> ps[i] == Apply(ds[i])
  {
    Mapped(d => Apply(d), ds)
  }

  lemma {:induction false} OnlyChecked(ds: seq<Delivery>, c: u64)
    ensures Checks(AllChecked(ds)) == ds && AppliedTo(AllChecked(ds), c) == []
  {
    if ds != [] {
      var front := ds[..|ds| - 1];
      assert AllChecked(ds)[..|ds| - 1] == AllChecked(front);
      OnlyChecked(front, c);
    }
  }

  /** First all checks, then the enforcements `xs`. */
  function Late(ds: seq<Delivery>, xs: seq<Delivery>): seq<Phase> {
    AllChecked(ds) + AllApplied(xs)
  }

  lemma {:induction false} ThenApplied(ds: seq<Delivery>, xs: seq<Delivery>, c: u64)
    requires forall i :: 0 <= i < |xs| ==> xs[i].v.cookie == c
    ensures Checks(Late(ds, xs)) == ds && AppliedTo(Late(ds, xs), c) == xs
  {
    if xs == [] {
      OnlyChecked(ds, c);
      assert Late(ds, xs) == AllChecked(ds);
    } else {
      var front, last := xs[..|xs| - 1], xs[|xs| - 1];
      LateSnoc(ds, xs);
      ThenApplied(ds, front, c);
      assert xs == front + [last];
    }
  }

  lemma LateSnoc(ds: seq<Delivery>, xs: seq<Delivery>)
    requires xs != []
    ensures Late(ds, xs) == Late(ds, xs[..|xs| - 1]) + [Apply(xs[|xs| - 1])]
  {
    assert AllApplied(xs) == AllApplied(xs[..|xs| - 1]) + [Apply(xs[|xs| - 1])];
  }

  lemma {:induction false} AdmittedIsOfCookie(z: Sizing, n: Node, ds: seq<Delivery>, c: u64)
    ensures forall i :: 0 <= i < |AdmittedTo(z, n, ds, c)| ==> AdmittedTo(z, n, ds, c)[i].v.cookie == c
  {
    if ds != [] {
      AdmittedIsOfCookie(z, n, ds[..|ds| - 1], c);
    }
  }

  lemma LateIsScheduled(z: Sizing, n: Node, ds: seq<Delivery>, xs: seq<Delivery>, c: u64)
    requires Permutation(xs, AdmittedTo(z, n, ds, c))
    ensures Schedules(z, n, Late(ds, xs), ds, c) && AppliedTo(Late(ds, xs), c) == xs
  {
    AdmittedIsOfCookie(z, n, ds, c);
    forall i | 0 <= i < |xs| ensures xs[i].v.cookie == c {
      SameElements(xs, AdmittedTo(z, n, ds, c), xs[i]);
    }
    ThenApplied(ds, xs, c);
    forall m | 0 <= m <= |Late(ds, xs)| ensures AppliedSoFar(z, n, Late(ds, xs), m, c) {
      LateSoFar(z, n, ds, xs, m, c);
    }
  }

  lemma PartOfAll(xs: seq<Delivery>, ys: seq<Delivery>, k: nat)
    requires Permutation(xs, ys) && k <= |xs|
    ensures multiset(xs[..k]) <= multiset(ys)
  {
    assert xs == xs[..k] + xs[k..];
  }

  lemma SoFarByPart(z: Sizing, n: Node, ps: seq<Phase>, m: nat, part: seq<Phase>, c: u64, applied: seq<Delivery>, ds: seq<Delivery>)
    requires m <= |ps| && ps[..m] == part && AppliedTo(part, c) == applied && Checks(part) == ds
    requires multiset(applied) <= multiset(AdmittedTo(z, n, ds, c))
    ensures AppliedSoFar(z, n, ps, m, c)
  {
  }

  lemma NoneSoFar(z: Sizing, n: Node, ds: seq<Delivery>, xs: seq<Delivery>, m: nat, c: u64)
    requires m <= |ds|
    ensures AppliedSoFar(z, n, Late(ds, xs), m, c)
  {
    OnlyChecked(ds[..m], c);
    SoFarByPart(z, n, Late(ds, xs), m, AllChecked(ds[..m]), c, [], ds[..m]);
  }

  lemma SomeSoFar(z: Sizing, n: Node, ds: seq<Delivery>, xs: seq<Delivery>, k: nat, m: nat, c: u64, applied: seq<Delivery>)
    requires k <= |xs| && m == |ds| + k && applied == xs[..k] && forall i :: 0 <= i < |applied| ==> applied[i].v.cookie == c
    requires multiset(applied) <= multiset(AdmittedTo(z, n, ds, c))
    ensures AppliedSoFar(z, n, Late(ds, xs), m, c)
  {
    ThenApplied(ds, applied, c);
    SoFarByPart(z, n, Late(ds, xs), m, Late(ds, applied), c, applied, ds);
  }

  lemma LateSoFar(z: Sizing, n: Node, ds: seq<Delivery>, xs: seq<Delivery>, m: nat, c: u64)
    requires Permutation(xs, AdmittedTo(z, n, ds, c)) && m <= |Late(ds, xs)|
    requires forall i :: 0 <= i < |xs| ==> xs[i].v.cookie == c
    ensures AppliedSoFar(z, n, Late(ds, xs), m, c)
  {
    if m <= |ds| {
      NoneSoFar(z, n, ds, xs, m, c);
    } else {
      var k := m - |ds|;
      PartOfAll(xs, AdmittedTo(z, n, ds, c), k);
      SomeSoFar(z, n, ds, xs, k, m, c, xs[..k]);
    }
  }

  /** A dissenting verdict enforced last decides. */
  lemma DissentDecides(z: Sizing, n: Node, ds: seq<Delivery>, c: u64, d: Delivery) returns (ps: seq<Phase>)
    requires d in AdmittedTo(z, n, ds, c) && Effective(d)
    ensures Schedules(z, n, ps, ds, c) && View(PhasedAll(z, n, ps).entries, c) == Asked(z, d.v)
  {
    var admitted := AdmittedTo(z, n, ds, c);
    var k :| 0 <= k < |admitted| && admitted[k] == d;
    var rest := Without(admitted, k);
    WithoutCounts(admitted, k);
    LateIsScheduled(z, n, ds, rest + [d], c);
    ps := Late(ds, rest + [d]);
    AppliedDecides(z, n, ps, c);
  }

  ghost predicate AtomicUnderEverySchedule(z: Sizing, n: Node, ds: seq<Delivery>, c: u64) {
    forall ps :: Schedules(z, n, ps, ds, c) ==>
      View(PhasedAll(z, n, ps).entries, c) == View(DeliverAll(z, n, ds).entries, c)
  }

  /** With the lock released before enforcing, a batch ends at `c` as under atomic delivery in every
      schedule if and only if its admitted verdicts of `c` that take effect all ask for the same thing. */
  lemma AtomicUnderEveryScheduleIff(z: Sizing, n: Node, ds: seq<Delivery>, c: u64)
    ensures AtomicUnderEverySchedule(z, n, ds, c) <==> AllAskTheSame(z, n, ds, c)
  {
    if AllAskTheSame(z, n, ds, c) {
      forall ps | Schedules(z, n, ps, ds, c)
        ensures View(PhasedAll(z, n, ps).entries, c) == View(DeliverAll(z, n, ds).entries, c)
      {
        SameAskedEitherWay(z, n, ps, ds, c);
      }
    } else {
      var d :| d in AdmittedTo(z, n, ds, c) && Effective(d) && Asked(z, d.v) != View(DeliverAll(z, n, ds).entries, c);
      var ps := DissentDecides(z, n, ds, c, d);
      assert Schedules(z, n, ps, ds, c);
    }
  }

  // ----- the whole map

  lemma {:induction false} PhasedStaysPristine(z: Sizing, n: Node, ps: seq<Phase>)
    requires Pristine(n.entries)
    ensures Pristine(PhasedAll(z, n, ps).entries)
  {
    if ps == [] {
    } else {
      PhasedStaysPristine(z, n, ps[..|ps| - 1]);
    }
  }

  /** On a map no packet has met, the whole map is the atomic one exactly when that holds for every cookie. */
  lemma PhasedMapIff(z: Sizing, n: Node, ps: seq<Phase>)
    requires Pristine(n.entries)
    ensures PhasedAll(z, n, ps).entries == DeliverAll(z, n, Checks(ps)).entries
       <==> forall c: u64 :: EnforcedLikeAdmitted(z, n, ps, c)
  {
    var a, b := PhasedAll(z, n, ps).entries, DeliverAll(z, n, Checks(ps)).entries;
    PhasedStaysPristine(z, n, ps);
    StaysPristine(z, n, Checks(ps));
    PristineViews(a, b);
    forall c: u64 ensures View(a, c) == View(b, c) <==> EnforcedLikeAdmitted(z, n, ps, c) {
      PhasedIsAtomicIff(z, n, ps, c);
    }
  }

  /** In particular, enforcing each cookie's verdicts in the order they were admitted is enough. */
  lemma InAdmissionOrderIsAtomic(z: Sizing, n: Node, ps: seq<Phase>)
    requires forall c: u64 :: AppliedTo(ps, c) == AdmittedTo(z, n, Checks(ps), c)
    ensures SameViews(PhasedAll(z, n, ps).entries, DeliverAll(z, n, Checks(ps)).entries)
    ensures Pristine(n.entries) ==> PhasedAll(z, n, ps).entries == DeliverAll(z, n, Checks(ps)).entries
  {
    var a, b := PhasedAll(z, n, ps).entries, DeliverAll(z, n, Checks(ps)).entries;
    forall c: u64 ensures View(a, c) == View(b, c) {
      PhasedIsAtomicIff(z, n, ps, c);
    }
    if Pristine(n.entries) {
      PhasedStaysPristine(z, n, ps);
      StaysPristine(z, n, Checks(ps));
      PristineViews(a, b);
    }
  }

  /** Out of that order it need not be: an older release that was admitted first but enforced last
      lifts the jail of a newer verdict. */
  lemma StaleReleaseLiftsJail(z: Sizing)
    ensures var low := Delivery(Verdict(7, "", OBSERVE, Async, 0.0, true), 1, true);
      var jail := Delivery(Verdict(7, "", JAIL_TIER, Async, 9.0, true), 2, true);
      var ps := [Check(low), Check(jail), Apply(jail), Apply(low)];
      && 7 in DeliverAll(z, EMPTY, [low, jail]).entries
      && 7 !in PhasedAll(z, EMPTY, ps).entries
  {
    var low := Delivery(Verdict(7, "", OBSERVE, Async, 0.0, true), 1, true);
    var jail := Delivery(Verdict(7, "", JAIL_TIER, Async, 9.0, true), 2, true);
    assert [low, jail][..1] == [low] && [low][..0] == [];
    assert DeliverAll(z, EMPTY, [low]) == Deliver(z, EMPTY, low);
    var ps := [Check(low), Check(jail), Apply(jail), Apply(low)];
    assert PhasedAll(z, EMPTY, ps) == Phased(z, PhasedAll(z, EMPTY, ps[..3]), Apply(low));
  }
}
