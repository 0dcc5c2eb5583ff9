/** What containment (internal/sting/containment/containment.go) means for the packets of a flow, over
    whole runs of a node: verdicts in any order, packets, socket closes, evictions and releases. */
module Containment {
  import opened Contract
  import opened TokenBucket
  import opened KernelMap
  import opened Sequencer
  import opened Enforcement

  predicate Denies(action: nat) {
    action == HARD_DENY || action == JAIL
  }

  /** The containment layer programs a denying action or the one sizing it was configured with. */
  predicate Written(z: Sizing, s: Step) {
    s.Program? ==> Denies(s.action) || (s.action == RATE_LIMIT && s.rate == z.rate && s.burst == z.burst)
  }

  ghost predicate AllWritten(z: Sizing, steps: seq<Step>) {
    forall i :: 0 <= i < |steps| ==> Written(z, steps[i])
  }

  // ----- every reachable bucket is within its burst

  /** An entry of that layer, last credited at time `t` or before. */
  predicate Sized(z: Sizing, e: Entry, t: nat) {
    && (Denies(e.action) || (e.action == RATE_LIMIT && e.rate == z.rate && e.burst == z.burst))
    && (e.lastNs == 0 || e.tokens <= z.burst)
    && e.lastNs <= t
  }

  predicate SizedAt(z: Sizing, m: Entries, c: u64, t: nat) {
    c in m ==> Sized(z, m[c], t)
  }

  /** The packets of `c` lie between the times `lo` and `hi`. */
  ghost predicate SentWithin(steps: seq<Step>, c: u64, lo: nat, hi: nat) {
    forall i :: 0 <= i < |steps| && steps[i].Send? && steps[i].cookie == c ==> lo <= steps[i].now <= hi
  }

  lemma SendKeepsSized(z: Sizing, e: Entry, len: nat, now: u64, t: nat)
    requires Sized(z, e, t) && now <= t
    ensures Sized(z, Egress(e, len, now).0, t)
  {
    if Used(e) {
      RefillBounds(e, now);
      if e.lastNs <= now { RemainderCarried(e.lastNs, now); }
    }
  }

  /** Jailing, releasing, re-containing in any order never leaves a bucket above its burst. */
  lemma {:induction false} RunKeepsSized(z: Sizing, m: Entries, steps: seq<Step>, c: u64, t: nat)
    requires AllWritten(z, steps) && SizedAt(z, m, c, t) && SentWithin(steps, c, 0, t)
    ensures SizedAt(z, Run(m, steps), c, t)
  {
    if steps == [] {
    } else {
      var front, s := steps[..|steps| - 1], steps[|steps| - 1];
      RunKeepsSized(z, m, front, c, t);
      var n := Run(m, front);
      assert Written(z, s);
      NextIsLocal(n, n, s, c);
      if s.Send? && s.cookie == c && c in n {
        SendKeepsSized(z, n[c], s.len, s.now, t);
      }
    }
  }

  // ----- a contained flow is throttled

  /** The packets of `c` that meet the limiter rather than a denying verdict. */
  function Metered(m: Entries, steps: seq<Step>, c: u64): seq<Packet> {
    if steps == [] then []
    else
      var front, s := steps[..|steps| - 1], steps[|steps| - 1];
      var ps, n := Metered(m, front, c), Run(m, front);
      if s.Send? && s.cookie == c && c in n && !Denies(n[c].action) then ps + [Packet(s.len, s.now)] else ps
  }

  /** A limiter of that sizing holding the bucket of `e`. */
  predicate SameBucket(z: Sizing, b: Entry, e: Entry) {
    && b.action == RATE_LIMIT && b.rate == z.rate && b.burst == z.burst
    && b.tokens == e.tokens && b.lastNs == e.lastNs
  }

  ghost predicate Kept(steps: seq<Step>, c: u64) {
    forall i :: 0 <= i < |steps| ==> !Removes(steps[i], c)
  }

  lemma SameBucketSends(z: Sizing, b: Entry, e: Entry, len: nat, now: u64)
    requires SameBucket(z, b, e) && e.action == RATE_LIMIT && e.rate == z.rate && e.burst == z.burst
    ensures var (g, p), (f, q) := Egress(b, len, now), Egress(e, len, now); SameBucket(z, g, f) && p == q
  {
  }

  /** Through any programs of the layer the bucket of `c` goes exactly through its metered packets;
      a denying verdict freezes it. */
  lemma {:induction false} MapFollowsBucket(z: Sizing, m: Entries, steps: seq<Step>, c: u64, b: Entry, t: nat)
    requires c != 0 && c in m && Sized(z, m[c], t) && SameBucket(z, b, m[c])
    requires AllWritten(z, steps) && Kept(steps, c) && SentWithin(steps, c, 0, t)
    ensures var (f, passed) := Flow(b, Metered(m, steps, c));
      c in Run(m, steps) && SameBucket(z, f, Run(m, steps)[c]) && PassedBytes(m, steps, c) == passed
  {
    if steps == [] {
    } else {
      var front, s := steps[..|steps| - 1], steps[|steps| - 1];
      MapFollowsBucket(z, m, front, c, b, t);
      RunKeepsSized(z, m, front, c, t);
      var n := Run(m, front);
      assert Written(z, s) && !Removes(s, c);
      NextIsLocal(n, n, s, c);
      if s.Send? && s.cookie == c && !Denies(n[c].action) {
        var f := Flow(b, Metered(m, front, c)).0;
        SameBucketSends(z, f, n[c], s.len, s.now);
      }
    }
  }

  /** The clock does not run backwards between the packets of `c`. */
  ghost predicate InOrder(steps: seq<Step>, c: u64) {
    forall i, j :: 0 <= i < j < |steps| && steps[i].Send? && steps[j].Send? && steps[i].cookie == c && steps[j].cookie == c ==>
      steps[i].now <= steps[j].now
  }

  lemma {:induction false} MeteredWithin(m: Entries, steps: seq<Step>, c: u64, lo: nat, hi: nat)
    requires InOrder(steps, c) && SentWithin(steps, c, lo, hi)
    ensures var ps := Metered(m, steps, c); Ascending(ps) && forall k :: 0 <= k < |ps| ==> lo <= ps[k].now <= hi
  {
    if steps == [] {
    } else {
      var front, s := steps[..|steps| - 1], steps[|steps| - 1];
      assert forall i :: 0 <= i < |front| ==> front[i] == steps[i];
      if s.Send? && s.cookie == c {
        MeteredWithin(m, front, c, lo, s.now);
      } else {
        MeteredWithin(m, front, c, lo, hi);
      }
    }
  }

  lemma LongerWindow(a: nat, b: nat, lo: nat, hi: nat, rate: nat)
    requires lo <= a <= b <= hi
    ensures Credit(CeilMs(b - a), rate) <= Credit(CeilMs(hi - lo), rate)
  {
    DivMono(b - a + MS - 1, hi - lo + MS - 1, MS);
    MulMono(CeilMs(b - a), CeilMs(hi - lo), rate);
    DivMono(CeilMs(b - a) * rate, CeilMs(hi - lo) * rate, 1000);
  }

  lemma BucketBound(z: Sizing, b: Entry, ps: seq<Packet>, lo: nat, hi: nat)
    requires Limits(b) && (b.lastNs == 0 || b.tokens <= b.burst) && b.lastNs <= lo && 0 < lo <= hi
    requires Ascending(ps) && forall k :: 0 <= k < |ps| ==> lo <= ps[k].now <= hi
    ensures Flow(b, ps).1 <= b.burst + Credit(CeilMs(hi - lo), b.rate)
  {
    if ps != [] {
      assert ps[0].now <= ps[|ps| - 1].now;
      WindowBound(b, ps);
      LongerWindow(ps[0].now, ps[|ps| - 1].now, lo, hi, b.rate);
    }
  }

  /** Whatever sizing is configured and whatever state the bucket is in: for as long as a flow's entry
      is not removed, at most one burst plus the rate for the started milliseconds passes in a window,
      however often it is jailed, contained again or its verdict repeated in between. */
  lemma ContainedIsThrottled(z: Sizing, m: Entries, steps: seq<Step>, c: u64, lo: nat, hi: nat)
    requires z.rate > 0 && c != 0 && c in m && Sized(z, m[c], lo) && 0 < lo <= hi
    requires AllWritten(z, steps) && Kept(steps, c) && InOrder(steps, c) && SentWithin(steps, c, lo, hi)
    ensures PassedBytes(m, steps, c) <= z.burst + Credit(CeilMs(hi - lo), z.rate)
  {
    var b := m[c].(action := RATE_LIMIT, rate := z.rate, burst := z.burst);
    assert Sized(z, m[c], hi);
    MapFollowsBucket(z, m, steps, c, b, hi);
    MeteredWithin(m, steps, c, lo, hi);
    BucketBound(z, b, Metered(m, steps, c), lo, hi);
  }

  // ----- whole runs of a node

  /** The map steps of a run of a node. */
  function StepsOf(z: Sizing, n: Node, es: seq<Event>): seq<Step> {
    if es == [] then []
    else
      var front, e := es[..|es| - 1], es[|es| - 1];
      StepsOf(z, n, front) + Acts(z, HappenAll(z, n, front), e)
  }

  function Acts(z: Sizing, n: Node, e: Event): seq<Step> {
    match e
    case Kernel(s) => [s]
    case Arrive(d) => if Effective(d) && Admits(n.high, d.v.cookie, d.ordinal) then [StepOf(z, d.v)] else []
  }

  lemma {:induction false} EventsAreSteps(z: Sizing, n: Node, es: seq<Event>)
    ensures Run(n.entries, StepsOf(z, n, es)) == HappenAll(z, n, es).entries
  {
    if es == [] {
    } else {
      var front, e := es[..|es| - 1], es[|es| - 1];
      EventsAreSteps(z, n, front);
      var before := HappenAll(z, n, front);
      var acts := Acts(z, before, e);
      if acts == [] {
        assert StepsOf(z, n, es) == StepsOf(z, n, front);
      } else {
        assert acts == [acts[0]];
        RunSnoc(n.entries, StepsOf(z, n, front), acts[0]);
      }
    }
  }

  /** Only verdicts program the map; packets, closes, evictions and releases happen by themselves. */
  ghost predicate OnlyVerdictsProgram(es: seq<Event>) {
    forall i :: 0 <= i < |es| ==> es[i].Arrive? || !es[i].step.Program?
  }

  lemma {:induction false} StepsAreWritten(z: Sizing, n: Node, es: seq<Event>)
    requires OnlyVerdictsProgram(es)
    ensures AllWritten(z, StepsOf(z, n, es))
  {
    if es == [] {
    } else {
      StepsAreWritten(z, n, es[..|es| - 1]);
      var e := es[|es| - 1];
      assert e.Arrive? || !e.step.Program?;
    }
  }

  /** Every entry of every reachable node is sized. */
  lemma ReachableIsSized(z: Sizing, es: seq<Event>, c: u64, t: nat)
    requires OnlyVerdictsProgram(es) && SentWithin(StepsOf(z, EMPTY, es), c, 0, t)
    ensures SizedAt(z, HappenAll(z, EMPTY, es).entries, c, t)
  {
    StepsAreWritten(z, EMPTY, es);
    EventsAreSteps(z, EMPTY, es);
    RunKeepsSized(z, map[], StepsOf(z, EMPTY, es), c, t);
  }

  /** An admitted verdict of Tier 2 or above throttles its flow, on every reachable node and for every
      sizing: whatever happened before and whatever happens on the node meanwhile, a window in which
      the entry is not removed lets at most one burst plus the rate for its milliseconds through. */
  lemma TierTwoThrottles(z: Sizing, es: seq<Event>, d: Delivery, later: seq<Event>, lo: nat, hi: nat)
    requires z.rate > 0 && Effective(d) && d.v.tier >= 2 && 0 < lo <= hi
    requires OnlyVerdictsProgram(es) && OnlyVerdictsProgram(later)
    requires SentWithin(StepsOf(z, EMPTY, es), d.v.cookie, 0, lo)
    ensures var before, c := HappenAll(z, EMPTY, es), d.v.cookie;
      var n := Deliver(z, before, d);
      var steps := StepsOf(z, n, later);
      Admits(before.high, c, d.ordinal) && Kept(steps, c) && InOrder(steps, c) && SentWithin(steps, c, lo, hi) ==>
        PassedBytes(n.entries, steps, c) <= z.burst + Credit(CeilMs(hi - lo), z.rate)
  {
    var before, c := HappenAll(z, EMPTY, es), d.v.cookie;
    var n := Deliver(z, before, d);
    var steps := StepsOf(z, n, later);
    ReachableIsSized(z, es, c, lo);
    StepsAreWritten(z, n, later);
    if Admits(before.high, c, d.ordinal) && Kept(steps, c) && InOrder(steps, c) && SentWithin(steps, c, lo, hi) {
      ContainedIsThrottled(z, n.entries, steps, c, lo, hi);
    }
  }

  // ----- a throttled flow still gets its burst

  /** A flow newly contained at Tier 2 gets one burst through: while nothing but its packets and
      repetitions of the verdict name it, packets that add up to at most the burst all pass. */
  lemma NewlyContainedGetsItsBurst(z: Sizing, n: Node, d: Delivery, steps: seq<Step>)
    requires z.rate > 0 && z.burst + U64 / 1000 < U64 && Effective(d) && d.v.tier == 2
    requires d.v.cookie !in n.entries && Admits(n.high, d.v.cookie, d.ordinal)
    requires Undisturbed(steps, d.v.cookie, FRESH.(action := 0, rate := z.rate, burst := z.burst))
    requires TotalBytes(SendsOf(steps, d.v.cookie)) <= z.burst
    ensures PassedBytes(Deliver(z, n, d).entries, steps, d.v.cookie) == TotalBytes(SendsOf(steps, d.v.cookie))
  {
    var m, c := Deliver(z, n, d).entries, d.v.cookie;
    assert m[c] == FRESH.(action := 0, rate := z.rate, burst := z.burst);
    MapFollowsFlow(m, steps, c);
    BurstPasses(m[c], SendsOf(steps, c));
  }

  // ----- a jailed flow is silent

  ghost predicate OnlyDenied(steps: seq<Step>, c: u64) {
    forall i :: 0 <= i < |steps| ==> !Removes(steps[i], c) && (Programs(steps[i], c) ==> Denies(steps[i].action))
  }

  lemma {:induction false} DenialStays(m: Entries, steps: seq<Step>, c: u64)
    requires c != 0 && c in m && Denies(m[c].action) && OnlyDenied(steps, c)
    ensures c in Run(m, steps) && Denies(Run(m, steps)[c].action)
  {
    if steps == [] {
    } else {
      var front, s := steps[..|steps| - 1], steps[|steps| - 1];
      DenialStays(m, front, c);
      var n := Run(m, front);
      assert !Removes(s, c) && (Programs(s, c) ==> Denies(s.action));
      NextIsLocal(n, n, s, c);
      if s.cookie == c && s.Send? {
        EgressKeepsVerdict(n[c], s.len, s.now);
      }
    }
  }

  /** An admitted Tier-3 verdict drops every packet of its flow until the flow is programmed with
      something gentler, released, closed or evicted. */
  lemma TierThreeJails(z: Sizing, n: Node, d: Delivery, steps: seq<Step>, len: nat, now: u64)
    requires Effective(d) && d.v.tier >= 3 && Admits(n.high, d.v.cookie, d.ordinal)
    requires OnlyDenied(steps, d.v.cookie)
    ensures !Passes(Run(Deliver(z, n, d).entries, steps), d.v.cookie, len, now)
  {
    DenialStays(Deliver(z, n, d).entries, steps, d.v.cookie);
  }
}
