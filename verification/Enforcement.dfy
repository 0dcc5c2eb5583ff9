/** From an emitted verdict to the kernel map: `enforceVerdict` and `enforceVerdictOrdered`
    (cmd/envoy-adapter/main.go) over the containment layer (internal/sting/containment/containment.go)
    and the loader. */
module Enforcement {
  import opened Prelude
  import opened Contract
  import opened TokenBucket
  import opened KernelMap
  import opened Sequencer

  /** Token-bucket sizing of Tier-2 containment. */
  datatype Sizing = Sizing(rate: u64, burst: u64)

  const DEFAULT_RATE: u64 := 16384
  const DEFAULT_BURST: u64 := 32768

  /** `New`: zero stands for the default, so a container never disables its own throttle. */
  function Configured(rate: u64, burst: u64): (z: Sizing)
    ensures z.rate > 0 && z.burst > 0
    ensures rate > 0 ==> z.rate == rate
    ensures burst > 0 ==> z.burst == burst
    ensures rate == 0 ==> z.rate == 16 * 1024
    ensures burst == 0 ==> z.burst == 32 * 1024
  {
    Sizing(if rate == 0 then DEFAULT_RATE else rate, if burst == 0 then DEFAULT_BURST else burst)
  }

  /** A verdict with its ordinal, and whether the kernel accepts the map operation it leads to. */
  datatype Delivery = Delivery(v: Verdict, ordinal: Ordinal, accepted: bool)

  /** The verdict is an async one for an attributable flow and its map operation succeeds. */
  predicate Effective(d: Delivery) {
    d.v.mode == Async && d.v.cookie != 0 && d.accepted
  }

  /** The map operation of a verdict, by its tier. */
  function StepOf(z: Sizing, v: Verdict): Step {
    if v.tier >= JAIL_TIER then Program(v.cookie, JAIL, 0, 0)
    else if v.tier == CONTAIN then Program(v.cookie, RATE_LIMIT, z.rate, z.burst)
    else Release(v.cookie)
  }

  function Enforced(z: Sizing, m: Entries, d: Delivery): Entries {
    if Effective(d) then Next(m, StepOf(z, d.v)) else m
  }

  /** The sequencer's marks and the kernel map. */
  datatype Node = Node(high: Marks, entries: Entries)

  const EMPTY := Node(map[], map[])

  /** Admission and enforcement as one atomic step. */
  function Deliver(z: Sizing, n: Node, d: Delivery): Node {
    Node(Admitted(n.high, d.v.cookie, d.ordinal),
         if Admits(n.high, d.v.cookie, d.ordinal) then Enforced(z, n.entries, d) else n.entries)
  }

  function DeliverAll(z: Sizing, n: Node, ds: seq<Delivery>): Node {
    if ds == [] then n else Deliver(z, DeliverAll(z, n, ds[..|ds| - 1]), ds[|ds| - 1])
  }

  /** The fields of an entry that the loader owns: action (0 rate limit, 1 deny, 2 jail), rate and burst. */
  datatype Policy = Policy(action: nat, rate: u64, burst: u64)

  ghost predicate HasPolicy(m: Entries, c: u64, p: Policy) {
    c in m && m[c].action == p.action && m[c].rate == p.rate && m[c].burst == p.burst
  }

  // ----- the imperative form

  /** `enforceVerdict`: reconcile the kernel map with one verdict. A failing map operation leaves the
      map as it was and is reported. */
  method EnforceVerdict(z: Sizing, kernel: VerdictMap, d: Delivery) returns (applied: bool, released: bool, failed: bool)
    modifies kernel
    ensures kernel.entries == Enforced(z, old(kernel.entries), d)
    ensures applied <==> d.v.mode == Async && d.v.cookie != 0 && d.v.tier >= 2
    ensures released <==> d.v.mode == Async && d.v.cookie != 0 && d.v.tier < 2
    ensures failed <==> (applied || released) && !d.accepted
    ensures failed || (!applied && !released) ==> kernel.entries == old(kernel.entries)
    ensures !failed && released ==> kernel.entries == old(kernel.entries) - {d.v.cookie}
    ensures !failed && applied ==> HasPolicy(kernel.entries, d.v.cookie, if d.v.tier >= 3 then Policy(2, 0, 0) else Policy(0, z.rate, z.burst))
    ensures forall c :: c != d.v.cookie ==> SameAt(kernel.entries, old(kernel.entries), c)
  {
    var v := d.v;
    if v.mode != Async || v.cookie == 0 {
      return false, false, false;
    }
    if v.tier >= JAIL_TIER {
      if d.accepted { var ok := kernel.Program(v.cookie, JAIL, 0, 0); }
      return true, false, !d.accepted;
    }
    if v.tier == CONTAIN {
      if d.accepted { var ok := kernel.Program(v.cookie, RATE_LIMIT, z.rate, z.burst); }
      return true, false, !d.accepted;
    }
    if d.accepted { kernel.Release(v.cookie); }
    return false, true, !d.accepted;
  }

  /** `enforceVerdictOrdered`: a stale verdict does not touch the enforcer at all. */
  method EnforceVerdictOrdered(z: Sizing, kernel: VerdictMap, sequencer: VerdictSequencer, d: Delivery)
    returns (applied: bool, released: bool, stale: bool, failed: bool)
    modifies kernel, sequencer
    ensures stale <==> !Admits(old(sequencer.high), d.v.cookie, d.ordinal)
    ensures stale ==> !applied && !released && !failed && kernel.entries == old(kernel.entries)
    ensures failed ==> !d.accepted && kernel.entries == old(kernel.entries)
    ensures Node(sequencer.high, kernel.entries) == Deliver(z, Node(old(sequencer.high), old(kernel.entries)), d)
  {
    var ok := sequencer.Admit(d.v.cookie, d.ordinal);
    if !ok {
      return false, false, true, false;
    }
    applied, released, failed := EnforceVerdict(z, kernel, d);
    stale := false;
  }

  // ----- the loader's view of an entry

  function View(m: Entries, c: u64): Option<Policy> {
    if c in m then Some(Policy(m[c].action, m[c].rate, m[c].burst)) else None
  }

  ghost predicate SameViews(m: Entries, n: Entries) {
    forall c :: View(m, c) == View(n, c)
  }

  /** What a verdict asks for. */
  function Asked(z: Sizing, v: Verdict): Option<Policy> {
    if v.tier >= JAIL_TIER then Some(Policy(JAIL, 0, 0))
    else if v.tier == CONTAIN then Some(Policy(RATE_LIMIT, z.rate, z.burst))
    else None
  }

  /** An effective verdict leaves what it asks for at its cookie, whatever was there, and touches no other. */
  lemma EnforcedView(z: Sizing, m: Entries, d: Delivery, c: u64)
    ensures View(Enforced(z, m, d), c) == if Effective(d) && d.v.cookie == c then Asked(z, d.v) else View(m, c)
  {
  }

  /** What a tier asks for: 3 and above jail, 2 throttles with the configured sizing, 0 and 1 release. */
  lemma AskedByTier(z: Sizing, v: Verdict)
    ensures v.tier >= 3 ==> Asked(z, v) == Some(Policy(2, 0, 0))
    ensures v.tier == 2 ==> Asked(z, v) == Some(Policy(0, z.rate, z.burst))
    ensures v.tier <= 1 ==> Asked(z, v) == None
  {
  }

  lemma EnforcedIsLocal(z: Sizing, m: Entries, d: Delivery, c: u64)
    requires d.v.cookie != c
    ensures SameAt(Enforced(z, m, d), m, c)
  {
  }

  // ----- what a batch of deliveries leaves behind

  /** No two attributable verdicts are so far apart that one outdates the other (more than 30
      minutes), and a cookie has at most one verdict per ordinal. */
  ghost predicate BatchOf(b: multiset<Delivery>) {
    && (forall d, e :: d in b && e in b && d.v.cookie != 0 && e.v.cookie != 0 ==> !Outdates(d.ordinal, e.ordinal))
    && (forall d, e :: d in b && e in b && d.v.cookie == e.v.cookie != 0 && d.ordinal == e.ordinal ==> d == e)
    && (forall d :: d in b && d.v.cookie != 0 ==> b[d] == 1)
  }

  ghost predicate Batch(ds: seq<Delivery>) {
    BatchOf(multiset(ds))
  }

  lemma TwiceCounts(ds: seq<Delivery>, i: nat, j: nat)
    requires i < j < |ds| && ds[i] == ds[j]
    ensures multiset(ds)[ds[i]] >= 2
  {
    assert ds == ds[..j] + [ds[j]] + ds[j + 1..];
    assert ds[..j][i] in multiset(ds[..j]);
  }

  /** The same, by position. */
  lemma Spaced(ds: seq<Delivery>, i: nat, j: nat)
    requires Batch(ds) && i < |ds| && j < |ds| && ds[i].v.cookie != 0 && ds[j].v.cookie != 0
    ensures !Outdates(ds[i].ordinal, ds[j].ordinal)
    ensures i != j && ds[i].v.cookie == ds[j].v.cookie ==> ds[i].ordinal != ds[j].ordinal
  {
    assert ds[i] in multiset(ds) && ds[j] in multiset(ds);
    if i != j && ds[i].v.cookie == ds[j].v.cookie && ds[i].ordinal == ds[j].ordinal {
      TwiceCounts(ds, if i < j then i else j, if i < j then j else i);
    }
  }

  /** Delivery `p` carries the highest ordinal of cookie `c`. */
  ghost predicate Top(ds: seq<Delivery>, p: int, c: u64) {
    && 0 <= p < |ds| && ds[p].v.cookie == c
    && forall i :: 0 <= i < |ds| && ds[i].v.cookie == c ==> ds[i].ordinal <= ds[p].ordinal
  }

  /** The verdict is newer than any the node has seen for its cookie. */
  predicate Newer(n: Node, d: Delivery) {
    d.v.cookie in n.high ==> n.high[d.v.cookie] < d.ordinal
  }

  /** Every mark is one the node began with or an ordinal delivered since. */
  lemma {:induction false} MarksComeFrom(z: Sizing, n: Node, ds: seq<Delivery>, c: u64)
    requires c in DeliverAll(z, n, ds).high
    ensures var mark := DeliverAll(z, n, ds).high[c];
      || (c in n.high && n.high[c] == mark)
      || exists i :: 0 <= i < |ds| && ds[i].v.cookie == c && ds[i].ordinal == mark
  {
    if ds == [] {
    } else {
      var front, d := ds[..|ds| - 1], ds[|ds| - 1];
      var h, g := DeliverAll(z, n, front).high, DeliverAll(z, n, ds).high;
      if c in h && h[c] == g[c] {
        MarksComeFrom(z, n, front, c);
        if i :| 0 <= i < |front| && front[i].v.cookie == c && front[i].ordinal == h[c] {
          assert ds[i] == front[i];
        }
      } else {
        assert ds[|ds| - 1] == d;
      }
    }
  }

  /** While a mark is not outdated and not exceeded, deliveries do not change its cookie. */
  lemma {:induction false} TopStands(z: Sizing, n: Node, ds: seq<Delivery>, c: u64, top: Ordinal)
    requires c != 0 && c in n.high && n.high[c] == top
    requires forall i :: 0 <= i < |ds| && ds[i].v.cookie == c ==> ds[i].ordinal <= top
    requires forall i :: 0 <= i < |ds| && ds[i].v.cookie != 0 ==> !Outdates(ds[i].ordinal, top)
    ensures var r := DeliverAll(z, n, ds); c in r.high && r.high[c] == top && SameAt(r.entries, n.entries, c)
  {
    if ds == [] {
    } else {
      var front, d := ds[..|ds| - 1], ds[|ds| - 1];
      TopStands(z, n, front, c, top);
      if d.v.cookie != c {
        EnforcedIsLocal(z, DeliverAll(z, n, front).entries, d, c);
      }
    }
  }

  lemma {:induction false} DeliverSplit(z: Sizing, n: Node, xs: seq<Delivery>, ys: seq<Delivery>)
    ensures DeliverAll(z, n, xs + ys) == DeliverAll(z, DeliverAll(z, n, xs), ys)
  {
    if ys == [] {
      assert xs + ys == xs;
    } else {
      var front := ys[..|ys| - 1];
      assert (xs + ys)[..|xs + ys| - 1] == xs + front;
      DeliverSplit(z, n, xs, front);
    }
  }

  lemma TopAdmitted(z: Sizing, n: Node, ds: seq<Delivery>, p: nat, c: u64)
    requires Batch(ds) && Top(ds, p, c) && c != 0 && Newer(n, ds[p])
    ensures Admits(DeliverAll(z, n, ds[..p]).high, c, ds[p].ordinal)
  {
    var high := DeliverAll(z, n, ds[..p]).high;
    if c in high {
      MarksComeFrom(z, n, ds[..p], c);
      if i :| 0 <= i < p && ds[..p][i].v.cookie == c && ds[..p][i].ordinal == high[c] {
        Spaced(ds, i, p);
      }
    }
  }

  lemma DeliverTake(z: Sizing, n: Node, ds: seq<Delivery>, p: nat)
    requires p < |ds|
    ensures DeliverAll(z, n, ds) == DeliverAll(z, Deliver(z, DeliverAll(z, n, ds[..p]), ds[p]), ds[p + 1..])
  {
    assert ds == ds[..p + 1] + ds[p + 1..];
    DeliverSplit(z, n, ds[..p + 1], ds[p + 1..]);
    assert ds[..p + 1][..p] == ds[..p];
  }

  lemma RestOfBatch(ds: seq<Delivery>, p: nat, c: u64)
    requires Batch(ds) && Top(ds, p, c) && c != 0
    ensures var rest := ds[p + 1..];
      && (forall i :: 0 <= i < |rest| && rest[i].v.cookie == c ==> rest[i].ordinal <= ds[p].ordinal)
      && (forall i :: 0 <= i < |rest| && rest[i].v.cookie != 0 ==> !Outdates(rest[i].ordinal, ds[p].ordinal))
  {
    var rest := ds[p + 1..];
    forall i | 0 <= i < |rest|
      ensures rest[i].v.cookie == c ==> rest[i].ordinal <= ds[p].ordinal
      ensures rest[i].v.cookie != 0 ==> !Outdates(rest[i].ordinal, ds[p].ordinal)
    {
      assert rest[i] == ds[p + 1 + i];
      if rest[i].v.cookie != 0 { Spaced(ds, p + 1 + i, p); }
    }
  }

  /** From any node: if the newest verdict of `c` in the batch is newer than the node's mark it is
      admitted, and the final map is at `c` what it left there; otherwise the whole batch leaves `c` alone. */
  lemma TopDecides(z: Sizing, n: Node, ds: seq<Delivery>, p: nat, c: u64)
    requires Batch(ds) && Top(ds, p, c) && c != 0
    ensures Newer(n, ds[p]) ==>
      SameAt(DeliverAll(z, n, ds).entries, Enforced(z, DeliverAll(z, n, ds[..p]).entries, ds[p]), c)
    ensures !Newer(n, ds[p]) ==> SameAt(DeliverAll(z, n, ds).entries, n.entries, c)
  {
    if Newer(n, ds[p]) {
      TopAdmitted(z, n, ds, p, c);
      DeliverTake(z, n, ds, p);
      RestOfBatch(ds, p, c);
      var at := Deliver(z, DeliverAll(z, n, ds[..p]), ds[p]);
      TopStands(z, at, ds[p + 1..], c, ds[p].ordinal);
    } else {
      forall i | 0 <= i < |ds| && ds[i].v.cookie != 0 ensures !Outdates(ds[i].ordinal, n.high[c]) {
        Spaced(ds, i, p);
      }
      TopStands(z, n, ds, c, n.high[c]);
    }
  }

  /** If the newest verdict of `c` is effective, the node ends with exactly what it asks for, unless
      the node had already seen a newer one. */
  lemma NewestWins(z: Sizing, n: Node, ds: seq<Delivery>, p: nat, c: u64)
    requires Batch(ds) && Top(ds, p, c) && c != 0 && Effective(ds[p])
    ensures View(DeliverAll(z, n, ds).entries, c) == if Newer(n, ds[p]) then Asked(z, ds[p].v) else View(n.entries, c)
  {
    TopDecides(z, n, ds, p, c);
    EnforcedView(z, DeliverAll(z, n, ds[..p]).entries, ds[p], c);
  }

  // ----- arrival among packets

  /** What happens on a node: a verdict arrives, or the kernel map changes by other means. */
  datatype Event = Arrive(d: Delivery) | Kernel(step: Step)

  function Happens(z: Sizing, n: Node, e: Event): Node {
    match e
    case Arrive(d) => Deliver(z, n, d)
    case Kernel(s) => n.(entries := Next(n.entries, s))
  }

  function HappenAll(z: Sizing, n: Node, es: seq<Event>): Node {
    if es == [] then n else Happens(z, HappenAll(z, n, es[..|es| - 1]), es[|es| - 1])
  }

  function Arrivals(es: seq<Event>): seq<Delivery> {
    if es == [] then []
    else
      var front := Arrivals(es[..|es| - 1]);
      if es[|es| - 1].Arrive? then front + [es[|es| - 1].d] else front
  }

  /** Apart from the arrivals there are only packets. */
  ghost predicate AmongPackets(es: seq<Event>) {
    forall i :: 0 <= i < |es| ==> es[i].Arrive? || es[i].step.Send?
  }

  lemma SendKeepsViews(m: Entries, s: Step, c: u64)
    requires s.Send?
    ensures View(Next(m, s), c) == View(m, c)
  {
    if s.cookie in m {
      EgressKeepsVerdict(m[s.cookie], s.len, s.now);
    }
  }

  lemma DeliverSnoc(z: Sizing, n: Node, ds: seq<Delivery>, d: Delivery)
    ensures DeliverAll(z, n, ds + [d]) == Deliver(z, DeliverAll(z, n, ds), d)
  {
    assert (ds + [d])[..|ds|] == ds;
  }

  /** Packets in between change neither what is admitted nor what is in force. */
  lemma {:induction false} PacketsDoNotMatter(z: Sizing, n: Node, es: seq<Event>)
    requires AmongPackets(es)
    ensures var a, b := HappenAll(z, n, es), DeliverAll(z, n, Arrivals(es));
      a.high == b.high && SameViews(a.entries, b.entries)
  {
    if es == [] {
    } else {
      var front, e := es[..|es| - 1], es[|es| - 1];
      PacketsDoNotMatter(z, n, front);
      var a, b := HappenAll(z, n, front), DeliverAll(z, n, Arrivals(front));
      if e.Arrive? {
        DeliverSnoc(z, n, Arrivals(front), e.d);
        forall c: u64 ensures View(Enforced(z, a.entries, e.d), c) == View(Enforced(z, b.entries, e.d), c) {
          EnforcedView(z, a.entries, e.d, c);
          EnforcedView(z, b.entries, e.d, c);
          assert View(a.entries, c) == View(b.entries, c);
        }
      } else {
        forall c: u64 ensures View(Next(a.entries, e.step), c) == View(b.entries, c) {
          SendKeepsViews(a.entries, e.step, c);
          assert View(a.entries, c) == View(b.entries, c);
        }
      }
    }
  }

  // ----- order independence, exactly

  ghost predicate Permutation(xs: seq<Delivery>, ys: seq<Delivery>) {
    multiset(xs) == multiset(ys)
  }

  /** The batch arriving in some order, with packets anywhere in between. */
  ghost predicate Delivers(es: seq<Event>, ds: seq<Delivery>) {
    AmongPackets(es) && Permutation(Arrivals(es), ds)
  }

  /** From this node every arrival order of the batch ends with the same verdicts in force. */
  ghost predicate OrderIndependent(z: Sizing, n: Node, ds: seq<Delivery>) {
    forall es, fs :: Delivers(es, ds) && Delivers(fs, ds) ==>
      SameViews(HappenAll(z, n, es).entries, HappenAll(z, n, fs).entries)
  }

  /** Nothing that could be enforced for `c` differs from what is in force for it already. */
  ghost predicate AsksNothingNew(z: Sizing, n: Node, ds: seq<Delivery>, c: u64) {
    forall i :: 0 <= i < |ds| && ds[i].v.cookie == c && Effective(ds[i]) && Newer(n, ds[i]) ==>
      Asked(z, ds[i].v) == View(n.entries, c)
  }

  /** The newest verdict of `c` is one the kernel enforces, or no verdict asks for anything new. */
  ghost predicate NewestEnforced(z: Sizing, n: Node, ds: seq<Delivery>, c: u64) {
    (exists p :: Top(ds, p, c) && Effective(ds[p])) || AsksNothingNew(z, n, ds, c)
  }

  lemma SameElements(xs: seq<Delivery>, ys: seq<Delivery>, d: Delivery)
    requires Permutation(xs, ys)
    ensures d in xs <==> d in ys
  {
    assert d in multiset(xs) <==> d in multiset(ys);
  }

  /** A verdict no newer than the node's mark is never admitted within the batch. */
  lemma {:induction false} OldStaysOut(z: Sizing, n: Node, ds: seq<Delivery>, c: u64, bound: Ordinal)
    requires c in n.high && n.high[c] >= bound
    requires forall i :: 0 <= i < |ds| && ds[i].v.cookie != 0 ==> !Outdates(ds[i].ordinal, bound)
    ensures var h := DeliverAll(z, n, ds).high; c in h && h[c] >= bound
  {
    if ds == [] {
    } else {
      var front, d := ds[..|ds| - 1], ds[|ds| - 1];
      OldStaysOut(z, n, front, c, bound);
    }
  }

  lemma AdmittedIsNewer(z: Sizing, n: Node, ds: seq<Delivery>, k: nat)
    requires Batch(ds) && k < |ds| && ds[k].v.cookie != 0
    requires Admits(DeliverAll(z, n, ds[..k]).high, ds[k].v.cookie, ds[k].ordinal)
    ensures Newer(n, ds[k])
  {
    var c := ds[k].v.cookie;
    if !Newer(n, ds[k]) {
      forall i | 0 <= i < |ds| && ds[i].v.cookie != 0 ensures !Outdates(ds[i].ordinal, ds[k].ordinal) {
        Spaced(ds, i, k);
      }
      OldStaysOut(z, n, ds[..k], c, ds[k].ordinal);
    }
  }

  lemma {:induction false} NothingNew(z: Sizing, n: Node, ds: seq<Delivery>, c: u64, k: nat)
    requires Batch(ds) && c != 0 && AsksNothingNew(z, n, ds, c) && k <= |ds|
    ensures View(DeliverAll(z, n, ds[..k]).entries, c) == View(n.entries, c)
  {
    if k > 0 {
      NothingNew(z, n, ds, c, k - 1);
      var before, d := DeliverAll(z, n, ds[..k - 1]), ds[k - 1];
      if d.v.cookie == c && Admits(before.high, c, d.ordinal) {
        AdmittedIsNewer(z, n, ds, k - 1);
      }
      NothingNewStep(z, n, before, d, c);
      assert ds[..k] == ds[..k - 1] + [ds[k - 1]];
      DeliverSnoc(z, n, ds[..k - 1], ds[k - 1]);
    }
  }

  lemma NothingNewStep(z: Sizing, n: Node, before: Node, d: Delivery, c: u64)
    requires View(before.entries, c) == View(n.entries, c)
    requires d.v.cookie == c && Effective(d) && Admits(before.high, c, d.ordinal) ==> Asked(z, d.v) == View(n.entries, c)
    ensures View(Deliver(z, before, d).entries, c) == View(n.entries, c)
  {
    EnforcedView(z, before.entries, d, c);
  }

  lemma {:induction false} TopExists(ds: seq<Delivery>, c: u64) returns (p: nat)
    requires exists i :: 0 <= i < |ds| && ds[i].v.cookie == c
    ensures Top(ds, p, c)
  {
    var front, last := ds[..|ds| - 1], |ds| - 1;
    if exists i :: 0 <= i < |front| && front[i].v.cookie == c {
      p := TopExists(front, c);
      if ds[last].v.cookie == c && ds[last].ordinal > ds[p].ordinal {
        p := last;
      }
    } else {
      p := last;
      assert forall i :: 0 <= i < |front| ==> front[i] == ds[i];
    }
  }

  lemma TopAt(ds: seq<Delivery>, p: nat, xs: seq<Delivery>, q: nat, c: u64)
    requires Permutation(xs, ds) && Top(ds, p, c) && q < |xs| && xs[q] == ds[p]
    ensures Top(xs, q, c)
  {
    forall i | 0 <= i < |xs| && xs[i].v.cookie == c ensures xs[i].ordinal <= xs[q].ordinal {
      SameElements(xs, ds, xs[i]);
    }
  }

  /** With the newest verdict enforced, or nothing new asked for, `c` ends the same in every order. */
  lemma SameInEveryOrder(z: Sizing, n: Node, ds: seq<Delivery>, xs: seq<Delivery>, c: u64)
    requires Batch(ds) && Permutation(xs, ds) && c != 0 && NewestEnforced(z, n, ds, c)
    ensures View(DeliverAll(z, n, xs).entries, c) == View(DeliverAll(z, n, ds).entries, c)
  {
    if p :| Top(ds, p, c) && Effective(ds[p]) {
      SameElements(xs, ds, ds[p]);
      var q :| 0 <= q < |xs| && xs[q] == ds[p];
      TopAt(ds, p, xs, q, c);
      NewestWins(z, n, ds, p, c);
      NewestWins(z, n, xs, q, c);
    } else {
      forall i | 0 <= i < |xs| && xs[i].v.cookie == c && Effective(xs[i]) && Newer(n, xs[i])
        ensures Asked(z, xs[i].v) == View(n.entries, c)
      {
        SameElements(xs, ds, xs[i]);
      }
      NothingNew(z, n, ds, c, |ds|);
      NothingNew(z, n, xs, c, |xs|);
      TakeAll(ds);
      TakeAll(xs);
    }
  }

  lemma {:induction false} CookieZeroUntouched(z: Sizing, n: Node, ds: seq<Delivery>)
    ensures View(DeliverAll(z, n, ds).entries, 0) == View(n.entries, 0)
  {
    if ds == [] {
    } else {
      CookieZeroUntouched(z, n, ds[..|ds| - 1]);
    }
  }

  lemma EveryOrderAgrees(z: Sizing, n: Node, ds: seq<Delivery>, es: seq<Event>)
    requires Batch(ds) && Delivers(es, ds) && forall c: u64 :: c != 0 ==> NewestEnforced(z, n, ds, c)
    ensures SameViews(HappenAll(z, n, es).entries, DeliverAll(z, n, ds).entries)
  {
    PacketsDoNotMatter(z, n, es);
    var xs := Arrivals(es);
    forall c: u64 ensures View(HappenAll(z, n, es).entries, c) == View(DeliverAll(z, n, ds).entries, c) {
      assert View(HappenAll(z, n, es).entries, c) == View(DeliverAll(z, n, xs).entries, c);
      if c != 0 {
        SameInEveryOrder(z, n, ds, xs, c);
      } else {
        CookieZeroUntouched(z, n, xs);
        CookieZeroUntouched(z, n, ds);
      }
    }
  }

  // ----- and only then

  ghost function Without(ds: seq<Delivery>, k: nat): seq<Delivery>
    requires k < |ds|
  {
    ds[..k] + ds[k + 1..]
  }

  lemma WithoutCounts(ds: seq<Delivery>, k: nat)
    requires k < |ds|
    ensures multiset(ds) == multiset{ds[k]} + multiset(Without(ds, k))
  {
    assert ds == ds[..k] + [ds[k]] + ds[k + 1..];
  }

  /** Arrange a batch with element `p` first, and with `i` then `p` first. */
  lemma TwoOrders(ds: seq<Delivery>, p: nat, i: nat) returns (first: seq<Delivery>, second: seq<Delivery>)
    requires p < |ds| && i < |ds| && ds[i] != ds[p]
    ensures Permutation(first, ds) && |first| > 0 && first[0] == ds[p]
    ensures Permutation(second, ds) && |second| > 1 && second[0] == ds[i] && second[1] == ds[p]
  {
    var others := Without(ds, p);
    WithoutCounts(ds, p);
    first := [ds[p]] + others;
    assert ds[i] in multiset(ds);
    assert ds[i] in multiset(others);
    var k :| 0 <= k < |others| && others[k] == ds[i];
    WithoutCounts(others, k);
    second := [ds[i]] + [ds[p]] + Without(others, k);
  }

  /** The newest verdict arrives first and is not enforced: it shuts out every other. */
  lemma IneffectiveFirst(z: Sizing, n: Node, xs: seq<Delivery>, c: u64)
    requires Batch(xs) && c != 0 && Top(xs, 0, c) && !Effective(xs[0]) && Newer(n, xs[0])
    ensures View(DeliverAll(z, n, xs).entries, c) == View(n.entries, c)
  {
    TopDecides(z, n, xs, 0, c);
  }

  /** It arrives second: it seals in what the first one left. */
  lemma IneffectiveSecond(z: Sizing, n: Node, xs: seq<Delivery>, c: u64)
    requires Batch(xs) && c != 0 && Top(xs, 1, c) && !Effective(xs[1]) && Newer(n, xs[1])
    requires xs[0].v.cookie == c && Effective(xs[0]) && Newer(n, xs[0])
    ensures View(DeliverAll(z, n, xs).entries, c) == Asked(z, xs[0].v)
  {
    assert xs[..1] == [] + [xs[0]];
    DeliverSnoc(z, n, [], xs[0]);
    EnforcedView(z, n.entries, xs[0], c);
    TopDecides(z, n, xs, 1, c);
  }

  lemma {:induction false} AsEvents(z: Sizing, n: Node, ds: seq<Delivery>) returns (es: seq<Event>)
    ensures Delivers(es, ds) && HappenAll(z, n, es) == DeliverAll(z, n, ds)
  {
    if ds == [] {
      es := [];
    } else {
      var front, d := ds[..|ds| - 1], ds[|ds| - 1];
      var fs := AsEvents(z, n, front);
      es := fs + [Arrive(d)];
      assert es[..|es| - 1] == fs && ds == front + [d];
    }
  }

  lemma NotEnforcedDependsOnOrder(z: Sizing, n: Node, ds: seq<Delivery>, c: u64)
    requires Batch(ds)
    ensures c != 0 && !NewestEnforced(z, n, ds, c) ==> !OrderIndependent(z, n, ds)
  {
    if c != 0 && !NewestEnforced(z, n, ds, c) {
      var i :| 0 <= i < |ds| && ds[i].v.cookie == c && Effective(ds[i]) && Newer(n, ds[i])
               && Asked(z, ds[i].v) != View(n.entries, c);
      var p := TopExists(ds, c);
      assert !Effective(ds[p]) by { assert Top(ds, p, c); }
      TwoOutcomes(z, n, ds, p, i, c);
    }
  }

  lemma TwoOutcomes(z: Sizing, n: Node, ds: seq<Delivery>, p: nat, i: nat, c: u64)
    requires Batch(ds) && c != 0 && Top(ds, p, c) && !Effective(ds[p])
    requires i < |ds| && ds[i].v.cookie == c && Effective(ds[i]) && Newer(n, ds[i])
    requires Asked(z, ds[i].v) != View(n.entries, c)
    ensures !OrderIndependent(z, n, ds)
  {
    var first, second := TwoOrders(ds, p, i);
    TopAt(ds, p, first, 0, c);
    TopAt(ds, p, second, 1, c);
    IneffectiveFirst(z, n, first, c);
    IneffectiveSecond(z, n, second, c);
    var es := AsEvents(z, n, first);
    var fs := AsEvents(z, n, second);
    assert Delivers(es, ds) && Delivers(fs, ds);
    assert View(HappenAll(z, n, es).entries, c) != View(HappenAll(z, n, fs).entries, c);
  }

  /** "Last writer wins by ordinal, not by arrival order": from any node, with packets anywhere in
      between, a batch ends with the same verdicts in force in every arrival order if and only if, for
      every cookie, its newest verdict is enforced (it is async and the kernel accepts it) or none of
      its verdicts asks for anything new. */
  lemma OrderIndependentIff(z: Sizing, n: Node, ds: seq<Delivery>)
    requires Batch(ds)
    ensures OrderIndependent(z, n, ds) <==> forall c: u64 :: c != 0 ==> NewestEnforced(z, n, ds, c)
  {
    if forall c: u64 :: c != 0 ==> NewestEnforced(z, n, ds, c) {
      forall es, fs | Delivers(es, ds) && Delivers(fs, ds)
        ensures SameViews(HappenAll(z, n, es).entries, HappenAll(z, n, fs).entries)
      {
        EveryOrderAgrees(z, n, ds, es);
        EveryOrderAgrees(z, n, ds, fs);
        SameViewsJoin(HappenAll(z, n, es).entries, DeliverAll(z, n, ds).entries, HappenAll(z, n, fs).entries);
      }
    } else {
      var c: u64 :| c != 0 && !NewestEnforced(z, n, ds, c);
      NotEnforcedDependsOnOrder(z, n, ds, c);
    }
  }

  lemma SameViewsJoin(a: Entries, b: Entries, c: Entries)
    requires SameViews(a, b) && SameViews(c, b)
    ensures SameViews(a, c)
  {
    forall x: u64 ensures View(a, x) == View(c, x) {
      assert View(a, x) == View(b, x) && View(c, x) == View(b, x);
    }
  }

  // ----- the whole map, before any packet

  /** No packet has met the map yet: only loader-owned fields are set. */
  ghost predicate Pristine(m: Entries) {
    forall c :: c in m ==> m[c] == FRESH.(action := m[c].action, rate := m[c].rate, burst := m[c].burst)
  }

  lemma {:induction false} StaysPristine(z: Sizing, n: Node, ds: seq<Delivery>)
    requires Pristine(n.entries)
    ensures Pristine(DeliverAll(z, n, ds).entries)
  {
    if ds == [] {
    } else {
      StaysPristine(z, n, ds[..|ds| - 1]);
    }
  }

  /** Then the verdicts in force are all there is. */
  lemma PristineViews(m: Entries, n: Entries)
    requires Pristine(m) && Pristine(n)
    ensures SameViews(m, n) <==> m == n
  {
    if SameViews(m, n) {
      forall c: u64 ensures (c in m <==> c in n) && (c in m ==> m[c] == n[c]) {
        assert View(m, c) == View(n, c);
      }
    }
  }

  /** Every arrival order of the batch ends in the same kernel map. */
  ghost predicate SameMap(z: Sizing, n: Node, ds: seq<Delivery>) {
    forall xs, ys :: Permutation(xs, ds) && Permutation(ys, ds) ==>
      DeliverAll(z, n, xs).entries == DeliverAll(z, n, ys).entries
  }

  /** On a map no packet has met, as on an empty one, the same condition decides the whole map. */
  lemma SameMapIff(z: Sizing, n: Node, ds: seq<Delivery>)
    requires Batch(ds) && Pristine(n.entries)
    ensures SameMap(z, n, ds) <==> forall c: u64 :: c != 0 ==> NewestEnforced(z, n, ds, c)
  {
    OrderIndependentIff(z, n, ds);
    if OrderIndependent(z, n, ds) {
      forall xs, ys | Permutation(xs, ds) && Permutation(ys, ds)
        ensures DeliverAll(z, n, xs).entries == DeliverAll(z, n, ys).entries
      {
        var es := AsEvents(z, n, xs);
        var fs := AsEvents(z, n, ys);
        assert Delivers(es, ds) && Delivers(fs, ds);
        StaysPristine(z, n, xs);
        StaysPristine(z, n, ys);
        PristineViews(DeliverAll(z, n, xs).entries, DeliverAll(z, n, ys).entries);
      }
    }
    if SameMap(z, n, ds) {
      forall es, fs | Delivers(es, ds) && Delivers(fs, ds)
        ensures SameViews(HappenAll(z, n, es).entries, HappenAll(z, n, fs).entries)
      {
        PacketsDoNotMatter(z, n, es);
        PacketsDoNotMatter(z, n, fs);
        assert DeliverAll(z, n, Arrivals(es)).entries == DeliverAll(z, n, Arrivals(fs)).entries;
        SameViewsJoin(HappenAll(z, n, es).entries, DeliverAll(z, n, Arrivals(es)).entries, HappenAll(z, n, fs).entries);
      }
    }
  }
}
