/** The rate limiter of `enforce_egress` (bpf/enforce/enforce.bpf.c): a token bucket credited in
    whole milliseconds that carries the sub-millisecond remainder, in 64-bit arithmetic. */
module TokenBucket {

  const U64: nat := 0x1_0000_0000_0000_0000
  const MS: nat := 1_000_000  // nanoseconds in a millisecond

  type u64 = x: int | 0 <= x < U64

  function Wrap(x: int): u64 {
    x % U64
  }

  const RATE_LIMIT: nat := 0
  const HARD_DENY: nat := 1
  const JAIL: nat := 2

  /** `struct verdict_val`: the loader writes action, rate and burst, the kernel the rest. */
  datatype Entry = Entry(action: nat, droppedPkts: u64, droppedBytes: u64, tokens: u64, lastNs: u64, rate: u64, burst: u64)

  // ----- one packet

  /** Credit the bucket for the time up to `now`. */
  function Refilled(e: Entry, now: u64): Entry {
    if e.lastNs == 0 then e.(tokens := e.burst, lastNs := now)
    else if now > e.lastNs then
      var ms := (now - e.lastNs) / MS;
      if ms > 0 then
        var t := Wrap(e.tokens + Wrap(ms * e.rate) / 1000);
        e.(tokens := if t > e.burst then e.burst else t, lastNs := Wrap(e.lastNs + Wrap(ms * MS)))
      else e
    else e
  }

  function Dropped(e: Entry, len: nat): Entry {
    e.(droppedPkts := Wrap(e.droppedPkts + 1), droppedBytes := Wrap(e.droppedBytes + len))
  }

  /** The entry after a packet of `len` bytes at time `now`, and whether the packet passes. */
  function Egress(e: Entry, len: nat, now: u64): (Entry, bool) {
    if e.action == HARD_DENY || e.action == JAIL then (Dropped(e, len), false)
    else if e.action == RATE_LIMIT && e.rate > 0 then
      var r := Refilled(e, now);
      if r.tokens >= len then (r.(tokens := r.tokens - len), true) else (Dropped(r, len), false)
    else (e, true)
  }

  // ----- the arithmetic of a refill

  /** Whole milliseconds between two clock readings. */
  function Elapsed(last: nat, now: nat): nat {
    if now > last then (now - last) / MS else 0
  }

  /** What `ms` milliseconds are worth at a rate in bytes per second. */
  function Credit(ms: nat, rate: nat): nat {
    ms * rate / 1000
  }

  function Min(a: int, b: int): int {
    if a < b then a else b
  }

  lemma MulMono(a: nat, b: nat, c: nat)
    requires a <= b
    ensures a * c <= b * c
  {
  }

  lemma DivMul(x: nat, d: nat)
    requires d > 0
    ensures (x / d) * d <= x < (x / d) * d + d
  {
  }

  lemma DivMono(a: nat, b: nat, d: nat)
    requires a <= b && d > 0
    ensures a / d <= b / d
  {
    DivMul(a, d);
    DivMul(b, d);
    if a / d > b / d {
      MulMono(b / d + 1, a / d, d);
    }
  }

  lemma WrapShrinks(x: nat)
    ensures Wrap(x) <= x && (x < U64 ==> Wrap(x) == x)
  {
  }

  predicate Limits(e: Entry) {
    e.action == RATE_LIMIT && e.rate > 0
  }

  /** A limiter whose bucket a packet has opened. Re-programming may have left it more tokens than
      its burst. */
  predicate Used(e: Entry) {
    Limits(e) && e.lastNs != 0
  }

  lemma ClockFits(last: u64, now: u64)
    ensures last + Elapsed(last, now) * MS < U64
  {
    if now > last {
      DivMul(now - last, MS);
    }
  }

  /** For every rate, burst and gap a refill moves the clock by exactly the whole milliseconds
      elapsed and never credits more than they are worth: wrap-around can only lose credit. As soon
      as a whole millisecond has elapsed the bucket is back within its burst. */
  lemma RefillBounds(e: Entry, now: u64)
    requires Used(e)
    ensures var ms, r := Elapsed(e.lastNs, now), Refilled(e, now);
      && r.tokens <= e.tokens + Credit(ms, e.rate)
      && (r.tokens <= e.burst <==> ms > 0 || e.tokens <= e.burst)
      && r.lastNs == e.lastNs + ms * MS
      && r == e.(tokens := r.tokens, lastNs := r.lastNs)
  {
    var ms := Elapsed(e.lastNs, now);
    ClockFits(e.lastNs, now);
    if ms > 0 {
      WrapShrinks(ms * MS);
      WrapShrinks(e.lastNs + ms * MS);
      CreditShrinks(e.tokens, ms, e.rate);
    }
  }

  lemma CreditShrinks(tokens: nat, ms: nat, rate: nat)
    ensures Wrap(tokens + Wrap(ms * rate) / 1000) <= tokens + Credit(ms, rate)
  {
    WrapShrinks(ms * rate);
    DivMono(Wrap(ms * rate), ms * rate, 1000);
    WrapShrinks(tokens + Wrap(ms * rate) / 1000);
  }

  /** Neither the product nor the sum of a refill at `now` overflows 64 bits. */
  predicate Fits(e: Entry, now: nat) {
    var ms := Elapsed(e.lastNs, now);
    ms * e.rate < U64 && e.tokens + Credit(ms, e.rate) < U64
  }

  /** At most a million bytes per second, and a burst that leaves room for the largest credit. */
  predicate Tame(e: Entry) {
    Limits(e) && e.rate <= 1_000_000 && e.burst + U64 / 1000 < U64
  }

  /** No gap and no clock reading overflow the arithmetic of a tame bucket. */
  lemma TameFits(e: Entry, now: u64)
    requires Tame(e) && e.tokens <= e.burst
    ensures Fits(e, now)
  {
    var ms := Elapsed(e.lastNs, now);
    ClockFits(e.lastNs, now);
    MulMono(e.rate, MS, ms);
    assert ms * e.rate <= ms * MS;
    DivMono(ms * e.rate, U64, 1000);
  }

  /** A refill that fits is exact integer arithmetic, capped at the burst. */
  lemma RefillExact(e: Entry, now: u64)
    requires Used(e) && e.tokens <= e.burst && Fits(e, now)
    ensures Refilled(e, now).tokens == Min(e.burst, e.tokens + Credit(Elapsed(e.lastNs, now), e.rate))
  {
    var ms := Elapsed(e.lastNs, now);
    if ms == 0 {
      assert ms * e.rate == 0;
    } else {
      WrapShrinks(ms * e.rate);
      WrapShrinks(e.tokens + Credit(ms, e.rate));
    }
  }

  // ----- what one packet meets, exactly

  /** A new bucket opens full: its first packet passes exactly when it fits the burst. */
  lemma FirstPacket(e: Entry, len: nat, now: u64)
    requires e.action == 0 && e.rate > 0 && e.lastNs == 0
    ensures var (f, pass) := Egress(e, len, now);
      && (pass <==> len <= e.burst) && f.lastNs == now
      && f.tokens == e.burst - (if pass then len else 0)
  {
  }

  /** A later packet passes exactly when it fits the tokens left plus a thousandth of the rate for every
      whole millisecond since the last credit, up to the burst; it then takes its length. */
  lemma LaterPacket(e: Entry, len: nat, now: u64)
    requires Used(e) && e.tokens <= e.burst && Fits(e, now)
    ensures var ms := if now > e.lastNs then (now - e.lastNs) / 1_000_000 else 0;
      var have := if e.tokens + ms * e.rate / 1000 > e.burst then e.burst else e.tokens + ms * e.rate / 1000;
      var (f, pass) := Egress(e, len, now);
      && (pass <==> len <= have) && f.tokens == have - (if pass then len else 0)
      && f.lastNs == e.lastNs + ms * 1_000_000
  {
    RefillExact(e, now);
    RefillBounds(e, now);
  }

  /** Without a limiter: deny and jail (1 and 2) drop everything, a rate of zero or an unknown action
      passes everything, and neither touches the bucket. */
  lemma UnmeteredPacket(e: Entry, len: nat, now: u64)
    requires e.action != 0 || e.rate == 0
    ensures var (f, pass) := Egress(e, len, now);
      && (pass <==> e.action != 1 && e.action != 2) && f.tokens == e.tokens && f.lastNs == e.lastNs
  {
  }

  // ----- packet sequences

  datatype Packet = Packet(len: nat, now: u64)

  /** The entry after a sequence of packets and the bytes that passed. */
  function Flow(e: Entry, ps: seq<Packet>): (Entry, nat) {
    if ps == [] then (e, 0)
    else
      var (f, passed) := Flow(e, ps[..|ps| - 1]);
      var p := ps[|ps| - 1];
      var (g, pass) := Egress(f, p.len, p.now);
      (g, passed + if pass then p.len else 0)
  }

  lemma FloorSum(a: nat, b: nat, d: nat)
    requires d > 0
    ensures a / d + b / d <= (a + b) / d
  {
    DivMul(a, d);
    DivMul(b, d);
    DivMul(a + b, d);
    if a / d + b / d > (a + b) / d {
      MulMono((a + b) / d + 1, a / d + b / d, d);
    }
  }

  /** Credits of successive refills, each rounded down, stay within the credit of the whole time. */
  lemma CreditSum(m: nat, k: nat, rate: nat)
    ensures Credit(m, rate) + Credit(k, rate) <= Credit(m + k, rate)
  {
    FloorSum(m * rate, k * rate, 1000);
    assert m * rate + k * rate == (m + k) * rate;
  }

  /** One packet on a bucket in use: tokens spent and credit are accounted for. */
  lemma EgressConserves(e: Entry, p: Packet)
    requires Used(e)
    ensures var (g, pass) := Egress(e, p.len, p.now);
      var ms := Elapsed(e.lastNs, p.now);
      && Used(g) && g.rate == e.rate && g.burst == e.burst && g.lastNs == e.lastNs + ms * MS
      && (e.tokens <= e.burst ==> g.tokens <= g.burst)
      && g.tokens + (if pass then p.len else 0) <= e.tokens + Credit(ms, e.rate)
  {
    RefillBounds(e, p.now);
  }

  /** Bytes passed plus tokens left stay within `tokens` plus the rate's worth of the whole milliseconds
      since `start`. */
  ghost predicate Accounted(f: Entry, passed: nat, start: nat, tokens: nat, rate: nat) {
    && f.lastNs >= start && (f.lastNs - start) % MS == 0
    && passed + f.tokens <= tokens + Credit((f.lastNs - start) / MS, rate)
  }

  /** Conservation: with fixed rate and burst, the bytes that pass plus the tokens left never exceed
      the tokens at the start plus the rate's worth of the whole milliseconds credited, whatever
      the packet times, despite the rounding of every single refill and despite wrap-around. */
  lemma {:induction false} Conservation(e: Entry, ps: seq<Packet>)
    requires Used(e)
    ensures var (f, passed) := Flow(e, ps);
      && Used(f) && f.rate == e.rate && f.burst == e.burst
      && (e.tokens <= e.burst ==> f.tokens <= f.burst)
      && Accounted(f, passed, e.lastNs, e.tokens, e.rate)
  {
    if ps == [] {
    } else {
      var front, p := ps[..|ps| - 1], ps[|ps| - 1];
      Conservation(e, front);
      var (f, passed) := Flow(e, front);
      EgressConserves(f, p);
      var (g, pass) := Egress(f, p.len, p.now);
      StaysAccounted(f, passed, g, if pass then p.len else 0, Elapsed(f.lastNs, p.now), e);
    }
  }

  lemma StaysAccounted(f: Entry, passed: nat, g: Entry, more: nat, k: nat, e: Entry)
    requires Accounted(f, passed, e.lastNs, e.tokens, e.rate)
    requires g.lastNs == f.lastNs + k * MS && g.tokens + more <= f.tokens + Credit(k, e.rate)
    ensures Accounted(g, passed + more, e.lastNs, e.tokens, e.rate)
  {
    WholeMs(f.lastNs - e.lastNs, k);
    CreditSum((f.lastNs - e.lastNs) / MS, k, e.rate);
  }

  lemma WholeMs(x: nat, k: nat)
    requires x % MS == 0
    ensures (x + k * MS) % MS == 0 && (x + k * MS) / MS == x / MS + k
  {
    var q := x / MS;
    assert x == q * MS;
    assert x + k * MS == (q + k) * MS;
    DivMul(x + k * MS, MS);
  }

  function TotalBytes(ps: seq<Packet>): nat {
    if ps == [] then 0 else TotalBytes(ps[..|ps| - 1]) + ps[|ps| - 1].len
  }

  lemma SendKeepsAtLeast(e: Entry, p: Packet, least: nat)
    requires Limits(e) && e.burst + U64 / 1000 < U64 && e.tokens <= e.burst
    requires e.lastNs == 0 || e.tokens >= p.len + least
    requires p.len + least <= e.burst
    ensures var (f, pass) := Egress(e, p.len, p.now);
      pass && f.tokens >= least && f.tokens <= f.burst && Limits(f) && f.burst == e.burst
  {
    if e.lastNs != 0 {
      var ms := Elapsed(e.lastNs, p.now);
      DivMono(Wrap(ms * e.rate), U64, 1000);
      WrapShrinks(e.tokens + Wrap(ms * e.rate) / 1000);
    }
  }

  /** The initial burst: from a new bucket, packets that add up to at most the burst all pass, whenever
      they come. */
  lemma {:induction false} BurstPasses(e: Entry, ps: seq<Packet>)
    requires Limits(e) && e.lastNs == 0 && e.tokens <= e.burst && e.burst + U64 / 1000 < U64 && TotalBytes(ps) <= e.burst
    ensures var (f, passed) := Flow(e, ps);
      && passed == TotalBytes(ps) && Limits(f) && f.burst == e.burst && f.tokens <= f.burst
      && (f.lastNs == 0 || f.tokens >= e.burst - TotalBytes(ps))
  {
    if ps != [] {
      var front, p := ps[..|ps| - 1], ps[|ps| - 1];
      BurstPasses(e, front);
      SendKeepsAtLeast(Flow(e, front).0, p, e.burst - TotalBytes(ps));
    }
  }

  // ----- windows of time

  ghost predicate Ascending(ps: seq<Packet>) {
    forall i, j :: 0 <= i <= j < |ps| ==> ps[i].now <= ps[j].now
  }

  lemma RemainderCarried(last: nat, now: nat)
    requires last <= now
    ensures last + Elapsed(last, now) * MS <= now < last + Elapsed(last, now) * MS + MS
  {
    DivMul(now - last, MS);
  }

  lemma NoLostStep(e: Entry, p: Packet)
    requires Used(e) && e.lastNs <= p.now
    ensures var g := Egress(e, p.len, p.now).0; g.lastNs <= p.now < g.lastNs + MS
  {
    EgressConserves(e, p);
    RemainderCarried(e.lastNs, p.now);
  }

  lemma {:induction false} ClockCatchesUp(e: Entry, ps: seq<Packet>)
    requires Used(e) && ps != [] && Ascending(ps) && e.lastNs <= ps[0].now
    ensures var f := Flow(e, ps).0; Used(f) && f.lastNs <= ps[|ps| - 1].now < f.lastNs + MS
  {
    var front, p := ps[..|ps| - 1], ps[|ps| - 1];
    if front != [] {
      ClockCatchesUp(e, front);
    }
    EgressConserves(Flow(e, front).0, p);
    NoLostStep(Flow(e, front).0, p);
  }

  /** No lost time: when the clock does not run backwards, after every packet less than one
      millisecond is uncredited, and the credited time is a whole number of milliseconds. */
  lemma NoLostTime(e: Entry, ps: seq<Packet>)
    requires Used(e) && ps != [] && Ascending(ps) && e.lastNs <= ps[0].now
    ensures var f := Flow(e, ps).0; var now := ps[|ps| - 1].now;
      && Used(f) && f.lastNs <= now < f.lastNs + MS
      && (f.lastNs - e.lastNs) / MS == (now - e.lastNs) / MS
  {
    ClockCatchesUp(e, ps);
    Conservation(e, ps);
    SameQuotient(Flow(e, ps).0.lastNs - e.lastNs, ps[|ps| - 1].now - e.lastNs);
  }

  lemma SameQuotient(x: nat, y: nat)
    requires x % MS == 0 && x <= y < x + MS
    ensures x / MS == y / MS
  {
  }

  /** Opening the bucket, or crediting it up to the first packet, first. */
  lemma OpenedIsUsed(e: Entry, now: u64)
    requires Limits(e) && now > 0 && e.lastNs <= now
    ensures var o := Refilled(e, now);
      Used(o) && o.rate == e.rate && o.burst == e.burst && o.lastNs <= now < o.lastNs + MS && Refilled(o, now) == o
  {
    if e.lastNs != 0 {
      RefillBounds(e, now);
      RemainderCarried(e.lastNs, now);
    }
    var o := Refilled(e, now);
    assert Elapsed(o.lastNs, now) == 0;
  }

  lemma FlowOne(e: Entry, p: Packet)
    ensures Flow(e, [p]) == (var (g, pass) := Egress(e, p.len, p.now); (g, if pass then p.len else 0))
  {
    assert [p][..0] == [];
  }

  /** Opening the bucket first changes nothing. */
  lemma {:induction false} OpenFirst(e: Entry, ps: seq<Packet>)
    requires Limits(e) && ps != [] && ps[0].now > 0 && e.lastNs <= ps[0].now
    ensures Flow(e, ps) == Flow(Refilled(e, ps[0].now), ps)
  {
    var o := Refilled(e, ps[0].now);
    OpenedIsUsed(e, ps[0].now);
    if |ps| == 1 {
      assert ps == [ps[0]];
      FlowOne(e, ps[0]);
      FlowOne(o, ps[0]);
    } else {
      OpenFirst(e, ps[..|ps| - 1]);
    }
  }

  /** Counted from the first packet: bytes passed plus tokens left stay within one burst plus the
      credit of the whole milliseconds since that packet. */
  lemma ConservationFromFirstPacket(e: Entry, ps: seq<Packet>)
    requires Limits(e) && e.lastNs == 0 && ps != [] && ps[0].now > 0
    ensures var (f, passed) := Flow(e, ps); Accounted(f, passed, ps[0].now, e.burst, e.rate)
  {
    var o := Refilled(e, ps[0].now);
    assert Flow(e, ps) == Flow(o, ps) by { OpenFirst(e, ps); }
    Conservation(o, ps);
  }

  function CeilMs(x: nat): nat {
    (x + MS - 1) / MS
  }

  /** From any state of a limiter: over any window of packets with ascending times, at most the
      tokens at its first packet plus the rate for the window's started milliseconds passes. */
  lemma WindowFromTokens(e: Entry, ps: seq<Packet>)
    requires Limits(e) && ps != [] && Ascending(ps) && ps[0].now > 0 && e.lastNs <= ps[0].now
    ensures Flow(e, ps).1 <= Refilled(e, ps[0].now).tokens + Credit(CeilMs(ps[|ps| - 1].now - ps[0].now), e.rate)
  {
    var o := Refilled(e, ps[0].now);
    OpenFirst(e, ps);
    OpenedIsUsed(e, ps[0].now);
    WindowFromOpen(o, ps);
  }

  lemma WindowFromOpen(o: Entry, ps: seq<Packet>)
    requires Used(o) && ps != [] && Ascending(ps) && o.lastNs <= ps[0].now < o.lastNs + MS
    ensures Flow(o, ps).1 <= o.tokens + Credit(CeilMs(ps[|ps| - 1].now - ps[0].now), o.rate)
  {
    UsedBound(o, ps);
    CeilingCovers(o.lastNs, ps[0].now, ps[|ps| - 1].now, o.rate);
  }

  /** At time `now` the bucket holds no more than its burst: it is new, it never held more, or a whole
      millisecond has elapsed since a smaller burst was programmed. */
  predicate WithinBurst(e: Entry, now: nat) {
    e.lastNs == 0 || e.tokens <= e.burst || Elapsed(e.lastNs, now) > 0
  }

  /** The throttle: over any window of packets with ascending times at most one burst plus the rate
      for the window's length in started milliseconds passes. */
  ghost predicate Throttled(e: Entry, ps: seq<Packet>)
    requires ps != [] && Ascending(ps)
  {
    Flow(e, ps).1 <= e.burst + Credit(CeilMs(ps[|ps| - 1].now - ps[0].now), e.rate)
  }

  lemma WindowBound(e: Entry, ps: seq<Packet>)
    requires Limits(e) && ps != [] && Ascending(ps) && ps[0].now > 0 && e.lastNs <= ps[0].now
    requires WithinBurst(e, ps[0].now)
    ensures Throttled(e, ps)
  {
    WindowFromTokens(e, ps);
    if e.lastNs != 0 {
      RefillBounds(e, ps[0].now);
    }
  }

  /** Exactly then: every window that begins at `now` is throttled if and only if the bucket is within
      its burst at that time. */
  lemma WindowBoundIff(e: Entry, now: u64)
    requires Limits(e) && now > 0 && e.lastNs <= now
    ensures (forall ps: seq<Packet> :: ps != [] && Ascending(ps) && ps[0].now == now ==> Throttled(e, ps)) <==> WithinBurst(e, now)
  {
    if WithinBurst(e, now) {
      forall ps: seq<Packet> | ps != [] && Ascending(ps) && ps[0].now == now ensures Throttled(e, ps) {
        WindowBound(e, ps);
      }
    } else {
      var p := Packet(e.tokens, now);
      FlowOne(e, p);
      assert !Throttled(e, [p]);
    }
  }

  lemma UsedBound(e: Entry, ps: seq<Packet>)
    requires Used(e) && ps != [] && Ascending(ps) && e.lastNs <= ps[0].now
    ensures Flow(e, ps).1 <= e.tokens + Credit((ps[|ps| - 1].now - e.lastNs) / MS, e.rate)
  {
    Conservation(e, ps);
    NoLostTime(e, ps);
  }

  lemma CeilingCovers(last: nat, s: nat, t: nat, rate: nat)
    requires last <= s < last + MS && s <= t
    ensures Credit((t - last) / MS, rate) <= Credit(CeilMs(t - s), rate)
  {
    var m, c := (t - last) / MS, CeilMs(t - s);
    DivMono(t - last, t - s + MS - 1, MS);
    MulMono(m, c, rate);
    DivMono(m * rate, c * rate, 1000);
  }

  // ----- how much is credited

  /** The sum of all refills of a packet sequence, as computed, before the cap at the burst. */
  function Credited(e: Entry, ps: seq<Packet>): nat {
    if ps == [] then 0
    else
      var front, p := ps[..|ps| - 1], ps[|ps| - 1];
      Credited(e, front) + Wrap(Elapsed(Flow(e, front).0.lastNs, p.now) * e.rate) / 1000
  }

  lemma CreditAtLeast(ms: nat, rate: nat)
    ensures ms * (rate / 1000) <= Credit(ms, rate)
  {
    DivMul(rate, 1000);
    MulMono(rate / 1000 * 1000, rate, ms);
    assert ms * (rate / 1000) * 1000 <= ms * rate;
    DivMono(ms * (rate / 1000) * 1000, ms * rate, 1000);
    assert ms * (rate / 1000) * 1000 / 1000 == ms * (rate / 1000);
  }

  lemma Distribute(a: nat, b: nat, c: nat)
    ensures (a + b) * c == a * c + b * c
  {
  }

  /** No product of elapsed milliseconds and rate wraps anywhere in the sequence. */
  ghost predicate ProductsFit(e: Entry, ps: seq<Packet>) {
    ps == [] ||
    (var front, p := ps[..|ps| - 1], ps[|ps| - 1];
     ProductsFit(e, front) && Elapsed(Flow(e, front).0.lastNs, p.now) * e.rate < U64)
  }

  /** Credit earned in `m` milliseconds: never above the exact rate, and where nothing wrapped at
      least the whole bytes per millisecond. */
  ghost predicate CreditWithin(credit: nat, m: nat, rate: nat, fits: bool) {
    credit <= Credit(m, rate) && (fits ==> m * (rate / 1000) <= credit)
  }

  lemma CreditedSum(credit: nat, m: nat, k: nat, rate: nat, fits: bool)
    requires CreditWithin(credit, m, rate, fits)
    ensures CreditWithin(credit + Wrap(k * rate) / 1000, m + k, rate, fits && k * rate < U64)
  {
    CreditSum(m, k, rate);
    CreditAtLeast(k, rate);
    Distribute(m, k, rate / 1000);
    WrapShrinks(k * rate);
    DivMono(Wrap(k * rate), k * rate, 1000);
  }

  /** The whole milliseconds credited over a sequence. */
  ghost function CreditedMs(e: Entry, ps: seq<Packet>): nat
    requires Used(e)
  {
    Conservation(e, ps);
    (Flow(e, ps).0.lastNs - e.lastNs) / MS
  }

  lemma CreditedMsSnoc(e: Entry, ps: seq<Packet>)
    requires Used(e) && ps != []
    ensures var front, p := ps[..|ps| - 1], ps[|ps| - 1];
      CreditedMs(e, ps) == CreditedMs(e, front) + Elapsed(Flow(e, front).0.lastNs, p.now)
  {
    var front, p := ps[..|ps| - 1], ps[|ps| - 1];
    Conservation(e, front);
    var f := Flow(e, front).0;
    EgressConserves(f, p);
    WholeMs(f.lastNs - e.lastNs, Elapsed(f.lastNs, p.now));
  }

  /** Rounding every refill never gains, and loses less than a byte per millisecond where no product
      wraps: the total credit lies between the whole bytes per millisecond and the exact rate. */
  lemma {:induction false} CreditedBetween(e: Entry, ps: seq<Packet>)
    requires Used(e)
    ensures CreditWithin(Credited(e, ps), CreditedMs(e, ps), e.rate, ProductsFit(e, ps))
  {
    if ps == [] {
    } else {
      var front, p := ps[..|ps| - 1], ps[|ps| - 1];
      CreditedBetween(e, front);
      CreditedMsSnoc(e, ps);
      CreditedSum(Credited(e, front), CreditedMs(e, front), Elapsed(Flow(e, front).0.lastNs, p.now), e.rate,
                  ProductsFit(e, front));
    }
  }

  // ----- traffic that starves

  /** The time of the packet before packet `i`, for the first one `t`. */
  function TimeBefore(t: nat, ps: seq<Packet>, i: nat): nat
    requires i <= |ps|
  {
    if i == 0 then t else ps[i - 1].now
  }

  /** Each packet comes at most `g` milliseconds after the one before it. */
  ghost predicate Gaps(t: nat, ps: seq<Packet>, g: nat) {
    forall i :: 0 <= i < |ps| ==> TimeBefore(t, ps, i) <= ps[i].now <= TimeBefore(t, ps, i) + g * MS
  }

  /** Every packet is longer than `n` bytes. */
  ghost predicate Longer(ps: seq<Packet>, n: nat) {
    forall i :: 0 <= i < |ps| ==> ps[i].len > n
  }

  lemma ElapsedAtMost(last: nat, t: nat, now: nat, g: nat)
    requires last <= t < last + MS && t <= now <= t + g * MS
    ensures Elapsed(last, now) <= g
  {
    DivMono(now - last, g * MS + MS - 1, MS);
    DivMul(g * MS + MS - 1, MS);
  }

  /** A gap of `g` milliseconds adds nothing to a bucket of `n` tokens: it is worth less than a byte,
      or the bucket is full. */
  predicate NothingToGain(e: Entry, g: nat, n: nat) {
    g * e.rate < 1000 || e.burst <= n
  }

  /** The bucket `f` has come from `e` without rising above `n`, and is credited up to time `t`. */
  predicate StaysBelow(e: Entry, f: Entry, n: nat, t: nat) {
    && Used(f) && f.rate == e.rate && f.burst == e.burst && f.tokens <= n
    && f.lastNs <= t < f.lastNs + MS
  }

  lemma NotServed(e: Entry, t: nat, p: Packet, g: nat, n: nat)
    requires StaysBelow(e, e, n, t) && n < p.len && NothingToGain(e, g, n) && t <= p.now <= t + g * MS
    ensures var (f, pass) := Egress(e, p.len, p.now); !pass && StaysBelow(e, f, n, p.now)
  {
    var ms := Elapsed(e.lastNs, p.now);
    ElapsedAtMost(e.lastNs, t, p.now, g);
    MulMono(ms, g, e.rate);
    RefillBounds(e, p.now);
    RemainderCarried(e.lastNs, p.now);
    assert g * e.rate < 1000 ==> Credit(ms, e.rate) == 0;
  }

  lemma GapsOfFront(t: nat, ps: seq<Packet>, g: nat, n: nat)
    requires ps != [] && Gaps(t, ps, g) && Longer(ps, n)
    ensures var front, p := ps[..|ps| - 1], ps[|ps| - 1];
      && Gaps(t, front, g) && Longer(front, n) && p.len > n
      && TimeBefore(t, front, |front|) <= p.now <= TimeBefore(t, front, |front|) + g * MS
  {
    var front := ps[..|ps| - 1];
    forall i | 0 <= i <= |front| ensures TimeBefore(t, front, i) == TimeBefore(t, ps, i) {
    }
  }

  /** When a gap is worth less than a byte, packets longer than the tokens left are refused for as long
      as the traffic lasts, whatever their lengths and exact times: after its initial burst such a flow
      never gets another packet through. */
  lemma {:induction false} DenseTrafficStarves(e: Entry, t: nat, ps: seq<Packet>, g: nat, n: nat)
    requires StaysBelow(e, e, n, t) && NothingToGain(e, g, n) && Gaps(t, ps, g) && Longer(ps, n)
    ensures var (f, passed) := Flow(e, ps); passed == 0 && StaysBelow(e, f, n, TimeBefore(t, ps, |ps|))
  {
    if ps != [] {
      var front, p := ps[..|ps| - 1], ps[|ps| - 1];
      GapsOfFront(t, ps, g, n);
      DenseTrafficStarves(e, t, front, g, n);
      NotServed(Flow(e, front).0, TimeBefore(t, front, |front|), p, g, n);
    }
  }

  /** No traffic of packets longer than the tokens left, with gaps of at most `g` milliseconds, ever
      gets a byte through. */
  ghost predicate Starves(e: Entry, g: nat) {
    forall t: nat, ps :: e.lastNs <= t < e.lastNs + MS && Gaps(t, ps, g) && Longer(ps, e.tokens) ==> Flow(e, ps).1 == 0
  }

  /** The shortest gap worth a byte. */
  function ByteGap(rate: nat): (h: nat)
    requires rate > 0
    ensures 1000 <= h * rate < 1000 + rate && h >= 1
  {
    if rate >= 1000 then 1
    else
      DivMul(999 + rate, rate);
      (999 + rate) / rate
  }

  lemma OnePasses(e: Entry, h: nat)
    requires Used(e) && e.tokens < e.burst && e.burst + U64 / 1000 < U64
    requires 1000 <= h * e.rate < U64 && e.lastNs + h * MS < U64
    ensures Flow(e, [Packet(e.tokens + 1, e.lastNs + h * MS)]).1 == e.tokens + 1
  {
    var p := Packet(e.tokens + 1, e.lastNs + h * MS);
    ExactMs(e.lastNs, h);
    DivMono(1000, h * e.rate, 1000);
    DivMono(h * e.rate, U64, 1000);
    RefillExact(e, p.now);
    FlowOne(e, p);
  }

  lemma ExactMs(last: nat, h: nat)
    ensures Elapsed(last, last + h * MS) == h
  {
  }

  /** Whatever is left in the bucket, dense traffic of longer packets starves exactly when the rate is
      worth less than a byte per gap (for gaps up to a millisecond, below 1000 bytes per second) or when
      the packets exceed the burst. */
  lemma StarvesIff(e: Entry, g: nat)
    requires Used(e) && e.burst + U64 / 1000 < U64 && e.lastNs + g * MS < U64
    ensures Starves(e, g) <==> g * e.rate < 1000 || e.burst <= e.tokens
  {
    if NothingToGain(e, g, e.tokens) {
      forall t: nat, ps | e.lastNs <= t < e.lastNs + MS && Gaps(t, ps, g) && Longer(ps, e.tokens)
        ensures Flow(e, ps).1 == 0
      {
        DenseTrafficStarves(e, t, ps, g, e.tokens);
      }
    } else {
      var h := ByteGap(e.rate);
      if h > g { MulMono(g + 1, h, e.rate); }
      var ps := [Packet(e.tokens + 1, e.lastNs + h * MS)];
      assert Gaps(e.lastNs, ps, g) && Longer(ps, e.tokens);
      OnePasses(e, h);
      assert e.lastNs <= e.lastNs < e.lastNs + MS;
    }
  }

  // ----- demand that is served

  /** One-byte packets `g` milliseconds apart. */
  predicate Steady(ps: seq<Packet>, start: nat, g: nat) {
    forall i :: 0 <= i < |ps| ==> ps[i].len == 1 && ps[i].now == start + (i + 1) * (g * MS)
  }

  lemma SteadyStep(e: Entry, p: Packet, g: nat)
    requires Used(e) && 1 <= e.burst && e.tokens <= e.burst && p.len == 1 && p.now == e.lastNs + g * MS
    requires 1000 <= g * e.rate < U64 && e.burst + Credit(g, e.rate) < U64
    ensures var (f, pass) := Egress(e, p.len, p.now); pass && f.lastNs == p.now
  {
    ExactMs(e.lastNs, g);
    DivMono(1000, g * e.rate, 1000);
    RefillExact(e, p.now);
    EgressConserves(e, p);
  }

  /** Once a gap is worth a byte, steady traffic passes without loss, at any rate that does not wrap. */
  lemma {:induction false} SteadyTrafficPasses(e: Entry, ps: seq<Packet>, g: nat)
    requires Used(e) && 1 <= e.burst && e.tokens <= e.burst && Steady(ps, e.lastNs, g)
    requires 1000 <= g * e.rate < U64 && e.burst + Credit(g, e.rate) < U64
    ensures Flow(e, ps).1 == |ps| && Flow(e, ps).0.lastNs == e.lastNs + |ps| * (g * MS)
  {
    if ps == [] {
    } else {
      var front, p := ps[..|ps| - 1], ps[|ps| - 1];
      SteadyTrafficPasses(e, front, g);
      Conservation(e, front);
      Distribute(|front|, 1, g * MS);
      SteadyStep(Flow(e, front).0, p, g);
    }
  }

  ghost predicate Lengths(ps: seq<Packet>, most: nat) {
    forall i :: 0 <= i < |ps| ==> 0 < ps[i].len <= most
  }

  /** While nothing passes, everything credited stays in the bucket. */
  lemma {:induction false} NothingPassed(e: Entry, ps: seq<Packet>, most: nat)
    requires Used(e) && e.tokens <= e.burst && most <= e.burst && e.burst + U64 / 1000 < U64
    requires Lengths(ps, most) && ProductsFit(e, ps) && Flow(e, ps).1 == 0
    ensures Flow(e, ps).0.tokens == e.tokens + Credited(e, ps)
    ensures ps != [] ==> Flow(e, ps).0.tokens < most
  {
    if ps == [] {
    } else {
      var front, p := ps[..|ps| - 1], ps[|ps| - 1];
      NothingPassed(e, front, most);
      Conservation(e, front);
      RefusedKeepsCredit(Flow(e, front).0, p, most);
    }
  }

  lemma RefusedKeepsCredit(e: Entry, p: Packet, most: nat)
    requires Used(e) && e.tokens <= e.burst && most <= e.burst && e.burst + U64 / 1000 < U64
    requires 0 < p.len <= most && Elapsed(e.lastNs, p.now) * e.rate < U64 && !Egress(e, p.len, p.now).1
    ensures Egress(e, p.len, p.now).0.tokens == e.tokens + Wrap(Elapsed(e.lastNs, p.now) * e.rate) / 1000 < most
  {
    var ms := Elapsed(e.lastNs, p.now);
    DivMono(ms * e.rate, U64, 1000);
    WrapShrinks(ms * e.rate);
    RefillExact(e, p.now);
  }

  lemma {:induction false} ShortWindowFits(e: Entry, ps: seq<Packet>, m: nat)
    requires Used(e) && m * e.rate < U64 && forall i :: 0 <= i < |ps| ==> Elapsed(e.lastNs, ps[i].now) <= m
    ensures ProductsFit(e, ps)
  {
    if ps == [] {
    } else {
      var front, p := ps[..|ps| - 1], ps[|ps| - 1];
      ShortWindowFits(e, front, m);
      Conservation(e, front);
      var f := Flow(e, front).0;
      if p.now > f.lastNs { DivMono(p.now - f.lastNs, p.now - e.lastNs, MS); }
      MulMono(Elapsed(f.lastNs, p.now), m, e.rate);
    }
  }

  /** Persistent demand is served: packets no longer than the burst are all refused only for as long as
      the elapsed milliseconds at the whole bytes per millisecond are worth less than the longest. */
  lemma DemandIsServed(e: Entry, ps: seq<Packet>, most: nat)
    requires Used(e) && e.tokens <= e.burst && most <= e.burst && e.burst + U64 / 1000 < U64
    requires ps != [] && Ascending(ps) && e.lastNs <= ps[0].now && Lengths(ps, most)
    requires Elapsed(e.lastNs, ps[|ps| - 1].now) * e.rate < U64
    ensures Flow(e, ps).1 == 0 ==> Elapsed(e.lastNs, ps[|ps| - 1].now) * (e.rate / 1000) < most
  {
    if Flow(e, ps).1 == 0 {
      WindowFits(e, ps);
      NothingPassed(e, ps, most);
      CreditedBetween(e, ps);
      CreditedUpToNow(e, ps);
    }
  }

  lemma WindowFits(e: Entry, ps: seq<Packet>)
    requires Used(e) && ps != [] && Ascending(ps) && Elapsed(e.lastNs, ps[|ps| - 1].now) * e.rate < U64
    ensures ProductsFit(e, ps)
  {
    var last := ps[|ps| - 1].now;
    forall i | 0 <= i < |ps| ensures Elapsed(e.lastNs, ps[i].now) <= Elapsed(e.lastNs, last) {
      if ps[i].now > e.lastNs { DivMono(ps[i].now - e.lastNs, last - e.lastNs, MS); }
    }
    ShortWindowFits(e, ps, Elapsed(e.lastNs, last));
  }

  lemma CreditedUpToNow(e: Entry, ps: seq<Packet>)
    requires Used(e) && ps != [] && Ascending(ps) && e.lastNs <= ps[0].now
    ensures CreditedMs(e, ps) == Elapsed(e.lastNs, ps[|ps| - 1].now)
  {
    NoLostTime(e, ps);
    assert ps[0].now <= ps[|ps| - 1].now;
  }

  // ----- where the 64-bit product wraps

  /** The product of elapsed milliseconds and rate fits 64 bits for every pair of clock readings
      exactly up to one million bytes per second. */
  lemma ProductFitsIff(rate: u64)
    ensures (forall last: u64, now: u64 :: last > 0 ==> Elapsed(last, now) * rate < U64) <==> rate <= 1_000_000
  {
    if rate <= 1_000_000 {
      forall last: u64, now: u64 | last > 0 ensures Elapsed(last, now) * rate < U64 {
        if now > last { DivMul(now - last, MS); }
        MulMono(rate, MS, Elapsed(last, now));
      }
    } else {
      var ms := Elapsed(1, U64 - 1);
      assert ms == 18_446_744_073_709;
      MulMono(1_000_001, rate, ms);
      assert ms * rate >= U64;
    }
  }

  /** A wrapped product: after an idle gap worth 2^54 bytes the bucket gains nothing. */
  lemma WrapLosesCredit()
    ensures var e := Entry(RATE_LIMIT, 0, 0, 0, 1, 0x1_0000_0000, 1000);
      var now := 1 + 0x1_0000_0000 * MS;
      && Credit(Elapsed(e.lastNs, now), e.rate) > e.burst
      && Refilled(e, now).tokens == 0
  {
  }
}
