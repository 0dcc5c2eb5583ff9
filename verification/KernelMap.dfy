/** The per-cookie verdict map: `enforce_egress` and `enforce_release` (bpf/enforce/enforce.bpf.c)
    against `Program`, `Release` and `Counters` of the loader (bpf/enforce/loader_linux.go). */
module KernelMap {
  import opened TokenBucket

  type Entries = map<u64, Entry>

  const FRESH := Entry(0, 0, 0, 0, 0, 0, 0)

  /** Everything that touches the map, each step atomic. */
  datatype Step =
    | Program(cookie: u64, action: nat, rate: u64, burst: u64)
    | Release(cookie: u64)
    | Close(cookie: u64)  // sock_release
    | Evict(cookie: u64)  // the LRU map makes room
    | Send(cookie: u64, len: nat, now: u64)

  function Programmed(m: Entries, s: Step): Entries
    requires s.Program?
  {
    if s.cookie == 0 then m
    else
      var v := if s.cookie in m then m[s.cookie] else FRESH;
      m[s.cookie := v.(action := s.action, rate := s.rate, burst := s.burst)]
  }

  /** Cookie 0 and unprogrammed cookies pass untouched. */
  predicate Passes(m: Entries, cookie: u64, len: nat, now: u64) {
    cookie == 0 || cookie !in m || Egress(m[cookie], len, now).1
  }

  function Sent(m: Entries, cookie: u64, len: nat, now: u64): Entries {
    if cookie == 0 || cookie !in m then m else m[cookie := Egress(m[cookie], len, now).0]
  }

  function Next(m: Entries, s: Step): Entries {
    match s
    case Program(_, _, _, _) => Programmed(m, s)
    case Release(c) => if c == 0 then m else m - {c}
    case Close(c) => if c == 0 then m else m - {c}
    case Evict(c) => m - {c}
    case Send(c, len, now) => Sent(m, c, len, now)
  }

  function Run(m: Entries, steps: seq<Step>): Entries {
    if steps == [] then m else Next(Run(m, steps[..|steps| - 1]), steps[|steps| - 1])
  }

  datatype Counters = Counters(droppedPkts: u64, droppedBytes: u64)

  class VerdictMap {
    var entries: Entries

    constructor ()
      ensures entries == map[]
    {
      entries := map[];
    }

    /** Writes the loader-owned fields and preserves the kernel-owned ones; refuses cookie 0. */
    method Program(cookie: u64, action: nat, rate: u64, burst: u64) returns (ok: bool)
      modifies this
      ensures ok <==> cookie != 0
      ensures entries == Next(old(entries), Step.Program(cookie, action, rate, burst))
    {
      if cookie == 0 {
        return false;
      }
      var v := FRESH;
      if cookie in entries {
        v := entries[cookie];
      }
      v := v.(action := action, rate := rate, burst := burst);
      entries := entries[cookie := v];
      return true;
    }

    method Release(cookie: u64)
      modifies this
      ensures entries == Next(old(entries), Step.Release(cookie))
    {
      if cookie != 0 {
        entries := entries - {cookie};
      }
    }

    method ReadCounters(cookie: u64) returns (counters: Counters, found: bool)
      ensures found <==> cookie in entries
      ensures found ==> counters == Counters(entries[cookie].droppedPkts, entries[cookie].droppedBytes)
    {
      if cookie !in entries {
        return Counters(0, 0), false;
      }
      return Counters(entries[cookie].droppedPkts, entries[cookie].droppedBytes), true;
    }

    /** The egress program: one packet, updating the cookie's entry in place. */
    method EnforceEgress(cookie: u64, len: nat, now: u64) returns (pass: bool)
      modifies this
      ensures pass == Passes(old(entries), cookie, len, now)
      ensures entries == Next(old(entries), Send(cookie, len, now))
    {
      if cookie == 0 {
        return true;
      }
      if cookie !in entries {
        return true;
      }
      var v := entries[cookie];
      if v.action == HARD_DENY || v.action == JAIL {
        v := v.(droppedPkts := Wrap(v.droppedPkts + 1));
        v := v.(droppedBytes := Wrap(v.droppedBytes + len));
        entries := entries[cookie := v];
        return false;
      }
      if v.action == RATE_LIMIT && v.rate > 0 {
        if v.lastNs == 0 {
          v := v.(tokens := v.burst);
          v := v.(lastNs := now);
        } else if now > v.lastNs {
          var ms := (now - v.lastNs) / MS;
          if ms > 0 {
            var refill := Wrap(ms * v.rate) / 1000;
            var t := Wrap(v.tokens + refill);
            v := v.(tokens := if t > v.burst then v.burst else t);
            v := v.(lastNs := Wrap(v.lastNs + Wrap(ms * MS)));
          }
        }
        if v.tokens >= len {
          v := v.(tokens := v.tokens - len);
          entries := entries[cookie := v];
          return true;
        }
        v := v.(droppedPkts := Wrap(v.droppedPkts + 1));
        v := v.(droppedBytes := Wrap(v.droppedBytes + len));
        entries := entries[cookie := v];
        return false;
      }
      assert entries[cookie := v] == entries;
      return true;
    }

    method EnforceRelease(cookie: u64)
      modifies this
      ensures entries == Next(old(entries), Close(cookie))
    {
      if cookie != 0 {
        entries := entries - {cookie};
      }
    }
  }

  // ----- whole runs

  predicate Removes(s: Step, c: u64) {
    (s.Release? || s.Close? || s.Evict?) && s.cookie == c
  }

  predicate Programs(s: Step, c: u64) {
    s.Program? && s.cookie == c
  }

  /** Step `j` programs `c` and nothing after it removes or reprograms `c`. */
  ghost predicate InForce(steps: seq<Step>, j: int, c: u64) {
    && 0 <= j < |steps| && Programs(steps[j], c)
    && forall k :: j < k < |steps| ==> !Removes(steps[k], c) && !Programs(steps[k], c)
  }

  ghost predicate Active(steps: seq<Step>, c: u64) {
    exists j :: InForce(steps, j, c)
  }

  lemma InForceSnoc(steps: seq<Step>, s: Step, j: nat, c: u64)
    requires InForce(steps, j, c) && !Removes(s, c) && !Programs(s, c)
    ensures InForce(steps + [s], j, c)
  {
  }

  /** Exactly the cookies that are programmed and not removed since have an entry, and the entry
      carries the last programmed action, rate and burst. */
  lemma {:induction false} EntryIffActive(steps: seq<Step>, c: u64)
    ensures c in Run(map[], steps) <==> c != 0 && Active(steps, c)
    ensures forall j :: c != 0 && InForce(steps, j, c) && c in Run(map[], steps) ==>
      var e := Run(map[], steps)[c];
      e.action == steps[j].action && e.rate == steps[j].rate && e.burst == steps[j].burst
  {
    if steps == [] {
    } else {
      var front, s := steps[..|steps| - 1], steps[|steps| - 1];
      assert steps == front + [s];
      EntryIffActive(front, c);
      var m := Run(map[], front);
      if Programs(s, c) {
        assert InForce(steps, |front|, c);
      } else if !Removes(s, c) {
        if c in m {
          var j :| InForce(front, j, c);
          InForceSnoc(front, s, j, c);
        }
        forall j | InForce(steps, j, c) ensures InForce(front, j, c) {
        }
      }
    }
  }

  /** Bystanders are never touched: a dropped packet's cookie is non-zero and was programmed, with
      no release, close or eviction since. */
  lemma DropWasProgrammed(steps: seq<Step>, c: u64, len: nat, now: u64)
    requires !Passes(Run(map[], steps), c, len, now)
    ensures c != 0 && Active(steps, c)
  {
    EntryIffActive(steps, c);
  }

  // ----- one cookie at a time

  function Project(steps: seq<Step>, c: u64): seq<Step> {
    if steps == [] then []
    else
      var front := Project(steps[..|steps| - 1], c);
      if steps[|steps| - 1].cookie == c then front + [steps[|steps| - 1]] else front
  }

  predicate SameAt(m: Entries, n: Entries, c: u64) {
    (c in m <==> c in n) && (c in m ==> m[c] == n[c])
  }

  lemma NextIsLocal(m: Entries, n: Entries, s: Step, c: u64)
    ensures s.cookie != c ==> SameAt(Next(m, s), m, c)
    ensures s.cookie == c && SameAt(m, n, c) ==> SameAt(Next(m, s), Next(n, s), c)
  {
  }

  lemma RunSnoc(m: Entries, steps: seq<Step>, s: Step)
    ensures Run(m, steps + [s]) == Next(Run(m, steps), s)
  {
    assert (steps + [s])[..|steps|] == steps;
  }

  /** Non-interference: a cookie's entry, hence every decision about its packets, depends only on
      the steps that name it. */
  lemma {:induction false} OnlyOwnSteps(m: Entries, steps: seq<Step>, c: u64)
    ensures SameAt(Run(m, steps), Run(m, Project(steps, c)), c)
  {
    if steps == [] {
    } else {
      var front, s := steps[..|steps| - 1], steps[|steps| - 1];
      OnlyOwnSteps(m, front, c);
      NextIsLocal(Run(m, front), Run(m, Project(front, c)), s, c);
      RunSnoc(m, Project(front, c), s);
    }
  }

  lemma DecisionsDependOnOwnSteps(m: Entries, steps: seq<Step>, c: u64, len: nat, now: u64)
    ensures Passes(Run(m, steps), c, len, now) == Passes(Run(m, Project(steps, c)), c, len, now)
  {
    OnlyOwnSteps(m, steps, c);
  }

  // ----- drop counters

  /** Dropped packets and bytes of `c` since its entry was created. */
  ghost function Drops(steps: seq<Step>, c: u64): (nat, nat) {
    if steps == [] then (0, 0)
    else
      var front, s := steps[..|steps| - 1], steps[|steps| - 1];
      var (pkts, bytes) := Drops(front, c);
      if Removes(s, c) then (0, 0)
      else if s.Send? && s.cookie == c && !Passes(Run(map[], front), c, s.len, s.now) then (pkts + 1, bytes + s.len)
      else (pkts, bytes)
  }

  /** The counters of an entry against the number of drops and dropped bytes. */
  predicate Counts(m: Entries, c: u64, drops: (nat, nat)) {
    && (c !in m ==> drops == (0, 0))
    && (c in m ==> m[c].droppedPkts == Wrap(drops.0) && m[c].droppedBytes == Wrap(drops.1))
  }

  lemma SendCounts(m: Entries, s: Step, drops: (nat, nat))
    requires s.Send? && s.cookie in m && s.cookie != 0 && Counts(m, s.cookie, drops)
    ensures Counts(Next(m, s), s.cookie,
                   if Passes(m, s.cookie, s.len, s.now) then drops else (drops.0 + 1, drops.1 + s.len))
  {
  }

  lemma {:induction false} NeverCookieZero(steps: seq<Step>)
    ensures 0 !in Run(map[], steps)
  {
    if steps == [] {
    } else {
      NeverCookieZero(steps[..|steps| - 1]);
    }
  }

  /** The counters are exactly the drops since the entry was created, modulo 2^64; reprogramming
      does not reset them, removal does. */
  lemma {:induction false} CountersExact(steps: seq<Step>, c: u64)
    ensures Counts(Run(map[], steps), c, Drops(steps, c))
  {
    if steps == [] {
    } else {
      var front, s := steps[..|steps| - 1], steps[|steps| - 1];
      CountersExact(front, c);
      NeverCookieZero(front);
      var m := Run(map[], front);
      if s.cookie != c {
        NextIsLocal(m, m, s, c);
      } else if s.Send? && c in m {
        SendCounts(m, s, Drops(front, c));
      }
    }
  }

  // ----- re-programming

  lemma {:induction false} RunSplit(m: Entries, xs: seq<Step>, ys: seq<Step>)
    ensures Run(m, xs + ys) == Run(Run(m, xs), ys)
  {
    if ys == [] {
      assert xs + ys == xs;
    } else {
      var front := ys[..|ys| - 1];
      assert (xs + ys)[..|xs + ys| - 1] == xs + front;
      RunSplit(m, xs, front);
    }
  }

  /** Re-emitting the verdict in force, at any point of an entry's life, changes nothing that
      follows: the bucket is not refilled and no counter is lost. */
  lemma ReprogramIsInvisible(m: Entries, xs: seq<Step>, again: Step, ys: seq<Step>)
    requires again.Program? && again.cookie in Run(m, xs)
    requires var e := Run(m, xs)[again.cookie];
      e.action == again.action && e.rate == again.rate && e.burst == again.burst
    ensures Run(m, xs + [again] + ys) == Run(m, xs + ys)
  {
    RunSplit(m, xs + [again], ys);
    RunSplit(m, xs, ys);
    RunSnoc(m, xs, again);
    var e := Run(m, xs)[again.cookie];
    assert e.(action := again.action, rate := again.rate, burst := again.burst) == e;
    assert Run(m, xs)[again.cookie := e] == Run(m, xs);
  }

  // ----- the throttle, in the middle of everything else

  /** The packets of `c` among the steps. */
  function SendsOf(steps: seq<Step>, c: u64): seq<Packet> {
    if steps == [] then []
    else
      var front, s := SendsOf(steps[..|steps| - 1], c), steps[|steps| - 1];
      if s.Send? && s.cookie == c then front + [Packet(s.len, s.now)] else front
  }

  /** Bytes of `c` that pass. */
  function PassedBytes(m: Entries, steps: seq<Step>, c: u64): nat {
    if steps == [] then 0
    else
      var front, s := steps[..|steps| - 1], steps[|steps| - 1];
      PassedBytes(m, front, c) +
      if s.Send? && s.cookie == c && Passes(Run(m, front), c, s.len, s.now) then s.len else 0
  }

  /** The steps leave `c` alone except for its packets and re-emissions of the verdict in `e`. */
  ghost predicate Undisturbed(steps: seq<Step>, c: u64, e: Entry) {
    forall i :: 0 <= i < |steps| && steps[i].cookie == c ==>
      || steps[i].Send?
      || steps[i] == Program(c, e.action, e.rate, e.burst)
  }

  lemma EgressKeepsVerdict(e: Entry, len: nat, now: u64)
    ensures var f := Egress(e, len, now).0; f.action == e.action && f.rate == e.rate && f.burst == e.burst
  {
  }

  /** Among any steps on other cookies and any re-emissions, an entry goes exactly through its own packets. */
  lemma {:induction false} MapFollowsFlow(m: Entries, steps: seq<Step>, c: u64)
    requires c != 0 && c in m && Undisturbed(steps, c, m[c])
    ensures var (f, passed) := Flow(m[c], SendsOf(steps, c));
      && c in Run(m, steps) && Run(m, steps)[c] == f && PassedBytes(m, steps, c) == passed
      && f.action == m[c].action && f.rate == m[c].rate && f.burst == m[c].burst
  {
    if steps == [] {
    } else {
      var front, s := steps[..|steps| - 1], steps[|steps| - 1];
      assert Undisturbed(front, c, m[c]) by {
        forall i | 0 <= i < |front| && front[i].cookie == c
          ensures front[i].Send? || front[i] == Program(c, m[c].action, m[c].rate, m[c].burst)
        {
          assert steps[i] == front[i];
        }
      }
      MapFollowsFlow(m, front, c);
      var n := Run(m, front);
      if s.Send? && s.cookie == c {
        EgressKeepsVerdict(n[c], s.len, s.now);
      } else {
        assert SendsOf(steps, c) == SendsOf(front, c);
        NextIsLocal(n, n, s, c);
        if s.cookie == c {
          assert s == Program(c, m[c].action, m[c].rate, m[c].burst);
        }
      }
    }
  }

  /** A rate-limited cookie whose bucket is within its burst never gets more than its throttle through
      in a window, whatever happens to other cookies and however often its verdict is re-emitted. */
  lemma ThrottleHolds(m: Entries, steps: seq<Step>, c: u64)
    requires c != 0 && c in m && Limits(m[c]) && Undisturbed(steps, c, m[c])
    requires var ps := SendsOf(steps, c);
      && ps != [] && Ascending(ps) && ps[0].now > 0 && m[c].lastNs <= ps[0].now
      && WithinBurst(m[c], ps[0].now)
    ensures var ps := SendsOf(steps, c);
      PassedBytes(m, steps, c) <= m[c].burst + Credit(CeilMs(ps[|ps| - 1].now - ps[0].now), m[c].rate)
  {
    var ps := SendsOf(steps, c);
    assert PassedBytes(m, steps, c) == Flow(m[c], ps).1 by { MapFollowsFlow(m, steps, c); }
    assert Throttled(m[c], ps) by { WindowBound(m[c], ps); }
  }

  /** Re-programming with a smaller burst keeps the tokens: before a millisecond has elapsed, 500 bytes
      pass a burst of 10. */
  lemma LoweredBurstOverdraws()
    ensures var m := Run(map[], [Program(7, RATE_LIMIT, 1000, 1000), Send(7, 1, 5), Program(7, RATE_LIMIT, 1000, 10)]);
      7 in m && !WithinBurst(m[7], 6) && Passes(m, 7, 500, 6)
  {
    var a, b, c := Program(7, RATE_LIMIT, 1000, 1000), Send(7, 1, 5), Program(7, RATE_LIMIT, 1000, 10);
    assert [a, b, c] == ([] + [a] + [b]) + [c];
    RunSnoc(map[], [], a);
    RunSnoc(map[], [] + [a], b);
    RunSnoc(map[], [] + [a] + [b], c);
  }
}
