/** Cookie attribution: the flow map of `canary_sockops` (bpf/sockops/sockops.bpf.c), the staleness
    guard (adapters/envoy/identity/staleguard.go) and the bounded retry of `resolveCookie`
    (adapters/envoy/adapter.go). */
module Attribution {
  import opened TokenBucket
  import opened Prelude

  const ATTEMPTS: nat := 4

  type Tuple = seq<int>  // family, addresses and ports; only equality matters

  /** What happens to the flow map. */
  datatype Event =
    | Establish(tuple: Tuple, cookie: u64)  // passive connection established: insert or replace
    | Closed(tuple: Tuple)  // the socket reached TCP_CLOSE: delete
    | Evicted(tuple: Tuple)  // the LRU map made room

  type Flows = map<Tuple, u64>

  function Next(m: Flows, e: Event): Flows {
    match e
    case Establish(t, c) => m[t := c]
    case Closed(t) => m - {t}
    case Evicted(t) => m - {t}
  }

  /** The map after the first `n` events. */
  function At(es: seq<Event>, n: nat): Flows
    requires n <= |es|
  {
    if n == 0 then map[] else Next(At(es, n - 1), es[n - 1])
  }

  /** Socket cookies are never reused. */
  ghost predicate NeverReused(es: seq<Event>) {
    forall i, j :: 0 <= i < j < |es| && es[i].Establish? && es[j].Establish? ==> es[i].cookie != es[j].cookie
  }

  /** Event `e` established `t` with cookie `c` and nothing has touched `t` up to time `n`. */
  ghost predicate Since(es: seq<Event>, e: int, n: nat, t: Tuple, c: u64) {
    && 0 <= e < n <= |es| && es[e] == Establish(t, c)
    && forall k :: e < k < n ==> es[k].tuple != t
  }

  lemma {:induction false} EntryHasOrigin(es: seq<Event>, n: nat, t: Tuple) returns (e: nat)
    requires n <= |es| && t in At(es, n)
    ensures Since(es, e, n, t, At(es, n)[t])
  {
    var last := es[n - 1];
    if last.tuple == t {
      e := n - 1;
    } else {
      e := EntryHasOrigin(es, n - 1, t);
    }
  }

  lemma {:induction false} OriginHolds(es: seq<Event>, e: nat, n: nat, k: nat, t: Tuple, c: u64)
    requires Since(es, e, n, t, c) && e < k <= n
    ensures t in At(es, k) && At(es, k)[t] == c
  {
    if k > e + 1 {
      OriginHolds(es, e, n, k - 1, t, c);
      assert es[k - 1].tuple != t;
    }
  }

  /** The tuple carries the cookie in every state from `i` to `j`. */
  ghost predicate Stable(es: seq<Event>, i: nat, j: nat, t: Tuple, c: u64) {
    j <= |es| && forall k: nat :: i <= k <= j ==> t in At(es, k) && At(es, k)[t] == c
  }

  /** Reading the same cookie twice proves that the entry was there, unreplaced, all the time in
      between: a cookie cannot come back once its entry is gone. */
  lemma SameCookieIsStable(es: seq<Event>, i: nat, j: nat, t: Tuple)
    requires NeverReused(es) && i <= j <= |es| && t in At(es, i) && t in At(es, j) && At(es, i)[t] == At(es, j)[t]
    ensures Stable(es, i, j, t, At(es, i)[t])
  {
    var c := At(es, i)[t];
    var a := EntryHasOrigin(es, i, t);
    var b := EntryHasOrigin(es, j, t);
    assert a == b;
    forall k: nat | i <= k <= j ensures t in At(es, k) && At(es, k)[t] == c {
      OriginHolds(es, b, j, k, t, c);
    }
  }

  function Lookup(m: Flows, t: Tuple): Option<u64> {
    if t in m then Some(m[t]) else None
  }

  /** `StaleGuardResolver.Resolve` with its two reads at times `i` and `j`: it answers exactly when
      the tuple is attributed to one cookie throughout. */
  method Resolve(es: seq<Event>, t: Tuple, i: nat, j: nat) returns (r: Option<u64>)
    requires NeverReused(es) && i <= j <= |es|
    ensures r.Some? ==> Stable(es, i, j, t, r.value)
    ensures r.None? ==> forall c :: !Stable(es, i, j, t, c)
  {
    var first := Lookup(At(es, i), t);
    if first.None? {
      assert t !in At(es, i);
      return None;
    }
    var second := Lookup(At(es, j), t);
    if second.None? {
      assert t !in At(es, j);
      return None;
    }
    if second.value != first.value {
      assert At(es, i)[t] != At(es, j)[t];
      return None;
    }
    SameCookieIsStable(es, i, j, t);
    return first;
  }

  /** When the guarded lookups of one `resolveCookie` read the map. */
  ghost predicate Schedule(pairs: seq<(nat, nat)>, horizon: nat) {
    |pairs| == ATTEMPTS && forall a :: 0 <= a < ATTEMPTS ==> pairs[a].0 <= pairs[a].1 <= horizon
  }

  /** `resolveCookie`: at most four guarded lookups; a cookie it returns held its tuple throughout
      the confirming pair of reads, and a miss means that no lookup found a stable entry. */
  method ResolveCookie(es: seq<Event>, t: Tuple, pairs: seq<(nat, nat)>) returns (r: Option<u64>, lookups: nat)
    requires NeverReused(es) && Schedule(pairs, |es|)
    ensures 1 <= lookups <= 4
    ensures r.Some? ==> Stable(es, pairs[lookups - 1].0, pairs[lookups - 1].1, t, r.value)
    ensures r.None? ==> lookups == 4
    ensures forall a, c :: 0 <= a < (if r.Some? then lookups - 1 else lookups) ==>
      !Stable(es, pairs[a].0, pairs[a].1, t, c)
  {
    lookups := 0;
    while lookups < ATTEMPTS
      invariant 0 <= lookups <= ATTEMPTS
      invariant forall a, c :: 0 <= a < lookups ==> !Stable(es, pairs[a].0, pairs[a].1, t, c)
    {
      var res := Resolve(es, t, pairs[lookups].0, pairs[lookups].1);
      lookups := lookups + 1;
      if res.Some? {
        return res, lookups;
      }
    }
    return None, lookups;
  }
}
