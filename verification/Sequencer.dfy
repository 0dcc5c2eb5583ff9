/** `verdictSequencer.admit` (cmd/envoy-adapter/main.go): last writer wins by ordinal, with
    reaping of long-idle marks. */
module Sequencer {
  import opened TokenBucket

  const STALE: int := 1_800_000_000_000  // 30 minutes in nanoseconds
  const REAP_THRESHOLD: nat := 4096

  /** An event timestamp in nanoseconds, an int64. */
  type Ordinal = o: int | -0x8000_0000_0000_0000 <= o < 0x8000_0000_0000_0000 witness 0

  type Marks = map<u64, Ordinal>

  /** 30 minutes before an ordinal, in 64-bit arithmetic. */
  function Cutoff(o: Ordinal): Ordinal {
    if o - STALE < -0x8000_0000_0000_0000 then o - STALE + U64 else o - STALE
  }

  /** A call with ordinal `o` finds this mark too old to keep. */
  predicate Outdates(o: Ordinal, mark: Ordinal) {
    mark < Cutoff(o)
  }

  /** That is: the mark is more than 30 minutes back, except for ordinals at the very bottom of the
      range, whose cutoff wraps round to the top. */
  lemma OutdatesIff(o: Ordinal, mark: Ordinal)
    ensures o >= -0x8000_0000_0000_0000 + 1_800_000_000_000 ==> (Outdates(o, mark) <==> o > mark + 1_800_000_000_000)
    ensures o < -0x8000_0000_0000_0000 + 1_800_000_000_000 && mark <= o ==> Outdates(o, mark)
  {
  }

  /** The marks left after the sweep of a call with this ordinal. */
  function Reaped(high: Marks, ordinal: Ordinal): Marks {
    if |high| > REAP_THRESHOLD then map c | c in high && !Outdates(ordinal, high[c]) :: high[c]
    else high
  }

  predicate Admits(high: Marks, cookie: u64, ordinal: Ordinal) {
    cookie == 0 || (var r := Reaped(high, ordinal); cookie !in r || r[cookie] < ordinal)
  }

  function Admitted(high: Marks, cookie: u64, ordinal: Ordinal): Marks {
    if cookie == 0 then high
    else
      var r := Reaped(high, ordinal);
      if cookie in r && ordinal <= r[cookie] then r else r[cookie := ordinal]
  }

  class VerdictSequencer {
    var high: Marks

    constructor ()
      ensures high == map[]
    {
      high := map[];
    }

    method Admit(cookie: u64, ordinal: Ordinal) returns (ok: bool)
      modifies this
      ensures ok == Admits(old(high), cookie, ordinal)
      ensures high == Admitted(old(high), cookie, ordinal)
    {
      if cookie == 0 {
        return true;
      }
      if |high| > REAP_THRESHOLD {
        var cutoff := Cutoff(ordinal);
        var rest := high.Keys;
        while rest != {}
          invariant rest <= high.Keys <= old(high).Keys
          invariant forall c :: c in high ==> high[c] == old(high)[c] && (c in rest || high[c] >= cutoff)
          invariant forall c :: c in old(high) && old(high)[c] >= cutoff ==> c in high
          decreases rest
        {
          var c :| c in rest;
          if high[c] < cutoff {
            high := high - {c};
          }
          rest := rest - {c};
        }
        assert high == Reaped(old(high), ordinal);
      }
      if cookie in high && ordinal <= high[cookie] {
        return false;
      }
      high := high[cookie := ordinal];
      return true;
    }
  }

  // ----- runs of calls

  datatype Call = Call(cookie: u64, ordinal: Ordinal)

  function Marked(high: Marks, calls: seq<Call>): Marks {
    if calls == [] then high
    else
      var last := calls[|calls| - 1];
      Admitted(Marked(high, calls[..|calls| - 1]), last.cookie, last.ordinal)
  }

  /** Call `i` of a run that starts with no marks is admitted. */
  predicate AdmittedAt(calls: seq<Call>, i: nat)
    requires i < |calls|
  {
    Admits(Marked(map[], calls[..i]), calls[i].cookie, calls[i].ordinal)
  }

  lemma MarkedSnoc(calls: seq<Call>, i: nat)
    requires i < |calls|
    ensures Marked(map[], calls[..i + 1]) == Admitted(Marked(map[], calls[..i]), calls[i].cookie, calls[i].ordinal)
  {
    assert calls[..i + 1][..i] == calls[..i];
  }

  /** Call `i` is the last one before call `j` that was admitted for its cookie. */
  ghost predicate LastAdmitted(calls: seq<Call>, i: nat, j: nat) {
    && i < j <= |calls| && calls[i].cookie != 0 && AdmittedAt(calls, i)
    && forall k :: i < k < j && calls[k].cookie == calls[i].cookie ==> !AdmittedAt(calls, k)
  }

  /** Call `k` sweeps, and finds the mark too old. */
  ghost predicate Reaps(calls: seq<Call>, k: nat, mark: Ordinal) {
    && k < |calls| && calls[k].cookie != 0
    && |Marked(map[], calls[..k])| > 4096 && Outdates(calls[k].ordinal, mark)
  }

  lemma {:induction false} MarkHeld(calls: seq<Call>, i: nat, j: nat)
    requires i < j <= |calls| && calls[i].cookie != 0 && AdmittedAt(calls, i)
    requires forall k :: i < k < j ==> !Reaps(calls, k, calls[i].ordinal)
    ensures var h := Marked(map[], calls[..j]);
      calls[i].cookie in h && h[calls[i].cookie] >= calls[i].ordinal
  {
    MarkedSnoc(calls, j - 1);
    if j > i + 1 {
      MarkHeld(calls, i, j - 1);
      assert !Reaps(calls, j - 1, calls[i].ordinal);
    }
  }

  /** After any admitted call, an ordinal no newer is admitted for the same cookie only if a call in
      between swept and carried an ordinal more than 30 minutes above it; the re-admitted call itself
      can do so only where its cutoff wraps. */
  lemma ReadmittedOnlyAfterReap(calls: seq<Call>, i: nat, j: nat)
    requires i < j < |calls| && calls[i].cookie == calls[j].cookie != 0
    requires AdmittedAt(calls, i) && AdmittedAt(calls, j) && calls[j].ordinal <= calls[i].ordinal
    ensures exists k :: && i < k <= j && Reaps(calls, k, calls[i].ordinal)
                        && (k == j ==> calls[j].ordinal < -0x8000_0000_0000_0000 + STALE)
  {
    if forall k :: i < k < j ==> !Reaps(calls, k, calls[i].ordinal) {
      MarkHeld(calls, i, j);
      assert Reaps(calls, j, calls[i].ordinal);
    }
  }

  /** Until the cookie is admitted again its mark stays what it was, until a call reaps it. */
  lemma {:induction false} MarkSince(calls: seq<Call>, i: nat, j: nat)
    requires LastAdmitted(calls, i, j)
    ensures var h, c := Marked(map[], calls[..j]), calls[i].cookie;
      && (c in h ==> h[c] == calls[i].ordinal)
      && (c in h <==> forall k :: i < k < j ==> !Reaps(calls, k, calls[i].ordinal))
  {
    if j == i + 1 {
      MarkSet(calls, i);
    } else {
      MarkSince(calls, i, j - 1);
      MarkAfter(calls, i, j - 1);
    }
  }

  lemma MarkSet(calls: seq<Call>, i: nat)
    requires i < |calls| && calls[i].cookie != 0 && AdmittedAt(calls, i)
    ensures var h := Marked(map[], calls[..i + 1]); calls[i].cookie in h && h[calls[i].cookie] == calls[i].ordinal
  {
    MarkedSnoc(calls, i);
  }

  /** One more call on the way. */
  lemma MarkAfter(calls: seq<Call>, i: nat, k: nat)
    requires i < k < |calls| && calls[i].cookie != 0
    requires calls[k].cookie == calls[i].cookie ==> !AdmittedAt(calls, k)
    requires var h := Marked(map[], calls[..k]); calls[i].cookie in h ==> h[calls[i].cookie] == calls[i].ordinal
    ensures var g, h, c := Marked(map[], calls[..k]), Marked(map[], calls[..k + 1]), calls[i].cookie;
      && (c in h ==> h[c] == calls[i].ordinal)
      && (c in h <==> c in g && !Reaps(calls, k, calls[i].ordinal))
  {
    MarkedSnoc(calls, k);
  }

  /** After its last admitted call, an ordinal no newer is admitted for the same cookie exactly when
      a call since then, at a moment when more than 4096 marks were held, found the mark too old. */
  lemma ReadmittedIff(calls: seq<Call>, i: nat, j: nat)
    requires LastAdmitted(calls, i, j) && j < |calls|
    requires calls[j].cookie == calls[i].cookie && calls[j].ordinal <= calls[i].ordinal
    ensures AdmittedAt(calls, j) <==> exists k :: i < k <= j && Reaps(calls, k, calls[i].ordinal)
  {
    MarkSince(calls, i, j);
    var h, c := Marked(map[], calls[..j]), calls[i].cookie;
    assert AdmittedAt(calls, j) <==> c !in h || Reaps(calls, j, calls[i].ordinal);
    if c !in h {
      var k :| i < k < j && Reaps(calls, k, calls[i].ordinal);
    }
  }

  // ----- such a run exists

  /** One call for each of the cookies 1 to `n`, all with ordinal 0. */
  function Crowd(n: nat): (calls: seq<Call>)
    requires n < U64
    ensures |calls| == n
  {
    if n == 0 then [] else Crowd(n - 1) + [Call(n, 0)]
  }

  /** Exactly the cookies 1 to `n` are marked, all with ordinal 0. */
  ghost predicate Crowded(h: Marks, n: nat) {
    |h| == n && (forall c :: c in h <==> 1 <= c <= n) && forall c :: c in h ==> h[c] == 0
  }

  lemma OneMoreMark(h: Marks, n: nat)
    requires Crowded(h, n) && n <= REAP_THRESHOLD
    ensures Crowded(Admitted(h, n + 1, 0), n + 1) && Admits(h, n + 1, 0)
  {
    assert Reaped(h, 0) == h;
    assert h[n + 1 := 0].Keys == h.Keys + {n + 1};
  }

  lemma MarkedOnce(calls: seq<Call>, c: Call)
    ensures Marked(map[], calls + [c]) == Admitted(Marked(map[], calls), c.cookie, c.ordinal)
  {
    assert (calls + [c])[..|calls|] == calls;
  }

  lemma {:induction false} CrowdMarks(n: nat)
    requires n <= REAP_THRESHOLD + 1
    ensures Crowded(Marked(map[], Crowd(n)), n)
  {
    if n > 0 {
      CrowdMarks(n - 1);
      MarkedOnce(Crowd(n - 1), Call(n, 0));
      OneMoreMark(Marked(map[], Crowd(n - 1)), n - 1);
    }
  }

  lemma CrowdIsAdmitted(rest: seq<Call>)
    ensures var n := REAP_THRESHOLD; var calls := Crowd(n) + [Call(n + 1, 0)] + rest;
      AdmittedAt(calls, n) && Crowded(Marked(map[], calls[..n + 1]), n + 1)
  {
    var n := REAP_THRESHOLD;
    var calls := Crowd(n) + [Call(n + 1, 0)] + rest;
    assert calls[..n] == Crowd(n) && calls[n] == Call(n + 1, 0);
    CrowdMarks(n);
    OneMoreMark(Marked(map[], Crowd(n)), n);
    MarkedSnoc(calls, n);
  }

  /** After 4097 flows, one verdict half an hour later lets an old ordinal in again. */
  lemma ReadmissionHappens() returns (calls: seq<Call>, i: nat, j: nat)
    ensures LastAdmitted(calls, i, j) && j < |calls| && AdmittedAt(calls, j)
    ensures calls[j].cookie == calls[i].cookie && calls[j].ordinal <= calls[i].ordinal
  {
    var n := REAP_THRESHOLD;
    var rest := [Call(n + 2, STALE + 1), Call(n + 1, 0)];
    calls, i, j := Crowd(n) + [Call(n + 1, 0)] + rest, n, n + 2;
    CrowdIsAdmitted(rest);
    assert Reaps(calls, n + 1, 0);
    ReadmittedIff(calls, i, j);
  }
}
