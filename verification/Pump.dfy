/** `pumpStream` (adapters/envoy/pump.go): hold the client for every chunk's delay while the body
    stays bounded. */
module Pump {
  import opened LogBuffer

  const DEFAULT_BODY_CAP: nat := 65_536

  /** What the attrition stream answers: another chunk, or that it is over (done or an error). */
  datatype Answer = Chunk(data: seq<byte>, delay: nat) | Over

  /** The stream's `k`-th answer; past its script it is over. */
  function AnswerAt(script: seq<Answer>, k: nat): Answer {
    if k < |script| then script[k] else Over
  }

  /** How many chunks are accepted: up to the end of the stream or the first hold that is cancelled. */
  function Accepted(script: seq<Answer>, cancelled: nat -> bool, k: nat): (n: nat)
    requires k <= |script|
    ensures k <= n <= |script| && forall i :: k <= i < n ==> script[i].Chunk?
    decreases |script| - k
  {
    if AnswerAt(script, k).Over? then k
    else if cancelled(k) then k + 1
    else Accepted(script, cancelled, k + 1)
  }

  /** Exactly: every accepted answer is a chunk, every hold but the last went through, and either the
      stream is over or the last hold was cancelled. */
  ghost predicate StopsAt(script: seq<Answer>, cancelled: nat -> bool, n: nat) {
    && n <= |script| && (forall i :: 0 <= i < n ==> script[i].Chunk?) && (forall i :: 0 <= i < n - 1 ==> !cancelled(i))
    && (n == |script| || script[n].Over? || (n > 0 && cancelled(n - 1)))
  }

  lemma {:induction false} AcceptedStops(script: seq<Answer>, cancelled: nat -> bool, k: nat)
    requires k <= |script| && (forall i :: 0 <= i < k ==> script[i].Chunk? && !cancelled(i))
    ensures StopsAt(script, cancelled, Accepted(script, cancelled, k))
    decreases |script| - k
  {
    if AnswerAt(script, k).Chunk? && !cancelled(k) {
      AcceptedStops(script, cancelled, k + 1);
    }
  }

  /** That determines how many chunks are accepted. */
  lemma AcceptedIff(script: seq<Answer>, cancelled: nat -> bool, n: nat)
    ensures n == Accepted(script, cancelled, 0) <==> StopsAt(script, cancelled, n)
  {
    AcceptedStops(script, cancelled, 0);
  }

  ghost predicate AllChunks(script: seq<Answer>, n: nat) {
    n <= |script| && forall i :: 0 <= i < n ==> script[i].Chunk?
  }

  /** The data of the first `n` chunks. */
  ghost function Datas(script: seq<Answer>, n: nat): seq<seq<byte>>
    requires AllChunks(script, n)
  {
    if n == 0 then [] else Datas(script, n - 1) + [script[n - 1].data]
  }

  /** The delays of the first `n` chunks. */
  ghost function Delays(script: seq<Answer>, n: nat): seq<nat>
    requires AllChunks(script, n)
  {
    if n == 0 then [] else Delays(script, n - 1) + [script[n - 1].delay]
  }

  /** Each chunk's own data and delay, in order. */
  lemma {:induction false} InOrder(script: seq<Answer>, n: nat)
    requires AllChunks(script, n)
    ensures |Datas(script, n)| == n && forall i :: 0 <= i < n ==> Datas(script, n)[i] == script[i].data
    ensures |Delays(script, n)| == n && forall i :: 0 <= i < n ==> Delays(script, n)[i] == script[i].delay
  {
    if n > 0 {
      InOrder(script, n - 1);
    }
  }

  /** Append up to the cap; past it the body is frozen. */
  method AppendBounded(body: seq<byte>, data: seq<byte>, cap: nat, ghost chunks: seq<seq<byte>>) returns (r: seq<byte>)
    requires body == Prefix(Concat(chunks), cap)
    ensures r == Prefix(Concat(chunks + [data]), cap)
  {
    r := body;
    if |body| < cap {
      var room := cap - |body|;
      if |data| <= room {
        r := r + data;
      } else {
        r := r + data[..room];
      }
    }
  }

  /** The body is exactly the first `cap` bytes of the accepted chunks; every accepted chunk is held
      for its own delay, in order; and the stream is pulled exactly once more than that, whether it
      ended or the hold was cancelled, with nothing of the last pull reaching the body. */
  method PumpStream(script: seq<Answer>, bodyCap: int, cancelled: nat -> bool)
    returns (body: seq<byte>, holds: seq<nat>, pulls: nat)
    ensures var n := Accepted(script, cancelled, 0);
      && body == Prefix(Concat(Datas(script, n)), if bodyCap <= 0 then 65_536 else bodyCap)
      && holds == Delays(script, n)
      && pulls == n + 1
  {
    var cap := bodyCap;
    if cap <= 0 {
      cap := DEFAULT_BODY_CAP;
    }
    body, holds, pulls := [], [], 0;
    while true
      invariant AllChunks(script, pulls) && Accepted(script, cancelled, pulls) == Accepted(script, cancelled, 0)
      invariant body == Prefix(Concat(Datas(script, pulls)), cap) && holds == Delays(script, pulls)
      decreases |script| - pulls
    {
      var chunk := AnswerAt(script, pulls);
      if chunk.Over? {
        pulls := pulls + 1;
        break;
      }
      body := AppendBounded(body, chunk.data, cap, Datas(script, pulls));
      holds := holds + [chunk.delay];
      pulls := pulls + 1;
      if cancelled(pulls - 1) {
        pulls := pulls + 1;
        break;
      }
    }
  }
}
