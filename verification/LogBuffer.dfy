/** `limitedBuffer` (internal/testgate/process_unix.go): the bounded log of a command and the
    credential scan over it, however the output is split into writes. */
module LogBuffer {
  import opened Prelude

  type byte = x: int | 0 <= x < 256

  const MAX_LOG: nat := 4_194_304  // 4 MiB
  const OVERLAP: nat := 1024

  function Prefix(s: seq<byte>, n: nat): seq<byte> {
    if |s| <= n then s else s[..n]
  }

  function Suffix(s: seq<byte>, n: nat): seq<byte> {
    if |s| <= n then s else s[|s| - n..]
  }

  function Concat(chunks: seq<seq<byte>>): seq<byte> {
    if chunks == [] then [] else Concat(chunks[..|chunks| - 1]) + chunks[|chunks| - 1]
  }

  /** What the credential pattern is matched against when chunk `i` is written. */
  function ScanAt(chunks: seq<seq<byte>>, i: nat): seq<byte>
    requires i < |chunks|
  {
    Suffix(Concat(chunks[..i]), OVERLAP) + chunks[i]
  }

  ghost predicate Caught(matches: seq<byte> -> bool, chunks: seq<seq<byte>>) {
    exists i :: 0 <= i < |chunks| && matches(ScanAt(chunks, i))
  }

  class LimitedBuffer {
    const matches: seq<byte> -> bool
    var buf: seq<byte>
    var truncated: bool
    var secretFound: bool
    var scanTail: seq<byte>
    ghost var chunks: seq<seq<byte>>  // the writes so far

    /** Apart from the scan, the state depends only on the stream, not on how it was chunked. */
    ghost predicate Valid()
      reads this
    {
      && buf == Prefix(Concat(chunks), MAX_LOG)
      && (truncated <==> |Concat(chunks)| > MAX_LOG)
      && scanTail == Suffix(Concat(chunks), OVERLAP)
      && (secretFound <==> Caught(matches, chunks))
    }

    constructor (matches: seq<byte> -> bool)
      ensures Valid() && chunks == [] && this.matches == matches
    {
      this.matches := matches;
      buf, truncated, secretFound, scanTail, chunks := [], false, false, [], [];
    }

    method Write(p: seq<byte>) returns (n: nat)
      requires Valid()
      modifies this
      ensures Valid() && chunks == old(chunks) + [p] && n == |p|
    {
      n := |p|;
      CaughtSnoc(matches, chunks, p);
      var scan := scanTail + p;
      if matches(scan) {
        secretFound := true;
      }
      scanTail := NextTail(scan, Concat(chunks), p);
      var kept, cut := Keep(buf, p, Concat(chunks));
      buf := kept;
      if cut {
        truncated := true;
      }
      chunks := chunks + [p];
    }

    static method NextTail(scan: seq<byte>, ghost stream: seq<byte>, ghost p: seq<byte>) returns (tail: seq<byte>)
      requires scan == Suffix(stream, OVERLAP) + p
      ensures tail == Suffix(stream + p, OVERLAP)
    {
      if |scan| > OVERLAP {
        tail := scan[|scan| - OVERLAP..];
      } else {
        tail := scan;
      }
    }

    static method Keep(buf: seq<byte>, p: seq<byte>, ghost stream: seq<byte>) returns (kept: seq<byte>, cut: bool)
      requires buf == Prefix(stream, MAX_LOG)
      ensures kept == Prefix(stream + p, MAX_LOG)
      ensures cut || |stream| > MAX_LOG <==> |stream + p| > MAX_LOG
    {
      kept := buf;
      var remaining := MAX_LOG - |buf|;
      if remaining > 0 {
        if |p| > remaining {
          kept := kept + p[..remaining];
        } else {
          kept := kept + p;
        }
      }
      cut := |p| > remaining;
    }

    /** The log is the stream's prefix, marked when something was cut off. */
    method Bytes(marker: seq<byte>) returns (data: seq<byte>)
      requires Valid()
      ensures data == if |Concat(chunks)| > 4_194_304 then Concat(chunks)[..4_194_304] + marker else Concat(chunks)
    {
      data := buf;
      if truncated {
        data := data + marker;
      }
    }
  }

  lemma CaughtSnoc(matches: seq<byte> -> bool, chunks: seq<seq<byte>>, p: seq<byte>)
    ensures Caught(matches, chunks + [p]) <==> Caught(matches, chunks) || matches(Suffix(Concat(chunks), OVERLAP) + p)
  {
    var all := chunks + [p];
    assert all[..|chunks|] == chunks;
    assert ScanAt(all, |chunks|) == Suffix(Concat(chunks), OVERLAP) + p;
    forall i | 0 <= i < |chunks| ensures ScanAt(all, i) == ScanAt(chunks, i) {
      assert all[..i] == chunks[..i];
    }
    if Caught(matches, chunks) {
      var i :| 0 <= i < |chunks| && matches(ScanAt(chunks, i));
      assert matches(ScanAt(all, i));
    }
  }

  // ----- the scan finds the same credentials however the stream is chunked

  /** Some window of `s` is in the language of the pattern. */
  ghost predicate Contains(lang: seq<byte> -> bool, s: seq<byte>) {
    exists a, b :: 0 <= a <= b <= |s| && lang(s[a..b])
  }

  /** An unanchored search for `lang`. */
  ghost predicate Searches(matches: seq<byte> -> bool, lang: seq<byte> -> bool) {
    forall s :: matches(s) <==> Contains(lang, s)
  }

  lemma {:induction false} HoldsByte(chunks: seq<seq<byte>>, pos: nat) returns (i: nat)
    requires pos < |Concat(chunks)|
    ensures i < |chunks| && |Concat(chunks[..i])| <= pos < |Concat(chunks[..i])| + |chunks[i]|
  {
    var front := chunks[..|chunks| - 1];
    if pos < |Concat(front)| {
      i := HoldsByte(front, pos);
      assert front[..i] == chunks[..i];
    } else {
      i := |chunks| - 1;
    }
  }

  lemma {:induction false} ConcatPrefix(chunks: seq<seq<byte>>, i: nat)
    requires i <= |chunks|
    ensures Concat(chunks[..i]) <= Concat(chunks)
  {
    if i == |chunks| {
      TakeAll(chunks);
    } else {
      var front := chunks[..|chunks| - 1];
      assert front[..i] == chunks[..i];
      ConcatPrefix(front, i);
    }
  }

  /** The scan of a write is a window of the stream that starts at most 1024 bytes before it. */
  lemma ScanIsWindow(chunks: seq<seq<byte>>, i: nat)
    requires i < |chunks|
    ensures var before := |Concat(chunks[..i])|;
      var lo := if before <= OVERLAP then 0 else before - OVERLAP;
      before + |chunks[i]| <= |Concat(chunks)| && ScanAt(chunks, i) == Concat(chunks)[lo..before + |chunks[i]|]
  {
    ConcatPrefix(chunks, i + 1);
    assert chunks[..i + 1][..i] == chunks[..i];
    assert Concat(chunks[..i + 1]) == Concat(chunks[..i]) + chunks[i];
    var before := Concat(chunks[..i]);
    var lo := if |before| <= OVERLAP then 0 else |before| - OVERLAP;
    assert Concat(chunks)[..|before| + |chunks[i]|] == before + chunks[i];
    assert Suffix(before, OVERLAP) + chunks[i] == (before + chunks[i])[lo..];
  }

  /** Every window of at most 1025 bytes lies wholly inside the scan of the write that holds its
      last byte. */
  lemma WindowInsideScan(chunks: seq<seq<byte>>, a: nat, b: nat) returns (i: nat, x: nat)
    requires a < b <= |Concat(chunks)| && b - a <= 1025
    ensures i < |chunks| && x + (b - a) <= |ScanAt(chunks, i)|
    ensures ScanAt(chunks, i)[x..x + (b - a)] == Concat(chunks)[a..b]
  {
    i := HoldsByte(chunks, b - 1);
    ScanIsWindow(chunks, i);
    var before := |Concat(chunks[..i])|;
    var lo := if before <= OVERLAP then 0 else before - OVERLAP;
    x := a - lo;
    SliceOfSlice(Concat(chunks), lo, before + |chunks[i]|, x, x + (b - a));
  }

  /** A credential of at most 1025 bytes is caught under every chunking. */
  lemma ShortIsCaught(matches: seq<byte> -> bool, lang: seq<byte> -> bool, chunks: seq<seq<byte>>, a: nat, b: nat)
    requires Searches(matches, lang) && a < b <= |Concat(chunks)| && b - a <= 1025 && lang(Concat(chunks)[a..b])
    ensures Caught(matches, chunks)
  {
    var i, x := WindowInsideScan(chunks, a, b);
    assert Contains(lang, ScanAt(chunks, i));
  }

  /** Nothing is caught that the stream does not contain. */
  lemma CaughtIsThere(matches: seq<byte> -> bool, lang: seq<byte> -> bool, chunks: seq<seq<byte>>)
    requires Searches(matches, lang) && Caught(matches, chunks)
    ensures Contains(lang, Concat(chunks))
  {
    var i :| 0 <= i < |chunks| && matches(ScanAt(chunks, i));
    ScanIsWindow(chunks, i);
    var s := ScanAt(chunks, i);
    var a, b :| 0 <= a <= b <= |s| && lang(s[a..b]);
    var before := |Concat(chunks[..i])|;
    var lo := if before <= OVERLAP then 0 else before - OVERLAP;
    SliceOfSlice(Concat(chunks), lo, before + |chunks[i]|, a, b);
  }

  lemma SliceOfSlice(s: seq<byte>, lo: nat, hi: nat, a: nat, b: nat)
    requires lo <= hi <= |s| && a <= b <= hi - lo
    ensures s[lo..hi][a..b] == s[lo + a..lo + b]
  {
    var l, r := s[lo..hi][a..b], s[lo + a..lo + b];
    assert |l| == |r|;
    forall i | 0 <= i < |l| ensures l[i] == r[i] {
      assert l[i] == s[lo..hi][a + i] == s[lo + a + i];
    }
  }

  /** Every word of the pattern has a non-empty matching part of at most 1025 bytes. */
  ghost predicate ShortWords(lang: seq<byte> -> bool) {
    forall w :: Word(lang, w) ==> exists a, b :: 0 <= a < b <= |w| && b - a <= 1025 && lang(w[a..b])
  }

  ghost predicate Word(lang: seq<byte> -> bool, w: seq<byte>) {
    lang(w)
  }

  /** For such a pattern the verdict on the output does not depend on the chunking at all. */
  lemma ChunkIndependent(matches: seq<byte> -> bool, lang: seq<byte> -> bool, chunks: seq<seq<byte>>)
    requires Searches(matches, lang) && ShortWords(lang)
    ensures Caught(matches, chunks) <==> Contains(lang, Concat(chunks))
  {
    if Caught(matches, chunks) {
      CaughtIsThere(matches, lang, chunks);
    }
    if Contains(lang, Concat(chunks)) {
      var a, b := ShortWindow(lang, Concat(chunks));
      ShortIsCaught(matches, lang, chunks, a, b);
    }
  }

  lemma ShortWindow(lang: seq<byte> -> bool, s: seq<byte>) returns (a: nat, b: nat)
    requires ShortWords(lang) && Contains(lang, s)
    ensures a < b <= |s| && b - a <= 1025 && lang(s[a..b])
  {
    var lo, hi := WindowOf(lang, s);
    var x, y := ShortPart(lang, s[lo..hi]);
    SliceOfSlice(s, lo, hi, x, y);
    a, b := lo + x, lo + y;
  }

  lemma ShortPart(lang: seq<byte> -> bool, w: seq<byte>) returns (x: nat, y: nat)
    requires ShortWords(lang) && lang(w)
    ensures x < y <= |w| && y - x <= 1025 && lang(w[x..y])
  {
    assert Word(lang, w);
    x, y :| 0 <= x < y <= |w| && y - x <= 1025 && lang(w[x..y]);
  }

  // ----- and for no other pattern

  /** The stream written one byte at a time. */
  function Bytewise(w: seq<byte>): (chunks: seq<seq<byte>>)
    ensures |chunks| == |w| && forall i :: 0 <= i < |w| ==> chunks[i] == [w[i]]
  {
    if w == [] then [] else Bytewise(w[..|w| - 1]) + [[w[|w| - 1]]]
  }

  lemma {:induction false} BytewiseConcat(w: seq<byte>)
    ensures Concat(Bytewise(w)) == w
  {
    if w == [] {
    } else {
      BytewiseConcat(w[..|w| - 1]);
    }
  }

  lemma OneByteScan(chunks: seq<seq<byte>>, i: nat) returns (lo: nat, hi: nat)
    requires i < |chunks| && |chunks[i]| == 1
    ensures lo <= hi <= |Concat(chunks)| && hi - lo <= 1025 && ScanAt(chunks, i) == Concat(chunks)[lo..hi]
  {
    ScanIsWindow(chunks, i);
    var before := |Concat(chunks[..i])|;
    lo, hi := if before <= OVERLAP then 0 else before - OVERLAP, before + 1;
  }

  /** Written one byte at a time, every scan is a short window of the stream. */
  lemma BytewiseScan(w: seq<byte>, i: nat) returns (lo: nat, hi: nat)
    requires i < |w|
    ensures lo <= hi <= |w| && hi - lo <= 1025 && ScanAt(Bytewise(w), i) == w[lo..hi]
  {
    BytewiseConcat(w);
    lo, hi := OneByteScan(Bytewise(w), i);
  }

  /** So a word is caught then only if it has a short matching part. */
  lemma BytewiseCaught(matches: seq<byte> -> bool, lang: seq<byte> -> bool, w: seq<byte>) returns (a: nat, b: nat)
    requires Searches(matches, lang) && !lang([]) && Caught(matches, Bytewise(w))
    ensures a < b <= |w| && b - a <= 1025 && lang(w[a..b])
  {
    var i :| 0 <= i < |w| && matches(ScanAt(Bytewise(w), i));
    var lo, hi := BytewiseScan(w, i);
    var x, y := WindowOf(lang, w[lo..hi]);
    SliceOfSlice(w, lo, hi, x, y);
    a, b := lo + x, lo + y;
  }

  lemma WindowOf(lang: seq<byte> -> bool, s: seq<byte>) returns (lo: nat, hi: nat)
    requires Contains(lang, s)
    ensures lo <= hi <= |s| && lang(s[lo..hi]) && (lo == hi ==> lang([]))
  {
    lo, hi :| 0 <= lo <= hi <= |s| && lang(s[lo..hi]);
    if lo == hi { assert s[lo..hi] == []; }
  }

  ghost predicate SameVerdict(matches: seq<byte> -> bool, lang: seq<byte> -> bool, chunks: seq<seq<byte>>) {
    Caught(matches, chunks) <==> Contains(lang, Concat(chunks))
  }

  /** For every pattern: the scan finds exactly what the stream contains, under every chunking, if and
      only if every match has a part of at most 1025 bytes that matches too. */
  lemma CaughtUnderEveryChunkingIff(matches: seq<byte> -> bool, lang: seq<byte> -> bool)
    requires Searches(matches, lang)
    ensures (forall chunks :: SameVerdict(matches, lang, chunks)) <==> ShortWords(lang)
  {
    if ShortWords(lang) {
      forall chunks ensures SameVerdict(matches, lang, chunks) {
        ChunkIndependent(matches, lang, chunks);
      }
    } else {
      var w :| Word(lang, w) && !exists a, b :: 0 <= a < b <= |w| && b - a <= 1025 && lang(w[a..b]);
      MissedWord(matches, lang, w);
    }
  }

  lemma MissedWord(matches: seq<byte> -> bool, lang: seq<byte> -> bool, w: seq<byte>)
    requires Searches(matches, lang) && lang(w)
    requires !exists a, b :: 0 <= a < b <= |w| && b - a <= 1025 && lang(w[a..b])
    ensures exists chunks :: !SameVerdict(matches, lang, chunks)
  {
    if lang([]) {
      var none: seq<byte> := [];
      assert none[0..0] == none;
      assert Contains(lang, Concat([]));
      assert !SameVerdict(matches, lang, []);
    } else {
      BytewiseConcat(w);
      assert w[0..|w|] == w;
      assert Contains(lang, Concat(Bytewise(w)));
      if Caught(matches, Bytewise(w)) {
        var a, b := BytewiseCaught(matches, lang, w);
      }
      assert !SameVerdict(matches, lang, Bytewise(w));
    }
  }

  /** A single secret qualifies exactly up to 1025 bytes. */
  lemma OneSecretIff(lang: seq<byte> -> bool, secret: seq<byte>)
    requires secret != [] && forall w :: lang(w) <==> w == secret
    ensures ShortWords(lang) <==> |secret| <= 1025
  {
    assert secret[0..|secret|] == secret;
    if ShortWords(lang) {
      var x, y := ShortPart(lang, secret);
    }
  }

  // ----- the credential pattern, on ASCII text

  const SPACE: byte := 32

  function Text(s: string): (w: seq<byte>)
    ensures |w| == |s|
    ensures forall i :: 0 <= i < |s| ==> w[i] == s[i] as int % 256
  {
    seq(|s|, i requires 0 <= i < |s| => s[i] as int % 256)
  }

  function Lower(b: byte): byte {
    if 65 <= b <= 90 then b + 32 else b
  }

  /** The bytes spell the lower-case text `s`, in any case. */
  predicate Spells(w: seq<byte>, s: string) {
    |w| == |s| && forall i :: 0 <= i < |w| ==> Lower(w[i]) == s[i] as int
  }

  predicate IsBlank(b: byte) {
    b == 9 || b == 10 || b == 12 || b == 13 || b == SPACE
  }

  predicate Blank(w: seq<byte>) {
    forall i :: 0 <= i < |w| ==> IsBlank(w[i])
  }

  predicate Solid(w: seq<byte>) {
    forall i :: 0 <= i < |w| ==> !IsBlank(w[i])
  }

  predicate IsTokenByte(b: byte) {
    || 97 <= Lower(b) <= 122 || 48 <= b <= 57
    || b == 46 || b == 95 || b == 126 || b == 43 || b == 47 || b == 61 || b == 45  // . _ ~ + / = -
  }

  predicate Token(w: seq<byte>) {
    forall i :: 0 <= i < |w| ==> IsTokenByte(w[i])
  }

  predicate Letters(w: seq<byte>) {
    forall i :: 0 <= i < |w| ==> 97 <= Lower(w[i]) <= 122 || w[i] == SPACE
  }

  predicate Keyword(w: seq<byte>) {
    Spells(w, "apikey") || Spells(w, "api_key") || Spells(w, "api-key") || Spells(w, "secret") || Spells(w, "password")
  }

  /** A keyword up to `k`, a separator at `i` and a value from `j`. */
  ghost predicate AssignsAt(w: seq<byte>, k: int, i: int, j: int) {
    && 0 <= k <= i < j <= |w| - 8
    && Keyword(w[..k]) && Blank(w[k..i]) && (w[i] == 61 || w[i] == 58)  // = or :
    && Blank(w[i + 1..j]) && Solid(w[j..])
  }

  /** An authorization header: "bearer" from `i` to `i + 6`, a token from `j`. */
  ghost predicate BearsAt(w: seq<byte>, i: int, j: int) {
    && 14 <= i && i + 6 < j <= |w| - 8
    && Spells(w[..14], "authorization:") && Blank(w[14..i]) && Spells(w[i..i + 6], "bearer")
    && Blank(w[i + 6..j]) && Token(w[j..])
  }

  ghost predicate IsKeyHeader(w: seq<byte>) {
    && |w| >= 27 && Spells(w[..11], "-----begin ") && Letters(w[11..|w| - 16])
    && Spells(w[|w| - 16..], "private key-----")
  }

  ghost predicate Credential(w: seq<byte>) {
    (exists i, j :: BearsAt(w, i, j)) || IsKeyHeader(w) || exists k, i, j :: AssignsAt(w, k, i, j)
  }

  /** "secret", 1100 blanks and "=aaaaaaaa". */
  function FarSecret(): (w: seq<byte>)
    ensures |w| == 1115
  {
    Text("secret") + seq(1100, _ => SPACE) + Text("=aaaaaaaa")
  }

  lemma FarSecretIsCredential()
    ensures Credential(FarSecret())
  {
    var w := FarSecret();
    forall p: nat | p < 1115 ensures
      w[p] == if p == 0 then 115 else if p == 1 || p == 4 then 101 else if p == 2 then 99 else if p == 3 then 114
      else if p == 5 then 116 else if p < 1106 then SPACE else if p == 1106 then 61 else 97
    {
    }
    assert Spells(w[..6], "secret");
    assert AssignsAt(w, 6, 1106, 1107);
  }

  ghost predicate StartsCredential(x: byte, y: byte) {
    || (x == 97 && (y == 117 || y == 112)) || (x == 115 && y == 101) || (x == 112 && y == 97) || x == 45
  }

  predicate Marker(b: byte) {
    b == 61 || b == 58 || b == 45
  }

  /** Every credential has a colon, a hyphen or an equals sign and starts with "au", "ap", "se", "pa"
      or a hyphen. */
  lemma CredentialStarts(w: seq<byte>)
    requires Credential(w)
    ensures |w| >= 2 && StartsCredential(Lower(w[0]), Lower(w[1])) && exists i :: 0 <= i < |w| && Marker(w[i])
  {
    if i, j :| BearsAt(w, i, j) {
      assert Lower(w[..14][0]) == 97 && Lower(w[..14][1]) == 117 && Lower(w[..14][13]) == 58;
      assert Marker(w[13]);
    } else if IsKeyHeader(w) {
      assert Lower(w[..11][0]) == 45;
      assert Marker(w[0]);
    } else {
      var k, i, j :| AssignsAt(w, k, i, j);
      assert Lower(w[..k][0]) == Lower(w[0]) && Lower(w[..k][1]) == Lower(w[1]);
      assert Marker(w[i]);
    }
  }

  lemma FarSecretMarker(p: nat)
    requires p < 1115 && Marker(FarSecret()[p])
    ensures p == 1106
  {
  }

  /** No part of it of at most 1025 bytes is a credential. */
  lemma FarSecretIsFar(a: nat, b: nat)
    requires a <= b <= 1115 && Credential(FarSecret()[a..b])
    ensures b - a > 1025
  {
    var w := FarSecret()[a..b];
    CredentialStarts(w);
    var i :| 0 <= i < |w| && Marker(w[i]);
    FarSecretMarker(a + i);
  }

  /** So the pattern as it stands is beyond the scan: a credential with 1100 blanks before its equals
      sign is found or missed depending on how the output is chunked. */
  lemma CredentialScanDependsOnChunking(matches: seq<byte> -> bool, lang: seq<byte> -> bool)
    requires Searches(matches, lang) && forall w :: lang(w) <==> Credential(w)
    ensures !ShortWords(lang) && !forall chunks :: SameVerdict(matches, lang, chunks)
  {
    var w := FarSecret();
    FarSecretIsCredential();
    if ShortWords(lang) {
      var a, b := ShortPart(lang, w);
      FarSecretIsFar(a, b);
    }
    CaughtUnderEveryChunkingIff(matches, lang);
  }
}
