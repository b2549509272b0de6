/** TCG_PCR_EVENT2 records in memory (section 10.2.2 of the TCG PC Client Platform Firmware Profile). */
module EventLog {
  import opened Memory
  import opened Options

  /** A PCR index that stands for all PCRs. */
  const PCR_INDEX_ALL: dword := 0xFFFF_FFFF

  // ---------- event records and their bytes ----------

  datatype Digest = Digest(alg: word, bytes: seq<byte>)

  datatype Event = Event(pcr: dword, eventType: dword, digests: seq<Digest>, data: seq<byte>)

  /** Digest sizes by algorithm, as GetHashSizeFromAlgo gives them. */
  type Sizes = word -> nat

  ghost predicate WellFormed(size: Sizes, e: Event) {
    && |e.digests| < 0x1_0000_0000 && |e.data| < 0x1_0000_0000
    && forall i :: 0 <= i < |e.digests| ==> |e.digests[i].bytes| == size(e.digests[i].alg)
  }

  function EncodeDigests(ds: seq<Digest>): seq<byte> {
    if ds == [] then [] else Encode16(ds[0].alg) + ds[0].bytes + EncodeDigests(ds[1..])
  }

  /** The two counts are 32-bit fields; a well-formed event fits them. */
  function EncodeEvent(e: Event): seq<byte> {
    Encode32(e.pcr) + Encode32(e.eventType) + Encode32(Count32(|e.digests|)) + EncodeDigests(e.digests)
    + Encode32(Count32(|e.data|)) + e.data
  }

  function Count32(n: nat): dword { n % 0x1_0000_0000 }

  ghost predicate AllWellFormed(size: Sizes, es: seq<Event>) {
    forall i :: 0 <= i < |es| ==> WellFormed(size, es[i])
  }

  function EncodeLog(es: seq<Event>): seq<byte> {
    if es == [] then [] else EncodeEvent(es[0]) + EncodeLog(es[1..])
  }

  // ---------- what the parser reads from raw memory ----------

  function EventPcr(mem: Memory, p: nat): dword { U32(mem, p) }
  function EventType(mem: Memory, p: nat): dword { U32(mem, p + 4) }
  function DigestCount(mem: Memory, p: nat): dword { U32(mem, p + 8) }

  /** The address behind n digests, the first of them at q. */
  function DigestsEnd(mem: Memory, size: Sizes, q: nat, n: nat): (r: nat)
    ensures r >= q + 2 * n
    decreases n
  {
    if n == 0 then q else DigestsEnd(mem, size, q + 2 + size(U16(mem, q)), n - 1)
  }

  /** The size of the event at p, whatever its bytes are. */
  function EventSize(mem: Memory, size: Sizes, p: nat): (r: nat)
    ensures r >= 16
  {
    var q := DigestsEnd(mem, size, p + 12, DigestCount(mem, p));
    q + 4 + U32(mem, q) - p
  }

  /** The address of the first digest of an algorithm among n digests. */
  function FindDigest(mem: Memory, size: Sizes, q: nat, n: nat, alg: word): Option<nat>
    decreases n
  {
    if n == 0 then None
    else if U16(mem, q) == alg then Some(q + 2)
    else FindDigest(mem, size, q + 2 + size(U16(mem, q)), n - 1, alg)
  }

  lemma {:induction false} DigestsEndStep(mem: Memory, size: Sizes, q: nat, n: nat)
    ensures var r := DigestsEnd(mem, size, q, n);
      DigestsEnd(mem, size, q, n + 1) == r + 2 + size(U16(mem, r))
    decreases n
  {
    if n > 0 {
      DigestsEndStep(mem, size, q + 2 + size(U16(mem, q)), n - 1);
    }
  }

  /** Steps over the digests two bytes past each header, having read the algorithm of the next. */
  method GetPcrEvent2Size(mem: Memory, size: Sizes, p: nat) returns (n: nat)
    ensures n == EventSize(mem, size, p)
  {
    hide U16, U32, DigestCount;
    var count := DigestCount(mem, p);
    var alg := U16(mem, p + 12);
    var buffer := p + 14;
    var i := 0;
    while i < count
      invariant i <= count && buffer >= 2
      invariant buffer - 2 == DigestsEnd(mem, size, p + 12, i) && alg == U16(mem, buffer - 2)
    {
      DigestsEndStep(mem, size, p + 12, i);
      hide DigestsEnd;
      var digestSize := size(alg);
      alg := U16(mem, buffer + digestSize);
      buffer := buffer + digestSize + 2;
      i := i + 1;
    }
    buffer := buffer - 2;
    n := buffer + 4 + U32(mem, buffer) - p;
  }

  method GetDigestFromPcrEvent2(mem: Memory, size: Sizes, p: nat, hashAlg: word) returns (digest: Option<nat>)
    ensures digest == FindDigest(mem, size, p + 12, DigestCount(mem, p), hashAlg)
  {
    hide U16, U32, DigestCount;
    var count := DigestCount(mem, p);
    var alg := U16(mem, p + 12);
    var buffer := p + 14;
    var i := 0;
    while i < count
      invariant i <= count && buffer >= 2 && alg == U16(mem, buffer - 2)
      invariant FindDigest(mem, size, buffer - 2, count - i, hashAlg) == FindDigest(mem, size, p + 12, count, hashAlg)
    {
      var digestSize := size(alg);
      if hashAlg == alg {
        return Some(buffer);
      }
      alg := U16(mem, buffer + digestSize);
      buffer := buffer + digestSize + 2;
      i := i + 1;
    }
    return None;
  }

  // ---------- parsing what was encoded ----------

  /** The first digest of an event for an algorithm. */
  function DigestOf(ds: seq<Digest>, alg: word): Option<seq<byte>> {
    if ds == [] then None else if ds[0].alg == alg then Some(ds[0].bytes) else DigestOf(ds[1..], alg)
  }

  /** What a search found in memory is the digest looked for. */
  ghost predicate FoundDigest(mem: Memory, size: Sizes, found: Option<nat>, digest: Option<seq<byte>>, alg: word) {
    match found
    case None => digest == None
    case Some(a) => digest.Some? && HoldsAt(mem, a, digest.value) && |digest.value| == size(alg)
  }

  lemma {:induction false} DigestsDecode(mem: Memory, size: Sizes, q: nat, ds: seq<Digest>, alg: word)
    requires HoldsAt(mem, q, EncodeDigests(ds)) && forall i :: 0 <= i < |ds| ==> |ds[i].bytes| == size(ds[i].alg)
    ensures DigestsEnd(mem, size, q, |ds|) == q + |EncodeDigests(ds)|
    ensures FoundDigest(mem, size, FindDigest(mem, size, q, |ds|, alg), DigestOf(ds, alg), alg)
    decreases |ds|
  {
    if ds != [] {
      var d := ds[0];
      assert |Encode16(d.alg)| == 2 && EncodeDigests(ds) == Encode16(d.alg) + d.bytes + EncodeDigests(ds[1..]);
      assert forall i :: 0 <= i < |ds| - 1 ==> |ds[1..][i].bytes| == size(ds[1..][i].alg);
      hide U16, HoldsAt, Encode16, EncodeDigests;
      HoldsAtConcat(mem, q, Encode16(d.alg) + d.bytes, EncodeDigests(ds[1..]));
      HoldsAtConcat(mem, q, Encode16(d.alg), d.bytes);
      DecodeEncode16(mem, q, d.alg);
      DigestsDecode(mem, size, q + 2 + |d.bytes|, ds[1..], alg);
    }
  }

  /** Memory holds the event at p. */
  ghost predicate HoldsEvent(mem: Memory, size: Sizes, p: nat, e: Event) {
    WellFormed(size, e) && HoldsAt(mem, p, EncodeEvent(e))
  }

  /** Where the parts of an event lie. */
  lemma EventLayout(mem: Memory, size: Sizes, p: nat, e: Event)
    requires HoldsEvent(mem, size, p, e)
    ensures var q := p + 12 + |EncodeDigests(e.digests)|;
      && HoldsAt(mem, p, Encode32(e.pcr)) && HoldsAt(mem, p + 4, Encode32(e.eventType)) &&
        HoldsAt(mem, p + 8, Encode32(|e.digests|))
      && HoldsAt(mem, p + 12, EncodeDigests(e.digests))
      && HoldsAt(mem, q, Encode32(|e.data|)) && HoldsAt(mem, q + 4, e.data)
      && p + |EncodeEvent(e)| == q + 4 + |e.data|
  {
    var a, b, c, ds := Encode32(e.pcr), Encode32(e.eventType), Encode32(Count32(|e.digests|)), EncodeDigests(e.digests);
    var n := Encode32(Count32(|e.data|));
    assert |a| == |b| == |c| == |n| == 4;
    assert EncodeEvent(e) == a + b + c + ds + n + e.data;
    assert Count32(|e.digests|) == |e.digests| && Count32(|e.data|) == |e.data|;
    hide Encode32, EncodeDigests, HoldsAt, EncodeEvent, WellFormed, Count32;
    Parts(mem, p, a, b, c, ds, n, e.data);
  }

  /** Six pieces of memory one behind the other. */
  lemma Parts(mem: Memory, p: nat, a: seq<byte>, b: seq<byte>, c: seq<byte>, d: seq<byte>, n: seq<byte>, e: seq<byte>)
    requires HoldsAt(mem, p, a + b + c + d + n + e)
    ensures HoldsAt(mem, p, a) && HoldsAt(mem, p + |a|, b) && HoldsAt(mem, p + |a| + |b|, c)
    ensures HoldsAt(mem, p + |a| + |b| + |c|, d) && HoldsAt(mem, p + |a| + |b| + |c| + |d|, n)
    ensures HoldsAt(mem, p + |a| + |b| + |c| + |d| + |n|, e)
  {
    hide HoldsAt;
    HoldsAtConcat(mem, p, a + b + c + d + n, e);
    HoldsAtConcat(mem, p, a + b + c + d, n);
    HoldsAtConcat(mem, p, a + b + c, d);
    HoldsAtConcat(mem, p, a + b, c);
    HoldsAtConcat(mem, p, a, b);
  }

  lemma EventFields(mem: Memory, size: Sizes, p: nat, e: Event)
    requires HoldsEvent(mem, size, p, e)
    ensures EventPcr(mem, p) == e.pcr && EventType(mem, p) == e.eventType && DigestCount(mem, p) == |e.digests|
    ensures HoldsAt(mem, p + 12, EncodeDigests(e.digests))
    ensures forall i :: 0 <= i < |e.digests| ==> |e.digests[i].bytes| == size(e.digests[i].alg)
    ensures U32(mem, p + 12 + |EncodeDigests(e.digests)|) == |e.data|
    ensures p + |EncodeEvent(e)| == p + 12 + |EncodeDigests(e.digests)| + 4 + |e.data|
  {
    EventLayout(mem, size, p, e);
    hide Encode32, EncodeDigests, EncodeEvent, HoldsAt, U32;
    DecodeEncode32(mem, p, e.pcr);
    DecodeEncode32(mem, p + 4, e.eventType);
    DecodeEncode32(mem, p + 8, |e.digests|);
    DecodeEncode32(mem, p + 12 + |EncodeDigests(e.digests)|, |e.data|);
  }

  /** Parsing recovers every field that the replay uses, and the exact size. */
  lemma EventDecode(mem: Memory, size: Sizes, p: nat, e: Event, alg: word)
    requires HoldsEvent(mem, size, p, e)
    ensures EventPcr(mem, p) == e.pcr && EventType(mem, p) == e.eventType
    ensures EventSize(mem, size, p) == |EncodeEvent(e)|
    ensures FoundDigest(mem, size, FindDigest(mem, size, p + 12, DigestCount(mem, p), alg), DigestOf(e.digests, alg),
      alg)
  {
    EventFields(mem, size, p, e);
    hide Encode32, EncodeDigests, EncodeEvent, HoldsAt, HoldsEvent, U32, DigestsEnd, FindDigest, FoundDigest;
    hide DigestCount;
    DigestsDecode(mem, size, p + 12, e.digests, alg);
  }
}
