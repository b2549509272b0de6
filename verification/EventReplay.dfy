/** Walking the event log and replaying its measurements into expected PCR values. */
module EventReplay {
  import opened Memory
  import opened Options
  import opened EventLog
  import opened EventHeader

  const EV_NO_ACTION: dword := 3
  const ALG_SHA1: word := 0x0004
  const ALG_SHA256: word := 0x000B
  /** Sizes of the final-events header and of TPMU_HA. */
  const FINAL_EVENTS_HEADER: nat := 16
  const HASH_BUFFER: nat := 64

  /**
   * The hash algorithms: digest sizes, the hash itself, and whether the pool has room for a hash context when some
   * data is hashed.
   */
  datatype Hashing = Hashing(size: Sizes, hash: (word, seq<byte>) -> seq<byte>, room: (word, seq<byte>) -> bool)

  /** The algorithms of mHashInfo. */
  predicate Supported(alg: word) { alg == ALG_SHA1 || alg == ALG_SHA256 }

  ghost predicate Sound(h: Hashing) {
    && (forall alg :: h.size(alg) <= HASH_BUFFER)
    && (forall alg, data :: Supported(alg) ==> |h.hash(alg, data)| == h.size(alg))
  }

  // ---------- the walk ----------

  /** The events visited from p while the cursor has not passed last. No bytes can stall the walk. */
  function Visited(mem: Memory, size: Sizes, p: nat, last: int): seq<nat>
    decreases last + 1 - p
  {
    if p > last then [] else [p] + Visited(mem, size, p + EventSize(mem, size, p), last)
  }

  /** The first n events from p on. */
  function Counted(mem: Memory, size: Sizes, p: nat, n: nat): seq<nat>
    decreases n
  {
    if n == 0 then [] else [p] + Counted(mem, size, p + EventSize(mem, size, p), n - 1)
  }

  /** The addresses of the events of a log encoded at p. */
  function Starts(p: nat, es: seq<Event>): seq<nat>
    decreases |es|
  {
    if es == [] then [] else [p] + Starts(p + |EncodeEvent(es[0])|, es[1..])
  }

  /** The address of the last event, as the firmware reports it. */
  function LastStart(p: nat, es: seq<Event>): (r: nat)
    requires es != []
    ensures r >= p
    decreases |es|
  {
    if |es| == 1 then p else LastStart(p + |EncodeEvent(es[0])|, es[1..])
  }

  /** A log starts with its first event, and goes on with the others right behind it. */
  lemma LogSplit(mem: Memory, size: Sizes, p: nat, es: seq<Event>)
    requires AllWellFormed(size, es) && es != [] && HoldsAt(mem, p, EncodeLog(es))
    ensures HoldsEvent(mem, size, p, es[0]) && AllWellFormed(size, es[1..])
    ensures HoldsAt(mem, p + |EncodeEvent(es[0])|, EncodeLog(es[1..]))
    ensures |EncodeLog(es)| == |EncodeEvent(es[0])| + |EncodeLog(es[1..])|
  {
    assert WellFormed(size, es[0]) && AllWellFormed(size, es[1..]);
    assert EncodeLog(es) == EncodeEvent(es[0]) + EncodeLog(es[1..]);
    hide EncodeEvent, HoldsAt, EncodeLog, AllWellFormed, WellFormed;
    HoldsAtConcat(mem, p, EncodeEvent(es[0]), EncodeLog(es[1..]));
  }

  lemma FirstEvent(mem: Memory, size: Sizes, p: nat, es: seq<Event>)
    requires AllWellFormed(size, es) && es != [] && HoldsAt(mem, p, EncodeLog(es))
    ensures HoldsEvent(mem, size, p, es[0]) && AllWellFormed(size, es[1..])
    ensures EventSize(mem, size, p) == |EncodeEvent(es[0])| >= 16
    ensures HoldsAt(mem, p + |EncodeEvent(es[0])|, EncodeLog(es[1..]))
    ensures |EncodeLog(es)| == |EncodeEvent(es[0])| + |EncodeLog(es[1..])|
  {
    LogSplit(mem, size, p, es);
    hide EncodeEvent, HoldsAt, EncodeLog, AllWellFormed, HoldsEvent, FoundDigest;
    EventDecode(mem, size, p, es[0], 0);
  }

  /** Any bound from the start of the last event up to the end of the log makes the walk visit every event once. */
  lemma {:induction false} WalkVisitsEveryEvent(mem: Memory, size: Sizes, p: nat, es: seq<Event>, last: nat)
    requires AllWellFormed(size, es) && es != [] && HoldsAt(mem, p, EncodeLog(es))
    requires LastStart(p, es) <= last < p + |EncodeLog(es)|
    ensures Visited(mem, size, p, last) == Starts(p, es)
    decreases |es|
  {
    hide EncodeEvent, HoldsAt, EventSize, Visited, HoldsEvent, AllWellFormed, Starts, EncodeLog;
    FirstEvent(mem, size, p, es);
    LastStartBounds(mem, size, p, es);
    VisitedStep(mem, size, p, last);
    StartsStep(p, es);
    var next := p + |EncodeEvent(es[0])|;
    if |es| == 1 {
      EmptyLog(next, es[1..]);
      VisitedNone(mem, size, next, last);
    } else {
      LastStartBounds(mem, size, next, es[1..]);
      WalkVisitsEveryEvent(mem, size, next, es[1..], last);
    }
  }

  lemma VisitedStep(mem: Memory, size: Sizes, p: nat, last: int)
    requires p <= last
    ensures Visited(mem, size, p, last) == [p] + Visited(mem, size, p + EventSize(mem, size, p), last)
  {
  }

  lemma VisitedNone(mem: Memory, size: Sizes, p: nat, last: int)
    requires p > last
    ensures Visited(mem, size, p, last) == []
  {
  }

  lemma StartsStep(p: nat, es: seq<Event>)
    requires es != []
    ensures Starts(p, es) == [p] + Starts(p + |EncodeEvent(es[0])|, es[1..])
  {
  }

  lemma EmptyLog(p: nat, es: seq<Event>)
    requires es == []
    ensures EncodeLog(es) == [] && Starts(p, es) == []
  {
  }

  /** The reported last entry lies inside the log, and its parsed size reaches exactly the end of the log. */
  lemma {:induction false} LastStartBounds(mem: Memory, size: Sizes, p: nat, es: seq<Event>)
    requires AllWellFormed(size, es) && es != [] && HoldsAt(mem, p, EncodeLog(es))
    ensures p <= LastStart(p, es) < p + |EncodeLog(es)|
    ensures LastStart(p, es) + EventSize(mem, size, LastStart(p, es)) == p + |EncodeLog(es)|
    decreases |es|
  {
    hide *;
    FirstEvent(mem, size, p, es);
    LastStartStep(p, es);
    if |es| == 1 {
      EmptyLog(p, es[1..]);
    } else {
      LastStartBounds(mem, size, p + |EncodeEvent(es[0])|, es[1..]);
    }
  }

  lemma LastStartStep(p: nat, es: seq<Event>)
    requires es != []
    ensures LastStart(p, es) == if |es| == 1 then p else LastStart(p + |EncodeEvent(es[0])|, es[1..])
  {
  }

  lemma CountedStep(mem: Memory, size: Sizes, p: nat, n: nat)
    ensures Counted(mem, size, p, 0) == []
    ensures n > 0 ==> Counted(mem, size, p, n) == [p] + Counted(mem, size, p + EventSize(mem, size, p), n - 1)
  {
  }

  /** The final-events table is walked by count. */
  lemma {:induction false} CountVisitsEveryEvent(mem: Memory, size: Sizes, p: nat, es: seq<Event>)
    requires AllWellFormed(size, es) && HoldsAt(mem, p, EncodeLog(es))
    ensures Counted(mem, size, p, |es|) == Starts(p, es)
    decreases |es|
  {
    hide EncodeEvent, HoldsAt, EventSize, HoldsEvent, AllWellFormed, WellFormed, Starts, EncodeLog, Counted;
    CountedStep(mem, size, p, |es|);
    if es != [] {
      FirstEvent(mem, size, p, es);
      StartsStep(p, es);
      CountVisitsEveryEvent(mem, size, p + |EncodeEvent(es[0])|, es[1..]);
    } else {
      EmptyLog(p, es);
    }
  }

  /** The size -BIN computes from the address and the parsed size of the last event. */
  function BinFileSize(mem: Memory, size: Sizes, base: nat, last: nat): nat
    requires last >= base
  {
    last - base + EventSize(mem, size, last)
  }

  /** Equal logs at two places have their events at equal distances. */
  lemma {:induction false} StartsShift(p: nat, q: nat, es: seq<Event>)
    ensures |Starts(p, es)| == |Starts(q, es)| == |es|
    ensures forall i :: 0 <= i < |es| ==> Starts(p, es)[i] - p == Starts(q, es)[i] - q
    decreases |es|
  {
    hide EncodeEvent;
    if es != [] {
      StartsShift(p + |EncodeEvent(es[0])|, q + |EncodeEvent(es[0])|, es[1..]);
    }
  }

  /** Memory holds a TCG 2 log at base: its header event and its events. */
  ghost predicate HoldsLog(mem: Memory, size: Sizes, base: nat, hd: Header, es: seq<Event>) {
    FitsHeader(hd) && es != [] && AllWellFormed(size, es) && HoldsAt(mem, base, EncodeHeader(hd) + EncodeLog(es))
  }

  /** The address of its last event. */
  function LastEntry(base: nat, hd: Header, es: seq<Event>): nat
    requires FitsHeader(hd) && es != []
  {
    LastStart(base + |EncodeHeader(hd)|, es)
  }

  /** Its first event is found right behind the header event. */
  lemma LogDecode(mem: Memory, size: Sizes, base: nat, hd: Header, es: seq<Event>)
    requires HoldsLog(mem, size, base, hd, es)
    ensures var p := base + |EncodeHeader(hd)|; FirstEvent2(mem, base) == p && HoldsAt(mem, p, EncodeLog(es))
    ensures AlgorithmCount(mem, base) == |hd.banks|
    ensures forall i :: 0 <= i < |hd.banks| ==> Algorithm(mem, base, i) == hd.banks[i].alg
  {
    hide HoldsAt, EncodeHeader, EncodeLog;
    HoldsAtConcat(mem, base, EncodeHeader(hd), EncodeLog(es));
    HeaderDecode(mem, base, hd);
  }

  lemma BytesHeld(mem: Memory, p: nat, bs: seq<byte>)
    requires HoldsAt(mem, p, bs)
    ensures Bytes(mem, p, |bs|) == bs
  {
  }

  /** The live dump visits the events of a log, and the file that -BIN writes is the log, no more and no less. */
  lemma BinFileIsTheLog(mem: Memory, size: Sizes, base: nat, hd: Header, es: seq<Event>)
    requires HoldsLog(mem, size, base, hd, es)
    ensures var last := LastEntry(base, hd, es);
      && Visited(mem, size, FirstEvent2(mem, base), last) == Starts(base + |EncodeHeader(hd)|, es)
      && base <= last && Bytes(mem, base, BinFileSize(mem, size, base, last)) == EncodeHeader(hd) + EncodeLog(es)
  {
    hide *;
    LogDecode(mem, size, base, hd, es);
    LogParts(mem, size, base, hd, es);
    var p := base + |EncodeHeader(hd)|;
    LastStartBounds(mem, size, p, es);
    WalkVisitsEveryEvent(mem, size, p, es, LastEntry(base, hd, es));
    BinFileEnd(mem, size, base, LastEntry(base, hd, es));
    BytesHeld(mem, base, EncodeHeader(hd) + EncodeLog(es));
  }

  /**
   * Wherever -PARSE reads that file to, memory holds the log there, and with the last byte of the file as bound the
   * events visited are those of the log, at the same distances as in the live dump.
   */
  lemma BinFileParsesAlike(mem: Memory, size: Sizes, base: nat, hd: Header, es: seq<Event>, mem': Memory, base': nat)
    requires HoldsLog(mem, size, base, hd, es)
    requires var last := LastEntry(base, hd, es);
      base <= last && HoldsAt(mem', base', Bytes(mem, base, BinFileSize(mem, size, base, last)))
    ensures HoldsLog(mem', size, base', hd, es)
    ensures var n := BinFileSize(mem, size, base, LastEntry(base, hd, es)); var q := base' + |EncodeHeader(hd)|;
      && FirstEvent2(mem', base') == q && Visited(mem', size, q, base' + n - 1) == Starts(q, es)
      && |Starts(q, es)| == |es| == |Starts(base + |EncodeHeader(hd)|, es)|
      && (forall i :: 0 <= i < |es| ==> Starts(q, es)[i] - base' == Starts(base + |EncodeHeader(hd)|, es)[i] - base)
  {
    hide *;
    BinFileIsTheLog(mem, size, base, hd, es);
    LogInCopy(mem, size, base, hd, es, mem', base');
    LogDecode(mem', size, base', hd, es);
    BinFileLength(mem, size, base, hd, es);
    WholeLogVisited(mem', size, base' + |EncodeHeader(hd)|, es);
    StartsShift(base + |EncodeHeader(hd)|, base' + |EncodeHeader(hd)|, es);
  }

  lemma LogInCopy(mem: Memory, size: Sizes, base: nat, hd: Header, es: seq<Event>, mem': Memory, base': nat)
    requires HoldsLog(mem, size, base, hd, es) && HoldsAt(mem', base', EncodeHeader(hd) + EncodeLog(es))
    ensures HoldsLog(mem', size, base', hd, es)
  {
  }

  lemma BinFileLength(mem: Memory, size: Sizes, base: nat, hd: Header, es: seq<Event>)
    requires HoldsLog(mem, size, base, hd, es) && base <= LastEntry(base, hd, es)
    ensures BinFileSize(mem, size, base, LastEntry(base, hd, es)) == |EncodeHeader(hd)| + |EncodeLog(es)|
    ensures AllWellFormed(size, es) && es != [] && EncodeLog(es) != []
  {
    hide *;
    LogDecode(mem, size, base, hd, es);
    LogParts(mem, size, base, hd, es);
    LastStartBounds(mem, size, base + |EncodeHeader(hd)|, es);
    BinFileEnd(mem, size, base, LastEntry(base, hd, es));
  }

  lemma LogParts(mem: Memory, size: Sizes, base: nat, hd: Header, es: seq<Event>)
    requires HoldsLog(mem, size, base, hd, es)
    ensures FitsHeader(hd) && es != [] && AllWellFormed(size, es)
    ensures HoldsAt(mem, base, EncodeHeader(hd) + EncodeLog(es))
    ensures LastEntry(base, hd, es) == LastStart(base + |EncodeHeader(hd)|, es)
  {
  }

  lemma BinFileEnd(mem: Memory, size: Sizes, base: nat, last: nat)
    requires last >= base
    ensures base + BinFileSize(mem, size, base, last) == last + EventSize(mem, size, last)
  {
  }

  /** With the last byte of a log as bound the walk visits all its events. */
  lemma WholeLogVisited(mem: Memory, size: Sizes, q: nat, es: seq<Event>)
    requires AllWellFormed(size, es) && es != [] && HoldsAt(mem, q, EncodeLog(es)) && EncodeLog(es) != []
    ensures Visited(mem, size, q, q + |EncodeLog(es)| - 1) == Starts(q, es)
  {
    hide *;
    LastStartBounds(mem, size, q, es);
    WalkVisitsEveryEvent(mem, size, q, es, q + |EncodeLog(es)| - 1);
  }

  // ---------- the replay, on raw memory ----------

  /**
   * The accumulator after one extend: without support for the algorithm, or room for a context, the digest is filled
   * with 0xFF.
   */
  ghost function Extended(h: Hashing, alg: word, acc: seq<byte>, d: seq<byte>): (r: seq<byte>)
    requires Sound(h) && |acc| == HASH_BUFFER
    ensures |r| == HASH_BUFFER
  {
    var n := h.size(alg);
    if Supported(alg) && h.room(alg, acc[..n] + d) then h.hash(alg, acc[..n] + d) + acc[n..] else Filled(n) + acc[n..]
  }

  function Filled(n: nat): (r: seq<byte>)
    ensures |r| == n
  {
    seq(n, _ => 0xFF as byte)
  }

  function Zeros(n: nat): (r: seq<byte>)
    ensures |r| == n
  {
    seq(n, _ => 0 as byte)
  }

  /** The digest the event at p contributes to a PCR, if it does. */
  function MeasuredAt(mem: Memory, size: Sizes, alg: word, pcr: dword, p: nat): Option<seq<byte>> {
    if EventPcr(mem, p) == pcr && EventType(mem, p) != EV_NO_ACTION then
      match FindDigest(mem, size, p + 12, DigestCount(mem, p), alg)
      case None => None
      case Some(a) => Some(Bytes(mem, a, size(alg)))
    else None
  }

  /** Extending by the events at the addresses, in order. */
  ghost function ReplayAt(h: Hashing, alg: word, pcr: dword, mem: Memory, ps: seq<nat>, acc: seq<byte>): (r: seq<byte>)
    requires Sound(h) && |acc| == HASH_BUFFER
    ensures |r| == HASH_BUFFER
  {
    if ps == [] then acc
    else ReplayAt(h, alg, pcr, mem, ps[1..], match MeasuredAt(mem, h.size, alg, pcr, ps[0])
      case None => acc
      case Some(d) => Extended(h, alg, acc, d))
  }

  lemma ReplayStep(h: Hashing, alg: word, pcr: dword, mem: Memory, p: nat, rest: seq<nat>, acc: seq<byte>)
    requires Sound(h) && |acc| == HASH_BUFFER
    ensures ReplayAt(h, alg, pcr, mem, [p] + rest, acc) ==
      ReplayAt(h, alg, pcr, mem, rest, ReplayAt(h, alg, pcr, mem, [p], acc))
  {
    assert ([p] + rest)[1..] == rest && [p][1..] == [];
  }

  /** Extends the accumulator in place; the bytes behind the digest stay. */
  method ExtendEvent(h: Hashing, alg: word, acc: array<byte>, d: seq<byte>)
    requires Sound(h) && acc.Length == HASH_BUFFER && |d| == h.size(alg)
    modifies acc
    ensures acc[..] == Extended(h, alg, old(acc[..]), d)
  {
    var n := h.size(alg);
    var result := Filled(n);
    if Supported(alg) {
      if h.room(alg, acc[..n] + d) {
        result := h.hash(alg, acc[..n] + d);
      }
    }
    forall i | 0 <= i < n {
      acc[i] := result[i];
    }
    assert acc[..] == result + old(acc[n..]);
  }

  /** One event of the log. */
  method ReplayEvent(h: Hashing, alg: word, pcr: dword, mem: Memory, p: nat, acc: array<byte>)
    requires Sound(h) && acc.Length == HASH_BUFFER
    modifies acc
    ensures acc[..] == ReplayAt(h, alg, pcr, mem, [p], old(acc[..]))
  {
    hide FindDigest, EventPcr, EventType, DigestCount, Extended, Bytes;
    if pcr == EventPcr(mem, p) && EventType(mem, p) != EV_NO_ACTION {
      var digest := GetDigestFromPcrEvent2(mem, h.size, p, alg);
      if digest != None {
        ExtendEvent(h, alg, acc, Bytes(mem, digest.value, h.size(alg)));
      }
    }
    assert [p][1..] == [];
  }

  /** The main log, up to the reported last entry. */
  method ReplayMainLog(h: Hashing, alg: word, pcr: dword, mem: Memory, first: nat, last: int, acc: array<byte>)
    requires Sound(h) && acc.Length == HASH_BUFFER
    modifies acc
    ensures acc[..] == ReplayAt(h, alg, pcr, mem, Visited(mem, h.size, first, last), old(acc[..]))
  {
    hide EventSize, Visited, ReplayAt;
    var p: nat := first;
    while p <= last
      invariant
        ReplayAt(h, alg, pcr, mem, Visited(mem, h.size, p, last), acc[..])
          == ReplayAt(h, alg, pcr, mem, Visited(mem, h.size, first, last), old(acc[..]))
      decreases last + 1 - p
    {
      VisitedStep(mem, h.size, p, last);
      ReplayStep(h, alg, pcr, mem, p, Visited(mem, h.size, p + EventSize(mem, h.size, p), last), acc[..]);
      ReplayEvent(h, alg, pcr, mem, p, acc);
      var n := GetPcrEvent2Size(mem, h.size, p);
      p := p + n;
    }
    VisitedNone(mem, h.size, p, last);
    ReplayNothing(h, alg, pcr, mem, acc[..]);
  }

  lemma ReplayNothing(h: Hashing, alg: word, pcr: dword, mem: Memory, acc: seq<byte>)
    requires Sound(h) && |acc| == HASH_BUFFER
    ensures ReplayAt(h, alg, pcr, mem, [], acc) == acc
  {
  }

  function FinalEvents(mem: Memory, size: Sizes, table: nat): seq<nat> {
    Counted(mem, size, table + FINAL_EVENTS_HEADER, U64(mem, table + 8))
  }

  /** The final-events table, by its event count. */
  method ReplayFinalEvents(h: Hashing, alg: word, pcr: dword, mem: Memory, table: nat, acc: array<byte>)
    requires Sound(h) && acc.Length == HASH_BUFFER
    modifies acc
    ensures acc[..] == ReplayAt(h, alg, pcr, mem, FinalEvents(mem, h.size, table), old(acc[..]))
  {
    hide EventSize, Counted, ReplayAt, U64;
    var p: nat, i: nat := table + FINAL_EVENTS_HEADER, 0;
    while i < U64(mem, table + 8)
      invariant i <= U64(mem, table + 8)
      invariant
        ReplayAt(h, alg, pcr, mem, Counted(mem, h.size, p, U64(mem, table + 8) - i), acc[..])
          == ReplayAt(h, alg, pcr, mem, FinalEvents(mem, h.size, table), old(acc[..]))
    {
      ghost var left := U64(mem, table + 8) - i;
      CountedStep(mem, h.size, p, left);
      ReplayStep(h, alg, pcr, mem, p, Counted(mem, h.size, p + EventSize(mem, h.size, p), left - 1), acc[..]);
      ReplayEvent(h, alg, pcr, mem, p, acc);
      var size := GetPcrEvent2Size(mem, h.size, p);
      p, i := p + size, i + 1;
    }
    CountedStep(mem, h.size, p, 0);
    ReplayNothing(h, alg, pcr, mem, acc[..]);
  }

  // ---------- DumpEventLog for the TCG 2 format ----------

  /** Every event the log and the final-events table hold, as the two walks visit them. */
  function AllEvents(mem: Memory, size: Sizes, base: nat, last: int, finals: Option<nat>): seq<nat> {
    Visited(mem, size, FirstEvent2(mem, base), last)
    + match finals
      case None => []
      case Some(table) => FinalEvents(mem, size, table)
  }

  /** One bank: the accumulator starts at zero and takes in the log, then the final-events table. */
  method ExpectedPcr(h: Hashing, mem: Memory, base: nat, last: int, finals: Option<nat>, pcr: dword, alg: word)
      returns (value: seq<byte>)
    requires Sound(h)
    ensures value == ReplayAt(h, alg, pcr, mem, AllEvents(mem, h.size, base, last, finals), Zeros(HASH_BUFFER))
  {
    hide ReplayAt, Visited, FinalEvents, FirstEvent2;
    var acc := new byte[HASH_BUFFER](_ => 0 as byte);
    assert acc[..] == Zeros(HASH_BUFFER);
    ReplayMainLog(h, alg, pcr, mem, FirstEvent2(mem, base), last, acc);
    if finals != None {
      ReplayFinalEvents(h, alg, pcr, mem, finals.value, acc);
      ReplayAppend(h, alg, pcr, mem, Visited(mem, h.size, FirstEvent2(mem, base), last),
        FinalEvents(mem, h.size, finals.value), Zeros(HASH_BUFFER));
    } else {
      assert AllEvents(mem, h.size, base, last, finals) == Visited(mem, h.size, FirstEvent2(mem, base), last);
    }
    value := acc[..];
  }

  lemma {:induction false} ReplayAppend(h: Hashing, alg: word, pcr: dword, mem: Memory, ps: seq<nat>, qs: seq<nat>,
        acc: seq<byte>)
    requires Sound(h) && |acc| == HASH_BUFFER
    ensures ReplayAt(h, alg, pcr, mem, ps + qs, acc) ==
      ReplayAt(h, alg, pcr, mem, qs, ReplayAt(h, alg, pcr, mem, ps, acc))
    decreases |ps|
  {
    if ps == [] {
      assert ps + qs == qs;
    } else {
      assert ps + qs == [ps[0]] + (ps[1..] + qs) && ps == [ps[0]] + ps[1..];
      ReplayStep(h, alg, pcr, mem, ps[0], ps[1..] + qs, acc);
      ReplayStep(h, alg, pcr, mem, ps[0], ps[1..], acc);
      ReplayAppend(h, alg, pcr, mem, ps[1..], qs, ReplayAt(h, alg, pcr, mem, [ps[0]], acc));
    }
  }

  /** The expected value of a PCR in every bank the header event lists. */
  method ExpectedPcrs(h: Hashing, mem: Memory, base: nat, last: int, finals: Option<nat>, pcr: dword)
      returns (values: seq<(word, seq<byte>)>)
    requires Sound(h)
    ensures |values| == AlgorithmCount(mem, base)
    ensures forall i :: 0 <= i < |values| ==> values[i].0 == Algorithm(mem, base, i)
    ensures forall i :: 0 <= i < |values| ==>
      values[i].1 == ReplayAt(h, values[i].0, pcr, mem, AllEvents(mem, h.size, base, last, finals), Zeros(HASH_BUFFER))
    ensures forall l :: HoldsAll(mem, h.size, base, last, finals, l) ==> AreBankValues(h, l, pcr, values)
  {
    hide ReplayAt, AllEvents, Zeros, Algorithm, AlgorithmCount, HoldsAll, AreBankValues;
    values := [];
    while |values| < AlgorithmCount(mem, base)
      invariant |values| <= AlgorithmCount(mem, base)
      invariant forall i :: 0 <= i < |values| ==> values[i].0 == Algorithm(mem, base, i)
      invariant forall i :: 0 <= i < |values| ==>
        values[i].1 ==
          ReplayAt(h, values[i].0, pcr, mem, AllEvents(mem, h.size, base, last, finals), Zeros(HASH_BUFFER))
    {
      var alg := Algorithm(mem, base, |values|);
      var value := ExpectedPcr(h, mem, base, last, finals, pcr, alg);
      values := values + [(alg, value)];
    }
    forall l | HoldsAll(mem, h.size, base, last, finals, l) ensures AreBankValues(h, l, pcr, values) {
      BankValuesOfLog(h, mem, base, last, finals, l, pcr, values);
    }
  }

  /** The events that belong to the requested PCR, or all of them. */
  function Select(mem: Memory, ps: seq<nat>, pcr: dword): seq<nat> {
    if ps == [] then []
    else (if pcr == PCR_INDEX_ALL || pcr == EventPcr(mem, ps[0]) then [ps[0]] else []) + Select(mem, ps[1..], pcr)
  }

  /** The plain dump of the main log; -PARSE calls it on a file, with the address of the last byte as bound. */
  method ShowMainLog(mem: Memory, size: Sizes, base: nat, last: int, pcr: dword) returns (shown: seq<nat>)
    ensures shown == Select(mem, Visited(mem, size, FirstEvent2(mem, base), last), pcr)
  {
    hide EventSize, Visited, FirstEvent2, EventPcr, Select;
    shown := [];
    var p: nat := FirstEvent2(mem, base);
    while p <= last
      invariant shown + Select(mem, Visited(mem, size, p, last), pcr) ==
        Select(mem, Visited(mem, size, FirstEvent2(mem, base), last), pcr)
      decreases last + 1 - p
    {
      VisitedStep(mem, size, p, last);
      SelectStep(mem, p, Visited(mem, size, p + EventSize(mem, size, p), last), pcr);
      if pcr == PCR_INDEX_ALL || pcr == EventPcr(mem, p) {
        shown := shown + [p];
      }
      var n := GetPcrEvent2Size(mem, size, p);
      p := p + n;
    }
    VisitedNone(mem, size, p, last);
    SelectNone(mem, pcr);
  }

  /** The addresses of the events of a PCR in a log encoded at p; 0xFFFFFFFF asks for all. */
  function StartsFor(p: nat, es: seq<Event>, pcr: dword): seq<nat>
    decreases |es|
  {
    if es == [] then []
    else
      var rest := StartsFor(p + |EncodeEvent(es[0])|, es[1..], pcr);
      if pcr == 0xFFFF_FFFF || es[0].pcr == pcr then [p] + rest else rest
  }

  /** Of a log exactly the events of the PCR are shown, in log order. */
  lemma {:induction false} ShownOfLog(mem: Memory, size: Sizes, p: nat, es: seq<Event>, pcr: dword)
    requires AllWellFormed(size, es) && HoldsAt(mem, p, EncodeLog(es))
    ensures Select(mem, Starts(p, es), pcr) == StartsFor(p, es, pcr)
    decreases |es|
  {
    hide EncodeEvent, HoldsAt, EventSize, AllWellFormed, EncodeLog, EventPcr, Starts;
    if es == [] {
      EmptyLog(p, es);
    } else {
      FirstEvent(mem, size, p, es);
      StartsStep(p, es);
      EventDecode(mem, size, p, es[0], 0);
      var next := p + |EncodeEvent(es[0])|;
      ShownOfLog(mem, size, next, es[1..], pcr);
      SelectStep(mem, p, Starts(next, es[1..]), pcr);
    }
  }

  lemma SelectStep(mem: Memory, p: nat, rest: seq<nat>, pcr: dword)
    ensures Select(mem, [p] + rest, pcr) ==
      (if pcr == PCR_INDEX_ALL || pcr == EventPcr(mem, p) then [p] else []) + Select(mem, rest, pcr)
  {
    assert ([p] + rest)[1..] == rest;
  }

  lemma SelectNone(mem: Memory, pcr: dword)
    ensures Select(mem, [], pcr) == []
  {
  }

  // ---------- what the replay means ----------

  /** The digest an event contributes to a PCR in a bank, if it does; events of type 3, EV_NO_ACTION, do not. */
  function MeasuredBy(e: Event, alg: word, pcr: dword): Option<seq<byte>> {
    if e.pcr == pcr && e.eventType != 3 then DigestOf(e.digests, alg) else None
  }

  /** The digests measured into a PCR, in log order. */
  function Measurements(es: seq<Event>, alg: word, pcr: dword): seq<seq<byte>> {
    if es == [] then []
    else
      (match MeasuredBy(es[0], alg, pcr)
       case None => []
       case Some(d) => [d])
      + Measurements(es[1..], alg, pcr)
  }

  /** The value of a PCR register that starts at zero and is extended by the digests, the last of them last. */
  ghost function PcrValue(h: Hashing, alg: word, ds: seq<seq<byte>>): seq<byte> {
    if ds == [] then Zeros(h.size(alg)) else h.hash(alg, PcrValue(h, alg, ds[..|ds| - 1]) + ds[|ds| - 1])
  }

  /** There is room for the hash context of each of these extends. */
  ghost predicate Granted(h: Hashing, alg: word, ds: seq<seq<byte>>) {
    forall i :: 0 <= i < |ds| ==> h.room(alg, PcrValue(h, alg, ds[..i]) + ds[i])
  }

  ghost function ExtendAll(h: Hashing, alg: word, acc: seq<byte>, ds: seq<seq<byte>>): (r: seq<byte>)
    requires Sound(h) && |acc| == HASH_BUFFER
    ensures |r| == HASH_BUFFER
    decreases |ds|
  {
    if ds == [] then acc else ExtendAll(h, alg, Extended(h, alg, acc, ds[0]), ds[1..])
  }

  lemma {:induction false} ExtendAllLast(h: Hashing, alg: word, acc: seq<byte>, ds: seq<seq<byte>>)
    requires Sound(h) && |acc| == HASH_BUFFER && ds != []
    ensures ExtendAll(h, alg, acc, ds) == Extended(h, alg, ExtendAll(h, alg, acc, ds[..|ds| - 1]), ds[|ds| - 1])
    decreases |ds|
  {
    hide Extended;
    if |ds| > 1 {
      assert ds[1..][..|ds| - 2] == ds[..|ds| - 1][1..];
      ExtendAllLast(h, alg, Extended(h, alg, acc, ds[0]), ds[1..]);
    }
  }

  /** For a supported bank the accumulator holds the PCR value, followed by untouched zeros. */
  lemma {:induction false} ExtendAllIsPcrValue(h: Hashing, alg: word, ds: seq<seq<byte>>)
    requires Sound(h) && Supported(alg) && Granted(h, alg, ds)
    ensures |PcrValue(h, alg, ds)| == h.size(alg)
    ensures ExtendAll(h, alg, Zeros(HASH_BUFFER), ds) == PcrValue(h, alg, ds) + Zeros(HASH_BUFFER - h.size(alg))
    decreases |ds|
  {
    if ds == [] {
      assert Zeros(HASH_BUFFER) == Zeros(h.size(alg)) + Zeros(HASH_BUFFER - h.size(alg));
    } else {
      assert Granted(h, alg, ds[..|ds| - 1]) by {
        assert forall i :: 0 <= i < |ds| - 1 ==> ds[..|ds| - 1][..i] == ds[..i];
      }
      ExtendAllIsPcrValue(h, alg, ds[..|ds| - 1]);
      ExtendAllLast(h, alg, Zeros(HASH_BUFFER), ds);
    }
  }

  /** In a bank without support the first measurement fills the digest with 0xFF, and no later one changes it. */
  lemma {:induction false} UnsupportedBankIsFilled(h: Hashing, alg: word, acc: seq<byte>, ds: seq<seq<byte>>)
    requires Sound(h) && !Supported(alg) && |acc| == HASH_BUFFER && ds != []
    ensures ExtendAll(h, alg, acc, ds) == Filled(h.size(alg)) + acc[h.size(alg)..]
    decreases |ds|
  {
    hide Filled;
    if |ds| > 1 {
      UnsupportedBankIsFilled(h, alg, Extended(h, alg, acc, ds[0]), ds[1..]);
    }
  }

  lemma MeasuredDecode(mem: Memory, size: Sizes, p: nat, e: Event, alg: word, pcr: dword)
    requires HoldsEvent(mem, size, p, e)
    ensures MeasuredAt(mem, size, alg, pcr, p) == MeasuredBy(e, alg, pcr)
  {
    EventDecode(mem, size, p, e, alg);
    hide HoldsEvent, EventPcr, EventType, DigestCount, FindDigest, DigestOf, EventSize, EncodeEvent;
    match FindDigest(mem, size, p + 12, DigestCount(mem, p), alg) {
      case None =>
      case Some(a) => assert Bytes(mem, a, size(alg)) == DigestOf(e.digests, alg).value;
    }
  }

  lemma {:induction false} ReplayOfLog(h: Hashing, alg: word, pcr: dword, mem: Memory, p: nat, es: seq<Event>,
        acc: seq<byte>)
    requires Sound(h) && |acc| == HASH_BUFFER && AllWellFormed(h.size, es) && HoldsAt(mem, p, EncodeLog(es))
    ensures ReplayAt(h, alg, pcr, mem, Starts(p, es), acc) == ExtendAll(h, alg, acc, Measurements(es, alg, pcr))
    decreases |es|
  {
    hide EncodeEvent, HoldsAt, EventSize, HoldsEvent, AllWellFormed, EncodeLog, MeasuredAt, MeasuredBy, Extended;
    hide Starts;
    if es == [] {
      EmptyLog(p, es);
    } else {
      FirstEvent(mem, h.size, p, es);
      MeasuredDecode(mem, h.size, p, es[0], alg, pcr);
      StartsStep(p, es);
      var next := Starts(p + |EncodeEvent(es[0])|, es[1..]);
      assert ([p] + next)[1..] == next;
      match MeasuredBy(es[0], alg, pcr) {
        case None =>
          assert Measurements(es, alg, pcr) == Measurements(es[1..], alg, pcr);
          ReplayOfLog(h, alg, pcr, mem, p + |EncodeEvent(es[0])|, es[1..], acc);
        case Some(d) =>
          assert Measurements(es, alg, pcr) == [d] + Measurements(es[1..], alg, pcr);
          assert Measurements(es, alg, pcr)[1..] == Measurements(es[1..], alg, pcr);
          ReplayOfLog(h, alg, pcr, mem, p + |EncodeEvent(es[0])|, es[1..], Extended(h, alg, acc, d));
      }
    }
  }

  /** An event of another PCR, of type EV_NO_ACTION, or without a digest for the bank changes no expected value. */
  lemma {:induction false} UnmeasuredEventsIgnored(before: seq<Event>, e: Event, after: seq<Event>, alg: word,
        pcr: dword)
    requires e.pcr != pcr || e.eventType == 3 || DigestOf(e.digests, alg) == None
    ensures Measurements(before + [e] + after, alg, pcr) == Measurements(before + after, alg, pcr)
    decreases |before|
  {
    if before == [] {
      assert (before + [e] + after)[1..] == after == before + after;
    } else {
      assert (before + [e] + after)[1..] == before[1..] + [e] + after;
      assert (before + after)[1..] == before[1..] + after;
      UnmeasuredEventsIgnored(before[1..], e, after, alg, pcr);
    }
  }

  /** Memory holds a final-events table: version, number of events, and the events. */
  ghost predicate HoldsFinalEvents(mem: Memory, size: Sizes, table: nat, version: nat, fs: seq<Event>) {
    && version < 0x1_0000_0000_0000_0000 && |fs| < 0x1_0000_0000_0000_0000 && AllWellFormed(size, fs)
    && HoldsAt(mem, table, Encode64(version) + Encode64(|fs|) + EncodeLog(fs))
  }

  /** A log as the firmware keeps it, with or without a final-events table. */
  datatype Log = Log(header: Header, events: seq<Event>, finals: Option<FinalTable>)
  datatype FinalTable = FinalTable(version: nat, events: seq<Event>)

  /** Memory holds the log at base, with its last event at last, and its final-events table. */
  ghost predicate HoldsAll(mem: Memory, size: Sizes, base: nat, last: int, finals: Option<nat>, l: Log) {
    && HoldsLog(mem, size, base, l.header, l.events) && last == LastEntry(base, l.header, l.events)
    && match finals
       case None => l.finals == None
       case Some(table) =>
         l.finals.Some? && HoldsFinalEvents(mem, size, table, l.finals.value.version, l.finals.value.events)
  }

  /** All events, those of the log first. */
  function EventsOf(l: Log): seq<Event> {
    l.events + if l.finals.Some? then l.finals.value.events else []
  }

  lemma FinalsDecode(mem: Memory, size: Sizes, table: nat, version: nat, fs: seq<Event>)
    requires HoldsFinalEvents(mem, size, table, version, fs)
    ensures FinalEvents(mem, size, table) == Starts(table + 16, fs) && HoldsAt(mem, table + 16, EncodeLog(fs))
  {
    hide EncodeEvent, HoldsAt, EventSize, AllWellFormed, EncodeLog, Starts, Counted, Encode64, U64;
    HoldsAtConcat(mem, table, Encode64(version) + Encode64(|fs|), EncodeLog(fs));
    HoldsAtConcat(mem, table, Encode64(version), Encode64(|fs|));
    DecodeEncode64(mem, table + 8, |fs|);
    CountVisitsEveryEvent(mem, size, table + 16, fs);
  }

  lemma {:induction false} MeasurementsAppend(es: seq<Event>, fs: seq<Event>, alg: word, pcr: dword)
    ensures Measurements(es + fs, alg, pcr) == Measurements(es, alg, pcr) + Measurements(fs, alg, pcr)
    decreases |es|
  {
    hide MeasuredBy;
    if es == [] {
      assert es + fs == fs;
    } else {
      assert (es + fs)[1..] == es[1..] + fs;
      MeasurementsAppend(es[1..], fs, alg, pcr);
    }
  }

  /** The replay extends the accumulator by the measured digests of the log and of the final events, in order. */
  lemma ReplayIsExtendAll(h: Hashing, mem: Memory, base: nat, last: int, finals: Option<nat>, l: Log, pcr: dword,
        alg: word)
    requires Sound(h) && HoldsAll(mem, h.size, base, last, finals, l)
    ensures ReplayAt(h, alg, pcr, mem, AllEvents(mem, h.size, base, last, finals), Zeros(HASH_BUFFER))
      == ExtendAll(h, alg, Zeros(HASH_BUFFER), Measurements(EventsOf(l), alg, pcr))
  {
    LogReplay(h, mem, base, l.header, l.events, pcr, alg);
    hide HoldsLog, HoldsFinalEvents, ReplayAt, ExtendAll, Visited, FinalEvents, FirstEvent2, Measurements, LastEntry;
    var log := Visited(mem, h.size, FirstEvent2(mem, base), last);
    var ds := Measurements(l.events, alg, pcr);
    match finals {
      case None =>
        assert AllEvents(mem, h.size, base, last, finals) == log && EventsOf(l) == l.events;
      case Some(table) =>
        var fs := l.finals.value;
        ReplayAppend(h, alg, pcr, mem, log, FinalEvents(mem, h.size, table), Zeros(HASH_BUFFER));
        FinalReplay(h, mem, table, fs.version, fs.events, pcr, alg, ExtendAll(h, alg, Zeros(HASH_BUFFER), ds));
        ExtendAllAppend(h, alg, Zeros(HASH_BUFFER), ds, Measurements(fs.events, alg, pcr));
        MeasurementsAppend(l.events, fs.events, alg, pcr);
    }
  }

  lemma LogReplay(h: Hashing, mem: Memory, base: nat, hd: Header, es: seq<Event>, pcr: dword, alg: word)
    requires Sound(h) && HoldsLog(mem, h.size, base, hd, es)
    ensures var ps := Visited(mem, h.size, FirstEvent2(mem, base), LastEntry(base, hd, es));
      ReplayAt(h, alg, pcr, mem, ps, Zeros(HASH_BUFFER))
        == ExtendAll(h, alg, Zeros(HASH_BUFFER), Measurements(es, alg, pcr))
  {
    hide *;
    LogDecode(mem, h.size, base, hd, es);
    LogParts(mem, h.size, base, hd, es);
    BinFileIsTheLog(mem, h.size, base, hd, es);
    ReplayOfLog(h, alg, pcr, mem, base + |EncodeHeader(hd)|, es, Zeros(HASH_BUFFER));
  }

  lemma FinalReplay(h: Hashing, mem: Memory, table: nat, version: nat, fs: seq<Event>, pcr: dword, alg: word,
        acc: seq<byte>)
    requires Sound(h) && HoldsFinalEvents(mem, h.size, table, version, fs) && |acc| == HASH_BUFFER
    ensures ReplayAt(h, alg, pcr, mem, FinalEvents(mem, h.size, table), acc)
      == ExtendAll(h, alg, acc, Measurements(fs, alg, pcr))
  {
    FinalsDecode(mem, h.size, table, version, fs);
    hide HoldsAt, AllWellFormed, EncodeLog, Starts, FinalEvents, ReplayAt, ExtendAll, Measurements, Encode64;
    ReplayOfLog(h, alg, pcr, mem, table + 16, fs, acc);
  }

  /**
   * The replayed value of a SHA-1 or SHA-256 bank is the PCR extended by the measured digests of the log, then of the
   * final events; the bytes behind it are zero.
   */
  lemma ReplayGivesPcrValue(h: Hashing, mem: Memory, base: nat, last: int, finals: Option<nat>, l: Log, pcr: dword,
        alg: word)
    requires Sound(h) && (alg == 0x0004 || alg == 0x000B) && HoldsAll(mem, h.size, base, last, finals, l)
    requires Granted(h, alg, Measurements(EventsOf(l), alg, pcr))
    ensures ReplayAt(h, alg, pcr, mem, AllEvents(mem, h.size, base, last, finals), Zeros(HASH_BUFFER))
      == PcrValue(h, alg, Measurements(EventsOf(l), alg, pcr)) + Zeros(HASH_BUFFER - h.size(alg))
  {
    hide HoldsAll, AllEvents, ReplayAt, ExtendAll, PcrValue, Measurements, Granted;
    ReplayIsExtendAll(h, mem, base, last, finals, l, pcr, alg);
    ExtendAllIsPcrValue(h, alg, Measurements(EventsOf(l), alg, pcr));
  }

  /** The replayed value of any other bank has 0xFF in every byte once anything is measured. */
  lemma ReplayOfUnsupportedBank(h: Hashing, mem: Memory, base: nat, last: int, finals: Option<nat>, l: Log, pcr: dword,
        alg: word)
    requires Sound(h) && alg != 0x0004 && alg != 0x000B && HoldsAll(mem, h.size, base, last, finals, l)
    ensures ReplayAt(h, alg, pcr, mem, AllEvents(mem, h.size, base, last, finals), Zeros(HASH_BUFFER))[..h.size(alg)]
      == seq(h.size(alg), _ => if Measurements(EventsOf(l), alg, pcr) == [] then 0 else 0xFF)
  {
    hide HoldsAll, AllEvents, ReplayAt, Measurements;
    ReplayIsExtendAll(h, mem, base, last, finals, l, pcr, alg);
    var ds := Measurements(EventsOf(l), alg, pcr);
    if ds != [] {
      hide ExtendAll;
      UnsupportedBankIsFilled(h, alg, Zeros(HASH_BUFFER), ds);
    }
  }

  /** What is computed for a written log: one value for each bank of its header event, in that order. */
  ghost predicate AreBankValues(h: Hashing, l: Log, pcr: dword, values: seq<(word, seq<byte>)>)
    requires Sound(h)
  {
    |values| == |l.header.banks| && forall i :: 0 <= i < |values| ==> IsBankValue(h, l, pcr, i, values[i])
  }

  ghost predicate IsBankValue(h: Hashing, l: Log, pcr: dword, i: nat, v: (word, seq<byte>))
    requires Sound(h) && i < |l.header.banks|
  {
    var alg, n := l.header.banks[i].alg, h.size(l.header.banks[i].alg);
    var ds := Measurements(EventsOf(l), alg, pcr);
    && v.0 == alg && n <= |v.1|
    && ((alg == 0x0004 || alg == 0x000B) && Granted(h, alg, ds) ==> v.1[..n] == PcrValue(h, alg, ds))
    && (alg != 0x0004 && alg != 0x000B ==> v.1[..n] == seq(n, _ => if ds == [] then 0 else 0xFF))
  }

  lemma BankValuesOfLog(h: Hashing, mem: Memory, base: nat, last: int, finals: Option<nat>, l: Log, pcr: dword,
        values: seq<(word, seq<byte>)>)
    requires Sound(h) && HoldsAll(mem, h.size, base, last, finals, l) && |values| == AlgorithmCount(mem, base)
    requires forall i :: 0 <= i < |values| ==> values[i].0 == Algorithm(mem, base, i)
    requires forall i :: 0 <= i < |values| ==>
      values[i].1 == ReplayAt(h, values[i].0, pcr, mem, AllEvents(mem, h.size, base, last, finals), Zeros(HASH_BUFFER))
    ensures AreBankValues(h, l, pcr, values)
  {
    LogDecode(mem, h.size, base, l.header, l.events);
    hide HoldsAll, HoldsLog, AllEvents, ReplayAt, IsBankValue, Algorithm, AlgorithmCount, EncodeHeader, FitsHeader;
    forall i | 0 <= i < |values| ensures IsBankValue(h, l, pcr, i, values[i]) {
      BankValue(h, mem, base, last, finals, l, pcr, i);
    }
  }

  lemma BankValue(h: Hashing, mem: Memory, base: nat, last: int, finals: Option<nat>, l: Log, pcr: dword, i: nat)
    requires Sound(h) && HoldsAll(mem, h.size, base, last, finals, l) && i < |l.header.banks|
    ensures var alg := l.header.banks[i].alg;
      var value := ReplayAt(h, alg, pcr, mem, AllEvents(mem, h.size, base, last, finals), Zeros(HASH_BUFFER));
      IsBankValue(h, l, pcr, i, (alg, value))
  {
    hide HoldsAll, AllEvents, ReplayAt, Measurements, Granted, PcrValue;
    var alg := l.header.banks[i].alg;
    if alg == 0x0004 || alg == 0x000B {
      if Granted(h, alg, Measurements(EventsOf(l), alg, pcr)) {
        ReplayGivesPcrValue(h, mem, base, last, finals, l, pcr, alg);
        ExtendAllIsPcrValue(h, alg, Measurements(EventsOf(l), alg, pcr));
      }
    } else {
      ReplayOfUnsupportedBank(h, mem, base, last, finals, l, pcr, alg);
    }
  }

  lemma {:induction false} ExtendAllAppend(h: Hashing, alg: word, acc: seq<byte>, ds: seq<seq<byte>>,
        ts: seq<seq<byte>>)
    requires Sound(h) && |acc| == HASH_BUFFER
    ensures ExtendAll(h, alg, acc, ds + ts) == ExtendAll(h, alg, ExtendAll(h, alg, acc, ds), ts)
    decreases |ds|
  {
    hide Extended;
    if ds == [] {
      assert ds + ts == ts;
    } else {
      assert (ds + ts)[1..] == ds[1..] + ts;
      ExtendAllAppend(h, alg, Extended(h, alg, acc, ds[0]), ds[1..], ts);
    }
  }
}
