/** PCI configuration space, the order of the recursive bus scan, and what the scan reaches. */
module PciConfig {
  import opened Memory

  type device5 = x: int | 0 <= x < 32
  type function3 = x: int | 0 <= x < 8

  /** A requester id: the 8/5/3-bit fields of VTD_SOURCE_ID. The same fields address configuration space. */
  datatype SourceId = SourceId(bus: byte, dev: device5, fn: function3)

  /** Assigning bytes to the VTD_SOURCE_ID bit fields drops the high bits of device and function. */
  function ToSourceId(bus: byte, dev: byte, fn: byte): SourceId {
    SourceId(bus, dev % 32, fn % 8)
  }

  /** Configuration reads, by segment, address and register offset. */
  datatype ConfigSpace = ConfigSpace(
    read8: (word, SourceId, nat) -> byte,
    read16: (word, SourceId, nat) -> word)

  const VENDOR_ID: nat := 0x00
  const DEVICE_ID: nat := 0x02
  const REVISION_ID: nat := 0x08
  const SUB_CLASS: nat := 0x0A
  const BASE_CLASS: nat := 0x0B
  const HEADER_TYPE: nat := 0x0E
  const SECONDARY_BUS: nat := 0x19
  const SUBSYSTEM_VENDOR_ID: nat := 0x2C
  const SUBSYSTEM_ID: nat := 0x2E

  const CLASS_BRIDGE: byte := 0x06
  const CLASS_BRIDGE_P2P: byte := 0x04

  predicate Present(cfg: ConfigSpace, seg: word, id: SourceId) {
    !(cfg.read16(seg, id, VENDOR_ID) == 0xFFFF && cfg.read16(seg, id, DEVICE_ID) == 0xFFFF)
  }

  predicate IsBridge(cfg: ConfigSpace, seg: word, id: SourceId) {
    cfg.read8(seg, id, BASE_CLASS) == CLASS_BRIDGE && cfg.read8(seg, id, SUB_CLASS) == CLASS_BRIDGE_P2P
  }

  function Secondary(cfg: ConfigSpace, seg: word, id: SourceId): byte {
    cfg.read8(seg, id, SECONDARY_BUS)
  }

  /** Bit 7 of the header type of function 0 says whether functions 1 to 7 are looked at. */
  function MaxFunction(cfg: ConfigSpace, seg: word, bus: byte, dev: device5): nat {
    if cfg.read8(seg, SourceId(bus, dev, 0), HEADER_TYPE) < 0x80 then 1 else 8
  }

  /** A function that a scan of its bus sees. */
  predicate Scanned(cfg: ConfigSpace, seg: word, id: SourceId) {
    id.fn < MaxFunction(cfg, seg, id.bus, id.dev) && Present(cfg, seg, id)
  }

  /** A function whose secondary bus the scan descends into. */
  predicate Descends(cfg: ConfigSpace, seg: word, id: SourceId) {
    IsBridge(cfg, seg, id) && Secondary(cfg, seg, id) != 0
  }

  /** A route of bridges from a bus down to the last function of p. */
  ghost predicate Route(cfg: ConfigSpace, seg: word, bus: byte, p: seq<SourceId>)
    decreases |p|
  {
    p != [] && p[0].bus == bus && Scanned(cfg, seg, p[0]) &&
    (|p| > 1 ==> Descends(cfg, seg, p[0]) && Route(cfg, seg, Secondary(cfg, seg, p[0]), p[1..]))
  }

  /** A function that is at the end of such a route. */
  ghost predicate Reachable(cfg: ConfigSpace, seg: word, bus: byte, id: SourceId) {
    exists p :: Route(cfg, seg, bus, p) && p[|p| - 1] == id
  }

  /** The buses behind a bus: a route to the bridge in front of it. */
  ghost predicate Leads(cfg: ConfigSpace, seg: word, bus: byte, b: byte) {
    exists p :: Route(cfg, seg, bus, p) && Descends(cfg, seg, p[|p| - 1]) && Secondary(cfg, seg, p[|p| - 1]) == b
  }

  /** Neither this bus nor a bus behind it is behind itself. */
  ghost predicate LoopFree(cfg: ConfigSpace, seg: word, bus: byte) {
    !Leads(cfg, seg, bus, bus) && forall b: byte :: Leads(cfg, seg, bus, b) ==> !Leads(cfg, seg, b, b)
  }

  ghost function Behind(cfg: ConfigSpace, seg: word, bus: byte): set<byte> {
    set b: byte | 0 <= b < 256 && Leads(cfg, seg, bus, b)
  }

  /** The number of buses behind a bus: what the recursion of a scan descends on. */
  ghost function Rank(cfg: ConfigSpace, seg: word, bus: byte): nat {
    |Behind(cfg, seg, bus)|
  }

  lemma {:induction false} RouteAppend(cfg: ConfigSpace, seg: word, bus: byte, p: seq<SourceId>, q: seq<SourceId>)
    requires Route(cfg, seg, bus, p) && Descends(cfg, seg, p[|p| - 1])
    requires Route(cfg, seg, Secondary(cfg, seg, p[|p| - 1]), q)
    ensures Route(cfg, seg, bus, p + q)
    decreases |p|
  {
    assert (p + q)[1..] == p[1..] + q;
    if |p| > 1 {
      RouteAppend(cfg, seg, Secondary(cfg, seg, p[0]), p[1..], q);
    }
  }

  lemma LeadsOn(cfg: ConfigSpace, seg: word, bus: byte, b: byte, c: byte)
    requires Leads(cfg, seg, bus, b) && Leads(cfg, seg, b, c)
    ensures Leads(cfg, seg, bus, c)
  {
    var p :| Route(cfg, seg, bus, p) && Descends(cfg, seg, p[|p| - 1]) && Secondary(cfg, seg, p[|p| - 1]) == b;
    var q :| Route(cfg, seg, b, q) && Descends(cfg, seg, q[|q| - 1]) && Secondary(cfg, seg, q[|q| - 1]) == c;
    RouteAppend(cfg, seg, bus, p, q);
    assert (p + q)[|p + q| - 1] == q[|q| - 1];
  }

  /** Behind a bridge there are fewer buses, and no loop either. */
  lemma LoopFreeBehind(cfg: ConfigSpace, seg: word, id: SourceId)
    requires LoopFree(cfg, seg, id.bus) && Scanned(cfg, seg, id) && Descends(cfg, seg, id)
    ensures LoopFree(cfg, seg, Secondary(cfg, seg, id))
    ensures Rank(cfg, seg, Secondary(cfg, seg, id)) < Rank(cfg, seg, id.bus)
  {
    var next := Secondary(cfg, seg, id);
    assert Leads(cfg, seg, id.bus, next) by {
      assert Route(cfg, seg, id.bus, [id]);
    }
    hide Leads;
    forall b: byte | Leads(cfg, seg, next, b) ensures Leads(cfg, seg, id.bus, b) {
      LeadsOn(cfg, seg, id.bus, next, b);
    }
    FewerElements(Behind(cfg, seg, next), Behind(cfg, seg, id.bus), next);
  }

  lemma FewerElements(a: set<byte>, b: set<byte>, x: byte)
    requires a <= b && x in b && x !in a
    ensures |a| < |b|
  {
    var rest := b - {x};
    assert a <= rest;
    SubsetSize(a, rest);
  }

  lemma {:induction false} SubsetSize(a: set<byte>, b: set<byte>)
    requires a <= b
    ensures |a| <= |b|
    decreases |a|
  {
    if x :| x in a {
      SubsetSize(a - {x}, b - {x});
    }
  }

  lemma {:induction false} BytesBelow(a: set<byte>, n: nat)
    requires forall b :: b in a ==> b < n
    ensures |a| <= n
  {
    if n > 0 {
      var rest := set b | b in a && b < n - 1;
      BytesBelow(rest, n - 1);
      if n - 1 in a {
        assert a == rest + {n - 1};
      } else {
        assert a == rest;
      }
    }
  }

  lemma {:induction false} RoutesAreShort(cfg: ConfigSpace, seg: word, bus: byte, p: seq<SourceId>)
    requires LoopFree(cfg, seg, bus) && Route(cfg, seg, bus, p)
    ensures |p| <= Rank(cfg, seg, bus) + 1
    decreases |p|
  {
    hide LoopFree, Rank;
    if |p| > 1 {
      LoopFreeBehind(cfg, seg, p[0]);
      RoutesAreShort(cfg, seg, Secondary(cfg, seg, p[0]), p[1..]);
    }
  }

  /** A loop is gone through any number of times. */
  lemma {:induction false} LongRoute(cfg: ConfigSpace, seg: word, bus: byte, b: byte, n: nat)
      returns (p: seq<SourceId>)
    requires Leads(cfg, seg, bus, b) && Leads(cfg, seg, b, b)
    ensures Route(cfg, seg, bus, p) && |p| > n
    ensures Descends(cfg, seg, p[|p| - 1]) && Secondary(cfg, seg, p[|p| - 1]) == b
  {
    if n == 0 {
      p :| Route(cfg, seg, bus, p) && Descends(cfg, seg, p[|p| - 1]) && Secondary(cfg, seg, p[|p| - 1]) == b;
    } else {
      var loop :| Route(cfg, seg, b, loop) && Descends(cfg, seg, loop[|loop| - 1]) &&
        Secondary(cfg, seg, loop[|loop| - 1]) == b;
      var start := LongRoute(cfg, seg, bus, b, n - 1);
      RouteAppend(cfg, seg, bus, start, loop);
      p := start + loop;
    }
  }

  /**
   * The depth of the recursive scan is bounded if and only if no bus it gets to leads back to itself; then it is at
   * most the number of buses.
   */
  lemma ScanEndsExactlyWhen(cfg: ConfigSpace, seg: word, bus: byte)
    ensures LoopFree(cfg, seg, bus) <==> exists n: nat :: DepthAtMost(cfg, seg, bus, n)
    ensures LoopFree(cfg, seg, bus) ==> DepthAtMost(cfg, seg, bus, 256)
  {
    if LoopFree(cfg, seg, bus) {
      BytesBelow(Behind(cfg, seg, bus) + {bus}, 256);
      forall p | Route(cfg, seg, bus, p) ensures |p| <= 256 {
        RoutesAreShort(cfg, seg, bus, p);
      }
      assert DepthAtMost(cfg, seg, bus, 256);
    } else if n: nat :| DepthAtMost(cfg, seg, bus, n) {
      hide Leads;
      var b: byte :| (b == bus || Leads(cfg, seg, bus, b)) && Leads(cfg, seg, b, b);
      var p := LongRoute(cfg, seg, bus, b, n);
      assert false;
    }
  }

  /** No route of bridges from the bus goes through more than n functions. */
  ghost predicate DepthAtMost(cfg: ConfigSpace, seg: word, bus: byte, n: nat) {
    forall p :: Route(cfg, seg, bus, p) ==> |p| <= n
  }

  /** The usual bus numbering: every bridge's secondary bus number exceeds the number of its own bus. */
  ghost predicate IncreasingBuses(cfg: ConfigSpace, seg: word) {
    forall id :: Scanned(cfg, seg, id) && Descends(cfg, seg, id) ==> Secondary(cfg, seg, id) > id.bus
  }

  lemma {:induction false} RoutesIncrease(cfg: ConfigSpace, seg: word, bus: byte, p: seq<SourceId>)
    requires IncreasingBuses(cfg, seg) && Route(cfg, seg, bus, p) && Descends(cfg, seg, p[|p| - 1])
    ensures Secondary(cfg, seg, p[|p| - 1]) > bus
    decreases |p|
  {
    if |p| > 1 {
      RoutesIncrease(cfg, seg, Secondary(cfg, seg, p[0]), p[1..]);
    }
  }

  lemma IncreasingBusesAreLoopFree(cfg: ConfigSpace, seg: word, bus: byte)
    requires IncreasingBuses(cfg, seg)
    ensures LoopFree(cfg, seg, bus)
  {
    hide IncreasingBuses;
    forall b: byte ensures !Leads(cfg, seg, b, b) {
      if Leads(cfg, seg, b, b) {
        var p :| Route(cfg, seg, b, p) && Descends(cfg, seg, p[|p| - 1]) && Secondary(cfg, seg, p[|p| - 1]) == b;
        RoutesIncrease(cfg, seg, b, p);
        assert false;
      }
    }
  }

  /** The functions a scan of a bus visits from (device, function) on, in visiting order. */
  ghost function ScanFrom(cfg: ConfigSpace, seg: word, bus: byte, dev: nat, fn: nat): seq<SourceId>
    requires LoopFree(cfg, seg, bus) && dev <= 32 && fn <= 8
    decreases Rank(cfg, seg, bus), 32 - dev, 8 - fn
  {
    if dev == 32 then []
    else if fn >= MaxFunction(cfg, seg, bus, dev) then ScanFrom(cfg, seg, bus, dev + 1, 0)
    else
      var id := SourceId(bus, dev, fn);
      ScanSlot(cfg, seg, id) + ScanFrom(cfg, seg, bus, dev, fn + 1)
  }

  /** What the scan visits for one function number: the function, if present, and what is behind it. */
  ghost function ScanSlot(cfg: ConfigSpace, seg: word, id: SourceId): seq<SourceId>
    requires LoopFree(cfg, seg, id.bus) && id.fn < MaxFunction(cfg, seg, id.bus, id.dev)
    decreases Rank(cfg, seg, id.bus), 0, 1
  {
    if Present(cfg, seg, id) then [id] + Below(cfg, seg, id) else []
  }

  /** What the scan visits behind a function. */
  ghost function Below(cfg: ConfigSpace, seg: word, id: SourceId): seq<SourceId>
    requires LoopFree(cfg, seg, id.bus) && Scanned(cfg, seg, id)
    decreases Rank(cfg, seg, id.bus), 0, 0
  {
    if Descends(cfg, seg, id) then
      LoopFreeBehind(cfg, seg, id);
      ScanFrom(cfg, seg, Secondary(cfg, seg, id), 0, 0)
    else []
  }

  ghost function ScanOrder(cfg: ConfigSpace, seg: word, bus: byte): seq<SourceId>
    requires LoopFree(cfg, seg, bus)
  {
    ScanFrom(cfg, seg, bus, 0, 0)
  }

  lemma {:induction false} ScanReachesOnly(cfg: ConfigSpace, seg: word, bus: byte, dev: nat, fn: nat,
        x: SourceId)
    requires LoopFree(cfg, seg, bus) && dev <= 32 && fn <= 8
    requires x in ScanFrom(cfg, seg, bus, dev, fn)
    ensures Reachable(cfg, seg, bus, x)
    decreases Rank(cfg, seg, bus), 32 - dev, 8 - fn
  {
    if fn >= MaxFunction(cfg, seg, bus, dev) {
      ScanReachesOnly(cfg, seg, bus, dev + 1, 0, x);
    } else {
      var id := SourceId(bus, dev, fn);
      if x in ScanFrom(cfg, seg, bus, dev, fn + 1) {
        ScanReachesOnly(cfg, seg, bus, dev, fn + 1, x);
      } else if x == id {
        assert Route(cfg, seg, bus, [id]);
      } else {
        var next := Secondary(cfg, seg, id);
        assert x in Below(cfg, seg, id);
        LoopFreeBehind(cfg, seg, id);
        ScanReachesOnly(cfg, seg, next, 0, 0, x);
        var p :| Route(cfg, seg, next, p) && p[|p| - 1] == x;
        assert ([id] + p)[1..] == p;
        assert Route(cfg, seg, bus, [id] + p);
      }
    }
  }

  /** A scan that has not passed id yet still visits id and everything behind it. */
  lemma {:induction false} ScanVisits(cfg: ConfigSpace, seg: word, dev: nat, fn: nat, id: SourceId)
    requires LoopFree(cfg, seg, id.bus) && Scanned(cfg, seg, id)
    requires fn <= 8 && (dev < id.dev || (dev == id.dev && fn <= id.fn))
    ensures id in ScanFrom(cfg, seg, id.bus, dev, fn)
    ensures forall x :: x in Below(cfg, seg, id) ==> x in ScanFrom(cfg, seg, id.bus, dev, fn)
    decreases 32 - dev, 8 - fn
  {
    if fn >= MaxFunction(cfg, seg, id.bus, dev) {
      ScanVisits(cfg, seg, dev + 1, 0, id);
    } else if SourceId(id.bus, dev, fn) != id {
      ScanVisits(cfg, seg, dev, fn + 1, id);
    }
  }

  lemma {:induction false} ScanReachesAll(cfg: ConfigSpace, seg: word, bus: byte, p: seq<SourceId>)
    requires LoopFree(cfg, seg, bus) && Route(cfg, seg, bus, p)
    ensures p[|p| - 1] in ScanOrder(cfg, seg, bus)
    decreases |p|
  {
    ScanVisits(cfg, seg, 0, 0, p[0]);
    if |p| > 1 {
      LoopFreeBehind(cfg, seg, p[0]);
      ScanReachesAll(cfg, seg, Secondary(cfg, seg, p[0]), p[1..]);
      assert p[|p| - 1] in Below(cfg, seg, p[0]);
    }
  }

  /** The scan order lists exactly the functions reachable from the start bus. */
  lemma ScanOrderIsReachability(cfg: ConfigSpace, seg: word, bus: byte, id: SourceId)
    requires LoopFree(cfg, seg, bus)
    ensures id in ScanOrder(cfg, seg, bus) <==> Reachable(cfg, seg, bus, id)
  {
    if id in ScanOrder(cfg, seg, bus) {
      ScanReachesOnly(cfg, seg, bus, 0, 0, id);
    } else if Reachable(cfg, seg, bus, id) {
      var p :| Route(cfg, seg, bus, p) && p[|p| - 1] == id;
      ScanReachesAll(cfg, seg, bus, p);
    }
  }
}
