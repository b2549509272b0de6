/**
 * Filling one unit while its table grows and any allocation may fail: the exact course, for every pattern of
 * failures.
 */
module VtdFill {
  import opened Memory
  import opened PciConfig
  import opened VtdUnits

  /** The step by which a device array grows. */
  const MAX_VTD_PCI_DATA_NUMBER: nat := 0x100

  /** Whether each allocation, by its number, finds room. */
  type Pool = nat -> bool

  /** The units, the one being filled, the capacity of its array, and the number of allocations tried so far. */
  datatype Fill = Fill(units: seq<UnitView>, k: nat, room: nat, attempts: nat)

  datatype Step = Step(fill: Fill, status: Status)

  predicate Full(f: Fill)
    requires f.k < |f.units|
  {
    |f.units[f.k].devices| >= f.room
  }

  /** One more device would need an allocation, and it would fail. */
  predicate Refused(f: Fill, pool: Pool)
    requires f.k < |f.units|
  {
    Full(f) && !pool(f.attempts)
  }

  /** Registering a device: an allocation is tried exactly when the device is to be added and the array is full. */
  function RegisterIn(f: Fill, cfg: ConfigSpace, pool: Pool, seg: word, id: SourceId, deviceType: byte,
        checkExist: bool): (r: Step)
    requires f.k < |f.units|
    ensures r.fill.k == f.k && |r.fill.units| == |f.units|
  {
    if Claimed(f.units, f.k, seg, id) || Registered(f.units[f.k], seg, id) then
      Step(f, RegisterStatus(f.units, f.k, seg, id, checkExist))
    else if Refused(f, pool) then
      Step(f.(attempts := f.attempts + 1), OutOfResources)
    else
      Step(Added(f, ReadDevice(cfg, seg, id, deviceType)), Success)
  }

  /** One more device, in a larger array if the old one is full. */
  function Added(f: Fill, d: PciDevice): (r: Fill)
    requires f.k < |f.units|
    ensures r.k == f.k && |r.units| == |f.units|
  {
    var u := f.units[f.k];
    var more := if Full(f) then 1 else 0;
    var room := f.room + more * MAX_VTD_PCI_DATA_NUMBER;
    Fill(f.units[f.k := u.(devices := u.devices + [d])], f.k, room, f.attempts + more)
  }

  /** Registering scanned functions in order, up to the first failed allocation. */
  function ScanIn(f: Fill, cfg: ConfigSpace, pool: Pool, seg: word, ids: seq<SourceId>): (r: Step)
    requires f.k < |f.units|
    ensures r.fill.k == f.k && |r.fill.units| == |f.units|
    decreases |ids|
  {
    if ids == [] then Step(f, Success)
    else
      var r := RegisterIn(f, cfg, pool, seg, ids[0], ScanType(cfg, seg, ids[0]), false);
      if r.status != Success then r else ScanIn(r.fill, cfg, pool, seg, ids[1..])
  }

  /** What is done after a step that succeeded. */
  function Then(r: Step, cfg: ConfigSpace, pool: Pool, seg: word, ids: seq<SourceId>): Step
    requires r.fill.k < |r.fill.units|
  {
    if r.status != Success then r else ScanIn(r.fill, cfg, pool, seg, ids)
  }

  lemma {:induction false} ScanInAppend(f: Fill, cfg: ConfigSpace, pool: Pool, seg: word, a: seq<SourceId>,
        b: seq<SourceId>)
    requires f.k < |f.units|
    ensures ScanIn(f, cfg, pool, seg, a + b) == Then(ScanIn(f, cfg, pool, seg, a), cfg, pool, seg, b)
    decreases |a|
  {
    if a == [] {
      assert a + b == b;
    } else {
      assert (a + b)[1..] == a[1..] + b;
      var r := RegisterIn(f, cfg, pool, seg, a[0], ScanType(cfg, seg, a[0]), false);
      if r.status == Success {
        ScanInAppend(r.fill, cfg, pool, seg, a[1..], b);
      }
    }
  }

  lemma ScanInOne(f: Fill, cfg: ConfigSpace, pool: Pool, seg: word, id: SourceId)
    requires f.k < |f.units|
    ensures ScanIn(f, cfg, pool, seg, []) == Step(f, Success)
    ensures ScanIn(f, cfg, pool, seg, [id]) == RegisterIn(f, cfg, pool, seg, id, ScanType(cfg, seg, id), false)
  {
    assert [id][1..] == [];
  }

  lemma RegisterInRegisters(f: Fill, cfg: ConfigSpace, pool: Pool, seg: word, id: SourceId, deviceType: byte,
        checkExist: bool)
    requires f.k < |f.units|
    ensures var r := RegisterIn(f, cfg, pool, seg, id, deviceType, checkExist);
      r.fill.units == if r.status == OutOfResources then f.units else Register(f.units, f.k, cfg, seg, id, deviceType)
  {
  }

  /**
   * A scan registers its functions in order: all of them on success, and otherwise those before the one that found no
   * room.
   */
  lemma {:induction false} ScanInIsPrefix(f: Fill, cfg: ConfigSpace, pool: Pool, seg: word, ids: seq<SourceId>)
      returns (n: nat)
    requires f.k < |f.units|
    ensures n <= |ids|
    ensures var r := ScanIn(f, cfg, pool, seg, ids);
      && r.fill.units == RegisterAll(f.units, f.k, cfg, seg, ids[..n])
      && (if n == |ids| then r.status == Success else r.status == OutOfResources)
    decreases |ids|
  {
    n := 0;
    if ids != [] {
      var r := RegisterIn(f, cfg, pool, seg, ids[0], ScanType(cfg, seg, ids[0]), false);
      if r.status == Success {
        var m := ScanInIsPrefix(r.fill, cfg, pool, seg, ids[1..]);
        n := m + 1;
        assert ids[..n][1..] == ids[1..][..m];
      }
    }
  }

  /** Registering one device, by what the unit holds afterwards. */
  lemma RegisterInExactly(f: Fill, cfg: ConfigSpace, pool: Pool, x: SourceId, deviceType: byte, checkExist: bool,
        id: SourceId)
    requires f.k < |f.units|
    ensures var seg := f.units[f.k].segment; var r := RegisterIn(f, cfg, pool, seg, x, deviceType, checkExist);
      && Extends(f.units, r.fill.units, f.k)
      && (Registered(r.fill.units[f.k], seg, id) <==>
        Registered(f.units[f.k], seg, id) || (id == x && !Claimed(f.units, f.k, seg, id) && !Refused(f, pool)))
  {
    RegisterAddsExactly(f.units, f.k, cfg, x, deviceType, id);
  }

  lemma ClaimedKept(us: seq<UnitView>, vs: seq<UnitView>, k: nat, seg: word, id: SourceId)
    requires k < |us| == |vs| && Extends(us, vs, k)
    ensures Claimed(vs, k, seg, id) == Claimed(us, k, seg, id)
  {
  }

  /**
   * A scan, by what the unit holds afterwards: only scanned functions that no earlier unit claims, and on success all
   * of them.
   */
  lemma ScanInExactly(f: Fill, cfg: ConfigSpace, pool: Pool, bus: byte, id: SourceId)
    requires f.k < |f.units| && LoopFree(cfg, f.units[f.k].segment, bus)
    ensures var seg := f.units[f.k].segment; var r := ScanIn(f, cfg, pool, seg, ScanOrder(cfg, seg, bus));
      && Extends(f.units, r.fill.units, f.k)
      && (Registered(r.fill.units[f.k], seg, id) ==>
        Registered(f.units[f.k], seg, id) || (Reachable(cfg, seg, bus, id) && !Claimed(f.units, f.k, seg, id)))
      && (Registered(f.units[f.k], seg, id) ==> Registered(r.fill.units[f.k], seg, id))
      && (r.status == Success && Reachable(cfg, seg, bus, id) && !Claimed(f.units, f.k, seg, id) ==>
        Registered(r.fill.units[f.k], seg, id))
  {
    var seg := f.units[f.k].segment;
    var ids := ScanOrder(cfg, seg, bus);
    hide RegisterAll, ScanFrom, ScanIn;
    var n := ScanInIsPrefix(f, cfg, pool, seg, ids);
    RegisterAllExtends(f.units, f.k, cfg, seg, ids[..n]);
    RegisterAllAddsExactly(f.units, f.k, cfg, ids[..n], id);
    ScanOrderIsReachability(cfg, seg, bus, id);
    assert n == |ids| ==> ids[..n] == ids;
    assert id in ids[..n] ==> id in ids;
  }

  /** What filling unit k keeps: the table invariant, and blank units behind k. */
  ghost predicate Ready(us: seq<UnitView>, k: nat, s: word) {
    k < |us| && Separated(us) && Blank(us, k + 1) && us[k].segment == s
  }

  lemma RegisterInReady(f: Fill, cfg: ConfigSpace, pool: Pool, s: word, id: SourceId, deviceType: byte,
        checkExist: bool)
    requires Ready(f.units, f.k, s)
    ensures Ready(RegisterIn(f, cfg, pool, s, id, deviceType, checkExist).fill.units, f.k, s)
  {
    RegisterSeparated(f.units, f.k, cfg, id, deviceType);
    RegisterInRegisters(f, cfg, pool, s, id, deviceType, checkExist);
  }

  lemma ScanInReady(f: Fill, cfg: ConfigSpace, pool: Pool, s: word, ids: seq<SourceId>)
    requires Ready(f.units, f.k, s)
    ensures Ready(ScanIn(f, cfg, pool, s, ids).fill.units, f.k, s)
  {
    hide ScanIn, RegisterAll;
    var n := ScanInIsPrefix(f, cfg, pool, s, ids);
    RegisterAllSeparated(f.units, f.k, cfg, ids[..n]);
    RegisterAllExtends(f.units, f.k, cfg, s, ids[..n]);
  }
}
