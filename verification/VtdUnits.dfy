/** What the per-unit device tables of the VT-d dump hold, and how registering devices changes them. */
module VtdUnits {
  import opened Memory
  import opened PciConfig

  /** DMAR device scope types (section 8.3.1 of the Intel VT-d specification). */
  const ENDPOINT: byte := 1
  const BRIDGE: byte := 2

  /** One registered device. Registers that its scope type does not read stay zero. */
  datatype PciDevice = PciDevice(
    deviceType: byte, id: SourceId,
    vendorId: word, deviceId: word, revisionId: byte,
    subsystemVendorId: word, subsystemDeviceId: word)

  /** The contents of one remapping unit. */
  datatype UnitView = UnitView(base: nat, segment: word, includeAll: bool, devices: seq<PciDevice>)

  datatype Status = Success | AlreadyStarted | OutOfResources | DeviceError

  function ReadDevice(cfg: ConfigSpace, seg: word, id: SourceId, deviceType: byte): PciDevice {
    var pci := deviceType == ENDPOINT || deviceType == BRIDGE;
    var endpoint := deviceType == ENDPOINT;
    PciDevice(
      deviceType, id,
      if pci then cfg.read16(seg, id, VENDOR_ID) else 0,
      if pci then cfg.read16(seg, id, DEVICE_ID) else 0,
      if pci then cfg.read8(seg, id, REVISION_ID) else 0,
      if endpoint then cfg.read16(seg, id, SUBSYSTEM_VENDOR_ID) else 0,
      if endpoint then cfg.read16(seg, id, SUBSYSTEM_ID) else 0)
  }

  /** The unit belongs to the segment and has an entry for the id. */
  predicate Registered(u: UnitView, seg: word, id: SourceId) {
    seg == u.segment && exists i :: 0 <= i < |u.devices| && u.devices[i].id == id
  }

  /** An INCLUDE_PCI_ALL unit leaves alone what an earlier unit of the segment has. */
  predicate Claimed(us: seq<UnitView>, k: nat, seg: word, id: SourceId)
    requires k < |us|
  {
    us[k].includeAll && exists j :: 0 <= j < k && Registered(us[j], seg, id)
  }

  function Register(us: seq<UnitView>, k: nat, cfg: ConfigSpace, seg: word, id: SourceId,
        deviceType: byte): seq<UnitView>
    requires k < |us|
  {
    if Claimed(us, k, seg, id) || Registered(us[k], seg, id) then us
    else us[k := us[k].(devices := us[k].devices + [ReadDevice(cfg, seg, id, deviceType)])]
  }

  /** A device that is already there is an error only when the caller asks for one. */
  function RegisterStatus(us: seq<UnitView>, k: nat, seg: word, id: SourceId, checkExist: bool): Status
    requires k < |us|
  {
    if !Claimed(us, k, seg, id) && Registered(us[k], seg, id) && checkExist then AlreadyStarted else Success
  }

  function ScanType(cfg: ConfigSpace, seg: word, id: SourceId): byte {
    if IsBridge(cfg, seg, id) then BRIDGE else ENDPOINT
  }

  /** Registering a list of scanned functions in order. */
  function RegisterAll(us: seq<UnitView>, k: nat, cfg: ConfigSpace, seg: word, ids: seq<SourceId>): (r: seq<UnitView>)
    requires k < |us|
    ensures |r| == |us|
    decreases |ids|
  {
    if ids == [] then us
    else RegisterAll(Register(us, k, cfg, seg, ids[0], ScanType(cfg, seg, ids[0])), k, cfg, seg, ids[1..])
  }

  /** Only the devices of unit k change, and its table only grows at the end. */
  ghost predicate Extends(us: seq<UnitView>, vs: seq<UnitView>, k: nat)
    requires k < |us| == |vs|
  {
    && (forall j :: 0 <= j < |us| && j != k ==> vs[j] == us[j])
    && us[k].devices <= vs[k].devices
    && vs[k] == us[k].(devices := vs[k].devices)
  }

  lemma {:induction false} RegisterAllExtends(us: seq<UnitView>, k: nat, cfg: ConfigSpace, seg: word,
        ids: seq<SourceId>)
    requires k < |us|
    ensures Extends(us, RegisterAll(us, k, cfg, seg, ids), k)
    decreases |ids|
  {
    if ids != [] {
      var vs := Register(us, k, cfg, seg, ids[0], ScanType(cfg, seg, ids[0]));
      assert Extends(us, vs, k);
      RegisterAllExtends(vs, k, cfg, seg, ids[1..]);
    }
  }

  // ---------- the table invariant ----------

  /** No id occurs twice in a unit. */
  ghost predicate DistinctIds(ds: seq<PciDevice>) {
    forall i, j :: 0 <= i < j < |ds| ==> ds[i].id != ds[j].id
  }

  ghost predicate Disjoint(u: UnitView, v: UnitView) {
    forall id :: !(Registered(u, u.segment, id) && Registered(v, u.segment, id))
  }

  /** Ids are unique in every unit, and an INCLUDE_PCI_ALL unit shares none with an earlier unit of its segment. */
  ghost predicate Separated(us: seq<UnitView>) {
    && (forall i :: 0 <= i < |us| ==> DistinctIds(us[i].devices))
    && (forall j, m :: 0 <= j < m < |us| && us[m].includeAll ==> Disjoint(us[m], us[j]))
  }

  /** Units from k on are as AllocateZeroPool left them. */
  ghost predicate Blank(us: seq<UnitView>, k: nat) {
    forall m :: k <= m < |us| ==> us[m] == UnitView(0, 0, false, [])
  }

  lemma RegisterSeparated(us: seq<UnitView>, k: nat, cfg: ConfigSpace, id: SourceId, deviceType: byte)
    requires k < |us| && Separated(us) && Blank(us, k + 1)
    ensures Separated(Register(us, k, cfg, us[k].segment, id, deviceType))
  {
    var seg := us[k].segment;
    var vs := Register(us, k, cfg, seg, id, deviceType);
    if vs != us {
      var n := |us[k].devices|;
      assert vs[k].devices[n].id == id && vs[k].devices[..n] == us[k].devices;
      forall i | 0 <= i < |us| ensures DistinctIds(vs[i].devices) {
        if i != k { assert vs[i] == us[i]; }
      }
      forall j, m | 0 <= j < m < |us| && vs[m].includeAll ensures Disjoint(vs[m], vs[j]) {
        assert m <= k && Disjoint(us[m], us[j]);
        forall x ensures !(Registered(vs[m], vs[m].segment, x) && Registered(vs[j], vs[m].segment, x)) {
          if x != id && Registered(vs[m], vs[m].segment, x) {
            assert Registered(us[m], us[m].segment, x);
          }
        }
      }
    }
  }

  lemma {:induction false} RegisterAllSeparated(us: seq<UnitView>, k: nat, cfg: ConfigSpace, ids: seq<SourceId>)
    requires k < |us| && Separated(us) && Blank(us, k + 1)
    ensures Separated(RegisterAll(us, k, cfg, us[k].segment, ids))
    decreases |ids|
  {
    if ids != [] {
      RegisterSeparated(us, k, cfg, ids[0], ScanType(cfg, us[k].segment, ids[0]));
      var vs := Register(us, k, cfg, us[k].segment, ids[0], ScanType(cfg, us[k].segment, ids[0]));
      assert vs[k].segment == us[k].segment;
      RegisterAllSeparated(vs, k, cfg, ids[1..]);
    }
  }

  // ---------- what a list of registrations adds ----------

  lemma RegisterAddsExactly(us: seq<UnitView>, k: nat, cfg: ConfigSpace, x: SourceId, deviceType: byte, id: SourceId)
    requires k < |us|
    ensures var seg := us[k].segment; var vs := Register(us, k, cfg, seg, x, deviceType);
      Registered(vs[k], seg, id) <==> Registered(us[k], seg, id) || (id == x && !Claimed(us, k, seg, id))
  {
    var seg := us[k].segment;
    var vs := Register(us, k, cfg, seg, x, deviceType);
    if vs != us {
      var n := |us[k].devices|;
      assert vs[k].devices[n].id == x && vs[k].devices[..n] == us[k].devices;
      if Registered(us[k], seg, id) {
        var i :| 0 <= i < n && us[k].devices[i].id == id;
        assert vs[k].devices[i].id == id;
      }
    }
  }

  /** Registering a list adds to unit k exactly its ids that no earlier unit claims, and drops none. */
  lemma {:induction false} RegisterAllAddsExactly(us: seq<UnitView>, k: nat, cfg: ConfigSpace, ids: seq<SourceId>,
        id: SourceId)
    requires k < |us|
    ensures var seg := us[k].segment; var vs := RegisterAll(us, k, cfg, seg, ids);
      Registered(vs[k], seg, id) <==> Registered(us[k], seg, id) || (id in ids && !Claimed(us, k, seg, id))
    decreases |ids|
  {
    if ids != [] {
      var seg := us[k].segment;
      var vs := Register(us, k, cfg, seg, ids[0], ScanType(cfg, seg, ids[0]));
      RegisterAddsExactly(us, k, cfg, ids[0], ScanType(cfg, seg, ids[0]), id);
      assert forall j :: 0 <= j < k ==> vs[j] == us[j];
      assert Claimed(vs, k, seg, id) == Claimed(us, k, seg, id);
      RegisterAllAddsExactly(vs, k, cfg, ids[1..], id);
    }
  }

  /** A bus scan adds exactly the reachable functions that neither this unit nor an earlier one of the segment has. */
  lemma ScanAddsExactly(us: seq<UnitView>, k: nat, cfg: ConfigSpace, bus: byte, id: SourceId)
    requires k < |us| && LoopFree(cfg, us[k].segment, bus)
    ensures var seg := us[k].segment;
      var vs := RegisterAll(us, k, cfg, seg, ScanOrder(cfg, seg, bus));
      Registered(vs[k], seg, id) <==>
        Registered(us[k], seg, id) || (Reachable(cfg, seg, bus, id) && !Claimed(us, k, seg, id))
  {
    RegisterAllAddsExactly(us, k, cfg, ScanOrder(cfg, us[k].segment, bus), id);
    ScanOrderIsReachability(cfg, us[k].segment, bus, id);
  }

  // ---------- a unit never outgrows the id space ----------

  function IdNumber(id: SourceId): (n: nat)
    ensures n < 0x1_0000
  {
    id.bus * 0x100 + id.dev * 8 + id.fn
  }

  lemma IdNumberInjective(a: SourceId, b: SourceId)
    requires IdNumber(a) == IdNumber(b)
    ensures a == b
  {
    assert IdNumber(a) / 0x100 == a.bus && IdNumber(b) / 0x100 == b.bus;
    assert a.dev * 8 + a.fn == b.dev * 8 + b.fn;
  }

  lemma {:induction false} CardinalityBound(s: set<nat>, n: nat)
    requires forall x :: x in s ==> x < n
    ensures |s| <= n
    decreases n
  {
    if n > 0 {
      CardinalityBound(s - {n - 1}, n - 1);
      if n - 1 in s { assert s == (s - {n - 1}) + {n - 1}; } else { assert s == s - {n - 1}; }
    } else {
      assert s == {};
    }
  }

  ghost function IdNumbers(ds: seq<PciDevice>): (s: set<nat>)
    ensures forall x :: x in s ==> x < 0x1_0000 && exists i :: 0 <= i < |ds| && IdNumber(ds[i].id) == x
  {
    if ds == [] then {}
    else
      var n := |ds| - 1;
      assert forall i :: 0 <= i < n ==> ds[..n][i] == ds[i];
      IdNumbers(ds[..n]) + {IdNumber(ds[n].id)}
  }

  lemma {:induction false} IdNumbersCount(ds: seq<PciDevice>)
    requires DistinctIds(ds)
    ensures |IdNumbers(ds)| == |ds|
  {
    if ds != [] {
      var n := |ds| - 1;
      IdNumbersCount(ds[..n]);
      hide IdNumber;
      forall i | 0 <= i < n ensures IdNumber(ds[..n][i].id) != IdNumber(ds[n].id) {
        if IdNumber(ds[i].id) == IdNumber(ds[n].id) {
          IdNumberInjective(ds[i].id, ds[n].id);
          assert false;
        }
      }
      assert IdNumber(ds[n].id) !in IdNumbers(ds[..n]);
    }
  }

  /** Unique 16-bit ids: at most 65536 entries. */
  lemma DistinctBounded(ds: seq<PciDevice>)
    requires DistinctIds(ds)
    ensures |ds| <= 0x1_0000
  {
    IdNumbersCount(ds);
    CardinalityBound(IdNumbers(ds), 0x1_0000);
  }
}
