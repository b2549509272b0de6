/** Walking the DMAR table: counting its DRHDs, and filling one unit from each. */
module Dmar {
  import opened Memory
  import opened PciConfig
  import opened VtdUnits
  import opened VtdFill
  import opened VtdTable
  import opened DmarTable
  import opened DmarDevices
  import opened DmarEncoding

  /** The number of DRHD structures, hence of units. */
  method GetVtdEngineNumber(mem: Memory, table: nat) returns (n: nat)
    requires DmarChain(mem, table)
    ensures n == |DmarDrhds(mem, table)|
  {
    n := 0;
    var p := table + DMAR_HEADER;
    while p < TableEnd(mem, table)
      invariant StructureChain(mem, p, TableEnd(mem, table))
      invariant n + |Drhds(mem, p, TableEnd(mem, table))| == |DmarDrhds(mem, table)|
      decreases TableEnd(mem, table) - p
    {
      if U16(mem, p) == TYPE_DRHD {
        n := n + 1;
      }
      p := p + U16(mem, p + 2);
    }
  }

  /** Follows a device scope path through the secondary buses of its bridges. */
  method GetPciBusDeviceFunction(mem: Memory, cfg: ConfigSpace, s: word, p: nat)
      returns (bus: byte, dev: byte, fn: byte)
    ensures ToSourceId(bus, dev, fn) == ScopeId(mem, cfg, s, p)
    ensures forall sc :: FitsScope(sc) && HoldsAt(mem, p, EncodeScope(sc)) ==>
      ToSourceId(bus, dev, fn) == Named(cfg, s, sc)
    ensures bus == PathBus(mem, cfg, s, p, Hops(mem, p))
    ensures dev == PathDevice(mem, p, Hops(mem, p)) && fn == PathFunction(mem, p, Hops(mem, p))
  {
    forall sc | FitsScope(sc) && HoldsAt(mem, p, EncodeScope(sc))
      ensures ScopeId(mem, cfg, s, p) == Named(cfg, s, sc)
    {
      ScopeDecode(mem, cfg, s, p, sc);
    }
    hide Named, EncodeScope, HoldsAt;
    var path := p + SCOPE_HEADER;
    bus, dev, fn := mem(p + 5), mem(path), mem(path + 1);
    if mem(p) == ENDPOINT || mem(p) == BRIDGE {
      ghost var i := 0;
      while path + 2 < p + mem(p + 1)
        invariant path == p + SCOPE_HEADER + 2 * i && i <= Hops(mem, p)
        invariant bus == PathBus(mem, cfg, s, p, i) && dev == PathDevice(mem, p, i) && fn == PathFunction(mem, p, i)
        decreases p + mem(p + 1) - path
      {
        bus := cfg.read8(s, ToSourceId(bus, dev, fn), SECONDARY_BUS);
        path := path + 2;
        dev, fn := mem(path), mem(path + 1);
        i := i + 1;
      }
    }
  }

  ghost function WorldOf(table: Table, cfg: ConfigSpace, mem: Memory): World {
    World(cfg, mem, table.pool)
  }

  /** One device scope entry. Only a duplicate PCI device, or a failed allocation for one, stops the table. */
  method ProcessScope(table: Table, k: nat, cfg: ConfigSpace, mem: Memory, s: word, q: nat)
      returns (status: Status)
    requires table.Valid() && k < |table.units| && ScopeLoopFree(cfg, mem, s, q)
    modifies table`attempts, table.units[k], table.units[k].data
    ensures table.Valid()
    ensures table.units[k].data == old(table.units[k].data) || fresh(table.units[k].data)
    ensures Step(table.FillOf(k), status) == ScopeIn(old(table.FillOf(k)), WorldOf(table, cfg, mem), s, q)
  {
    hide Table.FillOf, Table.Views, Table.Valid, RegisterIn, ScanIn, ScopeId, ScanOrder;
    var bus, dev, fn := GetPciBusDeviceFunction(mem, cfg, s, q);
    var id, deviceType := ToSourceId(bus, dev, fn), mem(q);
    status := table.RegisterPciDevice(cfg, k, s, id, deviceType, true);
    if status != Success && (deviceType == ENDPOINT || deviceType == BRIDGE) {
      return;
    }
    status := Success;
    if deviceType == BRIDGE {
      status := table.ScanPciBus(cfg, k, s, cfg.read8(s, id, SECONDARY_BUS));
    }
  }

  lemma ScopesStep(f: Fill, w: World, s: word, q: nat, end: nat)
    requires f.k < |f.units| && q < end && ScopeChain(w.mem, q, end)
    requires ScopesLoopFree(w.cfg, w.mem, s, Scopes(w.mem, q, end))
    ensures w.mem(q + 1) > 0 && ScopeChain(w.mem, q + w.mem(q + 1), end) && ScopeLoopFree(w.cfg, w.mem, s, q)
    ensures ScopesLoopFree(w.cfg, w.mem, s, Scopes(w.mem, q + w.mem(q + 1), end))
    ensures var r := ScopeIn(f, w, s, q);
      ScopesIn(f, w, s, Scopes(w.mem, q, end)) ==
        if r.status != Success then r else ScopesIn(r.fill, w, s, Scopes(w.mem, q + w.mem(q + 1), end))
  {
    hide ScopeIn;
    var rest := Scopes(w.mem, q + w.mem(q + 1), end);
    assert ([q] + rest)[1..] == rest;
  }

  lemma ScopesEnd(f: Fill, w: World, s: word, q: nat, end: nat)
    requires f.k < |f.units| && q >= end
    ensures ScopeChain(w.mem, q, end) && ScopesIn(f, w, s, Scopes(w.mem, q, end)) == Step(f, Success)
  {
  }

  /** The device scope entries of one DRHD, from its first to its last or to the first error. */
  method ProcessScopes(table: Table, k: nat, cfg: ConfigSpace, mem: Memory, s: word, first: nat, end: nat)
      returns (status: Status)
    requires table.Valid() && k < |table.units|
    requires ScopeChain(mem, first, end) && ScopesLoopFree(cfg, mem, s, Scopes(mem, first, end))
    modifies table`attempts, table.units[k], table.units[k].data
    ensures table.Valid()
    ensures table.units[k].data == old(table.units[k].data) || fresh(table.units[k].data)
    ensures Step(table.FillOf(k), status) ==
      ScopesIn(old(table.FillOf(k)), WorldOf(table, cfg, mem), s, Scopes(mem, first, end))
  {
    hide Table.FillOf, Table.Views, Table.Valid, ScopeIn, ScopesIn, Scopes, ScopeChain, ScopesLoopFree, ScopeLoopFree;
    ghost var w := WorldOf(table, cfg, mem);
    ghost var goal := ScopesIn(table.FillOf(k), w, s, Scopes(mem, first, end));
    var q := first;
    while q < end
      invariant ScopeChain(mem, q, end) && ScopesLoopFree(cfg, mem, s, Scopes(mem, q, end)) && table.Valid()
      invariant table.units[k].data == old(table.units[k].data) || fresh(table.units[k].data)
      invariant goal == ScopesIn(table.FillOf(k), w, s, Scopes(mem, q, end))
      decreases end - q
    {
      ScopesStep(table.FillOf(k), w, s, q, end);
      status := ProcessScope(table, k, cfg, mem, s, q);
      if status != Success {
        return;
      }
      q := q + mem(q + 1);
    }
    ScopesEnd(table.FillOf(k), w, s, q, end);
    status := Success;
  }

  /** Base address, segment and INCLUDE_PCI_ALL flag of unit k. */
  method SetHeader(table: Table, k: nat, mem: Memory, p: nat)
    requires table.Valid() && k < |table.units|
    modifies table.units[k]
    ensures table.Valid() && table.units[k].data == old(table.units[k].data)
    ensures table.FillOf(k) == old(table.FillOf(k)).(units := HeaderUnits(old(table.Views()), k, mem, p))
  {
    var u := table.units[k];
    u.base, u.segment, u.includeAll := DrhdBase(mem, p), DrhdSegment(mem, p), DrhdIncludeAll(mem, p);
    table.OnlyUnitChanged(k);
  }

  /** Under INCLUDE_PCI_ALL, the scan of the whole segment. */
  method ScanSegment(table: Table, k: nat, cfg: ConfigSpace, mem: Memory, p: nat)
      returns (status: Status)
    requires table.Valid() && k < |table.units| && SegmentLoopFree(cfg, mem, p)
    modifies table`attempts, table.units[k], table.units[k].data
    ensures table.Valid()
    ensures table.units[k].data == old(table.units[k].data) || fresh(table.units[k].data)
    ensures Step(table.FillOf(k), status) == SegmentIn(old(table.FillOf(k)), WorldOf(table, cfg, mem), p)
  {
    hide Table.FillOf, Table.Views, Table.Valid, ScanIn;
    status := Success;
    if DrhdIncludeAll(mem, p) {
      status := table.ScanPciBus(cfg, k, DrhdSegment(mem, p), 0);
    }
  }

  ghost function StageAt(table: Table): (g: Stage)
    reads table, table.units, set u | u in table.units :: u.data
    requires table.Valid()
    ensures |g.units| == |table.units|
  {
    Stage(table.Views(), table.attempts)
  }

  lemma FillAndStage(table: Table, k: nat)
    requires table.Valid() && k < |table.units|
    ensures StageAt(table) == Stage(table.FillOf(k).units, table.FillOf(k).attempts)
    ensures table.FillOf(k).room == table.units[k].maxNumber
  {
  }

  /** Fills unit k, which has no array yet, from the DRHD at p. */
  method ProcessDhrd(table: Table, k: nat, cfg: ConfigSpace, mem: Memory, p: nat)
      returns (status: Status)
    requires table.Valid() && k < |table.units| && IsDrhd(WorldOf(table, cfg, mem), p)
    requires table.units[k].maxNumber == 0
    modifies table`attempts, table.units[k], table.units[k].data
    ensures table.Valid()
    ensures table.units[k].data == old(table.units[k].data) || fresh(table.units[k].data)
    ensures Step(table.FillOf(k), status) == DrhdIn(old(StageAt(table)), k, WorldOf(table, cfg, mem), p)
  {
    hide Table.Views, Table.Valid, SegmentIn, ScopesIn, HeaderUnits;
    SetHeader(table, k, mem, p);
    status := ScanSegment(table, k, cfg, mem, p);
    if status == Success {
      status := ProcessScopes(table, k, cfg, mem, DrhdSegment(mem, p), p + DRHD_HEADER, p + DrhdLength(mem, p));
    }
  }

  /** AllocateZeroPool for the units; null when there is no room. */
  method AllocateUnits(n: nat, pool: Pool) returns (table: Table?)
    ensures table != null <==> pool(0)
    ensures table != null ==>
      && fresh(table) && fresh(table.units) && table.pool == pool && |table.units| == n
      && table.Valid() && (forall i :: 0 <= i < n ==> table.units[i].data == null)
      && StageAt(table) == Stage(BlankUnits(n), 1)
  {
    if !pool(0) {
      return null;
    }
    var us: seq<Unit> := [];
    while |us| < n
      invariant |us| <= n && fresh(us)
      invariant forall i, j :: 0 <= i < j < |us| ==> us[i] != us[j]
      invariant forall i :: 0 <= i < |us| ==>
        us[i].Valid() && us[i].data == null && us[i].View() == UnitView(0, 0, false, [])
    {
      var u := new Unit();
      us := us + [u];
    }
    table := new Table(us, pool);
  }

  lemma DrhdsStep(g: Stage, k: nat, w: World, p: nat, end: nat)
    requires p < end && StructureChain(w.mem, p, end) && AreDrhds(w, Drhds(w.mem, p, end))
    requires k + |Drhds(w.mem, p, end)| <= |g.units|
    ensures U16(w.mem, p + 2) > 0 && StructureChain(w.mem, p + U16(w.mem, p + 2), end)
    ensures AreDrhds(w, Drhds(w.mem, p + U16(w.mem, p + 2), end))
    ensures var rest := Drhds(w.mem, p + U16(w.mem, p + 2), end);
      if U16(w.mem, p) == TYPE_DRHD then
        && IsDrhd(w, p) && |Drhds(w.mem, p, end)| == 1 + |rest|
        && var r := DrhdIn(g, k, w, p);
        var h := Stage(r.fill.units, r.fill.attempts);
        DrhdsIn(g, k, w, Drhds(w.mem, p, end)) ==
          if r.status != Success then Outcome(h, r.status) else DrhdsIn(h, k + 1, w, rest)
      else Drhds(w.mem, p, end) == rest
  {
    hide DrhdIn, IsDrhd;
    var rest := Drhds(w.mem, p + U16(w.mem, p + 2), end);
    assert ([p] + rest)[1..] == rest && [] + rest == rest && ([p] + rest)[0] == p;
  }

  lemma DrhdsEnd(g: Stage, k: nat, w: World, p: nat, end: nat)
    requires p >= end && k <= |g.units|
    ensures StructureChain(w.mem, p, end) && Drhds(w.mem, p, end) == [] && DrhdsIn(g, k, w, []) == Outcome(g, Success)
  {
  }

  /** Fills the units of a fresh table from the DRHDs in table order, up to the first error. */
  method ProcessDrhds(table: Table, mem: Memory, base: nat, cfg: ConfigSpace)
      returns (status: Status)
    requires DmarChain(mem, base) && |table.units| == |DmarDrhds(mem, base)|
    requires AreDrhds(WorldOf(table, cfg, mem), DmarDrhds(mem, base))
    requires table.Valid() && forall u :: u in table.units ==> u.data == null
    modifies table, table.units
    ensures table.Valid()
    ensures Outcome(StageAt(table), status) ==
      DrhdsIn(old(StageAt(table)), 0, WorldOf(table, cfg, mem), DmarDrhds(mem, base))
  {
    hide DrhdsIn, DrhdIn, Drhds, StructureChain, U16, AreDrhds, Table.Views;
    ghost var w, end := WorldOf(table, cfg, mem), TableEnd(mem, base);
    ghost var goal := DrhdsIn(StageAt(table), 0, w, DmarDrhds(mem, base));
    var k, p := 0, base + DMAR_HEADER;
    while p < TableEnd(mem, base)
      invariant StructureChain(mem, p, end) && AreDrhds(w, Drhds(mem, p, end))
      invariant k + |Drhds(mem, p, end)| == |table.units|
      invariant table.Valid() && forall i :: k <= i < |table.units| ==> table.units[i].maxNumber == 0
      invariant forall u :: u in table.units && u.data != null ==> fresh(u.data)
      invariant goal == DrhdsIn(StageAt(table), k, w, Drhds(mem, p, end))
      decreases end - p
    {
      DrhdsStep(StageAt(table), k, w, p, end);
      if U16(mem, p) == TYPE_DRHD {
        status := ProcessDhrd(table, k, cfg, mem, p);
        FillAndStage(table, k);
        if status != Success {
          return;
        }
        k := k + 1;
      }
      p := p + U16(mem, p + 2);
    }
    DrhdsEnd(StageAt(table), k, w, p, end);
    status := Success;
  }

  /** Zero-filled units. */
  ghost function BlankUnits(n: nat): (us: seq<UnitView>)
    ensures |us| == n && Blank(us, 0) && Separated(us)
  {
    seq(n, _ => UnitView(0, 0, false, []))
  }

  /** The run over all DRHDs, from zero-filled units and after their allocation. */
  ghost function Run(w: World, ds: seq<nat>): (r: Outcome)
    requires AreDrhds(w, ds)
    ensures |r.stage.units| == |ds|
  {
    DrhdsIn(Stage(BlankUnits(|ds|), 1), 0, w, ds)
  }

  /** The stage of the run at which unit m is processed. */
  ghost function StageIn(w: World, ds: seq<nat>, m: nat): (g: Stage)
    requires AreDrhds(w, ds) && m < |ds|
    ensures |g.units| == |ds|
  {
    StageOf(Stage(BlankUnits(|ds|), 1), 0, w, ds, m)
  }

  /**
   * Whatever the pool does, the units stay separated and bounded, and no unit holds a device that its DRHD does not
   * assign.
   */
  lemma RunIsSound(w: World, ds: seq<nat>)
    requires AreDrhds(w, ds)
    ensures var us := Run(w, ds).stage.units;
      && Separated(us)
      && (forall m :: 0 <= m < |us| ==> |us[m].devices| <= 0x1_0000)
      && (forall m, id :: 0 <= m < |us| ==> HoldsOnly(us, m, w, ds[m], id))
      && (forall m, d :: 0 <= m < |us| && d in us[m].devices ==> IsEntry(w, ds[m], d))
  {
    hide DrhdsIn, HoldsOnly, HoldsKept, IsEntry;
    var g := Stage(BlankUnits(|ds|), 1);
    DrhdsInSeparated(g, 0, w, ds);
    var us := Run(w, ds).stage.units;
    forall m | 0 <= m < |us| ensures |us[m].devices| <= 0x1_0000 {
      DistinctBounded(us[m].devices);
    }
    forall m, id | 0 <= m < |us| ensures HoldsOnly(us, m, w, ds[m], id) {
      DrhdsInHold(g, 0, w, ds, m, id);
    }
    forall m, d | 0 <= m < |us| && d in us[m].devices ensures IsEntry(w, ds[m], d) {
      DrhdsInMakeEntries(g, 0, w, ds, m);
    }
  }

  /**
   * After a run that reports success every unit holds exactly what its DRHD keeps: all that it assigns except the
   * special devices that were named each time with a full array and an exhausted pool. So the unit is exact if and
   * only if it lost none.
   */
  lemma SuccessfulRun(w: World, ds: seq<nat>, m: nat)
    requires AreDrhds(w, ds) && m < |ds| && Run(w, ds).status == Success
    ensures var us, g := Run(w, ds).stage.units, StageIn(w, ds, m);
      && (forall id :: HoldsKept(us, m, w, ds[m], g, id))
      && ((forall id :: HoldsExactly(us, m, w, ds[m], id)) <==> NothingLost(g, m, w, ds[m]))
      && ((forall i :: w.pool(i)) ==> NothingLost(g, m, w, ds[m]))
  {
    hide DrhdsIn, HoldsOnly, HoldsKept, HoldsExactly, NothingLost;
    var us, g := Run(w, ds).stage.units, StageIn(w, ds, m);
    forall id ensures HoldsKept(us, m, w, ds[m], g, id) {
      DrhdsInHold(Stage(BlankUnits(|ds|), 1), 0, w, ds, m, id);
    }
    EarlierUnitsAreFinal(Stage(BlankUnits(|ds|), 1), 0, w, ds, m);
    ExactExactlyWhen(us, m, w, ds[m], g);
    if forall i :: w.pool(i) {
      PlentifulLosesNothing(g, m, w, ds[m]);
    }
  }

  /** The unit for a DRHD: its header, and exactly the devices it is about that no earlier unit of the segment has. */
  ghost predicate IsUnitOf(us: seq<UnitView>, m: nat, cfg: ConfigSpace, d: Drhd)
    requires m < |us| && FitsDrhd(d)
  {
    var includeAll := d.flags % 2 == 1;
    && us[m].base == d.base && us[m].segment == d.segment && us[m].includeAll == includeAll
    && forall id :: Holds(us[m], id) <==> AssignedBy(cfg, d, id) && !(includeAll && HeldBefore(us, m, d.segment, id))
  }

  ghost predicate HeldBefore(us: seq<UnitView>, m: nat, seg: word, id: SourceId)
    requires m <= |us|
  {
    exists j :: 0 <= j < m && us[j].segment == seg && Holds(us[j], id)
  }

  ghost predicate Holds(u: UnitView, id: SourceId) {
    exists i :: 0 <= i < |u.devices| && u.devices[i].id == id
  }

  /**
   * A table that was written is parsed into its units: if memory holds it, and there is room for everything, an
   * error-free run makes one unit for each DRHD in it, in order, and each is the unit of its DRHD.
   */
  lemma WrittenTable(w: World, base: nat, t: AcpiTable)
    requires FitsTable(t) && HoldsAt(w.mem, base, EncodeTable(t)) && forall i :: w.pool(i)
    ensures DmarChain(w.mem, base)
    ensures var ds, all := DmarDrhds(w.mem, base), DrhdsOf(t.structures);
      && |ds| == |all|
      && (AreDrhds(w, ds) && Run(w, ds).status == Success ==>
          forall m :: 0 <= m < |all| ==> FitsDrhd(all[m]) && IsUnitOf(Run(w, ds).stage.units, m, w.cfg, all[m]))
  {
    hide HoldsAt, EncodeTable, FitsTable, DmarChain, DmarDrhds, Run, IsUnitOf, EncodeDrhd, FitsDrhd;
    TableDecode(w.mem, base, t);
    var ds, all := DmarDrhds(w.mem, base), DrhdsOf(t.structures);
    if AreDrhds(w, ds) && Run(w, ds).status == Success {
      forall m | 0 <= m < |all| ensures FitsDrhd(all[m]) && IsUnitOf(Run(w, ds).stage.units, m, w.cfg, all[m]) {
        SuccessfulRun(w, ds, m);
        ExactUnit(w, Run(w, ds).stage.units, m, ds[m], all[m]);
      }
    }
  }

  lemma ExactUnit(w: World, us: seq<UnitView>, m: nat, p: nat, d: Drhd)
    requires m < |us| && FitsDrhd(d) && HoldsAt(w.mem, p, EncodeDrhd(d)) && DrhdChain(w.mem, p)
    requires forall id :: HoldsExactly(us, m, w, p, id)
    ensures IsUnitOf(us, m, w.cfg, d)
  {
    hide HoldsAt, EncodeDrhd, FitsDrhd, AssignedBy, Assigned, DrhdBase, DrhdSegment, DrhdIncludeAll;
    DrhdDecode(w.mem, p, d);
    assert HoldsExactly(us, m, w, p, SourceId(0, 0, 0));
    forall id
      ensures Holds(us[m], id) <==>
        AssignedBy(w.cfg, d, id) && !(d.flags % 2 == 1 && HeldBefore(us, m, d.segment, id))
    {
      assert HoldsExactly(us, m, w, p, id);
      AssignedDecode(w.mem, w.cfg, p, d, id);
      assert forall j :: 0 <= j < m ==> (Registered(us[j], d.segment, id) <==>
        us[j].segment == d.segment && Holds(us[j], id));
    }
  }

  /**
   * Parses the DMAR table at base: for every table and every pool, status and contents are those of the run over its
   * DRHDs.
   */
  method ParseDmarAcpiTableDrhd(mem: Memory, base: nat, cfg: ConfigSpace, pool: Pool)
      returns (status: Status, table: Table?)
    requires DmarChain(mem, base) && AreDrhds(World(cfg, mem, pool), DmarDrhds(mem, base))
    ensures table == null <==> DmarDrhds(mem, base) == [] || !pool(0)
    ensures table == null ==> status == if DmarDrhds(mem, base) == [] then DeviceError else OutOfResources
    ensures table != null ==>
      var w, ds := World(cfg, mem, pool), DmarDrhds(mem, base);
      && table.Valid() && |table.units| == |ds|
      && Outcome(StageAt(table), status) == Run(w, ds)
      && Separated(table.Views())
      && (forall m :: 0 <= m < |ds| ==> |table.Views()[m].devices| <= 0x1_0000)
      && (forall m, id :: 0 <= m < |ds| ==> HoldsOnly(table.Views(), m, w, ds[m], id))
      && (forall m, d :: 0 <= m < |ds| && d in table.Views()[m].devices ==> IsEntry(w, ds[m], d))
      && (status == Success ==>
        forall m :: 0 <= m < |ds| ==>
          ((forall id :: HoldsExactly(table.Views(), m, w, ds[m], id)) <==>
            NothingLost(StageIn(w, ds, m), m, w, ds[m])))
  {
    hide DrhdsIn, HoldsOnly, HoldsExactly, NothingLost, Separated, IsEntry, Table.Views, DmarDrhds, DmarChain;
    var n := GetVtdEngineNumber(mem, base);
    if n == 0 {
      return DeviceError, null;
    }
    table := AllocateUnits(n, pool);
    if table == null {
      return OutOfResources, null;
    }
    status := ProcessDrhds(table, mem, base, cfg);
    ghost var w, ds := World(cfg, mem, pool), DmarDrhds(mem, base);
    RunIsSound(w, ds);
    if status == Success {
      forall m | 0 <= m < |ds|
        ensures (forall id :: HoldsExactly(table.Views(), m, w, ds[m], id)) <==>
          NothingLost(StageIn(w, ds, m), m, w, ds[m])
      {
        SuccessfulRun(w, ds, m);
      }
    }
  }
}
