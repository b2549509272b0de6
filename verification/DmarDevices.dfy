/** What the entries of a unit say about their devices, and when a DRHD is rejected. */
module DmarDevices {
  import opened Memory
  import opened PciConfig
  import opened VtdUnits
  import opened VtdFill
  import opened DmarTable

  // ---------- what is in an entry ----------

  /**
   * The registers that an entry has a copy of, by its type: ids and revision for a PCI endpoint (1) or bridge (2),
   * subsystem ids for an endpoint.
   */
  predicate Described(cfg: ConfigSpace, seg: word, d: PciDevice) {
    && d.vendorId == (if d.deviceType == 1 || d.deviceType == 2 then cfg.read16(seg, d.id, 0x00) else 0)
    && d.deviceId == (if d.deviceType == 1 || d.deviceType == 2 then cfg.read16(seg, d.id, 0x02) else 0)
    && d.revisionId == (if d.deviceType == 1 || d.deviceType == 2 then cfg.read8(seg, d.id, 0x08) else 0)
    && d.subsystemVendorId == (if d.deviceType == 1 then cfg.read16(seg, d.id, 0x2C) else 0)
    && d.subsystemDeviceId == (if d.deviceType == 1 then cfg.read16(seg, d.id, 0x2E) else 0)
  }

  /** The type of a scanned function, from base class and subclass. */
  function ClassType(cfg: ConfigSpace, seg: word, id: SourceId): byte {
    if cfg.read8(seg, id, 0x0B) == 6 && cfg.read8(seg, id, 0x0A) == 4 then 2 else 1
  }

  /** An entry of the unit for the DRHD at p: its type is that of a scope entry that names the device, or its class. */
  ghost predicate IsEntry(w: World, p: nat, d: PciDevice)
    requires DrhdChain(w.mem, p)
  {
    var s, qs := DrhdSegment(w.mem, p), DrhdScopes(w.mem, p);
    && Described(w.cfg, s, d)
    && (d.deviceType == ClassType(w.cfg, s, d.id)
        || exists i :: 0 <= i < |qs| && ScopeId(w.mem, w.cfg, s, qs[i]) == d.id && w.mem(qs[i]) == d.deviceType)
  }

  lemma ReadIsDescribed(cfg: ConfigSpace, seg: word, id: SourceId, deviceType: byte)
    ensures Described(cfg, seg, ReadDevice(cfg, seg, id, deviceType))
    ensures ReadDevice(cfg, seg, id, deviceType).id == id
    ensures ReadDevice(cfg, seg, id, deviceType).deviceType == deviceType
    ensures ScanType(cfg, seg, id) == ClassType(cfg, seg, id)
  {
  }

  /** All entries of a unit are of a kind. */
  ghost predicate All(u: UnitView, kind: PciDevice -> bool) {
    forall i :: 0 <= i < |u.devices| ==> kind(u.devices[i])
  }

  lemma RegisterInKeepsAll(f: Fill, cfg: ConfigSpace, pool: Pool, seg: word, id: SourceId, deviceType: byte,
        checkExist: bool, kind: PciDevice -> bool)
    requires f.k < |f.units| && All(f.units[f.k], kind) && kind(ReadDevice(cfg, seg, id, deviceType))
    ensures All(RegisterIn(f, cfg, pool, seg, id, deviceType, checkExist).fill.units[f.k], kind)
  {
    hide ReadDevice;
  }

  lemma {:induction false} ScanInKeepsAll(f: Fill, cfg: ConfigSpace, pool: Pool, seg: word, ids: seq<SourceId>,
        kind: PciDevice -> bool)
    requires f.k < |f.units| && All(f.units[f.k], kind)
    requires forall id :: kind(ReadDevice(cfg, seg, id, ScanType(cfg, seg, id)))
    ensures All(ScanIn(f, cfg, pool, seg, ids).fill.units[f.k], kind)
    decreases |ids|
  {
    hide All, RegisterIn, ReadDevice, ScanType;
    if ids != [] {
      var r := RegisterIn(f, cfg, pool, seg, ids[0], ScanType(cfg, seg, ids[0]), false);
      RegisterInKeepsAll(f, cfg, pool, seg, ids[0], ScanType(cfg, seg, ids[0]), false, kind);
      if r.status == Success {
        ScanInKeepsAll(r.fill, cfg, pool, seg, ids[1..], kind);
      }
    }
  }

  lemma {:induction false} ScopesInKeepAll(f: Fill, w: World, s: word, qs: seq<nat>, kind: PciDevice -> bool)
    requires f.k < |f.units| && ScopesLoopFree(w.cfg, w.mem, s, qs) && All(f.units[f.k], kind)
    requires forall id :: kind(ReadDevice(w.cfg, s, id, ScanType(w.cfg, s, id)))
    requires forall i :: 0 <= i < |qs| ==> kind(ReadDevice(w.cfg, s, ScopeId(w.mem, w.cfg, s, qs[i]), w.mem(qs[i])))
    ensures All(ScopesIn(f, w, s, qs).fill.units[f.k], kind)
    decreases |qs|
  {
    hide All, RegisterIn, ReadDevice, ScanType, ScanIn, ScopeId, ScanOrder;
    if qs != [] {
      var id := ScopeId(w.mem, w.cfg, s, qs[0]);
      var r := RegisterIn(f, w.cfg, w.pool, s, id, w.mem(qs[0]), true);
      RegisterInKeepsAll(f, w.cfg, w.pool, s, id, w.mem(qs[0]), true, kind);
      if w.mem(qs[0]) == BRIDGE {
        ScanInKeepsAll(r.fill, w.cfg, w.pool, s, ScanOrder(w.cfg, s, Secondary(w.cfg, s, id)), kind);
      }
      var next := ScopeIn(f, w, s, qs[0]);
      if next.status == Success {
        ScopesInKeepAll(next.fill, w, s, qs[1..], kind);
      }
    }
  }

  /** Whatever fails, every entry that a DRHD makes in its unit is one of its own. */
  lemma DrhdInMakesEntries(g: Stage, k: nat, w: World, p: nat)
    requires k < |g.units| && IsDrhd(w, p) && g.units[k].devices == []
    ensures forall d :: d in DrhdIn(g, k, w, p).fill.units[k].devices ==> IsEntry(w, p, d)
  {
    var s, qs, f := DrhdSegment(w.mem, p), DrhdScopes(w.mem, p), Begin(g, k, w, p);
    ghost var kind := (d: PciDevice) => IsEntry(w, p, d);
    forall id ensures kind(ReadDevice(w.cfg, s, id, ScanType(w.cfg, s, id))) {
      ReadIsDescribed(w.cfg, s, id, ScanType(w.cfg, s, id));
    }
    forall i | 0 <= i < |qs| ensures kind(ReadDevice(w.cfg, s, ScopeId(w.mem, w.cfg, s, qs[i]), w.mem(qs[i]))) {
      ReadIsDescribed(w.cfg, s, ScopeId(w.mem, w.cfg, s, qs[i]), w.mem(qs[i]));
    }
    assert All(f.units[k], kind);
    hide ReadDevice, ScanType, ScanIn, ScopeId, IsEntry, ScopesIn, ScanOrder;
    if DrhdIncludeAll(w.mem, p) {
      ScanInKeepsAll(f, w.cfg, w.pool, s, ScanOrder(w.cfg, s, 0), kind);
    }
    var r := SegmentIn(f, w, p);
    ScopesInKeepAll(r.fill, w, s, qs, kind);
  }

  /** So it is after every run, for every pool and status. */
  lemma {:induction false} DrhdsInMakeEntries(g: Stage, k: nat, w: World, ds: seq<nat>, m: nat)
    requires k + |ds| <= |g.units| && AreDrhds(w, ds) && Blank(g.units, k) && k <= m < k + |ds|
    ensures forall d :: d in DrhdsIn(g, k, w, ds).stage.units[m].devices ==> IsEntry(w, ds[m - k], d)
    decreases |ds|
  {
    hide DrhdIn, IsEntry;
    var r := DrhdIn(g, k, w, ds[0]);
    var h := Stage(r.fill.units, r.fill.attempts);
    DrhdInMakesEntries(g, k, w, ds[0]);
    DrhdInFrame(g, k, w, ds[0]);
    if r.status == Success {
      if m == k {
        DrhdsInKeepEarlier(h, k + 1, w, ds[1..]);
      } else {
        DrhdsInMakeEntries(h, k + 1, w, ds[1..], m);
      }
    }
  }

  // ---------- duplicates ----------

  /**
   * Entry i of the list names a PCI device that the unit has already: from before, or because an earlier entry of the
   * list assigns it. What an earlier unit claims does not count.
   */
  ghost predicate IsDuplicate(us: seq<UnitView>, k: nat, w: World, s: word, qs: seq<nat>, i: nat)
    requires k < |us| && i < |qs|
  {
    var id := ScopeId(w.mem, w.cfg, s, qs[i]);
    && (w.mem(qs[i]) == 1 || w.mem(qs[i]) == 2) && !Claimed(us, k, s, id)
    && (Registered(us[k], s, id) || AssignedByScopes(w.cfg, w.mem, s, qs[..i], id))
  }

  ghost predicate HasDuplicate(us: seq<UnitView>, k: nat, w: World, s: word, qs: seq<nat>)
    requires k < |us|
  {
    exists i :: 0 <= i < |qs| && IsDuplicate(us, k, w, s, qs, i)
  }

  lemma {:induction false} ScanInSucceeds(f: Fill, cfg: ConfigSpace, pool: Pool, seg: word, ids: seq<SourceId>)
    requires f.k < |f.units| && forall i :: pool(i)
    ensures ScanIn(f, cfg, pool, seg, ids).status == Success
    decreases |ids|
  {
    hide Claimed, Registered, Added;
    if ids != [] {
      ScanInSucceeds(RegisterIn(f, cfg, pool, seg, ids[0], ScanType(cfg, seg, ids[0]), false).fill, cfg, pool, seg,
        ids[1..]);
    }
  }

  lemma ScopeInStatus(f: Fill, w: World, q: nat)
    requires f.k < |f.units| && ScopeLoopFree(w.cfg, w.mem, f.units[f.k].segment, q) && forall i :: w.pool(i)
    ensures var s := f.units[f.k].segment; var id := ScopeId(w.mem, w.cfg, s, q);
      ScopeIn(f, w, s, q).status ==
        if (w.mem(q) == 1 || w.mem(q) == 2) && !Claimed(f.units, f.k, s, id) && Registered(f.units[f.k], s, id)
        then AlreadyStarted else Success
  {
    var s := f.units[f.k].segment;
    var id := ScopeId(w.mem, w.cfg, s, q);
    var r := RegisterIn(f, w.cfg, w.pool, s, id, w.mem(q), true);
    if w.mem(q) == BRIDGE {
      ScanInSucceeds(r.fill, w.cfg, w.pool, s, ScanOrder(w.cfg, s, Secondary(w.cfg, s, id)));
    }
    hide Claimed, Registered, Added, ScanIn, ScopeId;
  }

  lemma DuplicateStep(us: seq<UnitView>, vs: seq<UnitView>, k: nat, w: World, s: word, qs: seq<nat>, i: nat)
    requires k < |us| == |vs| && Extends(us, vs, k) && 0 < i < |qs|
    requires forall id :: Registered(vs[k], s, id) <==>
      Registered(us[k], s, id) || (AssignedByScope(w.cfg, w.mem, s, qs[0], id) && !Claimed(us, k, s, id))
    ensures IsDuplicate(us, k, w, s, qs, i) <==> IsDuplicate(vs, k, w, s, qs[1..], i - 1)
  {
    var id := ScopeId(w.mem, w.cfg, s, qs[i]);
    ClaimedKept(us, vs, k, s, id);
    AssignedFirstOrRest(w.cfg, w.mem, s, qs[..i], id);
    assert qs[..i][1..] == qs[1..][..i - 1] && qs[1..][i - 1] == qs[i];
    hide Claimed, Registered, AssignedByScope, AssignedByScopes, ScopeId;
  }

  lemma {:induction false} ScopesInStatus(f: Fill, w: World, qs: seq<nat>)
    requires f.k < |f.units| && ScopesLoopFree(w.cfg, w.mem, f.units[f.k].segment, qs) && forall i :: w.pool(i)
    ensures var s := f.units[f.k].segment;
      ScopesIn(f, w, s, qs).status == if HasDuplicate(f.units, f.k, w, s, qs) then AlreadyStarted else Success
    decreases |qs|
  {
    var s := f.units[f.k].segment;
    if qs != [] {
      var r := ScopeIn(f, w, s, qs[0]);
      ScopeInStatus(f, w, qs[0]);
      assert r.status != Success <==> IsDuplicate(f.units, f.k, w, s, qs, 0);
      if r.status == Success {
        forall id
          ensures Extends(f.units, r.fill.units, f.k)
          ensures Registered(r.fill.units[f.k], s, id) <==>
            Registered(f.units[f.k], s, id)
            || (AssignedByScope(w.cfg, w.mem, s, qs[0], id) && !Claimed(f.units, f.k, s, id))
        {
          ScopeInAdds(f, w, qs[0], id);
        }
        hide Registered, AssignedByScope, Claimed, IsDuplicate, ScopeIn;
        ScopesInStatus(r.fill, w, qs[1..]);
        forall i | 0 < i < |qs|
          ensures IsDuplicate(f.units, f.k, w, s, qs, i) <==> IsDuplicate(r.fill.units, f.k, w, s, qs[1..], i - 1)
        {
          DuplicateStep(f.units, r.fill.units, f.k, w, s, qs, i);
        }
        SameDuplicates(f.units, r.fill.units, f.k, w, s, qs);
      }
    }
  }

  lemma SameDuplicates(us: seq<UnitView>, vs: seq<UnitView>, k: nat, w: World, s: word, qs: seq<nat>)
    requires k < |us| == |vs| && qs != [] && !IsDuplicate(us, k, w, s, qs, 0)
    requires forall i :: 0 < i < |qs| ==>
      (IsDuplicate(us, k, w, s, qs, i) <==> IsDuplicate(vs, k, w, s, qs[1..], i - 1))
    ensures HasDuplicate(us, k, w, s, qs) <==> HasDuplicate(vs, k, w, s, qs[1..])
  {
    hide IsDuplicate;
    if j :| 0 <= j < |qs| - 1 && IsDuplicate(vs, k, w, s, qs[1..], j) {
      assert IsDuplicate(us, k, w, s, qs, j + 1);
    }
    if i :| 0 <= i < |qs| && IsDuplicate(us, k, w, s, qs, i) {
      assert IsDuplicate(vs, k, w, s, qs[1..], i - 1);
    }
  }

  /**
   * With memory for every array a DRHD is rejected exactly if one of its entries names a PCI device that the unit has
   * already: from the scan of the segment, or from an entry before it.
   */
  lemma RejectedExactlyWhen(g: Stage, k: nat, w: World, p: nat)
    requires k < |g.units| && IsDrhd(w, p) && g.units[k].devices == [] && forall i :: w.pool(i)
    ensures var s, qs, us := DrhdSegment(w.mem, p), DrhdScopes(w.mem, p), Begin(g, k, w, p).units;
      DrhdIn(g, k, w, p).status ==
        if exists i :: 0 <= i < |qs| && NamedAgain(us, k, w, p, i) then AlreadyStarted else Success
  {
    var s, qs, f := DrhdSegment(w.mem, p), DrhdScopes(w.mem, p), Begin(g, k, w, p);
    var r := SegmentIn(f, w, p);
    if DrhdIncludeAll(w.mem, p) {
      ScanInSucceeds(f, w.cfg, w.pool, s, ScanOrder(w.cfg, s, 0));
    }
    forall i | 0 <= i < |qs| ensures NamedAgain(f.units, k, w, p, i) <==> IsDuplicate(r.fill.units, k, w, s, qs, i) {
      NamedAgainIsDuplicate(g, k, w, p, i);
    }
    assert r.status == Success && r.fill.units[k].segment == s by {
      SegmentKept(g, k, w, p);
    }
    hide ScanIn, ScopesIn, NamedAgain, IsDuplicate;
    ScopesInStatus(r.fill, w, qs);
  }

  /** Entry i of the DRHD names a PCI device that no earlier unit claims, and that was assigned to the unit before. */
  ghost predicate NamedAgain(us: seq<UnitView>, k: nat, w: World, p: nat, i: nat)
    requires k < |us| && DrhdChain(w.mem, p) && i < |DrhdScopes(w.mem, p)|
  {
    var s, qs := DrhdSegment(w.mem, p), DrhdScopes(w.mem, p);
    var id := ScopeId(w.mem, w.cfg, s, qs[i]);
    && (w.mem(qs[i]) == 1 || w.mem(qs[i]) == 2) && !Claimed(us, k, s, id)
    && ((DrhdIncludeAll(w.mem, p) && Reachable(w.cfg, s, 0, id))
        || AssignedByScopes(w.cfg, w.mem, s, qs[..i], id))
  }

  lemma SegmentKept(g: Stage, k: nat, w: World, p: nat)
    requires k < |g.units| && IsDrhd(w, p) && forall i :: w.pool(i)
    ensures var f := Begin(g, k, w, p); var r := SegmentIn(f, w, p);
      r.status == Success && Extends(f.units, r.fill.units, k)
  {
    var s, f := DrhdSegment(w.mem, p), Begin(g, k, w, p);
    if DrhdIncludeAll(w.mem, p) {
      ScanInSucceeds(f, w.cfg, w.pool, s, ScanOrder(w.cfg, s, 0));
      ScanInExactly(f, w.cfg, w.pool, 0, SourceId(0, 0, 0));
    }
    hide ScanIn;
  }

  lemma NamedAgainIsDuplicate(g: Stage, k: nat, w: World, p: nat, i: nat)
    requires k < |g.units| && IsDrhd(w, p) && g.units[k].devices == [] && forall i :: w.pool(i)
    requires i < |DrhdScopes(w.mem, p)|
    ensures var f := Begin(g, k, w, p); var r := SegmentIn(f, w, p);
      NamedAgain(f.units, k, w, p, i) <==>
        IsDuplicate(r.fill.units, k, w, DrhdSegment(w.mem, p), DrhdScopes(w.mem, p), i)
  {
    var s, f := DrhdSegment(w.mem, p), Begin(g, k, w, p);
    var id := ScopeId(w.mem, w.cfg, s, DrhdScopes(w.mem, p)[i]);
    var r := SegmentIn(f, w, p);
    SegmentKept(g, k, w, p);
    assert !Registered(f.units[k], s, id);
    if DrhdIncludeAll(w.mem, p) {
      ScanInExactly(f, w.cfg, w.pool, 0, id);
    }
    ClaimedKept(f.units, r.fill.units, k, s, id);
    hide ScanIn, Registered, Claimed, Reachable, AssignedByScopes, ScopeId;
  }
}
