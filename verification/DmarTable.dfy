/** The DMAR table in memory (section 8 of the Intel VT-d specification) and what its DRHD structures assign. */
module DmarTable {
  import opened Memory
  import opened PciConfig
  import opened VtdUnits
  import opened VtdFill

  const TYPE_DRHD: word := 0
  /** Sizes of the DMAR table header, of a DRHD structure and of a device scope entry, without what follows them. */
  const DMAR_HEADER: nat := 48
  const DRHD_HEADER: nat := 16
  const SCOPE_HEADER: nat := 6

  // ---------- chains of self-sized entries ----------

  /** Every entry of the device scope list has a nonzero length. */
  ghost predicate ScopeChain(mem: Memory, p: nat, end: nat)
    decreases end - p
  {
    p < end ==> mem(p + 1) > 0 && ScopeChain(mem, p + mem(p + 1), end)
  }

  /** The addresses of the device scope entries from p to end. */
  ghost function Scopes(mem: Memory, p: nat, end: nat): seq<nat>
    requires ScopeChain(mem, p, end)
    decreases end - p
  {
    if p >= end then [] else [p] + Scopes(mem, p + mem(p + 1), end)
  }

  function DrhdLength(mem: Memory, p: nat): word { U16(mem, p + 2) }
  function DrhdIncludeAll(mem: Memory, p: nat): bool { mem(p + 4) % 2 == 1 }
  function DrhdSegment(mem: Memory, p: nat): word { U16(mem, p + 6) }
  function DrhdBase(mem: Memory, p: nat): nat { U64(mem, p + 8) }

  ghost predicate DrhdChain(mem: Memory, p: nat) {
    ScopeChain(mem, p + DRHD_HEADER, p + DrhdLength(mem, p))
  }

  ghost function DrhdScopes(mem: Memory, p: nat): seq<nat>
    requires DrhdChain(mem, p)
  {
    Scopes(mem, p + DRHD_HEADER, p + DrhdLength(mem, p))
  }

  /** Every remapping structure from p to end has a nonzero length, and so have the scope entries of the DRHDs. */
  ghost predicate StructureChain(mem: Memory, p: nat, end: nat)
    decreases end - p
  {
    p < end ==>
      && U16(mem, p + 2) > 0
      && (U16(mem, p) == TYPE_DRHD ==> DrhdChain(mem, p))
      && StructureChain(mem, p + U16(mem, p + 2), end)
  }

  /** The addresses of the DRHD structures from p to end. */
  ghost function Drhds(mem: Memory, p: nat, end: nat): (ds: seq<nat>)
    requires StructureChain(mem, p, end)
    ensures forall i :: 0 <= i < |ds| ==> DrhdChain(mem, ds[i])
    decreases end - p
  {
    if p >= end then []
    else (if U16(mem, p) == TYPE_DRHD then [p] else []) + Drhds(mem, p + U16(mem, p + 2), end)
  }

  function TableEnd(mem: Memory, table: nat): nat { table + U32(mem, table + 4) }

  ghost predicate DmarChain(mem: Memory, table: nat) {
    StructureChain(mem, table + DMAR_HEADER, TableEnd(mem, table))
  }

  ghost function DmarDrhds(mem: Memory, table: nat): seq<nat>
    requires DmarChain(mem, table)
  {
    Drhds(mem, table + DMAR_HEADER, TableEnd(mem, table))
  }

  // ---------- device scope paths ----------

  /** The number of bridges a scope path goes through: special devices have none. */
  function Hops(mem: Memory, p: nat): nat {
    if (mem(p) == ENDPOINT || mem(p) == BRIDGE) && mem(p + 1) > 8 then (mem(p + 1) - 7) / 2 else 0
  }

  /** The bus after i path entries: each entry names a bridge on the bus reached so far. */
  function PathBus(mem: Memory, cfg: ConfigSpace, seg: word, p: nat, i: nat): byte {
    if i == 0 then mem(p + 5)
    else Secondary(cfg, seg,
      ToSourceId(PathBus(mem, cfg, seg, p, i - 1), PathDevice(mem, p, i - 1), PathFunction(mem, p, i - 1)))
  }

  function PathDevice(mem: Memory, p: nat, i: nat): byte { mem(p + SCOPE_HEADER + 2 * i) }
  function PathFunction(mem: Memory, p: nat, i: nat): byte { mem(p + SCOPE_HEADER + 2 * i + 1) }

  function ScopeId(mem: Memory, cfg: ConfigSpace, seg: word, p: nat): SourceId {
    var n := Hops(mem, p);
    ToSourceId(PathBus(mem, cfg, seg, p, n), PathDevice(mem, p, n), PathFunction(mem, p, n))
  }

  // ---------- what processing the table does, for every pattern of allocation failures ----------

  /** What a run depends on: configuration space, memory with the table in it, and the pool. */
  datatype World = World(cfg: ConfigSpace, mem: Memory, pool: Pool)

  predicate IsPci(mem: Memory, q: nat) { mem(q) == ENDPOINT || mem(q) == BRIDGE }

  // What is to be scanned for a scope entry, for some of them, and for a DRHD has no loop.

  ghost predicate ScopeLoopFree(cfg: ConfigSpace, mem: Memory, s: word, q: nat) {
    mem(q) == BRIDGE ==> LoopFree(cfg, s, Secondary(cfg, s, ScopeId(mem, cfg, s, q)))
  }

  ghost predicate ScopesLoopFree(cfg: ConfigSpace, mem: Memory, s: word, qs: seq<nat>) {
    forall i :: 0 <= i < |qs| ==> ScopeLoopFree(cfg, mem, s, qs[i])
  }

  ghost predicate SegmentLoopFree(cfg: ConfigSpace, mem: Memory, p: nat) {
    DrhdIncludeAll(mem, p) ==> LoopFree(cfg, DrhdSegment(mem, p), 0)
  }

  ghost predicate IsDrhd(w: World, p: nat) {
    DrhdChain(w.mem, p) && SegmentLoopFree(w.cfg, w.mem, p) &&
    ScopesLoopFree(w.cfg, w.mem, DrhdSegment(w.mem, p), DrhdScopes(w.mem, p))
  }

  ghost function ScanBus(f: Fill, w: World, s: word, bus: byte): (r: Step)
    requires f.k < |f.units| && LoopFree(w.cfg, s, bus)
    ensures r.fill.k == f.k && |r.fill.units| == |f.units|
  {
    ScanIn(f, w.cfg, w.pool, s, ScanOrder(w.cfg, s, bus))
  }

  /** One scope entry: its device, and for a bridge everything behind it. Only for PCI devices an error counts. */
  ghost function ScopeIn(f: Fill, w: World, s: word, q: nat): (r: Step)
    requires f.k < |f.units| && ScopeLoopFree(w.cfg, w.mem, s, q)
    ensures r.fill.k == f.k && |r.fill.units| == |f.units|
  {
    var id := ScopeId(w.mem, w.cfg, s, q);
    var r := RegisterIn(f, w.cfg, w.pool, s, id, w.mem(q), true);
    if r.status != Success && IsPci(w.mem, q) then r
    else if w.mem(q) == BRIDGE then ScanBus(r.fill, w, s, Secondary(w.cfg, s, id))
    else Step(r.fill, Success)
  }

  /** Scope entries in order, up to the first error. */
  ghost function ScopesIn(f: Fill, w: World, s: word, qs: seq<nat>): (r: Step)
    requires f.k < |f.units| && ScopesLoopFree(w.cfg, w.mem, s, qs)
    ensures r.fill.k == f.k && |r.fill.units| == |f.units|
    decreases |qs|
  {
    if qs == [] then Step(f, Success)
    else
      var r := ScopeIn(f, w, s, qs[0]);
      if r.status != Success then r else ScopesIn(r.fill, w, s, qs[1..])
  }

  ghost function HeaderUnits(us: seq<UnitView>, k: nat, mem: Memory, p: nat): seq<UnitView>
    requires k < |us|
  {
    us[k := UnitView(DrhdBase(mem, p), DrhdSegment(mem, p), DrhdIncludeAll(mem, p), us[k].devices)]
  }

  /** The scan from bus 0 that INCLUDE_PCI_ALL asks for. */
  ghost function SegmentIn(f: Fill, w: World, p: nat): (r: Step)
    requires f.k < |f.units| && SegmentLoopFree(w.cfg, w.mem, p)
    ensures r.fill.k == f.k && |r.fill.units| == |f.units|
  {
    if DrhdIncludeAll(w.mem, p) then ScanBus(f, w, DrhdSegment(w.mem, p), 0) else Step(f, Success)
  }

  /** Units, and the number of allocations tried; between two DRHDs. */
  datatype Stage = Stage(units: seq<UnitView>, attempts: nat)

  /** Unit k with the DRHD's header, and no array yet. */
  ghost function Begin(g: Stage, k: nat, w: World, p: nat): (f: Fill)
    requires k < |g.units|
    ensures f.k == k && |f.units| == |g.units|
  {
    Fill(HeaderUnits(g.units, k, w.mem, p), k, 0, g.attempts)
  }

  ghost function DrhdIn(g: Stage, k: nat, w: World, p: nat): (r: Step)
    requires k < |g.units| && IsDrhd(w, p)
    ensures r.fill.k == k && |r.fill.units| == |g.units|
  {
    var r := SegmentIn(Begin(g, k, w, p), w, p);
    if r.status != Success then r else ScopesIn(r.fill, w, DrhdSegment(w.mem, p), DrhdScopes(w.mem, p))
  }

  datatype Outcome = Outcome(stage: Stage, status: Status)

  ghost predicate AreDrhds(w: World, ds: seq<nat>) {
    forall i :: 0 <= i < |ds| ==> IsDrhd(w, ds[i])
  }

  /** DRHDs in table order, the first into unit k; the first error stops it. */
  ghost function DrhdsIn(g: Stage, k: nat, w: World, ds: seq<nat>): (r: Outcome)
    requires k + |ds| <= |g.units| && AreDrhds(w, ds)
    ensures |r.stage.units| == |g.units|
    decreases |ds|
  {
    if ds == [] then Outcome(g, Success)
    else
      var r := DrhdIn(g, k, w, ds[0]);
      var h := Stage(r.fill.units, r.fill.attempts);
      if r.status != Success then Outcome(h, r.status) else DrhdsIn(h, k + 1, w, ds[1..])
  }

  // ---------- the devices a DRHD assigns to its unit ----------

  ghost predicate AssignedByScope(cfg: ConfigSpace, mem: Memory, s: word, q: nat, id: SourceId) {
    || id == ScopeId(mem, cfg, s, q)
    || (mem(q) == BRIDGE && Reachable(cfg, s, Secondary(cfg, s, ScopeId(mem, cfg, s, q)), id))
  }

  ghost predicate AssignedByScopes(cfg: ConfigSpace, mem: Memory, s: word, qs: seq<nat>, id: SourceId) {
    exists i :: 0 <= i < |qs| && AssignedByScope(cfg, mem, s, qs[i], id)
  }

  /** The ids a DRHD is about: the whole segment under INCLUDE_PCI_ALL, and what its scope entries name or lead to. */
  ghost predicate Assigned(cfg: ConfigSpace, mem: Memory, p: nat, id: SourceId)
    requires DrhdChain(mem, p)
  {
    || (DrhdIncludeAll(mem, p) && Reachable(cfg, DrhdSegment(mem, p), 0, id))
    || AssignedByScopes(cfg, mem, DrhdSegment(mem, p), DrhdScopes(mem, p), id)
  }

  // ---------- the devices it assigns and does not lose ----------

  /** Where processing stands before scope entry i. */
  ghost function Before(f: Fill, w: World, s: word, qs: seq<nat>, i: nat): (r: Fill)
    requires f.k < |f.units| && ScopesLoopFree(w.cfg, w.mem, s, qs) && i <= |qs|
    ensures r.k == f.k && |r.units| == |f.units|
  {
    ScopesIn(f, w, s, qs[..i]).fill
  }

  /**
   * The entry gives the id to the unit: the device it names, unless that is special and finds the array full and the
   * pool exhausted.
   */
  ghost predicate KeptByScope(f: Fill, w: World, s: word, q: nat, id: SourceId)
    requires f.k < |f.units|
  {
    || (id == ScopeId(w.mem, w.cfg, s, q) && (IsPci(w.mem, q) || !Refused(f, w.pool)))
    || (w.mem(q) == BRIDGE && Reachable(w.cfg, s, Secondary(w.cfg, s, ScopeId(w.mem, w.cfg, s, q)), id))
  }

  ghost predicate KeptByScopes(f: Fill, w: World, s: word, qs: seq<nat>, id: SourceId)
    requires f.k < |f.units| && ScopesLoopFree(w.cfg, w.mem, s, qs)
  {
    exists i :: 0 <= i < |qs| && KeptByScope(Before(f, w, s, qs, i), w, s, qs[i], id)
  }

  /** Where the scope entries of a DRHD start. */
  ghost function Scanned(g: Stage, k: nat, w: World, p: nat): (f: Fill)
    requires k < |g.units| && SegmentLoopFree(w.cfg, w.mem, p)
    ensures f.k == k && |f.units| == |g.units|
  {
    SegmentIn(Begin(g, k, w, p), w, p).fill
  }

  ghost predicate Kept(g: Stage, k: nat, w: World, p: nat, id: SourceId)
    requires k < |g.units| && IsDrhd(w, p)
  {
    || (DrhdIncludeAll(w.mem, p) && Reachable(w.cfg, DrhdSegment(w.mem, p), 0, id))
    || KeptByScopes(Scanned(g, k, w, p), w, DrhdSegment(w.mem, p), DrhdScopes(w.mem, p), id)
  }

  /**
   * What is kept was assigned; what was assigned and is not kept was named by special entries only, and each time the
   * pool refused.
   */
  lemma KeptOrRefused(g: Stage, k: nat, w: World, p: nat, id: SourceId)
    requires k < |g.units| && IsDrhd(w, p)
    ensures Kept(g, k, w, p, id) ==> Assigned(w.cfg, w.mem, p, id)
    ensures var s, qs := DrhdSegment(w.mem, p), DrhdScopes(w.mem, p);
      !Kept(g, k, w, p, id) ==> forall i :: 0 <= i < |qs| && AssignedByScope(w.cfg, w.mem, s, qs[i], id) ==>
        !IsPci(w.mem, qs[i]) && Refused(Before(Scanned(g, k, w, p), w, s, qs, i), w.pool)
  {
    var s, qs, f := DrhdSegment(w.mem, p), DrhdScopes(w.mem, p), Scanned(g, k, w, p);
    hide ScopesIn, SegmentIn, Reachable, Refused, ScopeId;
    if KeptByScopes(f, w, s, qs, id) {
      var i :| 0 <= i < |qs| && KeptByScope(Before(f, w, s, qs, i), w, s, qs[i], id);
      assert AssignedByScope(w.cfg, w.mem, s, qs[i], id);
    }
    if !Kept(g, k, w, p, id) {
      forall i | 0 <= i < |qs| && AssignedByScope(w.cfg, w.mem, s, qs[i], id)
        ensures !IsPci(w.mem, qs[i]) && Refused(Before(f, w, s, qs, i), w.pool)
      {
        assert !KeptByScope(Before(f, w, s, qs, i), w, s, qs[i], id);
      }
    }
  }

  // ---------- one scope entry, and all of them ----------

  /**
   * After a step the unit holds no more than before and what the entry assigns, and on success all that the entry
   * keeps.
   */
  ghost predicate Adds(before: seq<UnitView>, after: seq<UnitView>, k: nat, s: word, id: SourceId, done: bool,
        mayHold: bool, holds: bool)
    requires k < |before| == |after|
  {
    && (Registered(after[k], s, id) ==> Registered(before[k], s, id) || (mayHold && !Claimed(before, k, s, id)))
    && (done ==>
      (Registered(after[k], s, id) <==> Registered(before[k], s, id) || (holds && !Claimed(before, k, s, id))))
  }

  lemma ScopeInAdds(f: Fill, w: World, q: nat, id: SourceId)
    requires f.k < |f.units| && ScopeLoopFree(w.cfg, w.mem, f.units[f.k].segment, q)
    ensures var s := f.units[f.k].segment; var r := ScopeIn(f, w, s, q);
      && Extends(f.units, r.fill.units, f.k)
      && Adds(f.units, r.fill.units, f.k, s, id, r.status == Success,
              AssignedByScope(w.cfg, w.mem, s, q, id), KeptByScope(f, w, s, q, id))
  {
    var s := f.units[f.k].segment;
    var x := ScopeId(w.mem, w.cfg, s, q);
    var r := RegisterIn(f, w.cfg, w.pool, s, x, w.mem(q), true);
    RegisterInExactly(f, w.cfg, w.pool, x, w.mem(q), true, id);
    RegisterInStatus(f, w.cfg, w.pool, s, x, w.mem(q));
    if w.mem(q) == BRIDGE && r.status == Success {
      ScanInExactly(r.fill, w.cfg, w.pool, Secondary(w.cfg, s, x), id);
      ClaimedKept(f.units, r.fill.units, f.k, s, id);
    }
    hide RegisterIn, ScanIn, Refused, Registered, Claimed, Reachable, ScopeId;
  }

  lemma RegisterInStatus(f: Fill, cfg: ConfigSpace, pool: Pool, s: word, x: SourceId, deviceType: byte)
    requires f.k < |f.units|
    ensures RegisterIn(f, cfg, pool, s, x, deviceType, true).status == Success ==>
      Claimed(f.units, f.k, s, x) || !Refused(f, pool)
  {
  }

  lemma KeptFirstOrRest(f: Fill, w: World, s: word, qs: seq<nat>, id: SourceId)
    requires f.k < |f.units| && ScopesLoopFree(w.cfg, w.mem, s, qs) && qs != []
    requires ScopeIn(f, w, s, qs[0]).status == Success
    ensures KeptByScopes(f, w, s, qs, id) <==>
      KeptByScope(f, w, s, qs[0], id) || KeptByScopes(ScopeIn(f, w, s, qs[0]).fill, w, s, qs[1..], id)
  {
    hide KeptByScope, ScopeIn;
    var next := ScopeIn(f, w, s, qs[0]).fill;
    assert Before(f, w, s, qs, 0) == f;
    forall i | 0 < i < |qs| ensures Before(f, w, s, qs, i) == Before(next, w, s, qs[1..], i - 1) {
      assert qs[..i][0] == qs[0] && qs[..i][1..] == qs[1..][..i - 1];
    }
    hide Before;
    if KeptByScopes(next, w, s, qs[1..], id) {
      var i :| 0 <= i < |qs| - 1 && KeptByScope(Before(next, w, s, qs[1..], i), w, s, qs[1..][i], id);
      assert KeptByScope(Before(f, w, s, qs, i + 1), w, s, qs[i + 1], id);
    }
    if KeptByScopes(f, w, s, qs, id) && !KeptByScope(f, w, s, qs[0], id) {
      var i :| 0 <= i < |qs| && KeptByScope(Before(f, w, s, qs, i), w, s, qs[i], id);
      assert KeptByScope(Before(next, w, s, qs[1..], i - 1), w, s, qs[1..][i - 1], id);
    }
  }

  lemma AssignedFirstOrRest(cfg: ConfigSpace, mem: Memory, s: word, qs: seq<nat>, id: SourceId)
    requires qs != []
    ensures AssignedByScopes(cfg, mem, s, qs, id) <==>
      AssignedByScope(cfg, mem, s, qs[0], id) || AssignedByScopes(cfg, mem, s, qs[1..], id)
  {
    hide AssignedByScope;
    if AssignedByScopes(cfg, mem, s, qs[1..], id) {
      var i :| 0 <= i < |qs| - 1 && AssignedByScope(cfg, mem, s, qs[1..][i], id);
      assert qs[1..][i] == qs[i + 1];
    }
    if AssignedByScopes(cfg, mem, s, qs, id) && !AssignedByScope(cfg, mem, s, qs[0], id) {
      var i :| 0 <= i < |qs| && AssignedByScope(cfg, mem, s, qs[i], id);
      assert qs[1..][i - 1] == qs[i];
    }
  }

  /** For every pool: the entries add only what they assign, and if none fails, exactly what they keep. */
  lemma {:induction false} ScopesInAdd(f: Fill, w: World, qs: seq<nat>, id: SourceId)
    requires f.k < |f.units| && ScopesLoopFree(w.cfg, w.mem, f.units[f.k].segment, qs)
    ensures var s := f.units[f.k].segment; var r := ScopesIn(f, w, s, qs);
      && Extends(f.units, r.fill.units, f.k)
      && Adds(f.units, r.fill.units, f.k, s, id, r.status == Success,
              AssignedByScopes(w.cfg, w.mem, s, qs, id), KeptByScopes(f, w, s, qs, id))
    decreases |qs|
  {
    hide AssignedByScope, KeptByScope, ScopeIn, Before;
    var s := f.units[f.k].segment;
    if qs != [] {
      var r := ScopeIn(f, w, s, qs[0]);
      ScopeInAdds(f, w, qs[0], id);
      AssignedFirstOrRest(w.cfg, w.mem, s, qs, id);
      if r.status == Success {
        ScopesInAdd(r.fill, w, qs[1..], id);
        ClaimedKept(f.units, r.fill.units, f.k, s, id);
        KeptFirstOrRest(f, w, s, qs, id);
      }
    }
  }

  // ---------- one DRHD ----------

  /**
   * A DRHD writes its header into a blank unit, adds only what it assigns, and on success holds exactly what it
   * keeps.
   */
  lemma DrhdInAdds(g: Stage, k: nat, w: World, p: nat, id: SourceId)
    requires k < |g.units| && IsDrhd(w, p) && g.units[k].devices == []
    ensures var s := DrhdSegment(w.mem, p); var r := DrhdIn(g, k, w, p); var us := r.fill.units;
      && us[k].base == DrhdBase(w.mem, p) && us[k].segment == s && us[k].includeAll == DrhdIncludeAll(w.mem, p)
      && (forall j :: 0 <= j < |us| && j != k ==> us[j] == g.units[j])
      && (Registered(us[k], s, id) ==> Assigned(w.cfg, w.mem, p, id) && !Claimed(us, k, s, id))
      && (r.status == Success ==> (Registered(us[k], s, id) <==> Kept(g, k, w, p, id) && !Claimed(us, k, s, id)))
  {
    var s := DrhdSegment(w.mem, p);
    var f := Begin(g, k, w, p);
    var r := SegmentIn(f, w, p);
    assert !Registered(f.units[k], s, id);
    if DrhdIncludeAll(w.mem, p) {
      ScanInExactly(f, w.cfg, w.pool, 0, id);
    }
    hide ScanIn, ScopesIn, Reachable, AssignedByScopes, KeptByScopes;
    assert Extends(f.units, r.fill.units, k);
    ClaimedKept(f.units, r.fill.units, k, s, id);
    ScopesInAdd(r.fill, w, DrhdScopes(w.mem, p), id);
    if r.status == Success {
      ClaimedKept(r.fill.units, DrhdIn(g, k, w, p).fill.units, k, s, id);
    }
  }

  // ---------- the table invariant ----------

  lemma ScopeInReady(f: Fill, w: World, s: word, q: nat)
    requires ScopeLoopFree(w.cfg, w.mem, s, q) && Ready(f.units, f.k, s)
    ensures Ready(ScopeIn(f, w, s, q).fill.units, f.k, s)
  {
    hide Ready, RegisterIn, ScanIn;
    var id := ScopeId(w.mem, w.cfg, s, q);
    assert f.k < |f.units| by { ReadyBound(f.units, f.k, s); }
    RegisterInReady(f, w.cfg, w.pool, s, id, w.mem(q), true);
    var r := RegisterIn(f, w.cfg, w.pool, s, id, w.mem(q), true);
    if w.mem(q) == BRIDGE {
      ScanInReady(r.fill, w.cfg, w.pool, s, ScanOrder(w.cfg, s, Secondary(w.cfg, s, id)));
    }
  }

  lemma ReadyBound(us: seq<UnitView>, k: nat, s: word)
    requires Ready(us, k, s)
    ensures k < |us| && Separated(us) && Blank(us, k + 1)
  {
  }

  lemma {:induction false} ScopesInReady(f: Fill, w: World, s: word, qs: seq<nat>)
    requires ScopesLoopFree(w.cfg, w.mem, s, qs) && Ready(f.units, f.k, s)
    ensures Ready(ScopesIn(f, w, s, qs).fill.units, f.k, s)
    decreases |qs|
  {
    hide Ready, ScopeIn;
    ReadyBound(f.units, f.k, s);
    if qs != [] {
      ScopeInReady(f, w, s, qs[0]);
      if ScopeIn(f, w, s, qs[0]).status == Success {
        ScopesInReady(ScopeIn(f, w, s, qs[0]).fill, w, s, qs[1..]);
      }
    }
  }

  /** Whatever fails, a DRHD keeps the units separated and those behind its own blank. */
  lemma DrhdInKeepsSeparation(g: Stage, k: nat, w: World, p: nat)
    requires k < |g.units| && IsDrhd(w, p) && Separated(g.units) && Blank(g.units, k)
    ensures var us := DrhdIn(g, k, w, p).fill.units; Separated(us) && Blank(us, k + 1)
  {
    var s, f := DrhdSegment(w.mem, p), Begin(g, k, w, p);
    assert Ready(f.units, k, s);
    hide Ready, ScanIn, ScopesIn;
    if DrhdIncludeAll(w.mem, p) {
      ScanInReady(f, w.cfg, w.pool, s, ScanOrder(w.cfg, s, 0));
    }
    var r := SegmentIn(f, w, p);
    ScopesInReady(r.fill, w, s, DrhdScopes(w.mem, p));
    ReadyBound(r.fill.units, k, s);
    ReadyBound(DrhdIn(g, k, w, p).fill.units, k, s);
  }

  // ---------- whole runs ----------

  /**
   * Unit m holds only what its DRHD assigns, and under INCLUDE_PCI_ALL nothing that an earlier unit of its segment
   * holds.
   */
  ghost predicate HoldsOnly(us: seq<UnitView>, m: nat, w: World, p: nat, id: SourceId)
    requires m < |us| && DrhdChain(w.mem, p)
  {
    var s := DrhdSegment(w.mem, p);
    Registered(us[m], s, id) ==> Assigned(w.cfg, w.mem, p, id) && !Claimed(us, m, s, id)
  }

  /** Unit m holds exactly what its DRHD keeps, given the stage at which it was processed. */
  ghost predicate HoldsKept(us: seq<UnitView>, m: nat, w: World, p: nat, g: Stage, id: SourceId)
    requires m < |us| == |g.units| && IsDrhd(w, p)
  {
    var s := DrhdSegment(w.mem, p);
    && us[m].base == DrhdBase(w.mem, p) && us[m].segment == s && us[m].includeAll == DrhdIncludeAll(w.mem, p)
    && (Registered(us[m], s, id) <==> Kept(g, m, w, p, id) && !Claimed(us, m, s, id))
  }

  /** Unit m holds exactly what its DRHD assigns and, under INCLUDE_PCI_ALL, no earlier unit of its segment holds. */
  ghost predicate HoldsExactly(us: seq<UnitView>, m: nat, w: World, p: nat, id: SourceId)
    requires m < |us| && DrhdChain(w.mem, p)
  {
    var s := DrhdSegment(w.mem, p);
    && us[m].base == DrhdBase(w.mem, p) && us[m].segment == s && us[m].includeAll == DrhdIncludeAll(w.mem, p)
    && (Registered(us[m], s, id) <==> Assigned(w.cfg, w.mem, p, id) && !Claimed(us, m, s, id))
  }

  /** The stage at which unit m is processed in a run that starts with unit k. */
  ghost function StageOf(g: Stage, k: nat, w: World, ds: seq<nat>, m: nat): (r: Stage)
    requires k + |ds| <= |g.units| && AreDrhds(w, ds) && k <= m < k + |ds|
    ensures |r.units| == |g.units|
  {
    DrhdsIn(g, k, w, ds[..m - k]).stage
  }

  lemma {:induction false} DrhdsInSeparated(g: Stage, k: nat, w: World, ds: seq<nat>)
    requires k + |ds| <= |g.units| && AreDrhds(w, ds) && Separated(g.units) && Blank(g.units, k)
    ensures Separated(DrhdsIn(g, k, w, ds).stage.units)
    decreases |ds|
  {
    hide DrhdIn, Separated, Blank;
    if ds != [] {
      var r := DrhdIn(g, k, w, ds[0]);
      DrhdInKeepsSeparation(g, k, w, ds[0]);
      if r.status == Success {
        DrhdsInSeparated(Stage(r.fill.units, r.fill.attempts), k + 1, w, ds[1..]);
      }
    }
  }

  lemma DrhdInFrame(g: Stage, k: nat, w: World, p: nat)
    requires k < |g.units| && IsDrhd(w, p) && Blank(g.units, k)
    ensures var us := DrhdIn(g, k, w, p).fill.units;
      Blank(us, k + 1) && forall j :: 0 <= j < |us| && j != k ==> us[j] == g.units[j]
  {
    hide DrhdIn;
    DrhdInAdds(g, k, w, p, SourceId(0, 0, 0));
  }

  /** DRHDs write only into the units from k on. */
  lemma {:induction false} DrhdsInKeepEarlier(g: Stage, k: nat, w: World, ds: seq<nat>)
    requires k + |ds| <= |g.units| && AreDrhds(w, ds) && Blank(g.units, k)
    ensures var us := DrhdsIn(g, k, w, ds).stage.units; forall j :: 0 <= j < k ==> us[j] == g.units[j]
    decreases |ds|
  {
    hide DrhdIn;
    if ds != [] {
      var r := DrhdIn(g, k, w, ds[0]);
      DrhdInFrame(g, k, w, ds[0]);
      if r.status == Success {
        DrhdsInKeepEarlier(Stage(r.fill.units, r.fill.attempts), k + 1, w, ds[1..]);
      }
    }
  }

  lemma FirstUnit(g: Stage, k: nat, w: World, ds: seq<nat>, id: SourceId)
    requires k + |ds| <= |g.units| && AreDrhds(w, ds) && Blank(g.units, k) && ds != []
    ensures var r := DrhdsIn(g, k, w, ds); var us := r.stage.units;
      HoldsOnly(us, k, w, ds[0], id) && (r.status == Success ==> HoldsKept(us, k, w, ds[0], g, id))
  {
    hide DrhdIn, Assigned, Kept, Registered;
    var r := DrhdIn(g, k, w, ds[0]);
    DrhdInAdds(g, k, w, ds[0], id);
    DrhdInFrame(g, k, w, ds[0]);
    if r.status == Success {
      DrhdsInKeepEarlier(Stage(r.fill.units, r.fill.attempts), k + 1, w, ds[1..]);
    }
  }

  lemma StageStep(g: Stage, k: nat, w: World, ds: seq<nat>, m: nat)
    requires k + |ds| <= |g.units| && AreDrhds(w, ds) && k <= m < k + |ds|
    ensures m == k ==> StageOf(g, k, w, ds, m) == g
    ensures var r := DrhdIn(g, k, w, ds[0]);
      m > k && r.status == Success ==>
        StageOf(g, k, w, ds, m) == StageOf(Stage(r.fill.units, r.fill.attempts), k + 1, w, ds[1..], m)
  {
    hide DrhdIn;
    if m > k {
      assert ds[..m - k][0] == ds[0] && ds[..m - k][1..] == ds[1..][..m - k - 1];
    }
  }

  lemma BlankHoldsNothing(us: seq<UnitView>, m: nat, w: World, p: nat, id: SourceId)
    requires m < |us| && DrhdChain(w.mem, p) && us[m].devices == []
    ensures HoldsOnly(us, m, w, p, id)
  {
  }

  /**
   * For every pool and status each unit holds only what its DRHD assigns, and after an error-free run exactly what it
   * keeps.
   */
  lemma {:induction false} DrhdsInHold(g: Stage, k: nat, w: World, ds: seq<nat>, m: nat, id: SourceId)
    requires k + |ds| <= |g.units| && AreDrhds(w, ds) && Blank(g.units, k) && k <= m < k + |ds|
    ensures var r := DrhdsIn(g, k, w, ds); var us, p := r.stage.units, ds[m - k];
      HoldsOnly(us, m, w, p, id) && (r.status == Success ==> HoldsKept(us, m, w, p, StageOf(g, k, w, ds, m), id))
    decreases |ds|
  {
    hide HoldsOnly, HoldsKept, DrhdIn, StageOf;
    StageStep(g, k, w, ds, m);
    if m == k {
      FirstUnit(g, k, w, ds, id);
    } else {
      var r := DrhdIn(g, k, w, ds[0]);
      DrhdInFrame(g, k, w, ds[0]);
      if r.status == Success {
        DrhdsInHold(Stage(r.fill.units, r.fill.attempts), k + 1, w, ds[1..], m, id);
      } else {
        BlankHoldsNothing(r.fill.units, m, w, ds[m - k], id);
      }
    }
  }

  /** In an error-free run the units of earlier DRHDs have their final contents when a DRHD is processed. */
  lemma {:induction false} EarlierUnitsAreFinal(g: Stage, k: nat, w: World, ds: seq<nat>, m: nat)
    requires k + |ds| <= |g.units| && AreDrhds(w, ds) && Blank(g.units, k) && k <= m < k + |ds|
    requires DrhdsIn(g, k, w, ds).status == Success
    ensures DrhdsIn(g, k, w, ds).stage.units[..m] == StageOf(g, k, w, ds, m).units[..m]
    decreases |ds|
  {
    hide DrhdIn, StageOf;
    StageStep(g, k, w, ds, m);
    if m == k {
      DrhdsInKeepEarlier(g, k, w, ds);
    } else {
      var r := DrhdIn(g, k, w, ds[0]);
      DrhdInFrame(g, k, w, ds[0]);
      EarlierUnitsAreFinal(Stage(r.fill.units, r.fill.attempts), k + 1, w, ds[1..], m);
    }
  }

  /**
   * When the DRHD is processed into unit m, no special device of it that no earlier unit claims is given up because
   * the pool refuses.
   */
  ghost predicate NothingLost(g: Stage, m: nat, w: World, p: nat)
    requires m < |g.units| && IsDrhd(w, p)
  {
    var s, qs := DrhdSegment(w.mem, p), DrhdScopes(w.mem, p);
    forall i :: 0 <= i < |qs| && !IsPci(w.mem, qs[i]) ==>
      var id := ScopeId(w.mem, w.cfg, s, qs[i]); Kept(g, m, w, p, id) || Claimed(Begin(g, m, w, p).units, m, s, id)
  }

  /** What earlier units claim is known when the DRHD's header has been read. */
  lemma ClaimedBefore(us: seq<UnitView>, m: nat, w: World, p: nat, g: Stage, s: word, id: SourceId)
    requires m < |us| == |g.units| && us[..m] == g.units[..m] && us[m].includeAll == DrhdIncludeAll(w.mem, p)
    ensures Claimed(us, m, s, id) == Claimed(Begin(g, m, w, p).units, m, s, id)
  {
    hide Registered;
    var vs := Begin(g, m, w, p).units;
    assert forall j :: 0 <= j < m ==> us[j] == us[..m][j] == g.units[..m][j] == vs[j];
  }

  /** A unit of an error-free run holds exactly what its DRHD assigns if and only if it lost no special device. */
  lemma ExactExactlyWhen(us: seq<UnitView>, m: nat, w: World, p: nat, g: Stage)
    requires m < |us| == |g.units| && IsDrhd(w, p) && us[..m] == g.units[..m]
    requires forall id :: HoldsKept(us, m, w, p, g, id)
    ensures (forall id :: HoldsExactly(us, m, w, p, id)) <==> NothingLost(g, m, w, p)
  {
    assert HoldsKept(us, m, w, p, g, SourceId(0, 0, 0));
    var s, qs := DrhdSegment(w.mem, p), DrhdScopes(w.mem, p);
    hide Registered, Claimed, ScopeId, Reachable, Before, SegmentIn, Begin;
    if forall id :: HoldsExactly(us, m, w, p, id) {
      forall i | 0 <= i < |qs| && !IsPci(w.mem, qs[i])
        ensures var id := ScopeId(w.mem, w.cfg, s, qs[i]);
          Kept(g, m, w, p, id) || Claimed(Begin(g, m, w, p).units, m, s, id)
      {
        var id := ScopeId(w.mem, w.cfg, s, qs[i]);
        assert AssignedByScope(w.cfg, w.mem, s, qs[i], id);
        assert HoldsExactly(us, m, w, p, id) && HoldsKept(us, m, w, p, g, id);
        ClaimedBefore(us, m, w, p, g, s, id);
      }
    }
    if NothingLost(g, m, w, p) {
      forall id ensures HoldsExactly(us, m, w, p, id) {
        AssignedIsKept(g, m, w, p, id);
        ClaimedBefore(us, m, w, p, g, s, id);
        assert HoldsKept(us, m, w, p, g, id);
      }
    }
  }

  lemma AssignedIsKept(g: Stage, m: nat, w: World, p: nat, id: SourceId)
    requires m < |g.units| && IsDrhd(w, p) && NothingLost(g, m, w, p)
    ensures !Claimed(Begin(g, m, w, p).units, m, DrhdSegment(w.mem, p), id) ==>
      (Assigned(w.cfg, w.mem, p, id) <==> Kept(g, m, w, p, id))
  {
    var s, qs := DrhdSegment(w.mem, p), DrhdScopes(w.mem, p);
    KeptOrRefused(g, m, w, p, id);
    hide Registered, Claimed, ScopeId, Reachable, Before, SegmentIn, Refused, Begin;
    if AssignedByScopes(w.cfg, w.mem, s, qs, id) && !Kept(g, m, w, p, id) {
      var i :| 0 <= i < |qs| && AssignedByScope(w.cfg, w.mem, s, qs[i], id);
      assert !IsPci(w.mem, qs[i]) && id == ScopeId(w.mem, w.cfg, s, qs[i]);
    }
  }

  /** A pool that never refuses loses nothing. */
  lemma PlentifulLosesNothing(g: Stage, m: nat, w: World, p: nat)
    requires m < |g.units| && IsDrhd(w, p) && forall i :: w.pool(i)
    ensures NothingLost(g, m, w, p)
  {
    var s, qs, f := DrhdSegment(w.mem, p), DrhdScopes(w.mem, p), Scanned(g, m, w, p);
    hide Registered, Claimed, ScopeId, Reachable, Before, SegmentIn;
    forall i | 0 <= i < |qs| ensures Kept(g, m, w, p, ScopeId(w.mem, w.cfg, s, qs[i])) {
      assert KeptByScope(Before(f, w, s, qs, i), w, s, qs[i], ScopeId(w.mem, w.cfg, s, qs[i]));
    }
  }

  // ---------- a special device that is lost ----------

  /** A DMAR table with one DRHD, which has one I/O APIC in its scope. */
  function IoApicTable(a: nat): byte {
    if a == 4 then 72 else if a == 50 then 24
    else if a == 64 then 3 else if a == 65 then 8 else if a == 69 then 0xF0 else if a == 70 then 31 else 0
  }

  /**
   * When there is room for the unit but not for its array, the table is processed without an error, and the device is
   * missing.
   */
  lemma LostSpecialDevice(w: World)
    requires w.mem == IoApicTable && !w.pool(1)
    ensures DmarChain(w.mem, 0) && DmarDrhds(w.mem, 0) == [48] && IsDrhd(w, 48)
    ensures DrhdsIn(Stage([UnitView(0, 0, false, [])], 1), 0, w, [48]) ==
      Outcome(Stage([UnitView(0, 0, false, [])], 2), Success)
    ensures Assigned(w.cfg, w.mem, 48, SourceId(0xF0, 31, 0))
  {
    IoApicDrhd(w);
    IoApicIsAssigned(w);
    LostScope(w);
    hide ScopeIn, IsDrhd;
    assert [64][1..] == [] && [48][1..] == [];
  }

  lemma IoApicDrhd(w: World)
    requires w.mem == IoApicTable
    ensures DmarChain(w.mem, 0) && DmarDrhds(w.mem, 0) == [48] && IsDrhd(w, 48) && DrhdScopes(w.mem, 48) == [64]
  {
    var mem := w.mem;
    IoApicHeader(mem);
    IoApicScopes(mem);
    assert !DrhdIncludeAll(mem, 48) && mem(64) != BRIDGE;
    hide U16, U32, Scopes, ScopeChain, IoApicTable, LoopFree;
    assert StructureChain(mem, 72, 72) && Drhds(mem, 72, 72) == [];
    assert StructureChain(mem, 48, 72) && Drhds(mem, 48, 72) == [48];
  }

  lemma IoApicHeader(mem: Memory)
    requires mem == IoApicTable
    ensures U16(mem, 48) == TYPE_DRHD && U16(mem, 50) == 24 && TableEnd(mem, 0) == 72
  {
  }

  lemma IoApicScopes(mem: Memory)
    requires mem == IoApicTable
    ensures ScopeChain(mem, 64, 72) && Scopes(mem, 64, 72) == [64]
  {
    assert mem(65) == 8;
    hide IoApicTable;
    assert ScopeChain(mem, 72, 72) && Scopes(mem, 72, 72) == [];
  }

  lemma IoApicIsAssigned(w: World)
    requires w.mem == IoApicTable && DrhdChain(w.mem, 48) && DrhdScopes(w.mem, 48) == [64]
    ensures Assigned(w.cfg, w.mem, 48, SourceId(0xF0, 31, 0))
  {
    hide Scopes, ScopeChain, Reachable;
    assert Hops(w.mem, 64) == 0 && ScopeId(w.mem, w.cfg, 0, 64) == SourceId(0xF0, 31, 0);
    assert AssignedByScope(w.cfg, w.mem, 0, DrhdScopes(w.mem, 48)[0], SourceId(0xF0, 31, 0));
  }

  lemma LostScope(w: World)
    requires w.mem == IoApicTable && !w.pool(1)
    ensures var f := Begin(Stage([UnitView(0, 0, false, [])], 1), 0, w, 48);
      && f == Fill([UnitView(0, 0, false, [])], 0, 0, 1)
      && ScopeIn(f, w, 0, 64) == Step(f.(attempts := 2), Success)
  {
  }
}
