/** DMAR tables as they are written (sections 8.1 to 8.3 of the Intel VT-d specification), and reading them back. */
module DmarEncoding {
  import opened Memory
  import opened PciConfig
  import opened DmarTable

  // ---------- device scope entries ----------

  /** A path entry: device and function number. */
  datatype Hop = Hop(dev: byte, fn: byte)

  datatype Scope = Scope(typ: byte, enumerationId: byte, startBus: byte, path: seq<Hop>)

  /** The length of an entry is a byte. */
  predicate FitsScope(sc: Scope) { 0 < |sc.path| <= 124 }

  function EncodePath(path: seq<Hop>): (bs: seq<byte>)
    ensures |bs| == 2 * |path|
  {
    if path == [] then [] else [path[0].dev, path[0].fn] + EncodePath(path[1..])
  }

  function EncodeScope(sc: Scope): (bs: seq<byte>)
    requires FitsScope(sc)
    ensures |bs| == 6 + 2 * |sc.path|
  {
    [sc.typ, 6 + 2 * |sc.path|, 0, 0, sc.enumerationId, sc.startBus] + EncodePath(sc.path)
  }

  /** The device at the end of a path: every element but the last is a bridge, and leads to its secondary bus. */
  function Follow(cfg: ConfigSpace, seg: word, bus: byte, path: seq<Hop>): SourceId
    requires path != []
    decreases |path|
  {
    var id := SourceId(bus, path[0].dev % 32, path[0].fn % 8);
    if |path| == 1 then id else Follow(cfg, seg, cfg.read8(seg, id, 0x19), path[1..])
  }

  /** The device an entry names. Only those of PCI endpoints (1) and bridges (2) are followed beyond the first hop. */
  function Named(cfg: ConfigSpace, seg: word, sc: Scope): SourceId
    requires FitsScope(sc)
  {
    Follow(cfg, seg, sc.startBus, if sc.typ == 1 || sc.typ == 2 then sc.path else sc.path[..1])
  }

  lemma {:induction false} PathIsRead(mem: Memory, p: nat, path: seq<Hop>, i: nat)
    requires HoldsAt(mem, p, EncodePath(path)) && i < |path|
    ensures mem(p + 2 * i) == path[i].dev && mem(p + 2 * i + 1) == path[i].fn
    decreases i
  {
    HoldsAtConcat(mem, p, [path[0].dev, path[0].fn], EncodePath(path[1..]));
    if i > 0 {
      hide HoldsAt;
      PathIsRead(mem, p + 2, path[1..], i - 1);
      assert p + 2 + 2 * (i - 1) == p + 2 * i;
    } else {
      assert mem(p + 0) == [path[0].dev, path[0].fn][0] && mem(p + 1) == [path[0].dev, path[0].fn][1];
    }
  }

  /** The fields of an entry in memory. */
  lemma ScopeFields(mem: Memory, p: nat, sc: Scope)
    requires FitsScope(sc) && HoldsAt(mem, p, EncodeScope(sc))
    ensures mem(p) == sc.typ && mem(p + 1) == 6 + 2 * |sc.path| && mem(p + 5) == sc.startBus
    ensures HoldsAt(mem, p + 6, EncodePath(sc.path))
  {
    var front: seq<byte> := [sc.typ, 6 + 2 * |sc.path|, 0, 0, sc.enumerationId, sc.startBus];
    HoldsAtConcat(mem, p, front, EncodePath(sc.path));
    assert mem(p + 0) == front[0] && mem(p + 1) == front[1] && mem(p + 5) == front[5];
  }

  /** Following the rest of the path from the bus reached so far. */
  lemma {:induction false} FollowOn(mem: Memory, cfg: ConfigSpace, seg: word, p: nat, sc: Scope, i: nat)
    requires FitsScope(sc) && HoldsAt(mem, p, EncodeScope(sc)) && i < |sc.path|
    ensures Follow(cfg, seg, sc.startBus, sc.path) == Follow(cfg, seg, PathBus(mem, cfg, seg, p, i), sc.path[i..])
    decreases i
  {
    ScopeFields(mem, p, sc);
    if i == 0 {
      assert sc.path[0..] == sc.path;
    } else {
      FollowOn(mem, cfg, seg, p, sc, i - 1);
      PathIsRead(mem, p + 6, sc.path, i - 1);
      hide HoldsAt, EncodePath, EncodeScope;
      assert sc.path[i - 1..][1..] == sc.path[i..] && sc.path[i - 1..][0] == sc.path[i - 1];
    }
  }

  /** An entry in memory is read back: its type, its length, and the device it names. */
  lemma ScopeDecode(mem: Memory, cfg: ConfigSpace, seg: word, p: nat, sc: Scope)
    requires FitsScope(sc) && HoldsAt(mem, p, EncodeScope(sc))
    ensures mem(p) == sc.typ && mem(p + 1) == |EncodeScope(sc)|
    ensures ScopeId(mem, cfg, seg, p) == Named(cfg, seg, sc)
  {
    ScopeFields(mem, p, sc);
    var n := Hops(mem, p);
    assert n == if sc.typ == 1 || sc.typ == 2 then |sc.path| - 1 else 0;
    FollowOn(mem, cfg, seg, p, sc, n);
    PathIsRead(mem, p + 6, sc.path, n);
    hide HoldsAt, EncodePath, EncodeScope;
    if n > 0 {
      assert sc.path[n..] == [sc.path[n]];
    }
  }

  // ---------- lists of entries ----------

  ghost predicate FitScopes(scs: seq<Scope>) {
    forall i :: 0 <= i < |scs| ==> FitsScope(scs[i])
  }

  ghost function EncodeScopes(scs: seq<Scope>): seq<byte>
    requires FitScopes(scs)
  {
    if scs == [] then [] else EncodeScope(scs[0]) + EncodeScopes(scs[1..])
  }

  /** At qs[i] in memory there is scs[i]. */
  ghost predicate AreScopesAt(mem: Memory, qs: seq<nat>, scs: seq<Scope>) {
    |qs| == |scs| && forall i :: 0 <= i < |scs| ==> FitsScope(scs[i]) && HoldsAt(mem, qs[i], EncodeScope(scs[i]))
  }

  lemma {:induction false} ScopesDecode(mem: Memory, q: nat, scs: seq<Scope>)
    requires FitScopes(scs) && HoldsAt(mem, q, EncodeScopes(scs))
    ensures ScopeChain(mem, q, q + |EncodeScopes(scs)|)
    ensures AreScopesAt(mem, Scopes(mem, q, q + |EncodeScopes(scs)|), scs)
    decreases |scs|
  {
    hide HoldsAt, EncodeScope;
    if scs != [] {
      HoldsAtConcat(mem, q, EncodeScope(scs[0]), EncodeScopes(scs[1..]));
      ScopeFields(mem, q, scs[0]);
      ScopesDecode(mem, q + |EncodeScope(scs[0])|, scs[1..]);
    }
  }

  // ---------- DRHD structures ----------

  datatype Drhd = Drhd(flags: byte, reserved: byte, segment: word, base: nat, scopes: seq<Scope>)

  ghost predicate FitsDrhd(d: Drhd) {
    d.base < UINTN && FitScopes(d.scopes) && 16 + |EncodeScopes(d.scopes)| < 0x1_0000
  }

  ghost function DrhdHeader(d: Drhd): (bs: seq<byte>)
    requires FitsDrhd(d)
    ensures |bs| == 16
  {
    Encode16(0) + Encode16(16 + |EncodeScopes(d.scopes)|) + [d.flags, d.reserved] + Encode16(d.segment)
    + Encode64(d.base)
  }

  ghost function EncodeDrhd(d: Drhd): (bs: seq<byte>)
    requires FitsDrhd(d)
    ensures |bs| == 16 + |EncodeScopes(d.scopes)|
  {
    DrhdHeader(d) + EncodeScopes(d.scopes)
  }

  lemma DrhdFields(mem: Memory, p: nat, d: Drhd)
    requires FitsDrhd(d) && HoldsAt(mem, p, DrhdHeader(d))
    ensures U16(mem, p) == 0 && DrhdLength(mem, p) == 16 + |EncodeScopes(d.scopes)|
    ensures DrhdIncludeAll(mem, p) <==> d.flags % 2 == 1
    ensures DrhdSegment(mem, p) == d.segment && DrhdBase(mem, p) == d.base
  {
    var typ, length, flags, seg := Encode16(0), Encode16(16 + |EncodeScopes(d.scopes)|), [d.flags, d.reserved],
      Encode16(d.segment);
    Lengths(0, 0);
    Lengths(d.segment, 0);
    Lengths(16 + |EncodeScopes(d.scopes)|, 0);
    hide HoldsAt, Encode16, Encode64, U16, U64, EncodeScopes;
    HoldsAtConcat(mem, p, typ + length + flags + seg, Encode64(d.base));
    HoldsAtConcat(mem, p, typ + length + flags, seg);
    HoldsAtConcat(mem, p, typ + length, flags);
    HoldsAtConcat(mem, p, typ, length);
    DecodeEncode16(mem, p, 0);
    DecodeEncode16(mem, p + 2, 16 + |EncodeScopes(d.scopes)|);
    FirstByte(mem, p + 4, flags);
    DecodeEncode16(mem, p + 6, d.segment);
    DecodeEncode64(mem, p + 8, d.base);
  }

  lemma FirstByte(mem: Memory, p: nat, bs: seq<byte>)
    requires bs != [] && HoldsAt(mem, p, bs)
    ensures mem(p) == bs[0]
  {
    assert mem(p + 0) == bs[0];
  }

  /** A DRHD in memory is read back: its header fields, and the addresses of its scope entries. */
  lemma DrhdDecode(mem: Memory, p: nat, d: Drhd)
    requires FitsDrhd(d) && HoldsAt(mem, p, EncodeDrhd(d))
    ensures U16(mem, p) == 0 && DrhdLength(mem, p) == |EncodeDrhd(d)|
    ensures DrhdIncludeAll(mem, p) <==> d.flags % 2 == 1
    ensures DrhdSegment(mem, p) == d.segment && DrhdBase(mem, p) == d.base
    ensures DrhdChain(mem, p) && AreScopesAt(mem, DrhdScopes(mem, p), d.scopes)
  {
    hide HoldsAt, DrhdHeader, EncodeScopes, DrhdBase, DrhdSegment, DrhdIncludeAll, DrhdLength, Scopes, ScopeChain;
    HoldsAtConcat(mem, p, DrhdHeader(d), EncodeScopes(d.scopes));
    DrhdFields(mem, p, d);
    ScopesDecode(mem, p + 16, d.scopes);
  }

  /** What a DRHD is about: the whole segment if bit 0 of the flags is set, and what its entries name or lead to. */
  ghost predicate AssignedBy(cfg: ConfigSpace, d: Drhd, id: SourceId)
    requires FitScopes(d.scopes)
  {
    || (d.flags % 2 == 1 && Reachable(cfg, d.segment, 0, id))
    || exists i :: 0 <= i < |d.scopes| && LedTo(cfg, d.segment, d.scopes[i], id)
  }

  /** The device the entry names or, if that is a bridge, one behind its secondary bus. */
  ghost predicate LedTo(cfg: ConfigSpace, seg: word, sc: Scope, id: SourceId)
    requires FitsScope(sc)
  {
    var x := Named(cfg, seg, sc);
    id == x || (sc.typ == 2 && Reachable(cfg, seg, cfg.read8(seg, x, 0x19), id))
  }

  lemma LedToDecode(mem: Memory, cfg: ConfigSpace, seg: word, q: nat, sc: Scope, id: SourceId)
    requires FitsScope(sc) && HoldsAt(mem, q, EncodeScope(sc))
    ensures AssignedByScope(cfg, mem, seg, q, id) <==> LedTo(cfg, seg, sc, id)
  {
    ScopeDecode(mem, cfg, seg, q, sc);
    hide HoldsAt, EncodeScope, ScopeId, Named, Reachable;
  }

  /** What a DRHD in memory assigns to its unit is what the DRHD that was written is about. */
  lemma AssignedDecode(mem: Memory, cfg: ConfigSpace, p: nat, d: Drhd, id: SourceId)
    requires FitsDrhd(d) && HoldsAt(mem, p, EncodeDrhd(d))
    ensures DrhdChain(mem, p) && (Assigned(cfg, mem, p, id) <==> AssignedBy(cfg, d, id))
  {
    DrhdDecode(mem, p, d);
    hide HoldsAt, EncodeDrhd, EncodeScope, Reachable, AssignedByScope, LedTo;
    hide DrhdBase, DrhdSegment, DrhdIncludeAll, DrhdScopes, DrhdChain;
    var s, qs := d.segment, DrhdScopes(mem, p);
    forall i | 0 <= i < |qs| ensures AssignedByScope(cfg, mem, s, qs[i], id) <==> LedTo(cfg, s, d.scopes[i], id) {
      LedToDecode(mem, cfg, s, qs[i], d.scopes[i], id);
    }
  }

  // ---------- whole tables ----------

  /** A remapping structure: a DRHD, or one of another type, of which only type and length are looked at here. */
  datatype Structure = Remapping(drhd: Drhd) | Other(typ: word, body: seq<byte>)

  ghost predicate FitsStructure(x: Structure) {
    match x
    case Remapping(d) => FitsDrhd(d)
    case Other(typ, body) => typ != 0 && 4 + |body| < 0x1_0000
  }

  ghost function EncodeStructure(x: Structure): (bs: seq<byte>)
    requires FitsStructure(x)
    ensures 4 <= |bs| < 0x1_0000
  {
    match x
    case Remapping(d) => EncodeDrhd(d)
    case Other(typ, body) => Encode16(typ) + Encode16(4 + |body|) + body
  }

  ghost predicate FitStructures(xs: seq<Structure>) {
    forall i :: 0 <= i < |xs| ==> FitsStructure(xs[i])
  }

  ghost function EncodeStructures(xs: seq<Structure>): seq<byte>
    requires FitStructures(xs)
  {
    if xs == [] then [] else EncodeStructure(xs[0]) + EncodeStructures(xs[1..])
  }

  ghost function DrhdsOf(xs: seq<Structure>): seq<Drhd> {
    if xs == [] then [] else (if xs[0].Remapping? then [xs[0].drhd] else []) + DrhdsOf(xs[1..])
  }

  /** At ps[i] in memory there is ds[i]. */
  ghost predicate AreDrhdsAt(mem: Memory, ps: seq<nat>, ds: seq<Drhd>) {
    |ps| == |ds| && forall i :: 0 <= i < |ds| ==> FitsDrhd(ds[i]) && HoldsAt(mem, ps[i], EncodeDrhd(ds[i]))
  }

  lemma StructureDecode(mem: Memory, p: nat, x: Structure)
    requires FitsStructure(x) && HoldsAt(mem, p, EncodeStructure(x))
    ensures U16(mem, p + 2) == |EncodeStructure(x)|
    ensures U16(mem, p) == 0 <==> x.Remapping?
    ensures x.Remapping? ==> DrhdChain(mem, p)
  {
    match x {
      case Remapping(d) => DrhdDecode(mem, p, d);
      case Other(typ, body) =>
        Lengths(typ, 0);
        Lengths(4 + |body|, 0);
        hide HoldsAt, Encode16, U16;
        HoldsAtConcat(mem, p, Encode16(typ) + Encode16(4 + |body|), body);
        HoldsAtConcat(mem, p, Encode16(typ), Encode16(4 + |body|));
        DecodeEncode16(mem, p, typ);
        DecodeEncode16(mem, p + 2, 4 + |body|);
    }
  }

  lemma {:induction false} StructuresDecode(mem: Memory, p: nat, xs: seq<Structure>)
    requires FitStructures(xs) && HoldsAt(mem, p, EncodeStructures(xs))
    ensures StructureChain(mem, p, p + |EncodeStructures(xs)|)
    ensures AreDrhdsAt(mem, Drhds(mem, p, p + |EncodeStructures(xs)|), DrhdsOf(xs))
    decreases |xs|
  {
    hide HoldsAt, EncodeStructure, DrhdChain, U16;
    if xs != [] {
      HoldsAtConcat(mem, p, EncodeStructure(xs[0]), EncodeStructures(xs[1..]));
      StructureDecode(mem, p, xs[0]);
      StructuresDecode(mem, p + |EncodeStructure(xs[0])|, xs[1..]);
      assert xs[0].Remapping? ==> HoldsAt(mem, p, EncodeDrhd(xs[0].drhd)) by {
        assert xs[0].Remapping? ==> EncodeStructure(xs[0]) == EncodeDrhd(xs[0].drhd) by { StructureOfDrhd(xs[0]); }
      }
    }
  }

  lemma StructureOfDrhd(x: Structure)
    requires FitsStructure(x)
    ensures x.Remapping? ==> EncodeStructure(x) == EncodeDrhd(x.drhd)
  {
  }

  /** A table: signature, length, and 40 more bytes of header, of which nothing is looked at; then the structures. */
  datatype AcpiTable = AcpiTable(signature: seq<byte>, rest: seq<byte>, structures: seq<Structure>)

  ghost predicate FitsTable(t: AcpiTable) {
    |t.signature| == 4 && |t.rest| == 40 && FitStructures(t.structures)
    && 48 + |EncodeStructures(t.structures)| < UINT32
  }

  ghost function EncodeTable(t: AcpiTable): seq<byte>
    requires FitsTable(t)
  {
    t.signature + Encode32(48 + |EncodeStructures(t.structures)|) + t.rest + EncodeStructures(t.structures)
  }

  /** In memory that holds a table, the walk finds exactly its DRHDs, in order. */
  lemma TableDecode(mem: Memory, p: nat, t: AcpiTable)
    requires FitsTable(t) && HoldsAt(mem, p, EncodeTable(t))
    ensures DmarChain(mem, p) && AreDrhdsAt(mem, DmarDrhds(mem, p), DrhdsOf(t.structures))
  {
    var n := 48 + |EncodeStructures(t.structures)|;
    Lengths(0, n);
    hide HoldsAt, Encode32, U32, EncodeStructures, Drhds, StructureChain, AreDrhdsAt, DrhdsOf, FitStructures;
    HeaderAndBody(mem, p, t.signature, Encode32(n), t.rest, EncodeStructures(t.structures));
    DecodeEncode32(mem, p + 4, n);
    StructuresDecode(mem, p + 48, t.structures);
  }

  lemma HeaderAndBody(mem: Memory, p: nat, signature: seq<byte>, length: seq<byte>, rest: seq<byte>, body: seq<byte>)
    requires HoldsAt(mem, p, signature + length + rest + body)
    requires |signature| == 4 && |length| == 4 && |rest| == 40
    ensures HoldsAt(mem, p + 4, length) && HoldsAt(mem, p + 48, body)
  {
    hide HoldsAt;
    HoldsAtConcat(mem, p, signature + length + rest, body);
    HoldsAtConcat(mem, p, signature + length, rest);
    HoldsAtConcat(mem, p, signature, length);
  }
}
