/** Firmware file sections: selection by type and instance, and the search for the PCD database among the raw ones. */
module FfsSections {
  import opened Memory
  import opened Options

  const RAW: byte := 0x19
  const EXTENDED: dword := 0xFF_FFFF

  // ---------- the stream in memory ----------

  function SectionType(mem: Memory, p: nat): byte { mem(p + 3) }

  predicate IsSection2(mem: Memory, p: nat) { U24(mem, p) == EXTENDED }

  function SectionSize(mem: Memory, p: nat): dword {
    if IsSection2(mem, p) then U32(mem, p + 4) else U24(mem, p)
  }

  function HeaderSize(mem: Memory, p: nat): nat { if IsSection2(mem, p) then 8 else 4 }

  function NextSection(mem: Memory, p: nat): (r: nat)
    ensures r >= p && (SectionSize(mem, p) > 0 ==> r > p)
  {
    p + Align(SectionSize(mem, p), 4)
  }

  /** No section from p to end has size zero, which would stall the walk. */
  ghost predicate Chain(mem: Memory, p: nat, end: nat)
    decreases end - p
  {
    p < end ==> SectionSize(mem, p) > 0 && Chain(mem, NextSection(mem, p), end)
  }

  /** The sections of one type from p to end, in order. */
  ghost function OfType(mem: Memory, p: nat, end: nat, typ: byte): seq<nat>
    requires Chain(mem, p, end)
    decreases end - p
  {
    if p >= end then []
    else (if SectionType(mem, p) == typ then [p] else []) + OfType(mem, NextSection(mem, p), end, typ)
  }

  /** Finds the section with the given instance number among those of its type. */
  method GetSectionByType(mem: Memory, buffer: nat, size: dword, typ: byte, instance: nat)
      returns (found: bool, section: nat, sectionSize: dword)
    requires Chain(mem, buffer, buffer + size)
    ensures var all := OfType(mem, buffer, buffer + size, typ);
      found == (instance < |all|) && (found ==> section == all[instance] && sectionSize == SectionSize(mem, section))
  {
    hide SectionSize, NextSection;
    ghost var all := OfType(mem, buffer, buffer + size, typ);
    section := buffer;
    var i := 0;
    while section < buffer + size
      invariant Chain(mem, section, buffer + size) && i <= instance
      invariant i <= |all| && all[i..] == OfType(mem, section, buffer + size, typ)
      decreases buffer + size - section
    {
      sectionSize := SectionSize(mem, section);
      if SectionType(mem, section) == typ {
        if i == instance {
          return true, section, sectionSize;
        }
        assert all[i..][1..] == all[i + 1..];
        i := i + 1;
      }
      section := NextSection(mem, section);
    }
    return false, 0, 0;
  }

  // ---------- the PCD database among the raw sections ----------

  /** What follows the header of a section. The subtraction is one of UINTNs. */
  datatype Data = Data(address: nat, size: nat)

  function SectionData(mem: Memory, p: nat): Data {
    Data(p + HeaderSize(mem, p), (SectionSize(mem, p) - HeaderSize(mem, p)) % UINTN)
  }

  predicate IsDataPcdDatabase(mem: Memory, signature: seq<byte>, d: Data) {
    d.size >= 16 && GuidAt(mem, d.address) == signature
  }

  function FirstDatabase(mem: Memory, signature: seq<byte>, sections: seq<nat>): Option<Data> {
    if sections == [] then None
    else if IsDataPcdDatabase(mem, signature, SectionData(mem, sections[0])) then Some(SectionData(mem, sections[0]))
    else FirstDatabase(mem, signature, sections[1..])
  }

  /** The loop over the instances: it starts from the first section again for every instance, and ends. */
  method GetImagePcdDb(mem: Memory, signature: seq<byte>, ffsData: nat, size: dword) returns (data: Option<Data>)
    requires Chain(mem, ffsData, ffsData + size)
    ensures data == FirstDatabase(mem, signature, OfType(mem, ffsData, ffsData + size, RAW))
  {
    hide OfType, IsDataPcdDatabase, SectionData;
    ghost var all := OfType(mem, ffsData, ffsData + size, RAW);
    var instance: nat := 0;
    while true
      invariant instance <= |all|
      invariant FirstDatabase(mem, signature, all[instance..]) == FirstDatabase(mem, signature, all)
      decreases |all| - instance
    {
      var found, section, _ := GetSectionByType(mem, ffsData, size, RAW, instance);
      if !found {
        return None;
      }
      assert all[instance..][1..] == all[instance + 1..];
      if IsDataPcdDatabase(mem, signature, SectionData(mem, section)) {
        return Some(SectionData(mem, section));
      }
      instance := instance + 1;
    }
  }

  // ---------- well-formed streams ----------

  datatype Section = Section(typ: byte, body: seq<byte>)

  ghost predicate Fits(s: Section) { |s.body| + 8 < 0x1_0000_0000 }

  function Header(s: Section): seq<byte>
    requires Fits(s)
  {
    var n := |s.body| + 4;
    if n < 0xFF_FFFF then [n % 0x100, n / 0x100 % 0x100, n / 0x1_0000, s.typ]
    else [0xFF, 0xFF, 0xFF, s.typ] + Encode32(|s.body| + 8)
  }

  function EncodeSection(s: Section): (bs: seq<byte>)
    requires Fits(s)
    ensures |bs| >= 4
  {
    Header(s) + s.body
  }

  /** Sections one after the other, each padded to four bytes. */
  function Stream(ss: seq<Section>): seq<byte>
    requires forall s :: s in ss ==> Fits(s)
  {
    if ss == [] then []
    else
      var bs := EncodeSection(ss[0]);
      bs + seq(Align(|bs|, 4) - |bs|, i => 0) + Stream(ss[1..])
  }

  lemma DecodeHeader(mem: Memory, p: nat, s: Section)
    requires Fits(s) && HoldsAt(mem, p, Header(s))
    ensures SectionType(mem, p) == s.typ
    ensures SectionSize(mem, p) == |Header(s)| + |s.body| && HeaderSize(mem, p) == |Header(s)|
  {
    hide U32;
    var n := |s.body| + 4;
    var h := Header(s);
    assert mem(p + 0) == h[0] && mem(p + 1) == h[1] && mem(p + 2) == h[2] && mem(p + 3) == h[3];
    if n < EXTENDED {
      assert n == n % 0x100 + 0x100 * (n / 0x100 % 0x100) + 0x1_0000 * (n / 0x1_0000);
    } else {
      assert |Encode32(|s.body| + 8)| == 4;
      HoldsAtConcat(mem, p, [0xFF, 0xFF, 0xFF, s.typ], Encode32(|s.body| + 8));
      DecodeEncode32(mem, p + 4, |s.body| + 8);
    }
  }

  /** A section that is in memory is read back. */
  lemma DecodeSection(mem: Memory, p: nat, s: Section)
    requires Fits(s) && HoldsAt(mem, p, EncodeSection(s))
    ensures SectionType(mem, p) == s.typ
    ensures SectionSize(mem, p) == |EncodeSection(s)|
    ensures SectionData(mem, p).size == |s.body| && HoldsAt(mem, SectionData(mem, p).address, s.body)
  {
    hide Header, SectionSize, HeaderSize, SectionType, HoldsAt;
    HoldsAtConcat(mem, p, Header(s), s.body);
    DecodeHeader(mem, p, s);
  }

  /** The sections of a type in the stream. */
  function Select(ss: seq<Section>, typ: byte): seq<Section> {
    if ss == [] then [] else (if ss[0].typ == typ then [ss[0]] else []) + Select(ss[1..], typ)
  }

  /** At section sections[i] in memory there is ss[i]. */
  ghost predicate AreAt(mem: Memory, sections: seq<nat>, ss: seq<Section>) {
    |sections| == |ss| && forall i :: 0 <= i < |ss| ==> Fits(ss[i]) && HoldsAt(mem, sections[i], EncodeSection(ss[i]))
  }

  /** On a well-formed stream the walk never stalls, and meets exactly the sections of the stream, in order. */
  lemma {:induction false} WalkOfStream(mem: Memory, p: nat, ss: seq<Section>, typ: byte)
    requires forall s :: s in ss ==> Fits(s)
    requires HoldsAt(mem, p, Stream(ss))
    ensures Chain(mem, p, p + |Stream(ss)|)
    ensures AreAt(mem, OfType(mem, p, p + |Stream(ss)|, typ), Select(ss, typ))
    decreases |ss|
  {
    hide EncodeSection, SectionSize, SectionType, SectionData, HoldsAt, Align;
    if ss != [] {
      var bs := EncodeSection(ss[0]);
      var pad := seq(Align(|bs|, 4) - |bs|, i => 0);
      HoldsAtConcat(mem, p, bs + pad, Stream(ss[1..]));
      HoldsAtConcat(mem, p, bs, pad);
      DecodeSection(mem, p, ss[0]);
      assert NextSection(mem, p) == p + |bs + pad|;
      WalkOfStream(mem, p + |bs + pad|, ss[1..], typ);
    }
  }

  predicate IsDatabase(signature: seq<byte>, s: Section) {
    s.typ == 0x19 && |s.body| >= 16 && s.body[..16] == signature
  }

  /** The body of the first section that is a PCD database. */
  function FirstDatabaseBody(signature: seq<byte>, ss: seq<Section>): Option<seq<byte>> {
    if ss == [] then None
    else if IsDatabase(signature, ss[0]) then Some(ss[0].body)
    else FirstDatabaseBody(signature, ss[1..])
  }

  /** Exactly that body is at the data, or there is neither. */
  ghost predicate Matches(mem: Memory, data: Option<Data>, body: Option<seq<byte>>) {
    match data
    case None => body == None
    case Some(d) => body.Some? && d.size == |body.value| && HoldsAt(mem, d.address, body.value)
  }

  lemma {:induction false} OnlyRawSectionsCount(signature: seq<byte>, ss: seq<Section>)
    ensures FirstDatabaseBody(signature, Select(ss, RAW)) == FirstDatabaseBody(signature, ss)
    ensures forall s :: s in Select(ss, RAW) ==> s.typ == RAW
  {
    if ss != [] {
      OnlyRawSectionsCount(signature, ss[1..]);
      assert [] + Select(ss[1..], RAW) == Select(ss[1..], RAW);
      assert ([ss[0]] + Select(ss[1..], RAW))[1..] == Select(ss[1..], RAW);
    }
  }

  lemma {:induction false} FirstAmongSections(mem: Memory, signature: seq<byte>, sections: seq<nat>, ss: seq<Section>)
    requires AreAt(mem, sections, ss) && forall s :: s in ss ==> s.typ == RAW
    ensures Matches(mem, FirstDatabase(mem, signature, sections), FirstDatabaseBody(signature, ss))
    decreases |ss|
  {
    hide EncodeSection, HoldsAt, SectionData;
    if ss != [] {
      assert AreAt(mem, sections[1..], ss[1..]);
      FirstAmongSections(mem, signature, sections[1..], ss[1..]);
      DecodeSection(mem, sections[0], ss[0]);
      SignatureOf(mem, SectionData(mem, sections[0]), signature, ss[0]);
    }
  }

  lemma SignatureOf(mem: Memory, d: Data, signature: seq<byte>, s: Section)
    requires s.typ == RAW && d.size == |s.body| && HoldsAt(mem, d.address, s.body)
    ensures IsDataPcdDatabase(mem, signature, d) == IsDatabase(signature, s)
  {
    if d.size >= 16 {
      assert GuidAt(mem, d.address) == s.body[..16];
    }
  }

  /** On a well-formed stream the search hands out the body of the first PCD database in it, or finds none. */
  lemma SearchOfStream(mem: Memory, signature: seq<byte>, p: nat, ss: seq<Section>)
    requires forall s :: s in ss ==> Fits(s)
    requires HoldsAt(mem, p, Stream(ss))
    ensures Chain(mem, p, p + |Stream(ss)|)
    ensures Matches(mem, FirstDatabase(mem, signature, OfType(mem, p, p + |Stream(ss)|, RAW)),
      FirstDatabaseBody(signature, ss))
  {
    hide AreAt, Matches, FirstDatabase;
    WalkOfStream(mem, p, ss, RAW);
    OnlyRawSectionsCount(signature, ss);
    FirstAmongSections(mem, signature, OfType(mem, p, p + |Stream(ss)|, RAW), Select(ss, RAW));
  }
}
