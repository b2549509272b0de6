/** The NV store default buffer: a variable store with the default values, then blocks of per-SKU deltas on it. */
module NvStore {
  import opened Memory
  import opened Options
  import opened DataDeltas

  /** Sizes and field offsets of the headers; a variable header has a positive size. */
  datatype VariableLayout = VariableLayout(header: nat, nameSize: nat, dataSize: nat)
  datatype Layout = Layout(
    bufferHeader: nat, signature: nat, length: nat, magic: dword,
    storeHeader: nat, plainGuid: seq<byte>, authGuid: seq<byte>,
    plain: VariableLayout, auth: VariableLayout)

  ghost predicate Sized(lay: Layout) {
    lay.plain.header > 0 && lay.auth.header > 0
  }

  // ---------- fields, by offset from the buffer at base ----------

  function Length(lay: Layout, mem: Memory, base: nat): dword { U32(mem, base + lay.length) }
  function HasMagic(lay: Layout, mem: Memory, base: nat): bool { U32(mem, base + lay.signature) == lay.magic }

  /** PCD_DEFAULT_DATA: the size of the block, the size of its header, and the SKU and store the block is for. */
  function BlockSize(mem: Memory, base: nat, off: nat): dword { U32(mem, base + off) }
  function HeaderSize(mem: Memory, base: nat, off: nat): dword { U32(mem, base + off + 4) }
  function BlockSku(mem: Memory, base: nat, off: nat): nat { U64(mem, base + off + 8) }
  function BlockDefault(mem: Memory, base: nat, off: nat): word { U16(mem, base + off + 16) }

  /** Where the variable store header is. */
  function StoreOffset(lay: Layout, mem: Memory, base: nat): nat {
    Align(lay.bufferHeader + HeaderSize(mem, base, lay.bufferHeader), 8)
  }

  /** The variable header format, by the GUID of the store; None if the GUID is neither of the two. */
  function StoreFormat(lay: Layout, mem: Memory, base: nat): Option<VariableLayout> {
    var guid := GuidAt(mem, base + StoreOffset(lay, mem, base));
    if guid == lay.plainGuid then Some(lay.plain) else if guid == lay.authGuid then Some(lay.auth) else None
  }

  function FirstVariable(lay: Layout, mem: Memory, base: nat): nat {
    Align(StoreOffset(lay, mem, base) + lay.storeHeader, 4)
  }

  function NameSize(v: VariableLayout, mem: Memory, base: nat, off: nat): dword { U32(mem, base + off + v.nameSize) }
  function DataSize(v: VariableLayout, mem: Memory, base: nat, off: nat): dword { U32(mem, base + off + v.dataSize) }

  function NextVariable(v: VariableLayout, mem: Memory, base: nat, off: nat): (r: nat)
    ensures r >= off + v.header
  {
    Align(off + v.header + NameSize(v, mem, base, off) + DataSize(v, mem, base, off), 4)
  }

  /** The data of a variable. */
  function VariableRange(v: VariableLayout, mem: Memory, base: nat, off: nat): Range {
    Range(base + off + v.header + NameSize(v, mem, base, off), DataSize(v, mem, base, off))
  }

  // ---------- the walk over the variables ----------

  /** The offsets of the variables from off on, and where the walk stops. No header can stall it. */
  function Variables(v: VariableLayout, mem: Memory, base: nat, off: nat, end: nat): seq<nat>
    requires v.header > 0
    decreases end - off
  {
    if off >= end then [] else [off] + Variables(v, mem, base, NextVariable(v, mem, base, off), end)
  }

  function VariablesEnd(v: VariableLayout, mem: Memory, base: nat, off: nat, end: nat): nat
    requires v.header > 0
    decreases end - off
  {
    if off >= end then off else VariablesEnd(v, mem, base, NextVariable(v, mem, base, off), end)
  }

  /** The first size field bounds the variables. */
  function StoreEnd(lay: Layout, mem: Memory, base: nat): nat { BlockSize(mem, base, lay.bufferHeader) }

  /** Where the delta blocks start. */
  function DeltaStart(lay: Layout, mem: Memory, base: nat): nat
    requires lay.plain.header > 0 && lay.auth.header > 0
  {
    match StoreFormat(lay, mem, base)
    case None => Align(FirstVariable(lay, mem, base), 8)
    case Some(v) => Align(VariablesEnd(v, mem, base, FirstVariable(lay, mem, base), StoreEnd(lay, mem, base)), 8)
  }

  // ---------- the walk over the delta blocks ----------

  /** The address range of the delta entries of the block. */
  function DeltasFrom(mem: Memory, base: nat, off: nat): (r: nat)
    ensures r >= base + off + 4
  {
    base + Align(off + 4 + HeaderSize(mem, base, off), 4)
  }

  function DeltasTo(mem: Memory, base: nat, off: nat): nat {
    base + off + BlockSize(mem, base, off)
  }

  function BlockDeltas(mem: Memory, base: nat, off: nat): seq<Delta> {
    Deltas(mem, DeltasFrom(mem, base, off), DeltasTo(mem, base, off))
  }

  function NextBlock(mem: Memory, base: nat, off: nat): (r: nat)
    ensures r > off
  {
    Align(DeltasEnd(DeltasFrom(mem, base, off), DeltasTo(mem, base, off)) - base, 8)
  }

  /** The offsets of the delta blocks from off on. No size field can stall the walk. */
  function Blocks(mem: Memory, base: nat, off: nat, end: nat): seq<nat>
    decreases end - off
  {
    if off >= end then [] else [off] + Blocks(mem, base, NextBlock(mem, base, off), end)
  }

  /** All delta blocks of the buffer. */
  function AllBlocks(lay: Layout, mem: Memory, base: nat): seq<nat>
    requires lay.plain.header > 0 && lay.auth.header > 0
  {
    Blocks(mem, base, DeltaStart(lay, mem, base), Length(lay, mem, base))
  }

  /** Deltas count from the variable store header. */
  function Origin(lay: Layout, mem: Memory, base: nat): nat { base + StoreOffset(lay, mem, base) }

  /** One printed line: the data with a block's deltas written over it, and whom the block is for. */
  datatype Line = Line(data: seq<byte>, sku: nat, store: word)

  /** The data of a range. */
  function DataOf(mem: Memory, r: Range): (bs: seq<byte>)
    ensures |bs| == r.size
  {
    Bytes(mem, r.address, r.size)
  }

  /** A block that has a delta for the data prints one line. */
  function BlockLines(lay: Layout, mem: Memory, base: nat, off: nat, r: Range): seq<Line> {
    var ds := BlockDeltas(mem, base, off);
    if Touches(Origin(lay, mem, base), ds, r) then
      [Line(Overlay(Origin(lay, mem, base), ds, r, DataOf(mem, r)), BlockSku(mem, base, off),
        BlockDefault(mem, base, off))]
    else []
  }

  function Lines(lay: Layout, mem: Memory, base: nat, offs: seq<nat>, r: Range): seq<Line> {
    if offs == [] then [] else BlockLines(lay, mem, base, offs[0], r) + Lines(lay, mem, base, offs[1..], r)
  }

  /** There is a line to print exactly when some delta of some block is in range. */
  lemma {:induction false} LinesExist(lay: Layout, mem: Memory, base: nat, offs: seq<nat>, r: Range)
    ensures Lines(lay, mem, base, offs, r) != [] <==>
      exists i :: 0 <= i < |offs| && Touches(Origin(lay, mem, base), BlockDeltas(mem, base, offs[i]), r)
    decreases |offs|
  {
    hide Touches, BlockDeltas, Origin;
    if offs != [] {
      LinesExist(lay, mem, base, offs[1..], r);
      assert forall i :: 0 <= i < |offs| - 1 ==> offs[1..][i] == offs[i + 1];
      if i :| 0 <= i < |offs| && Touches(Origin(lay, mem, base), BlockDeltas(mem, base, offs[i]), r) && i > 0 {
        assert Touches(Origin(lay, mem, base), BlockDeltas(mem, base, offs[1..][i - 1]), r);
      }
    }
  }
}
