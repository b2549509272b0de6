/** NV store default buffers as they are written, and reading them back. */
module NvStoreEncoding {
  import opened Memory
  import opened Options
  import opened DataDeltas
  import opened DeltaEncoding
  import opened NvStore

  // ---------- variables ----------

  /** A variable: its header, with the sizes of name and data at the places its format has them, its name, its data. */
  datatype Variable = Variable(header: seq<byte>, name: seq<byte>, data: seq<byte>)

  predicate FitsVariable(v: VariableLayout, x: Variable) {
    && 0 < |x.header| == v.header && v.nameSize + 4 <= v.header && v.dataSize + 4 <= v.header
    && |x.name| < UINT32 && |x.data| < UINT32
    && x.header[v.nameSize..v.nameSize + 4] == Encode32(|x.name|)
    && x.header[v.dataSize..v.dataSize + 4] == Encode32(|x.data|)
  }

  function EncodeVariable(x: Variable): (bs: seq<byte>)
    ensures |bs| % 4 == 0
  {
    var bytes := x.header + x.name + x.data;
    PaddedIsMultiple(|bytes|);
    bytes + Padding(|bytes|, 4)
  }

  ghost predicate FitVariables(v: VariableLayout, xs: seq<Variable>) {
    forall i :: 0 <= i < |xs| ==> FitsVariable(v, xs[i])
  }

  function EncodeVariables(xs: seq<Variable>): (bs: seq<byte>)
    ensures |bs| % 4 == 0
  {
    if xs == [] then [] else EncodeVariable(xs[0]) + EncodeVariables(xs[1..])
  }

  /** The offsets of the variables written from off on. */
  function VariableStarts(off: nat, xs: seq<Variable>): (offs: seq<nat>)
    ensures |offs| == |xs|
    decreases |xs|
  {
    if xs == [] then [] else [off] + VariableStarts(off + |EncodeVariable(xs[0])|, xs[1..])
  }

  lemma VariableParts(mem: Memory, p: nat, x: Variable)
    requires HoldsAt(mem, p, EncodeVariable(x))
    ensures HoldsAt(mem, p, x.header) && HoldsAt(mem, p + |x.header| + |x.name|, x.data)
  {
    hide HoldsAt, Padding;
    HoldsAtConcat(mem, p, x.header + x.name + x.data, Padding(|x.header + x.name + x.data|, 4));
    HoldsAtConcat(mem, p, x.header + x.name, x.data);
    HoldsAtConcat(mem, p, x.header, x.name);
  }

  /** The data of the variable is where it was written. */
  ghost predicate IsVariableAt(v: VariableLayout, mem: Memory, base: nat, off: nat, x: Variable) {
    var r := VariableRange(v, mem, base, off);
    r == Range(base + off + |x.header| + |x.name|, |x.data|) && DataOf(mem, r) == x.data
  }

  /** A variable in memory is read back, and the next one is right behind it. */
  lemma VariableDecode(v: VariableLayout, mem: Memory, base: nat, off: nat, x: Variable)
    requires FitsVariable(v, x) && off % 4 == 0 && HoldsAt(mem, base + off, EncodeVariable(x))
    ensures NextVariable(v, mem, base, off) == off + |EncodeVariable(x)| > off
    ensures IsVariableAt(v, mem, base, off, x)
  {
    hide HoldsAt, U32, Encode32, Padding, Align;
    VariableParts(mem, base + off, x);
    VariableSizes(v, mem, base, off, x);
    AlignPadded(off, |x.header| + |x.name| + |x.data|);
    SameBytes(mem, base + off + |x.header| + |x.name|, x.data);
  }

  lemma VariableSizes(v: VariableLayout, mem: Memory, base: nat, off: nat, x: Variable)
    requires FitsVariable(v, x) && HoldsAt(mem, base + off, x.header)
    ensures NameSize(v, mem, base, off) == |x.name| && DataSize(v, mem, base, off) == |x.data|
  {
    hide HoldsAt, U32, Encode32;
    HoldsSlice(mem, base + off, x.header, v.nameSize, v.nameSize + 4);
    HoldsSlice(mem, base + off, x.header, v.dataSize, v.dataSize + 4);
    DecodeEncode32(mem, base + off + v.nameSize, |x.name|);
    DecodeEncode32(mem, base + off + v.dataSize, |x.data|);
  }

  lemma SameBytes(mem: Memory, p: nat, bs: seq<byte>)
    requires HoldsAt(mem, p, bs)
    ensures Bytes(mem, p, |bs|) == bs
  {
  }

  /** The offset of the last of them. */
  function LastVariable(off: nat, xs: seq<Variable>): nat
    requires xs != []
  {
    VariableStarts(off, xs)[|xs| - 1]
  }

  /** The bound of the walk lies behind the start of the last variable and not behind the end of the variables. */
  predicate BoundsVariables(off: nat, xs: seq<Variable>, end: nat) {
    (xs == [] || LastVariable(off, xs) < end) && end <= off + |EncodeVariables(xs)|
  }

  lemma BoundsRest(off: nat, xs: seq<Variable>, end: nat)
    requires xs != [] && BoundsVariables(off, xs, end) && |EncodeVariable(xs[0])| > 0
    ensures off < end && BoundsVariables(off + |EncodeVariable(xs[0])|, xs[1..], end)
  {
    StartsInside(off, xs);
  }

  lemma {:induction false} StartsInside(off: nat, xs: seq<Variable>)
    ensures forall i :: 0 <= i < |xs| ==> VariableStarts(off, xs)[i] >= off
    decreases |xs|
  {
    if xs != [] {
      StartsInside(off + |EncodeVariable(xs[0])|, xs[1..]);
    }
  }

  /** The walk finds exactly the variables that were written, and their data, and ends behind the last. */
  lemma {:induction false} VariablesDecode(v: VariableLayout, mem: Memory, base: nat, off: nat, xs: seq<Variable>,
        end: nat)
    requires v.header > 0 && FitVariables(v, xs) && off % 4 == 0 && HoldsAt(mem, base + off, EncodeVariables(xs))
    requires BoundsVariables(off, xs, end)
    ensures Variables(v, mem, base, off, end) == VariableStarts(off, xs)
    ensures VariablesEnd(v, mem, base, off, end) == off + |EncodeVariables(xs)|
    ensures forall i :: 0 <= i < |xs| ==> IsVariableAt(v, mem, base, VariableStarts(off, xs)[i], xs[i])
    decreases |xs|
  {
    hide *;
    VariablesStep(v, mem, base, off, end);
    if xs == [] {
      EmptyBound(off, xs, end);
    } else {
      StartsStep(off, xs);
      HoldsAtConcat(mem, base + off, EncodeVariable(xs[0]), EncodeVariables(xs[1..]));
      FitRest(v, xs);
      VariableDecode(v, mem, base, off, xs[0]);
      BoundsRest(off, xs, end);
      SumsOf4(off, |EncodeVariable(xs[0])|);
      VariablesDecode(v, mem, base, off + |EncodeVariable(xs[0])|, xs[1..], end);
    }
  }

  lemma VariablesStep(v: VariableLayout, mem: Memory, base: nat, off: nat, end: nat)
    requires v.header > 0
    ensures off >= end ==> Variables(v, mem, base, off, end) == [] && VariablesEnd(v, mem, base, off, end) == off
    ensures off < end ==>
      var next := NextVariable(v, mem, base, off);
      && Variables(v, mem, base, off, end) == [off] + Variables(v, mem, base, next, end)
      && VariablesEnd(v, mem, base, off, end) == VariablesEnd(v, mem, base, next, end)
  {
    hide NextVariable;
  }

  lemma StartsStep(off: nat, xs: seq<Variable>)
    requires xs != []
    ensures VariableStarts(off, xs) == [off] + VariableStarts(off + |EncodeVariable(xs[0])|, xs[1..])
    ensures EncodeVariables(xs) == EncodeVariable(xs[0]) + EncodeVariables(xs[1..])
  {
    hide EncodeVariable;
  }

  lemma FitRest(v: VariableLayout, xs: seq<Variable>)
    requires xs != [] && FitVariables(v, xs)
    ensures FitsVariable(v, xs[0]) && FitVariables(v, xs[1..])
  {
    hide FitsVariable;
  }

  lemma EmptyBound(off: nat, xs: seq<Variable>, end: nat)
    requires xs == [] && BoundsVariables(off, xs, end)
    ensures end <= off && EncodeVariables(xs) == [] && VariableStarts(off, xs) == []
  {
  }

  // ---------- delta blocks ----------

  /** Whom a block is for: the first of its infos counts. */
  datatype Info = Info(sku: nat, store: word)
  datatype Block = Block(first: Info, others: seq<Info>, deltas: seq<Delta>)

  predicate FitsBlock(b: Block) {
    && b.first.sku < UINTN && (forall i :: 0 <= i < |b.others| ==> b.others[i].sku < UINTN) && FitDeltas(b.deltas)
    && 24 + 16 * |b.others| + 4 * |b.deltas| < UINT32
  }

  function EncodeInfo(x: Info): (bs: seq<byte>)
    requires x.sku < UINTN
    ensures |bs| == 16
  {
    Encode64(x.sku) + Encode16(x.store) + [0, 0, 0, 0, 0, 0]
  }

  function EncodeInfos(xs: seq<Info>): (bs: seq<byte>)
    requires forall i :: 0 <= i < |xs| ==> xs[i].sku < UINTN
    ensures |bs| == 16 * |xs|
  {
    if xs == [] then [] else EncodeInfo(xs[0]) + EncodeInfos(xs[1..])
  }

  /** Sizes, infos and deltas of a block: the second size counts itself and the infos. */
  function BlockBytes(b: Block): (bs: seq<byte>)
    requires FitsBlock(b)
    ensures |bs| == 24 + 16 * |b.others| + 4 * |b.deltas|
  {
    Encode32(24 + 16 * |b.others| + 4 * |b.deltas|) + Encode32(20 + 16 * |b.others|) + EncodeInfo(b.first)
    + EncodeInfos(b.others) + EncodeDeltas(b.deltas)
  }

  function EncodeBlock(b: Block): (bs: seq<byte>)
    requires FitsBlock(b)
    ensures |bs| >= 24 && |bs| % 8 == 0
  {
    PaddedIsMultiple(|BlockBytes(b)|);
    BlockBytes(b) + Padding(|BlockBytes(b)|, 8)
  }

  lemma BlockParts(mem: Memory, p: nat, b: Block)
    requires FitsBlock(b) && HoldsAt(mem, p, EncodeBlock(b))
    ensures HoldsAt(mem, p, Encode32(24 + 16 * |b.others| + 4 * |b.deltas|))
    ensures HoldsAt(mem, p + 4, Encode32(20 + 16 * |b.others|))
    ensures HoldsAt(mem, p + 8, EncodeInfo(b.first))
    ensures HoldsAt(mem, p + 24 + 16 * |b.others|, EncodeDeltas(b.deltas))
  {
    var size, header := Encode32(24 + 16 * |b.others| + 4 * |b.deltas|), Encode32(20 + 16 * |b.others|);
    Lengths(0, 24 + 16 * |b.others| + 4 * |b.deltas|);
    Lengths(0, 20 + 16 * |b.others|);
    hide HoldsAt, Encode32, EncodeInfo, EncodeInfos, EncodeDeltas, Padding;
    HoldsAtConcat(mem, p, BlockBytes(b), Padding(|BlockBytes(b)|, 8));
    BlockPieces(mem, p, size, header, EncodeInfo(b.first), EncodeInfos(b.others), EncodeDeltas(b.deltas));
  }

  lemma BlockPieces(mem: Memory, p: nat, size: seq<byte>, header: seq<byte>, info: seq<byte>, infos: seq<byte>,
        deltas: seq<byte>)
    requires HoldsAt(mem, p, size + header + info + infos + deltas) && |size| == |header| == 4 && |info| == 16
    ensures HoldsAt(mem, p, size) && HoldsAt(mem, p + 4, header) && HoldsAt(mem, p + 8, info)
    ensures HoldsAt(mem, p + 24 + |infos|, deltas)
  {
    hide HoldsAt;
    HoldsAtConcat(mem, p, size + header + info + infos, deltas);
    HoldsAtConcat(mem, p, size + header + info, infos);
    HoldsAtConcat(mem, p, size + header, info);
    HoldsAtConcat(mem, p, size, header);
  }

  lemma InfoDecode(mem: Memory, p: nat, x: Info)
    requires x.sku < UINTN && HoldsAt(mem, p, EncodeInfo(x))
    ensures U64(mem, p) == x.sku && U16(mem, p + 8) == x.store
  {
    Lengths(x.store, 0);
    hide HoldsAt, Encode64, Encode16, U64, U16;
    HoldsAtConcat(mem, p, Encode64(x.sku) + Encode16(x.store), [0, 0, 0, 0, 0, 0]);
    HoldsAtConcat(mem, p, Encode64(x.sku), Encode16(x.store));
    DecodeEncode64(mem, p, x.sku);
    DecodeEncode16(mem, p + 8, x.store);
  }

  /** A block in memory is read back: SKU, store and deltas; and the next one is right behind its padding. */
  lemma BlockDecode(mem: Memory, base: nat, off: nat, b: Block)
    requires FitsBlock(b) && off % 8 == 0 && HoldsAt(mem, base + off, EncodeBlock(b))
    ensures BlockSku(mem, base, off) == b.first.sku && BlockDefault(mem, base, off) == b.first.store
    ensures BlockDeltas(mem, base, off) == b.deltas
    ensures NextBlock(mem, base, off) == off + |EncodeBlock(b)|
  {
    var size, header := 24 + 16 * |b.others| + 4 * |b.deltas|, 20 + 16 * |b.others|;
    hide HoldsAt, Encode32, U32, U64, U16, EncodeInfo, EncodeInfos, EncodeDeltas, Padding, Deltas, DeltasEnd, Align;
    BlockParts(mem, base + off, b);
    DecodeEncode32(mem, base + off, size);
    DecodeEncode32(mem, base + off + 4, header);
    InfoDecode(mem, base + off + 8, b.first);
    DeltasAligned(off, 20 + 16 * |b.others|);
    DeltasDecode(mem, base + off + 24 + 16 * |b.others|, b.deltas);
    AlignPadded(off, size);
  }

  lemma DeltasAligned(off: nat, header: nat)
    requires off % 8 == 0 && header % 4 == 0
    ensures Align(off + 4 + header, 4) == off + 4 + header
  {
    assert off == 8 * (off / 8) && header == 4 * (header / 4);
    MultiplesOf(2 * (off / 8) + 1 + header / 4);
    assert off + 4 + header == 4 * (2 * (off / 8) + 1 + header / 4);
    hide Align;
    OneMultipleOf4(Align(off + 4 + header, 4), off + 4 + header);
  }

  ghost predicate FitBlocks(bs: seq<Block>) {
    forall i :: 0 <= i < |bs| ==> FitsBlock(bs[i])
  }

  ghost function EncodeBlocks(bs: seq<Block>): seq<byte>
    requires FitBlocks(bs)
  {
    if bs == [] then [] else EncodeBlock(bs[0]) + EncodeBlocks(bs[1..])
  }

  /** The offsets of the blocks written from off on. */
  ghost function BlockStarts(off: nat, bs: seq<Block>): (offs: seq<nat>)
    requires FitBlocks(bs)
    ensures |offs| == |bs| && forall i :: 0 <= i < |offs| ==> offs[i] >= off
    decreases |bs|
  {
    if bs == [] then [] else [off] + BlockStarts(off + |EncodeBlock(bs[0])|, bs[1..])
  }

  /** The length lies behind the start of the last block and not behind the end of the blocks. */
  ghost predicate BoundsBlocks(off: nat, bs: seq<Block>, end: nat)
    requires FitBlocks(bs)
  {
    (bs == [] || BlockStarts(off, bs)[|bs| - 1] < end) && end <= off + |EncodeBlocks(bs)|
  }

  lemma BlocksStep(mem: Memory, base: nat, off: nat, end: nat)
    ensures off >= end ==> Blocks(mem, base, off, end) == []
    ensures off < end ==> Blocks(mem, base, off, end) == [off] + Blocks(mem, base, NextBlock(mem, base, off), end)
  {
    hide NextBlock;
  }

  lemma FirstBlock(off: nat, bs: seq<Block>, end: nat)
    requires FitBlocks(bs) && bs != [] && BoundsBlocks(off, bs, end)
    ensures FitsBlock(bs[0]) && FitBlocks(bs[1..]) && off < end
    ensures EncodeBlocks(bs) == EncodeBlock(bs[0]) + EncodeBlocks(bs[1..])
    ensures BlockStarts(off, bs) == [off] + BlockStarts(off + |EncodeBlock(bs[0])|, bs[1..])
    ensures BoundsBlocks(off + |EncodeBlock(bs[0])|, bs[1..], end)
  {
    hide FitsBlock, EncodeBlock;
  }

  lemma NoBlock(off: nat, bs: seq<Block>, end: nat)
    requires FitBlocks(bs) && bs == [] && BoundsBlocks(off, bs, end)
    ensures end <= off && BlockStarts(off, bs) == []
  {
  }

  /** At offs[i] in memory there is block bs[i]. */
  ghost predicate AreBlocksAt(mem: Memory, base: nat, offs: seq<nat>, bs: seq<Block>) {
    |offs| == |bs| && forall i :: 0 <= i < |bs| ==> IsBlockAt(mem, base, offs[i], bs[i])
  }

  ghost predicate IsBlockAt(mem: Memory, base: nat, off: nat, b: Block) {
    && BlockSku(mem, base, off) == b.first.sku && BlockDefault(mem, base, off) == b.first.store
    && BlockDeltas(mem, base, off) == b.deltas
  }

  /** The walk finds exactly the blocks that were written, with their SKUs, stores and deltas. */
  lemma {:induction false} BlocksDecode(mem: Memory, base: nat, off: nat, bs: seq<Block>, end: nat)
    requires FitBlocks(bs) && off % 8 == 0 && HoldsAt(mem, base + off, EncodeBlocks(bs)) && BoundsBlocks(off, bs, end)
    ensures Blocks(mem, base, off, end) == BlockStarts(off, bs)
    ensures AreBlocksAt(mem, base, BlockStarts(off, bs), bs)
    decreases |bs|
  {
    hide *;
    BlocksStep(mem, base, off, end);
    if bs == [] {
      NoBlock(off, bs, end);
      assert AreBlocksAt(mem, base, [], bs) by { NothingAt(mem, base, bs); }
    } else {
      FirstBlock(off, bs, end);
      HoldsAtConcat(mem, base + off, EncodeBlock(bs[0]), EncodeBlocks(bs[1..]));
      BlockDecode(mem, base, off, bs[0]);
      SumsOf8(off, |EncodeBlock(bs[0])|);
      BlocksDecode(mem, base, off + |EncodeBlock(bs[0])|, bs[1..], end);
      OneMoreAt(mem, base, off, BlockStarts(off + |EncodeBlock(bs[0])|, bs[1..]), bs);
    }
  }

  lemma NothingAt(mem: Memory, base: nat, bs: seq<Block>)
    requires bs == []
    ensures AreBlocksAt(mem, base, [], bs)
  {
  }

  lemma OneMoreAt(mem: Memory, base: nat, off: nat, offs: seq<nat>, bs: seq<Block>)
    requires bs != [] && AreBlocksAt(mem, base, offs, bs[1..])
    requires BlockSku(mem, base, off) == bs[0].first.sku && BlockDefault(mem, base, off) == bs[0].first.store
    requires BlockDeltas(mem, base, off) == bs[0].deltas
    ensures AreBlocksAt(mem, base, [off] + offs, bs)
  {
    hide BlockSku, BlockDefault, BlockDeltas;
  }

  // ---------- whole buffers ----------

  /**
   * A buffer: the size of the header in front of the store, the GUID that tells the variable format, the bound of the
   * walk over the variables, the variables, the delta blocks, and the length.
   */
  datatype Buffer = Buffer(headerSize: dword, guid: seq<byte>, bound: dword, variables: seq<Variable>,
    blocks: seq<Block>, length: dword)

  function StoreAt(lay: Layout, b: Buffer): nat { (lay.bufferHeader + b.headerSize + 7) / 8 * 8 }
  function VariablesAt(lay: Layout, b: Buffer): nat { (StoreAt(lay, b) + lay.storeHeader + 3) / 4 * 4 }
  function BlocksAt(lay: Layout, b: Buffer): nat { (VariablesAt(lay, b) + |EncodeVariables(b.variables)| + 7) / 8 * 8 }

  ghost predicate FitsBuffer(lay: Layout, v: VariableLayout, b: Buffer) {
    && v.header > 0 && FitVariables(v, b.variables) && FitBlocks(b.blocks)
    && |b.guid| == 16 && (if b.guid == lay.plainGuid then v == lay.plain else b.guid == lay.authGuid && v == lay.auth)
    && BoundsVariables(VariablesAt(lay, b), b.variables, b.bound)
    && BoundsBlocks(BlocksAt(lay, b), b.blocks, b.length)
  }

  /** Memory holds the buffer at base; v is the format of its variables. */
  ghost predicate HoldsBuffer(lay: Layout, v: VariableLayout, mem: Memory, base: nat, b: Buffer) {
    && FitsBuffer(lay, v, b)
    && HoldsAt(mem, base + lay.signature, Encode32(lay.magic)) && HoldsAt(mem, base + lay.length, Encode32(b.length))
    && HoldsAt(mem, base + lay.bufferHeader, Encode32(b.bound))
    && HoldsAt(mem, base + lay.bufferHeader + 4, Encode32(b.headerSize))
    && HoldsAt(mem, base + StoreAt(lay, b), b.guid)
    && HoldsAt(mem, base + VariablesAt(lay, b), EncodeVariables(b.variables))
    && HoldsAt(mem, base + BlocksAt(lay, b), EncodeBlocks(b.blocks))
  }

  lemma HeaderFields(lay: Layout, v: VariableLayout, mem: Memory, base: nat, b: Buffer)
    requires HoldsBuffer(lay, v, mem, base, b)
    ensures HasMagic(lay, mem, base) && Length(lay, mem, base) == b.length && StoreEnd(lay, mem, base) == b.bound
    ensures StoreOffset(lay, mem, base) == StoreAt(lay, b) && FirstVariable(lay, mem, base) == VariablesAt(lay, b)
    ensures StoreFormat(lay, mem, base) == Some(v)
  {
    hide HoldsAt, Encode32, U32, EncodeVariables, EncodeBlocks, BoundsVariables, BoundsBlocks, FitVariables, FitBlocks;
    hide GuidAt, Align;
    DecodeEncode32(mem, base + lay.signature, lay.magic);
    DecodeEncode32(mem, base + lay.length, b.length);
    DecodeEncode32(mem, base + lay.bufferHeader, b.bound);
    DecodeEncode32(mem, base + lay.bufferHeader + 4, b.headerSize);
    RoundedUp(lay.bufferHeader + b.headerSize);
    RoundedUp(StoreAt(lay, b) + lay.storeHeader);
    GuidIsRead(mem, base + StoreAt(lay, b), b.guid);
  }

  lemma RoundedUp(x: nat)
    ensures Align(x, 8) == (x + 7) / 8 * 8 && Align(x, 4) == (x + 3) / 4 * 4
  {
  }

  lemma GuidIsRead(mem: Memory, p: nat, guid: seq<byte>)
    requires |guid| == 16 && HoldsAt(mem, p, guid)
    ensures GuidAt(mem, p) == guid
  {
  }

  lemma StoreOffsets(lay: Layout, b: Buffer)
    ensures VariablesAt(lay, b) % 4 == 0 && BlocksAt(lay, b) % 8 == 0
    ensures Align(VariablesAt(lay, b) + |EncodeVariables(b.variables)|, 8) == BlocksAt(lay, b)
  {
    hide EncodeVariables;
    MultiplesOf((StoreAt(lay, b) + lay.storeHeader + 3) / 4);
    MultiplesOf((VariablesAt(lay, b) + |EncodeVariables(b.variables)| + 7) / 8);
    RoundedUp(VariablesAt(lay, b) + |EncodeVariables(b.variables)|);
  }

  /** The offset of the data of a variable. */
  function DataAt(lay: Layout, b: Buffer, i: nat): nat
    requires i < |b.variables|
  {
    VariableStarts(VariablesAt(lay, b), b.variables)[i] + |b.variables[i].header| + |b.variables[i].name|
  }

  function StoredData(lay: Layout, base: nat, b: Buffer, i: nat): Range
    requires i < |b.variables|
  {
    Range(base + DataAt(lay, b, i), |b.variables[i].data|)
  }

  /** The variables of a buffer are found, each with its data where it was written; the blocks start behind them. */
  lemma BufferVariables(lay: Layout, v: VariableLayout, mem: Memory, base: nat, b: Buffer)
    requires HoldsBuffer(lay, v, mem, base, b) && Sized(lay)
    ensures var starts := VariableStarts(VariablesAt(lay, b), b.variables);
      && Variables(v, mem, base, FirstVariable(lay, mem, base), StoreEnd(lay, mem, base)) == starts
      && (forall i :: 0 <= i < |starts| ==>
           VariableRange(v, mem, base, starts[i]) == StoredData(lay, base, b, i) &&
           DataOf(mem, StoredData(lay, base, b, i)) == b.variables[i].data)
    ensures DeltaStart(lay, mem, base) == BlocksAt(lay, b)
  {
    hide HoldsAt, EncodeVariables, BoundsVariables, EncodeBlocks, BoundsBlocks, Variables, VariablesEnd, DataOf;
    hide VariableRange, Align, VariablesAt, BlocksAt, StoreAt, Encode32, FitVariables, FirstVariable, StoreEnd;
    hide StoreFormat;
    HeaderFields(lay, v, mem, base, b);
    StoreOffsets(lay, b);
    VariablesDecode(v, mem, base, VariablesAt(lay, b), b.variables, b.bound);
  }

  /** So are the blocks. */
  lemma BufferBlocks(lay: Layout, v: VariableLayout, mem: Memory, base: nat, b: Buffer)
    requires HoldsBuffer(lay, v, mem, base, b) && Sized(lay)
    ensures FitBlocks(b.blocks) && AllBlocks(lay, mem, base) == BlockStarts(BlocksAt(lay, b), b.blocks)
    ensures AreBlocksAt(mem, base, AllBlocks(lay, mem, base), b.blocks)
  {
    hide HoldsAt, EncodeVariables, BoundsVariables, EncodeBlocks, BoundsBlocks, Variables, VariablesEnd, DataOf;
    hide VariableRange, Align, VariablesAt, BlocksAt, StoreAt, Encode32, FitVariables, FirstVariable, StoreEnd;
    hide StoreFormat, Blocks, BlockStarts, AreBlocksAt, Length, DeltaStart, FitBlocks;
    HeaderFields(lay, v, mem, base, b);
    BufferVariables(lay, v, mem, base, b);
    StoreOffsets(lay, b);
    BlocksDecode(mem, base, BlocksAt(lay, b), b.blocks, b.length);
  }

  // ---------- what is shown of a buffer ----------

  /**
   * The lines for a variable: one for each block that has a delta for its data, in order, with the data as the block
   * changes it. Deltas count from the store.
   */
  function LinesFor(origin: nat, r: Range, data: seq<byte>, bs: seq<Block>): seq<Line>
    requires |data| == r.size
  {
    if bs == [] then []
    else
      var rest := LinesFor(origin, r, data, bs[1..]);
      if Touches(origin, bs[0].deltas, r)
      then [Line(Overlay(origin, bs[0].deltas, r, data), bs[0].first.sku, bs[0].first.store)] + rest else rest
  }

  lemma {:induction false} LinesDecode(lay: Layout, mem: Memory, base: nat, offs: seq<nat>, r: Range, bs: seq<Block>)
    requires AreBlocksAt(mem, base, offs, bs)
    ensures Lines(lay, mem, base, offs, r) == LinesFor(Origin(lay, mem, base), r, DataOf(mem, r), bs)
    decreases |bs|
  {
    hide Origin, DataOf, BlockDeltas, BlockSku, BlockDefault, Touches, Overlay;
    if bs != [] {
      assert IsBlockAt(mem, base, offs[0], bs[0]);
      LinesDecode(lay, mem, base, offs[1..], r, bs[1..]);
    }
  }

  /** The lines that can be printed for a variable of a buffer are those for its data and the buffer's blocks. */
  lemma BufferLines(lay: Layout, v: VariableLayout, mem: Memory, base: nat, b: Buffer, i: nat)
    requires HoldsBuffer(lay, v, mem, base, b) && Sized(lay) && i < |b.variables|
    ensures Lines(lay, mem, base, AllBlocks(lay, mem, base), StoredData(lay, base, b, i)) ==
      LinesFor(base + StoreAt(lay, b), StoredData(lay, base, b, i), b.variables[i].data, b.blocks)
  {
    hide HoldsBuffer, AllBlocks, Lines, LinesFor, DataOf, AreBlocksAt, VariableRange, StoreAt, StoreOffset, DataAt;
    HeaderFields(lay, v, mem, base, b);
    BufferVariables(lay, v, mem, base, b);
    BufferBlocks(lay, v, mem, base, b);
    LinesDecode(lay, mem, base, AllBlocks(lay, mem, base), StoredData(lay, base, b, i), b.blocks);
  }
}
