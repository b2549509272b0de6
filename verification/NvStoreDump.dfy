/** The three walks over the NV store default buffer. */
module NvStoreDump {
  import opened Memory
  import opened Options
  import opened DataDeltas
  import opened NvStore
  import opened NvStoreEncoding

  /** The loop over the variables, for either header format. */
  method SkipVariables(v: VariableLayout, mem: Memory, base: nat, first: nat, end: nat) returns (off: nat)
    requires v.header > 0
    ensures off == VariablesEnd(v, mem, base, first, end)
  {
    hide NextVariable;
    off := first;
    while off < end
      invariant VariablesEnd(v, mem, base, off, end) == VariablesEnd(v, mem, base, first, end)
      decreases end - off
    {
      off := NextVariable(v, mem, base, off);
    }
  }

  /** The delta blocks a walker sees: none without the signature. */
  function SkuBlocks(lay: Layout, mem: Memory, base: nat): seq<nat>
    requires lay.plain.header > 0 && lay.auth.header > 0
  {
    if HasMagic(lay, mem, base) then AllBlocks(lay, mem, base) else []
  }

  /** The first delta block, if there is one. */
  method GetSkuDataFromNvStore(lay: Layout, mem: Memory, base: nat) returns (off: Option<nat>)
    requires Sized(lay)
    ensures var blocks := SkuBlocks(lay, mem, base); off == if blocks == [] then None else Some(blocks[0])
    ensures off.Some? ==> off.value == DeltaStart(lay, mem, base) && HasMagic(lay, mem, base)
    ensures forall v, b :: HoldsBuffer(lay, v, mem, base, b) ==>
      off == if b.blocks == [] then None else Some(BlocksAt(lay, b))
  {
    FirstBlocks(lay, mem, base);
    hide HoldsBuffer, BlocksAt;
    if !HasMagic(lay, mem, base) {
      return None;
    }
    hide VariablesEnd, FirstVariable, StoreFormat, NextBlock, Length, HasMagic;
    var o := FirstVariable(lay, mem, base);
    var format := StoreFormat(lay, mem, base);
    if format != None {
      o := SkipVariables(format.value, mem, base, o, StoreEnd(lay, mem, base));
    }
    o := Align(o, 8);
    if o < Length(lay, mem, base) {
      return Some(o);
    }
    return None;
  }

  lemma FirstBlocks(lay: Layout, mem: Memory, base: nat)
    requires Sized(lay)
    ensures forall v, b :: HoldsBuffer(lay, v, mem, base, b) ==>
      var blocks := SkuBlocks(lay, mem, base);
      (blocks == [] <==> b.blocks == []) && (blocks != [] ==> blocks[0] == BlocksAt(lay, b))
  {
    hide HoldsBuffer, BlocksAt, AllBlocks, AreBlocksAt, HasMagic;
    forall v, b | HoldsBuffer(lay, v, mem, base, b)
      ensures var blocks := SkuBlocks(lay, mem, base);
        (blocks == [] <==> b.blocks == []) && (blocks != [] ==> blocks[0] == BlocksAt(lay, b))
    {
      HeaderFields(lay, v, mem, base, b);
      BufferBlocks(lay, v, mem, base, b);
    }
  }

  /** Whether some delta block has a delta for the data. */
  method HasSkuData(lay: Layout, mem: Memory, base: nat, r: Range) returns (result: bool)
    requires Sized(lay)
    ensures result <==> Lines(lay, mem, base, SkuBlocks(lay, mem, base), r) != []
  {
    var start := GetSkuDataFromNvStore(lay, mem, base);
    if start == None {
      return false;
    }
    hide Touches, BlockDeltas, Origin, DeltaStart, Length, NextBlock, BlockLines;
    var end := Length(lay, mem, base);
    ghost var all := Blocks(mem, base, start.value, end);
    result := false;
    var off := start.value;
    while off < end
      invariant result || Lines(lay, mem, base, Blocks(mem, base, off, end), r) != [] <==>
        Lines(lay, mem, base, all, r) != []
      decreases end - off
    {
      LinesStep(lay, mem, base, off, Blocks(mem, base, NextBlock(mem, base, off), end), r);
      var found, next := FindInBlock(lay, mem, base, off, r);
      result := result || found;
      off := next;
    }
  }

  lemma LinesStep(lay: Layout, mem: Memory, base: nat, off: nat, rest: seq<nat>, r: Range)
    ensures Lines(lay, mem, base, [off] + rest, r) ==
      BlockLines(lay, mem, base, off, r) + Lines(lay, mem, base, rest, r)
    ensures BlockLines(lay, mem, base, off, r) != [] <==>
      Touches(Origin(lay, mem, base), BlockDeltas(mem, base, off), r)
  {
    hide Touches, BlockDeltas, Origin;
    assert ([off] + rest)[1..] == rest;
  }

  /** The deltas of one block, and where the next block starts. */
  method FindInBlock(lay: Layout, mem: Memory, base: nat, off: nat, r: Range) returns (found: bool, next: nat)
    ensures found == Touches(Origin(lay, mem, base), BlockDeltas(mem, base, off), r)
    ensures next == NextBlock(mem, base, off)
  {
    hide Touches, Origin, Deltas, DeltasFrom, DeltasTo, DeltasEnd, Align;
    var first, end := DeltasFrom(mem, base, off), DeltasTo(mem, base, off);
    found := FindDelta(mem, Origin(lay, mem, base), first, end, r);
    next := Align(DeltasEnd(first, end) - base, 8);
  }

  /** Whether a copy of the data can be allocated when a block is dumped. */
  type Pool = (Range, nat) -> bool

  /** The blocks before the first one for which the pool is exhausted. */
  function Copied(pool: Pool, r: Range, offs: seq<nat>): seq<nat> {
    if offs == [] || !pool(r, offs[0]) then [] else [offs[0]] + Copied(pool, r, offs[1..])
  }

  /** With memory for every copy these are all blocks. */
  lemma {:induction false} AllCopied(pool: Pool, r: Range, offs: seq<nat>)
    requires forall off :: off in offs ==> pool(r, off)
    ensures Copied(pool, r, offs) == offs
  {
    if offs != [] {
      assert offs[0] in offs;
      AllCopied(pool, r, offs[1..]);
    }
  }

  /** A copy of the data in a new buffer; null when the pool is exhausted. */
  method CopyPool(mem: Memory, r: Range, room: bool) returns (copy: array?<byte>)
    ensures copy != null <==> room
    ensures copy != null ==> fresh(copy) && copy[..] == DataOf(mem, r)
  {
    if !room {
      return null;
    }
    copy := new byte[r.size](i requires 0 <= i => mem(r.address + i));
    assert copy[..] == DataOf(mem, r);
  }

  /** One block of DumpAllSkuData: overlays a copy of the data, and prints it if the block has a delta for it. */
  method DumpBlock(lay: Layout, mem: Memory, base: nat, off: nat, r: Range, room: bool)
      returns (lines: seq<Line>, next: nat, ok: bool)
    ensures ok == room && lines == if ok then BlockLines(lay, mem, base, off, r) else []
    ensures next == NextBlock(mem, base, off)
  {
    hide Touches, Overlay, Origin, DataOf, Deltas, DeltasFrom, DeltasTo, DeltasEnd, Align, BlockSku, BlockDefault;
    lines := [];
    var first, end := DeltasFrom(mem, base, off), DeltasTo(mem, base, off);
    next := Align(DeltasEnd(first, end) - base, 8);
    var copy := CopyPool(mem, r, room);
    ok := copy != null;
    if ok {
      var touched, _ := ApplyDeltas(mem, Origin(lay, mem, base), first, end, r, copy);
      if touched {
        lines := [Line(copy[..], BlockSku(mem, base, off), BlockDefault(mem, base, off))];
      }
    }
  }

  /** The loop over the blocks in DumpAllSkuData, from the first one. */
  method DumpBlocksFor(lay: Layout, mem: Memory, base: nat, first: nat, end: nat, r: Range, pool: Pool)
      returns (lines: seq<Line>)
    ensures lines == CopiedLines(lay, mem, base, Blocks(mem, base, first, end), r, pool)
  {
    hide BlockLines, NextBlock, CopiedLines, Blocks;
    lines := [];
    var off := first;
    while off < end
      invariant lines + CopiedLines(lay, mem, base, Blocks(mem, base, off, end), r, pool) ==
        CopiedLines(lay, mem, base, Blocks(mem, base, first, end), r, pool)
      decreases end - off
    {
      BlockLinesStep(lay, mem, base, off, end, r, pool);
      var more, next, copied := DumpBlock(lay, mem, base, off, r, pool(r, off));
      if !copied {
        return;
      }
      lines := lines + more;
      off := next;
    }
    NoBlocks(lay, mem, base, off, end, r, pool);
  }

  /** What DumpAllSkuData prints for some blocks. */
  function CopiedLines(lay: Layout, mem: Memory, base: nat, offs: seq<nat>, r: Range, pool: Pool): seq<Line> {
    Lines(lay, mem, base, Copied(pool, r, offs), r)
  }

  lemma BlockLinesStep(lay: Layout, mem: Memory, base: nat, off: nat, end: nat, r: Range, pool: Pool)
    requires off < end
    ensures CopiedLines(lay, mem, base, Blocks(mem, base, off, end), r, pool) ==
      if pool(r, off) then
        BlockLines(lay, mem, base, off, r) +
          CopiedLines(lay, mem, base, Blocks(mem, base, NextBlock(mem, base, off), end), r, pool)
      else []
  {
    hide BlockLines, NextBlock;
    var rest := Blocks(mem, base, NextBlock(mem, base, off), end);
    assert ([off] + rest)[1..] == rest;
    LinesStep(lay, mem, base, off, Copied(pool, r, rest), r);
  }

  lemma NoBlocks(lay: Layout, mem: Memory, base: nat, off: nat, end: nat, r: Range, pool: Pool)
    requires off >= end
    ensures CopiedLines(lay, mem, base, Blocks(mem, base, off, end), r, pool) == []
  {
    hide BlockLines, NextBlock;
  }

  lemma NothingCopied(lay: Layout, mem: Memory, base: nat, r: Range, pool: Pool)
    ensures CopiedLines(lay, mem, base, [], r, pool) == []
  {
  }

  /** Prints the data as every SKU with a delta for it sees it; stops when the pool is exhausted. */
  method DumpAllSkuData(lay: Layout, mem: Memory, base: nat, r: Range, pool: Pool) returns (lines: seq<Line>)
    requires Sized(lay)
    ensures lines == CopiedLines(lay, mem, base, SkuBlocks(lay, mem, base), r, pool)
  {
    hide BlockLines, NextBlock, DeltaStart, Length, HasMagic, CopiedLines;
    NothingCopied(lay, mem, base, r, pool);
    lines := [];
    var start := GetSkuDataFromNvStore(lay, mem, base);
    if start != None {
      lines := DumpBlocksFor(lay, mem, base, start.value, Length(lay, mem, base), r, pool);
    }
  }

  // ---------- the whole dump ----------

  /** What is printed for a variable: its data, the default marker, and one line for each SKU that differs. */
  datatype VariableDump = VariableDump(off: nat, data: seq<byte>, marked: bool, lines: seq<Line>)

  /** What is printed for a delta block. */
  datatype BlockDump = BlockDump(off: nat, sku: nat, deltas: seq<Delta>)

  function VariableText(lay: Layout, v: VariableLayout, mem: Memory, base: nat, off: nat, pool: Pool): VariableDump
    requires lay.plain.header > 0 && lay.auth.header > 0
  {
    var r, blocks := VariableRange(v, mem, base, off), SkuBlocks(lay, mem, base);
    var marked := Lines(lay, mem, base, blocks, r) != [];
    VariableDump(off, DataOf(mem, r), marked, if marked then CopiedLines(lay, mem, base, blocks, r, pool) else [])
  }

  function BlockText(mem: Memory, base: nat, off: nat): BlockDump {
    BlockDump(off, BlockSku(mem, base, off), BlockDeltas(mem, base, off))
  }

  ghost predicate AreVariableTexts(lay: Layout, v: VariableLayout, mem: Memory, base: nat, offs: seq<nat>, pool: Pool,
        texts: seq<VariableDump>)
    requires Sized(lay)
  {
    |texts| == |offs| && forall i :: 0 <= i < |offs| ==> texts[i] == VariableText(lay, v, mem, base, offs[i], pool)
  }

  ghost predicate AreBlockTexts(mem: Memory, base: nat, offs: seq<nat>, texts: seq<BlockDump>) {
    |texts| == |offs| && forall i :: 0 <= i < |offs| ==> texts[i] == BlockText(mem, base, offs[i])
  }

  /** The offsets of all variables of the store. */
  function StoreVariables(lay: Layout, v: VariableLayout, mem: Memory, base: nat): seq<nat>
    requires v.header > 0
  {
    Variables(v, mem, base, FirstVariable(lay, mem, base), StoreEnd(lay, mem, base))
  }

  /** One variable: the marker is printed exactly when there are lines to follow. */
  method DumpVariable(lay: Layout, v: VariableLayout, mem: Memory, base: nat, off: nat, pool: Pool)
      returns (text: VariableDump)
    requires Sized(lay)
    ensures text == VariableText(lay, v, mem, base, off, pool)
  {
    hide VariableRange, Lines, SkuBlocks, DataOf, CopiedLines;
    var r := VariableRange(v, mem, base, off);
    var marked := HasSkuData(lay, mem, base, r);
    var lines := [];
    if marked {
      lines := DumpAllSkuData(lay, mem, base, r, pool);
    }
    text := VariableDump(off, DataOf(mem, r), marked, lines);
  }

  method DumpVariables(lay: Layout, v: VariableLayout, mem: Memory, base: nat, first: nat, end: nat, pool: Pool)
      returns (texts: seq<VariableDump>, off: nat)
    requires Sized(lay) && v.header > 0
    ensures off == VariablesEnd(v, mem, base, first, end)
    ensures AreVariableTexts(lay, v, mem, base, Variables(v, mem, base, first, end), pool, texts)
  {
    hide NextVariable, VariableText;
    ghost var offs := Variables(v, mem, base, first, end);
    texts, off := [], first;
    while off < end
      invariant VariablesEnd(v, mem, base, off, end) == VariablesEnd(v, mem, base, first, end)
      invariant |texts| <= |offs| && offs[|texts|..] == Variables(v, mem, base, off, end)
      invariant forall i :: 0 <= i < |texts| ==> texts[i] == VariableText(lay, v, mem, base, offs[i], pool)
      decreases end - off
    {
      assert offs[|texts|] == off && offs[|texts| + 1..] == offs[|texts|..][1..];
      var text := DumpVariable(lay, v, mem, base, off, pool);
      texts := texts + [text];
      off := NextVariable(v, mem, base, off);
    }
  }

  method DumpBlocks(mem: Memory, base: nat, first: nat, end: nat) returns (texts: seq<BlockDump>)
    ensures AreBlockTexts(mem, base, Blocks(mem, base, first, end), texts)
  {
    hide NextBlock, BlockText;
    ghost var offs := Blocks(mem, base, first, end);
    var off := first;
    texts := [];
    while off < end
      invariant |texts| <= |offs| && offs[|texts|..] == Blocks(mem, base, off, end)
      invariant forall i :: 0 <= i < |texts| ==> texts[i] == BlockText(mem, base, offs[i])
      decreases end - off
    {
      assert offs[|texts|] == off && offs[|texts| + 1..] == offs[|texts|..][1..];
      var text, next := DumpOneBlock(mem, base, off);
      texts := texts + [text];
      off := next;
    }
  }

  method DumpOneBlock(mem: Memory, base: nat, off: nat) returns (text: BlockDump, next: nat)
    ensures text == BlockText(mem, base, off) && next == NextBlock(mem, base, off)
  {
    hide DeltasFrom, DeltasTo, Align, DeltaAt, BlockSku;
    var p, end := DeltasFrom(mem, base, off), DeltasTo(mem, base, off);
    ghost var first := p;
    var ds := [];
    while p < end
      invariant p >= first && ds + Deltas(mem, p, end) == Deltas(mem, first, end) &&
        DeltasEnd(p, end) == DeltasEnd(first, end)
      decreases end - p
    {
      ds := ds + [DeltaAt(mem, p)];
      p := p + 4;
    }
    text := BlockDump(off, BlockSku(mem, base, off), ds);
    next := Align(p - base, 8);
  }

  /** What is printed of a buffer that was written: its variables and its delta blocks, in order. */
  ghost predicate ShowsBuffer(lay: Layout, base: nat, b: Buffer, pool: Pool, variables: seq<VariableDump>,
        blocks: seq<BlockDump>)
  {
    && |variables| == |b.variables| && (forall i :: 0 <= i < |variables| ==>
         ShowsVariable(lay, base, b, pool, i, variables[i]))
    && |blocks| == |b.blocks| && (forall i :: 0 <= i < |blocks| ==>
         blocks[i].sku == b.blocks[i].first.sku && blocks[i].deltas == b.blocks[i].deltas)
  }

  /**
   * A variable with its data, and one line for each block that changes the data; the first of these lines only if the
   * pool is exhausted on the way.
   */
  ghost predicate ShowsVariable(lay: Layout, base: nat, b: Buffer, pool: Pool, i: nat, text: VariableDump)
    requires i < |b.variables|
  {
    var r := StoredData(lay, base, b, i);
    var lines := LinesFor(base + StoreAt(lay, b), r, b.variables[i].data, b.blocks);
    && text.data == b.variables[i].data && (text.marked <==> lines != []) && text.lines <= lines
    && ((forall off :: pool(r, off)) ==> text.lines == lines)
  }

  lemma {:induction false} CopiedLinesArePrefix(lay: Layout, mem: Memory, base: nat, offs: seq<nat>, r: Range,
        pool: Pool)
    ensures CopiedLines(lay, mem, base, offs, r, pool) <= Lines(lay, mem, base, offs, r)
    ensures (forall off :: pool(r, off)) ==>
      CopiedLines(lay, mem, base, offs, r, pool) == Lines(lay, mem, base, offs, r)
    decreases |offs|
  {
    hide BlockLines;
    if offs != [] {
      CopiedLinesArePrefix(lay, mem, base, offs[1..], r, pool);
      if pool(r, offs[0]) {
        var rest := Copied(pool, r, offs[1..]);
        assert ([offs[0]] + rest)[1..] == rest;
      }
    }
  }

  lemma BufferText(lay: Layout, v: VariableLayout, mem: Memory, base: nat, b: Buffer, pool: Pool, i: nat)
    requires Sized(lay) && HoldsBuffer(lay, v, mem, base, b) && i < |b.variables|
    ensures var off := VariableStarts(VariablesAt(lay, b), b.variables)[i];
      ShowsVariable(lay, base, b, pool, i, VariableText(lay, v, mem, base, off, pool))
  {
    hide HoldsBuffer, AllBlocks, DataOf, Lines, CopiedLines, LinesFor, VariableRange, StoreAt, VariablesAt, StoredData;
    hide HasMagic, VariableStarts, FirstVariable, StoreEnd, Variables, DeltaStart;
    HeaderFields(lay, v, mem, base, b);
    BufferVariables(lay, v, mem, base, b);
    BufferLines(lay, v, mem, base, b, i);
    CopiedLinesArePrefix(lay, mem, base, AllBlocks(lay, mem, base), StoredData(lay, base, b, i), pool);
  }

  lemma BufferShown(lay: Layout, v: VariableLayout, mem: Memory, base: nat, b: Buffer, pool: Pool,
        variables: seq<VariableDump>, blocks: seq<BlockDump>)
    requires Sized(lay) && HoldsBuffer(lay, v, mem, base, b) && v.header > 0
    requires AreBlockTexts(mem, base, SkuBlocks(lay, mem, base), blocks)
    requires AreVariableTexts(lay, v, mem, base, StoreVariables(lay, v, mem, base), pool, variables)
    ensures ShowsBuffer(lay, base, b, pool, variables, blocks)
  {
    hide HoldsBuffer, AllBlocks, VariableText, VariablesAt, StoredData, ShowsVariable, HasMagic, Variables, DeltaStart;
    hide VariableStarts, FirstVariable, StoreEnd, BlockDeltas, BlockSku, BlockDefault, BlocksAt, BlockStarts, FitBlocks;
    HeaderFields(lay, v, mem, base, b);
    BufferVariables(lay, v, mem, base, b);
    BufferBlocks(lay, v, mem, base, b);
    forall i | 0 <= i < |variables| ensures ShowsVariable(lay, base, b, pool, i, variables[i]) {
      BufferText(lay, v, mem, base, b, pool, i);
    }
    forall i | 0 <= i < |blocks|
      ensures blocks[i].sku == b.blocks[i].first.sku && blocks[i].deltas == b.blocks[i].deltas
    {
      assert IsBlockAt(mem, base, AllBlocks(lay, mem, base)[i], b.blocks[i]);
    }
  }

  /** The whole buffer: every variable with its SKU lines, then every delta block that those lines come from. */
  method DumpNvStore(lay: Layout, mem: Memory, base: nat, pool: Pool)
      returns (variables: seq<VariableDump>, blocks: seq<BlockDump>)
    requires Sized(lay)
    ensures !HasMagic(lay, mem, base) ==> variables == [] && blocks == []
    ensures AreBlockTexts(mem, base, SkuBlocks(lay, mem, base), blocks)
    ensures HasMagic(lay, mem, base) ==> match StoreFormat(lay, mem, base)
      case None => variables == []
      case Some(v) => AreVariableTexts(lay, v, mem, base, StoreVariables(lay, v, mem, base), pool, variables)
    ensures forall v, b :: HoldsBuffer(lay, v, mem, base, b) ==> ShowsBuffer(lay, base, b, pool, variables, blocks)
  {
    variables, blocks := DumpParts(lay, mem, base, pool);
    hide AreVariableTexts, AreBlockTexts, ShowsBuffer, HoldsBuffer, HasMagic, StoreFormat, StoreVariables, SkuBlocks;
    forall v, b | HoldsBuffer(lay, v, mem, base, b) ensures ShowsBuffer(lay, base, b, pool, variables, blocks) {
      HeaderFields(lay, v, mem, base, b);
      PositiveHeader(lay, v, mem, base, b);
      BufferShown(lay, v, mem, base, b, pool, variables, blocks);
    }
  }

  lemma PositiveHeader(lay: Layout, v: VariableLayout, mem: Memory, base: nat, b: Buffer)
    requires HoldsBuffer(lay, v, mem, base, b)
    ensures v.header > 0
  {
  }

  /** The walk over the buffer. */
  method DumpParts(lay: Layout, mem: Memory, base: nat, pool: Pool)
      returns (variables: seq<VariableDump>, blocks: seq<BlockDump>)
    requires Sized(lay)
    ensures !HasMagic(lay, mem, base) ==> variables == [] && blocks == []
    ensures AreBlockTexts(mem, base, SkuBlocks(lay, mem, base), blocks)
    ensures HasMagic(lay, mem, base) ==> match StoreFormat(lay, mem, base)
      case None => variables == []
      case Some(v) => AreVariableTexts(lay, v, mem, base, StoreVariables(lay, v, mem, base), pool, variables)
  {
    variables, blocks := [], [];
    if !HasMagic(lay, mem, base) {
      return;
    }
    hide Variables, VariablesEnd, AreVariableTexts, VariableText, BlockText, Blocks, FirstVariable, Length;
    var off := FirstVariable(lay, mem, base);
    var format := StoreFormat(lay, mem, base);
    if format != None {
      variables, off := DumpVariables(lay, format.value, mem, base, off, StoreEnd(lay, mem, base), pool);
    }
    off := Align(off, 8);
    blocks := DumpBlocks(mem, base, off, Length(lay, mem, base));
  }
}
