/** The deltas behind a PCD database as they are written, and reading them back. */
module SkuEncoding {
  import opened Memory
  import opened DataDeltas
  import opened DeltaEncoding
  import opened SkuDatabase

  /** The deltas of one SKU; the block's header has the SKU and the block's length at the places the layout gives. */
  datatype Block = Block(header: seq<byte>, sku: nat, deltas: seq<Delta>)

  predicate FitsBlock(lay: Layout, b: Block) {
    && 0 < |b.header| == lay.deltaHeader && lay.skuId + 8 <= lay.deltaHeader && lay.deltaLength + 4 <= lay.deltaHeader
    && b.sku < UINTN && FitDeltas(b.deltas) && |b.header| + 4 * |b.deltas| < UINT32
    && b.header[lay.skuId..lay.skuId + 8] == Encode64(b.sku)
    && b.header[lay.deltaLength..lay.deltaLength + 4] == Encode32(|b.header| + 4 * |b.deltas|)
  }

  function EncodeBlock(lay: Layout, b: Block): (bs: seq<byte>)
    requires FitsBlock(lay, b)
    ensures |bs| % 8 == 0
  {
    var bytes := b.header + EncodeDeltas(b.deltas);
    PaddedIsMultiple(|bytes|);
    bytes + Padding(|bytes|, 8)
  }

  ghost predicate FitBlocks(lay: Layout, bs: seq<Block>) {
    forall i :: 0 <= i < |bs| ==> FitsBlock(lay, bs[i])
  }

  ghost function EncodeBlocks(lay: Layout, bs: seq<Block>): seq<byte>
    requires FitBlocks(lay, bs)
  {
    if bs == [] then [] else EncodeBlock(lay, bs[0]) + EncodeBlocks(lay, bs[1..])
  }

  /** The deltas of one SKU, block by block. */
  function DeltasOf(bs: seq<Block>, sku: nat): seq<Delta> {
    if bs == [] then [] else (if bs[0].sku == sku then bs[0].deltas else []) + DeltasOf(bs[1..], sku)
  }

  lemma BlockParts(lay: Layout, mem: Memory, p: nat, b: Block)
    requires FitsBlock(lay, b) && HoldsAt(mem, p, EncodeBlock(lay, b))
    ensures HoldsAt(mem, p, b.header) && HoldsAt(mem, p + |b.header|, EncodeDeltas(b.deltas))
    ensures |EncodeBlock(lay, b)| == |b.header| + 4 * |b.deltas| + |Padding(|b.header| + 4 * |b.deltas|, 8)|
  {
    var bytes := b.header + EncodeDeltas(b.deltas);
    hide HoldsAt, Padding, EncodeDeltas, Encode64, Encode32;
    HoldsAtConcat(mem, p, bytes, Padding(|bytes|, 8));
    HoldsAtConcat(mem, p, b.header, EncodeDeltas(b.deltas));
  }

  lemma BlockFields(lay: Layout, mem: Memory, db: nat, off: nat, b: Block)
    requires FitsBlock(lay, b) && HoldsAt(mem, db + off, b.header)
    ensures BlockSku(lay, mem, db, off) == b.sku && BlockLength(lay, mem, db, off) == |b.header| + 4 * |b.deltas|
  {
    hide HoldsAt, Encode64, Encode32, U64, U32, FitDeltas;
    HoldsSlice(mem, db + off, b.header, lay.skuId, lay.skuId + 8);
    HoldsSlice(mem, db + off, b.header, lay.deltaLength, lay.deltaLength + 4);
    DecodeEncode64(mem, db + off + lay.skuId, b.sku);
    DecodeEncode32(mem, db + off + lay.deltaLength, |b.header| + 4 * |b.deltas|);
  }

  /** A block in memory is read back, and the next one is right behind its padding. */
  lemma BlockDecode(lay: Layout, mem: Memory, db: nat, off: nat, b: Block)
    requires FitsBlock(lay, b) && off % 8 == 0 && HoldsAt(mem, db + off, EncodeBlock(lay, b))
    ensures BlockSku(lay, mem, db, off) == b.sku && BlockLength(lay, mem, db, off) > 0
    ensures BlockDeltas(lay, mem, db, off) == b.deltas
    ensures Next(lay, mem, db, off) == off + |EncodeBlock(lay, b)| > off
  {
    hide HoldsAt, EncodeDeltas, Padding, Align, Deltas, BlockSku, EncodeBlock, Encode64, Encode32;
    BlockParts(lay, mem, db + off, b);
    BlockFields(lay, mem, db, off, b);
    DeltasDecode(mem, db + off + |b.header|, b.deltas);
    AlignPadded(off, |b.header| + 4 * |b.deltas|);
  }

  /** The offset of the last block of those written from off on. */
  ghost function LastBlock(lay: Layout, off: nat, bs: seq<Block>): (r: nat)
    requires FitBlocks(lay, bs) && bs != []
    ensures r >= off
    decreases |bs|
  {
    if |bs| == 1 then off else LastBlock(lay, off + |EncodeBlock(lay, bs[0])|, bs[1..])
  }

  /** The end lies behind the start of the last block and not behind the end of the blocks. */
  ghost predicate BoundsBlocks(lay: Layout, off: nat, bs: seq<Block>, end: nat)
    requires FitBlocks(lay, bs)
  {
    (bs == [] || LastBlock(lay, off, bs) < end) && end <= off + |EncodeBlocks(lay, bs)|
  }

  lemma FirstBlock(lay: Layout, off: nat, bs: seq<Block>, end: nat)
    requires FitBlocks(lay, bs) && bs != [] && BoundsBlocks(lay, off, bs, end)
    ensures FitsBlock(lay, bs[0]) && FitBlocks(lay, bs[1..]) && off < end
    ensures EncodeBlocks(lay, bs) == EncodeBlock(lay, bs[0]) + EncodeBlocks(lay, bs[1..])
    ensures BoundsBlocks(lay, off + |EncodeBlock(lay, bs[0])|, bs[1..], end)
  {
    hide FitsBlock, EncodeBlock;
  }

  lemma NoBlock(lay: Layout, off: nat, bs: seq<Block>, end: nat)
    requires FitBlocks(lay, bs) && bs == [] && BoundsBlocks(lay, off, bs, end)
    ensures end <= off
  {
  }

  /** The walk never stalls, and for every SKU it meets exactly the deltas that were written for it, in order. */
  lemma {:induction false} BlocksDecode(lay: Layout, mem: Memory, db: nat, off: nat, bs: seq<Block>, end: nat, sku: nat)
    requires FitBlocks(lay, bs) && off % 8 == 0 && HoldsAt(mem, db + off, EncodeBlocks(lay, bs))
    requires BoundsBlocks(lay, off, bs, end)
    ensures BlockChain(lay, mem, db, off, end) && SkuDeltasFrom(lay, mem, db, sku, off, end) == DeltasOf(bs, sku)
    decreases |bs|
  {
    hide FitsBlock, EncodeBlock, HoldsAt, BlockSku, BlockLength, BlockDeltas, Next, BoundsBlocks, EncodeBlocks;
    if bs == [] {
      NoBlock(lay, off, bs, end);
    } else {
      FirstBlock(lay, off, bs, end);
      HoldsAtConcat(mem, db + off, EncodeBlock(lay, bs[0]), EncodeBlocks(lay, bs[1..]));
      BlockDecode(lay, mem, db, off, bs[0]);
      SumsOf8(off, |EncodeBlock(lay, bs[0])|);
      BlocksDecode(lay, mem, db, off + |EncodeBlock(lay, bs[0])|, bs[1..], end, sku);
    }
  }

  /** A database without blocks, or with its blocks from the next multiple of eight behind it on. */
  ghost predicate HoldsBlocks(lay: Layout, mem: Memory, db: nat, length: dword, total: dword, bs: seq<Block>) {
    && HoldsAt(mem, db + lay.length, Encode32(length)) && HoldsAt(mem, db + lay.lengthForAllSkus, Encode32(total))
    && FitBlocks(lay, bs)
    && if total <= length then bs == []
       else var first := (length + 7) / 8 * 8;
         HoldsAt(mem, db + first, EncodeBlocks(lay, bs)) && BoundsBlocks(lay, first, bs, total)
  }

  /** In memory that holds a database with its blocks, the deltas of every SKU are those that were written for it. */
  lemma DatabaseDecode(lay: Layout, mem: Memory, db: nat, length: dword, total: dword, bs: seq<Block>, sku: nat)
    requires HoldsBlocks(lay, mem, db, length, total, bs)
    ensures Chained(lay, mem, db) && SkuDeltas(lay, mem, db, sku) == DeltasOf(bs, sku)
  {
    hide *;
    DatabaseParts(lay, mem, db, length, total, bs);
    DeltasFound(lay, mem, db, sku);
    if total > length {
      BlocksDecode(lay, mem, db, (length + 7) / 8 * 8, bs, total, sku);
    } else {
      NothingBehind(lay, mem, db, (length + 7) / 8 * 8, total, sku);
    }
  }

  lemma DatabaseParts(lay: Layout, mem: Memory, db: nat, length: dword, total: dword, bs: seq<Block>)
    requires HoldsBlocks(lay, mem, db, length, total, bs)
    ensures Length(lay, mem, db) == length && LengthForAllSkus(lay, mem, db) == total && FitBlocks(lay, bs)
    ensures (length + 7) / 8 * 8 % 8 == 0 && (length + 7) / 8 * 8 >= length
    ensures total <= length ==> bs == []
    ensures total > length ==> HoldsAt(mem, db + (length + 7) / 8 * 8, EncodeBlocks(lay, bs))
    ensures total > length ==> BoundsBlocks(lay, (length + 7) / 8 * 8, bs, total)
  {
    hide HoldsAt, Encode32, U32, FitBlocks, BoundsBlocks, EncodeBlocks;
    DecodeEncode32(mem, db + lay.length, length);
    DecodeEncode32(mem, db + lay.lengthForAllSkus, total);
    MultiplesOf((length + 7) / 8);
    RoundedUp(length);
  }

  lemma DeltasFound(lay: Layout, mem: Memory, db: nat, sku: nat)
    ensures var n, total := Length(lay, mem, db), LengthForAllSkus(lay, mem, db);
      var first := (n + 7) / 8 * 8;
      && (Chained(lay, mem, db) <==> BlockChain(lay, mem, db, first, total))
      && (Chained(lay, mem, db) && total <= n ==> SkuDeltas(lay, mem, db, sku) == [])
      && (Chained(lay, mem, db) && total > n ==>
           SkuDeltas(lay, mem, db, sku) == SkuDeltasFrom(lay, mem, db, sku, first, total))
  {
    hide BlockChain, SkuDeltasFrom, Length, LengthForAllSkus;
    RoundedUp(Length(lay, mem, db));
  }

  lemma RoundedUp(x: nat)
    ensures Align(x, 8) == (x + 7) / 8 * 8
  {
  }

  lemma NothingBehind(lay: Layout, mem: Memory, db: nat, off: nat, end: nat, sku: nat)
    requires end <= off
    ensures BlockChain(lay, mem, db, off, end) && DeltasOf([], sku) == []
  {
  }
}
