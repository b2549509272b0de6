/**
 * The per-SKU deltas behind a PCD database (section 3.2.4 of volume 3 of the PI Specification gives the database's
 * purpose).
 */
module SkuDatabase {
  import opened Memory
  import opened DataDeltas

  /** Field offsets in PCD_DATABASE_INIT and PCD_DATABASE_SKU_DELTA, and the size of the latter. */
  datatype Layout = Layout(length: nat, lengthForAllSkus: nat, skuId: nat, deltaLength: nat, deltaHeader: nat)

  function Length(lay: Layout, mem: Memory, db: nat): dword { U32(mem, db + lay.length) }
  function LengthForAllSkus(lay: Layout, mem: Memory, db: nat): dword { U32(mem, db + lay.lengthForAllSkus) }

  /** The blocks of deltas are at offsets from the database; each starts with its SKU and its length. */
  function BlockSku(lay: Layout, mem: Memory, db: nat, off: nat): nat { U64(mem, db + off + lay.skuId) }
  function BlockLength(lay: Layout, mem: Memory, db: nat, off: nat): dword { U32(mem, db + off + lay.deltaLength) }

  function BlockDeltas(lay: Layout, mem: Memory, db: nat, off: nat): seq<Delta> {
    Deltas(mem, db + off + lay.deltaHeader, db + off + BlockLength(lay, mem, db, off))
  }

  /** Where the next block starts. */
  function Next(lay: Layout, mem: Memory, db: nat, off: nat): nat {
    Align(off + BlockLength(lay, mem, db, off), 8)
  }

  /** Every block from off to end has a nonzero length. */
  ghost predicate BlockChain(lay: Layout, mem: Memory, db: nat, off: nat, end: nat)
    decreases end - off
  {
    off < end ==> BlockLength(lay, mem, db, off) > 0 && BlockChain(lay, mem, db, Next(lay, mem, db, off), end)
  }

  ghost predicate Chained(lay: Layout, mem: Memory, db: nat) {
    BlockChain(lay, mem, db, Align(Length(lay, mem, db), 8), LengthForAllSkus(lay, mem, db))
  }

  /** The deltas of one SKU in the blocks from off to end, in order. */
  ghost function SkuDeltasFrom(lay: Layout, mem: Memory, db: nat, sku: nat, off: nat, end: nat): seq<Delta>
    requires BlockChain(lay, mem, db, off, end)
    decreases end - off
  {
    if off >= end then []
    else
      (if BlockSku(lay, mem, db, off) == sku then BlockDeltas(lay, mem, db, off) else [])
      + SkuDeltasFrom(lay, mem, db, sku, Next(lay, mem, db, off), end)
  }

  ghost function SkuDeltas(lay: Layout, mem: Memory, db: nat, sku: nat): seq<Delta>
    requires Chained(lay, mem, db)
  {
    if LengthForAllSkus(lay, mem, db) <= Length(lay, mem, db) then []
    else SkuDeltasFrom(lay, mem, db, sku, Align(Length(lay, mem, db), 8), LengthForAllSkus(lay, mem, db))
  }

  /** The loop over the blocks. */
  method CopyBlocks(lay: Layout, mem: Memory, db: nat, sku: nat, first: nat, end: nat, r: Range, buffer: array<byte>)
      returns (result: bool)
    requires BlockChain(lay, mem, db, first, end) && buffer.Length >= r.size
    modifies buffer
    ensures buffer[..] == Overlay(db, SkuDeltasFrom(lay, mem, db, sku, first, end), r, old(buffer[..]))
    ensures result == Touches(db, SkuDeltasFrom(lay, mem, db, sku, first, end), r)
  {
    hide Overlay, Touches, Deltas, BlockSku, BlockLength, BlockDeltas, SkuDeltasFrom, BlockChain, Next;
    ghost var start, all := buffer[..], SkuDeltasFrom(lay, mem, db, sku, first, end);
    var off := first;
    result := false;
    while off < end
      invariant BlockChain(lay, mem, db, off, end)
      invariant Overlay(db, SkuDeltasFrom(lay, mem, db, sku, off, end), r, buffer[..]) == Overlay(db, all, r, start)
      invariant result || Touches(db, SkuDeltasFrom(lay, mem, db, sku, off, end), r) <==> Touches(db, all, r)
      decreases end - off
    {
      BlockStep(lay, mem, db, sku, off, end);
      if BlockSku(lay, mem, db, off) == sku {
        ghost var rest := SkuDeltasFrom(lay, mem, db, sku, Next(lay, mem, db, off), end);
        OverlayAppend(db, BlockDeltas(lay, mem, db, off), rest, r, buffer[..]);
        TouchesAppend(db, BlockDeltas(lay, mem, db, off), rest, r);
        BlockDeltasAre(lay, mem, db, off);
        var from, to := db + off + lay.deltaHeader, db + off + BlockLength(lay, mem, db, off);
        var touched, next := ApplyDeltas(mem, db, from, to, r, buffer);
        result := result || touched;
      }
      off := Next(lay, mem, db, off);
    }
    NoBlocks(lay, mem, db, sku, off, end);
    NoDeltas(db, r, buffer[..]);
  }

  /** Writes the SKU's deltas for the data into its copy in the buffer; the result says whether there were any. */
  method CopySkuPcdData(lay: Layout, mem: Memory, db: nat, sku: nat, r: Range, buffer: array<byte>)
      returns (result: bool)
    requires Chained(lay, mem, db) && buffer.Length >= r.size
    modifies buffer
    ensures buffer[..] == Overlay(db, SkuDeltas(lay, mem, db, sku), r, old(buffer[..]))
    ensures result == Touches(db, SkuDeltas(lay, mem, db, sku), r)
  {
    if LengthForAllSkus(lay, mem, db) <= Length(lay, mem, db) {
      return false;
    }
    result := CopyBlocks(lay, mem, db, sku, Align(Length(lay, mem, db), 8), LengthForAllSkus(lay, mem, db), r, buffer);
  }

  lemma BlockDeltasAre(lay: Layout, mem: Memory, db: nat, off: nat)
    ensures BlockDeltas(lay, mem, db, off) ==
      Deltas(mem, db + off + lay.deltaHeader, db + off + BlockLength(lay, mem, db, off))
  {
  }

  lemma BlockStep(lay: Layout, mem: Memory, db: nat, sku: nat, off: nat, end: nat)
    requires off < end && BlockChain(lay, mem, db, off, end)
    ensures BlockLength(lay, mem, db, off) > 0
    ensures var next := Next(lay, mem, db, off);
      && next > off && BlockChain(lay, mem, db, next, end)
      && SkuDeltasFrom(lay, mem, db, sku, off, end) ==
        (if BlockSku(lay, mem, db, off) == sku then BlockDeltas(lay, mem, db, off) else []) +
          SkuDeltasFrom(lay, mem, db, sku, next, end)
    ensures BlockSku(lay, mem, db, off) != sku ==>
      SkuDeltasFrom(lay, mem, db, sku, off, end) == SkuDeltasFrom(lay, mem, db, sku, Next(lay, mem, db, off), end)
  {
  }

  lemma NoBlocks(lay: Layout, mem: Memory, db: nat, sku: nat, off: nat, end: nat)
    requires off >= end
    ensures BlockChain(lay, mem, db, off, end) && SkuDeltasFrom(lay, mem, db, sku, off, end) == []
  {
  }

  lemma NoDeltas(origin: nat, r: Range, data: seq<byte>)
    requires |data| >= r.size
    ensures Overlay(origin, [], r, data) == data && !Touches(origin, [], r)
  {
  }

  /** Some block, of whatever SKU, has a delta for the data. */
  ghost predicate SomeSkuTouches(lay: Layout, mem: Memory, db: nat, r: Range)
    requires Chained(lay, mem, db)
  {
    exists sku :: Touches(db, SkuDeltas(lay, mem, db, sku), r)
  }

  /** The loop over the blocks: the first delta for the data ends it. */
  method FindInBlocks(lay: Layout, mem: Memory, db: nat, first: nat, end: nat, r: Range) returns (result: bool)
    requires BlockChain(lay, mem, db, first, end)
    ensures result <==> exists sku :: Touches(db, SkuDeltasFrom(lay, mem, db, sku, first, end), r)
  {
    hide Touches, Deltas, BlockSku, BlockLength, BlockDeltas, SkuDeltasFrom, BlockChain, Next;
    var off := first;
    while off < end
      invariant BlockChain(lay, mem, db, off, end)
      invariant forall sku :: Touches(db, SkuDeltasFrom(lay, mem, db, sku, off, end), r) <==>
        Touches(db, SkuDeltasFrom(lay, mem, db, sku, first, end), r)
      decreases end - off
    {
      var found := FindDelta(mem, db, db + off + lay.deltaHeader, db + off + BlockLength(lay, mem, db, off), r);
      BlockDeltasAre(lay, mem, db, off);
      BlockTouches(lay, mem, db, off, end, r);
      if found {
        return true;
      }
      off := Next(lay, mem, db, off);
    }
    forall sku ensures !Touches(db, SkuDeltasFrom(lay, mem, db, sku, off, end), r) {
      NoBlocks(lay, mem, db, sku, off, end);
      NoDeltas(db, r, seq(r.size, _ => 0 as byte));
    }
    return false;
  }

  /** Whether the data differs between SKUs at all, in the sense that some SKU's copy would report a delta. */
  method IsSkuPcd(lay: Layout, mem: Memory, db: nat, r: Range) returns (result: bool)
    requires Chained(lay, mem, db)
    ensures result <==> SomeSkuTouches(lay, mem, db, r)
  {
    hide Touches, SkuDeltasFrom, BlockChain, Length, LengthForAllSkus;
    if LengthForAllSkus(lay, mem, db) <= Length(lay, mem, db) {
      NoDeltas(db, r, seq(r.size, _ => 0 as byte));
      return false;
    }
    result := FindInBlocks(lay, mem, db, Align(Length(lay, mem, db), 8), LengthForAllSkus(lay, mem, db), r);
    SomeSku(lay, mem, db, r);
  }

  lemma SomeSku(lay: Layout, mem: Memory, db: nat, r: Range)
    requires Chained(lay, mem, db) && LengthForAllSkus(lay, mem, db) > Length(lay, mem, db)
    ensures SomeSkuTouches(lay, mem, db, r) <==>
      exists sku :: Touches(db,
        SkuDeltasFrom(lay, mem, db, sku, Align(Length(lay, mem, db), 8), LengthForAllSkus(lay, mem, db)), r)
  {
    hide Touches, SkuDeltasFrom, BlockChain, Length, LengthForAllSkus;
    assert forall sku :: (SkuDeltas(lay, mem, db, sku)
      == SkuDeltasFrom(lay, mem, db, sku, Align(Length(lay, mem, db), 8), LengthForAllSkus(lay, mem, db)));
    if SomeSkuTouches(lay, mem, db, r) {
      var sku :| Touches(db, SkuDeltas(lay, mem, db, sku), r);
      assert Touches(db,
        SkuDeltasFrom(lay, mem, db, sku, Align(Length(lay, mem, db), 8), LengthForAllSkus(lay, mem, db)), r);
    }
    if sku :| Touches(db,
      SkuDeltasFrom(lay, mem, db, sku, Align(Length(lay, mem, db), 8), LengthForAllSkus(lay, mem, db)), r) {
      assert Touches(db, SkuDeltas(lay, mem, db, sku), r);
    }
  }

  lemma BlockTouches(lay: Layout, mem: Memory, db: nat, off: nat, end: nat, r: Range)
    requires off < end && BlockChain(lay, mem, db, off, end)
    ensures BlockLength(lay, mem, db, off) > 0
    ensures var next := Next(lay, mem, db, off); next > off && BlockChain(lay, mem, db, next, end)
    ensures Touches(db, BlockDeltas(lay, mem, db, off), r) ==>
      Touches(db, SkuDeltasFrom(lay, mem, db, BlockSku(lay, mem, db, off), off, end), r)
    ensures !Touches(db, BlockDeltas(lay, mem, db, off), r) ==>
      var next := Next(lay, mem, db, off);
      forall sku :: Touches(db, SkuDeltasFrom(lay, mem, db, sku, off, end), r) <==>
        Touches(db, SkuDeltasFrom(lay, mem, db, sku, next, end), r)
  {
    hide Touches, BlockDeltas, BlockSku, BlockLength, SkuDeltasFrom, BlockChain;
    BlockStep(lay, mem, db, 0, off, end);
    var next := Next(lay, mem, db, off);
    forall sku
      ensures Touches(db, SkuDeltasFrom(lay, mem, db, sku, off, end), r) <==>
        (BlockSku(lay, mem, db, off) == sku && Touches(db, BlockDeltas(lay, mem, db, off), r))
        || Touches(db, SkuDeltasFrom(lay, mem, db, sku, next, end), r)
    {
      BlockStep(lay, mem, db, sku, off, end);
      TouchesAppend(db, BlockDeltas(lay, mem, db, off), SkuDeltasFrom(lay, mem, db, sku, next, end), r);
    }
  }

  /** Exactly when IsSkuPcd says no, every SKU's copy is the data itself and reports nothing. */
  lemma NotSkuPcdMeansSameCopies(lay: Layout, mem: Memory, db: nat, r: Range, data: seq<byte>)
    requires Chained(lay, mem, db) && |data| >= r.size
    ensures !SomeSkuTouches(lay, mem, db, r) <==>
      forall sku :: Overlay(db, SkuDeltas(lay, mem, db, sku), r, data) == data &&
        !Touches(db, SkuDeltas(lay, mem, db, sku), r)
  {
    if !SomeSkuTouches(lay, mem, db, r) {
      forall sku
        ensures Overlay(db, SkuDeltas(lay, mem, db, sku), r, data) == data &&
          !Touches(db, SkuDeltas(lay, mem, db, sku), r)
      {
        UntouchedOverlay(db, SkuDeltas(lay, mem, db, sku), r, data);
      }
    }
  }
}
