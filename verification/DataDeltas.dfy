/** PCD_DATA_DELTA entries, and overlaying them on a piece of data. */
module DataDeltas {
  import opened Memory
  import opened Options

  /** One entry: a 24-bit offset and the byte that goes there. */
  datatype Delta = Delta(offset: nat, value: byte)

  function DeltaAt(mem: Memory, p: nat): Delta {
    Delta(U24(mem, p), mem(p + 3))
  }

  /** The entries from p on, as long as an entry starts before end. */
  function Deltas(mem: Memory, p: nat, end: nat): seq<Delta>
    decreases end - p
  {
    if p >= end then [] else [DeltaAt(mem, p)] + Deltas(mem, p + 4, end)
  }

  /** Where a loop over those entries stops. */
  function DeltasEnd(p: nat, end: nat): (r: nat)
    ensures r >= p && r >= end && (r == p || r < end + 4)
    decreases end - p
  {
    if p >= end then p else DeltasEnd(p + 4, end)
  }

  /** A piece of data: the address range [address, address + size). */
  datatype Range = Range(address: nat, size: nat)

  /** The entry, counted from origin, falls into the range. */
  predicate InRange(origin: nat, d: Delta, r: Range) {
    r.address <= origin + d.offset < r.address + r.size
  }

  predicate Touches(origin: nat, ds: seq<Delta>, r: Range) {
    exists i :: 0 <= i < |ds| && InRange(origin, ds[i], r)
  }

  /** Writing one entry over the data, if it is in range. */
  function OverlayOne(origin: nat, d: Delta, r: Range, data: seq<byte>): seq<byte>
    requires |data| >= r.size
  {
    if InRange(origin, d, r) then data[origin + d.offset - r.address := d.value] else data
  }

  /** Writing all entries, in order. */
  function Overlay(origin: nat, ds: seq<Delta>, r: Range, data: seq<byte>): (result: seq<byte>)
    requires |data| >= r.size
    ensures |result| == |data|
    decreases |ds|
  {
    if ds == [] then data else Overlay(origin, ds[1..], r, OverlayOne(origin, ds[0], r, data))
  }

  lemma {:induction false} OverlayAppend(origin: nat, ds: seq<Delta>, es: seq<Delta>, r: Range, data: seq<byte>)
    requires |data| >= r.size
    ensures Overlay(origin, ds + es, r, data) == Overlay(origin, es, r, Overlay(origin, ds, r, data))
    decreases |ds|
  {
    if ds == [] {
      assert ds + es == es;
    } else {
      assert (ds + es)[1..] == ds[1..] + es;
      OverlayAppend(origin, ds[1..], es, r, OverlayOne(origin, ds[0], r, data));
    }
  }

  lemma TouchesAppend(origin: nat, ds: seq<Delta>, es: seq<Delta>, r: Range)
    ensures Touches(origin, ds + es, r) <==> Touches(origin, ds, r) || Touches(origin, es, r)
  {
    if Touches(origin, ds, r) {
      var i :| 0 <= i < |ds| && InRange(origin, ds[i], r);
      assert (ds + es)[i] == ds[i];
    }
    if Touches(origin, es, r) {
      var i :| 0 <= i < |es| && InRange(origin, es[i], r);
      assert (ds + es)[|ds| + i] == es[i];
    }
    if Touches(origin, ds + es, r) {
      var i :| 0 <= i < |ds + es| && InRange(origin, (ds + es)[i], r);
      if i < |ds| { assert InRange(origin, ds[i], r); } else { assert InRange(origin, es[i - |ds|], r); }
    }
  }

  /** What the last entry for an address writes there. */
  function LastWrite(origin: nat, ds: seq<Delta>, a: nat): Option<byte> {
    if ds == [] then None
    else
      var last := ds[|ds| - 1];
      if origin + last.offset == a then Some(last.value) else LastWrite(origin, ds[..|ds| - 1], a)
  }

  /** Every byte ends up as the last entry for it says, or as it was if there is none; bytes behind the range stay. */
  lemma {:induction false} OverlayLastWins(origin: nat, ds: seq<Delta>, r: Range, data: seq<byte>, i: nat)
    requires |data| >= r.size && i < |data|
    ensures Overlay(origin, ds, r, data)[i] ==
      var last := LastWrite(origin, ds, r.address + i);
      if i < r.size && last.Some? then last.value else data[i]
    decreases |ds|
  {
    if ds != [] {
      var init, last := ds[..|ds| - 1], ds[|ds| - 1];
      OverlayLastWins(origin, init, r, data, i);
      assert ds == init + [last];
      OverlayAppend(origin, init, [last], r, data);
      var before := Overlay(origin, init, r, data);
      assert Overlay(origin, [last], r, before) == OverlayOne(origin, last, r, before) by { assert [last][1..] == []; }
    }
  }

  /** Entries out of range write nothing. */
  lemma {:induction false} UntouchedOverlay(origin: nat, ds: seq<Delta>, r: Range, data: seq<byte>)
    requires |data| >= r.size && !Touches(origin, ds, r)
    ensures Overlay(origin, ds, r, data) == data
    decreases |ds|
  {
    if ds != [] {
      assert !InRange(origin, ds[0], r);
      assert forall l :: 0 <= l < |ds[1..]| ==> ds[1..][l] == ds[l + 1];
      UntouchedOverlay(origin, ds[1..], r, data);
    }
  }

  /** The loop over the entries of one block: writes those in range into the buffer. */
  method ApplyDeltas(mem: Memory, origin: nat, p: nat, end: nat, r: Range, buffer: array<byte>)
      returns (touched: bool, next: nat)
    requires buffer.Length >= r.size
    modifies buffer
    ensures buffer[..] == Overlay(origin, Deltas(mem, p, end), r, old(buffer[..]))
    ensures touched == Touches(origin, Deltas(mem, p, end), r)
    ensures next == DeltasEnd(p, end)
  {
    hide DeltaAt;
    touched, next := false, p;
    while next < end
      invariant DeltasEnd(next, end) == DeltasEnd(p, end)
      invariant Overlay(origin, Deltas(mem, next, end), r, buffer[..]) ==
        Overlay(origin, Deltas(mem, p, end), r, old(buffer[..]))
      invariant touched || Touches(origin, Deltas(mem, next, end), r) <==> Touches(origin, Deltas(mem, p, end), r)
      decreases end - next
    {
      var d := DeltaAt(mem, next);
      TouchesAppend(origin, [d], Deltas(mem, next + 4, end), r);
      assert [d][0] == d;
      assert ([d] + Deltas(mem, next + 4, end))[1..] == Deltas(mem, next + 4, end);
      ghost var before := buffer[..];
      if InRange(origin, d, r) {
        buffer[origin + d.offset - r.address] := d.value;
        touched := true;
      }
      assert buffer[..] == OverlayOne(origin, d, r, before);
      next := next + 4;
    }
  }

  /** Whether one of the entries of a block is in range. */
  method FindDelta(mem: Memory, origin: nat, p: nat, end: nat, r: Range) returns (found: bool)
    ensures found == Touches(origin, Deltas(mem, p, end), r)
  {
    hide DeltaAt;
    var next := p;
    while next < end
      invariant Touches(origin, Deltas(mem, next, end), r) <==> Touches(origin, Deltas(mem, p, end), r)
      decreases end - next
    {
      var d := DeltaAt(mem, next);
      TouchesAppend(origin, [d], Deltas(mem, next + 4, end), r);
      assert [d][0] == d;
      if InRange(origin, d, r) {
        return true;
      }
      next := next + 4;
    }
    return false;
  }
}
