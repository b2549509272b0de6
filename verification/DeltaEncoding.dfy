/** Delta entries and padding as they are written, and reading them back. */
module DeltaEncoding {
  import opened Memory
  import opened DataDeltas

  lemma HoldsSlice(mem: Memory, p: nat, bs: seq<byte>, i: nat, j: nat)
    requires HoldsAt(mem, p, bs) && i <= j <= |bs|
    ensures HoldsAt(mem, p + i, bs[i..j])
  {
    forall k | 0 <= k < j - i ensures mem(p + i + k) == bs[i..j][k] {
      assert mem(p + (i + k)) == bs[i + k];
    }
  }

  // ---------- padding ----------

  /** Zeros that fill n bytes up to a multiple of four, or of eight. */
  function Padding(n: nat, a: nat): (bs: seq<byte>)
    requires a == 4 || a == 8
    ensures |bs| < a
  {
    if a == 4 then seq(if n % 4 == 0 then 0 else 4 - n % 4, _ => 0)
    else seq(if n % 8 == 0 then 0 else 8 - n % 8, _ => 0)
  }

  lemma MultiplesOf(k: nat)
    ensures (4 * k) % 4 == 0 && (8 * k) % 8 == 0
  {
  }

  lemma PaddedIsMultiple(n: nat)
    ensures (n + |Padding(n, 4)|) % 4 == 0 && (n + |Padding(n, 8)|) % 8 == 0
  {
    var q, m := n / 4, n / 8;
    var i, j := if n % 4 == 0 then 0 else 1, if n % 8 == 0 then 0 else 1;
    assert n + |Padding(n, 4)| == 4 * (q + i) by { PaddingLength(n); }
    assert n + |Padding(n, 8)| == 8 * (m + j) by { PaddingLength(n); }
    hide Padding;
    MultiplesOf(q + i);
    MultiplesOf(m + j);
  }

  lemma PaddingLength(n: nat)
    ensures n + |Padding(n, 4)| == 4 * (n / 4) + if n % 4 == 0 then 0 else 4
    ensures n + |Padding(n, 8)| == 8 * (n / 8) + if n % 8 == 0 then 0 else 8
  {
    assert n == 4 * (n / 4) + n % 4 && n == 8 * (n / 8) + n % 8;
  }

  lemma OneMultipleOf4(r: nat, s: nat)
    requires r % 4 == 0 && s % 4 == 0 && r - 4 < s < r + 4
    ensures r == s
  {
    assert r == 4 * (r / 4) && s == 4 * (s / 4);
  }

  lemma OneMultipleOf8(r: nat, s: nat)
    requires r % 8 == 0 && s % 8 == 0 && r - 8 < s < r + 8
    ensures r == s
  {
    assert r == 8 * (r / 8) && s == 8 * (s / 8);
  }

  lemma SumsOf4(a: nat, b: nat)
    requires a % 4 == 0 && b % 4 == 0
    ensures (a + b) % 4 == 0
  {
  }

  lemma SumsOf8(a: nat, b: nat)
    requires a % 8 == 0 && b % 8 == 0
    ensures (a + b) % 8 == 0
  {
  }

  /** From an aligned offset on, padding is aligning. */
  lemma AlignPadded(off: nat, n: nat)
    ensures off % 4 == 0 ==> Align(off + n, 4) == off + n + |Padding(n, 4)|
    ensures off % 8 == 0 ==> Align(off + n, 8) == off + n + |Padding(n, 8)|
  {
    PaddedIsMultiple(n);
    hide Padding, Align;
    if off % 4 == 0 {
      SumsOf4(off, n + |Padding(n, 4)|);
      OneMultipleOf4(Align(off + n, 4), off + (n + |Padding(n, 4)|));
    }
    if off % 8 == 0 {
      SumsOf8(off, n + |Padding(n, 8)|);
      OneMultipleOf8(Align(off + n, 8), off + (n + |Padding(n, 8)|));
    }
  }

  // ---------- delta entries ----------

  predicate FitDeltas(ds: seq<Delta>) {
    forall i :: 0 <= i < |ds| ==> ds[i].offset < 0x100_0000
  }

  function EncodeDeltas(ds: seq<Delta>): (bs: seq<byte>)
    requires FitDeltas(ds)
    ensures |bs| == 4 * |ds|
  {
    if ds == [] then [] else Encode24(ds[0].offset) + [ds[0].value] + EncodeDeltas(ds[1..])
  }

  lemma {:induction false} DeltasDecode(mem: Memory, p: nat, ds: seq<Delta>)
    requires FitDeltas(ds) && HoldsAt(mem, p, EncodeDeltas(ds))
    ensures Deltas(mem, p, p + 4 * |ds|) == ds && DeltasEnd(p, p + 4 * |ds|) == p + 4 * |ds|
    decreases |ds|
  {
    hide HoldsAt, Encode24, U24;
    if ds != [] {
      HoldsAtConcat(mem, p, Encode24(ds[0].offset) + [ds[0].value], EncodeDeltas(ds[1..]));
      HoldsAtConcat(mem, p, Encode24(ds[0].offset), [ds[0].value]);
      DecodeEncode24(mem, p, ds[0].offset);
      OneByte(mem, p + 3, ds[0].value);
      DeltasDecode(mem, p + 4, ds[1..]);
    }
  }

  lemma OneByte(mem: Memory, p: nat, b: byte)
    requires HoldsAt(mem, p, [b])
    ensures mem(p) == b
  {
    assert mem(p + 0) == [b][0];
  }
}
