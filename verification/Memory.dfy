/** Bytes, little-endian fields and raw memory, as the firmware walkers see them. */
module Memory {

  /** The number of UINT32 values, and of UINTN values of a 64-bit build. */
  const UINT32: nat := 0x1_0000_0000
  const UINTN: nat := 0x1_0000_0000_0000_0000

  type byte = x: int | 0 <= x < 0x100
  type word = x: int | 0 <= x < 0x1_0000
  type dword = x: int | 0 <= x < 0x1_0000_0000

  /** The result of an operation on UINT32 values. */
  function Wrap(x: int): dword { x % UINT32 }

  /** A flat memory: every address holds a byte. Address arithmetic never wraps. */
  type Memory = nat -> byte

  function U16(mem: Memory, p: nat): word {
    mem(p) + 0x100 * mem(p + 1)
  }

  function U24(mem: Memory, p: nat): dword {
    mem(p) + 0x100 * mem(p + 1) + 0x1_0000 * mem(p + 2)
  }

  function U32(mem: Memory, p: nat): dword {
    mem(p) + 0x100 * mem(p + 1) + 0x1_0000 * mem(p + 2) + 0x100_0000 * mem(p + 3)
  }

  function U64(mem: Memory, p: nat): nat {
    U32(mem, p) + 0x1_0000_0000 * U32(mem, p + 4)
  }

  /** The 16 bytes of a GUID. */
  function GuidAt(mem: Memory, p: nat): seq<byte> {
    seq(16, i requires 0 <= i < 16 => mem(p + i))
  }

  /** The little-endian encoding of a 16-bit field. */
  function Encode16(x: word): seq<byte> {
    [x % 0x100, x / 0x100]
  }

  /** The little-endian encoding of a 32-bit field. */
  function Encode32(x: dword): seq<byte> {
    [x % 0x100, x / 0x100 % 0x100, x / 0x1_0000 % 0x100, x / 0x100_0000]
  }

  /** The little-endian encoding of a 24-bit field. */
  function Encode24(x: nat): (bs: seq<byte>)
    requires x < 0x100_0000
    ensures |bs| == 3
  {
    [x % 0x100, x / 0x100 % 0x100, x / 0x1_0000]
  }

  /** The little-endian encoding of a 64-bit field. */
  function Encode64(x: nat): (bs: seq<byte>)
    requires x < 0x1_0000_0000_0000_0000
    ensures |bs| == 8
  {
    Encode32(x % 0x1_0000_0000) + Encode32(x / 0x1_0000_0000)
  }

  /** Memory holds the bytes bs at address p. */
  ghost predicate HoldsAt(mem: Memory, p: nat, bs: seq<byte>) {
    forall i :: 0 <= i < |bs| ==> mem(p + i) == bs[i]
  }

  /** The n bytes at p. */
  function Bytes(mem: Memory, p: nat, n: nat): (bs: seq<byte>)
    ensures |bs| == n && HoldsAt(mem, p, bs)
  {
    seq(n, i requires 0 <= i < n => mem(p + i))
  }

  /** ALIGN_VALUE for the two alignments the walkers use: the least multiple of a at or above x. */
  function Align(x: nat, a: nat): (r: nat)
    requires a == 4 || a == 8
    ensures x <= r < x + a && r % a == 0
  {
    if a == 4 then (x + 3) / 4 * 4 else (x + 7) / 8 * 8
  }

  lemma HoldsAtConcat(mem: Memory, p: nat, a: seq<byte>, b: seq<byte>)
    ensures HoldsAt(mem, p, a + b) <==> HoldsAt(mem, p, a) && HoldsAt(mem, p + |a|, b)
  {
    if HoldsAt(mem, p, a + b) {
      forall i | 0 <= i < |a| ensures mem(p + i) == a[i] {
        assert (a + b)[i] == a[i];
      }
      forall i | 0 <= i < |b| ensures mem(p + |a| + i) == b[i] {
        assert (a + b)[|a| + i] == b[i] && mem(p + (|a| + i)) == (a + b)[|a| + i];
      }
    }
    if HoldsAt(mem, p, a) && HoldsAt(mem, p + |a|, b) {
      forall i | 0 <= i < |a + b| ensures mem(p + i) == (a + b)[i] {
        if i >= |a| {
          assert mem(p + |a| + (i - |a|)) == b[i - |a|];
        }
      }
    }
  }

  lemma DecodeEncode16(mem: Memory, p: nat, x: word)
    requires HoldsAt(mem, p, Encode16(x))
    ensures U16(mem, p) == x
  {
    assert mem(p + 0) == Encode16(x)[0] && mem(p + 1) == Encode16(x)[1];
  }

  lemma Quotients(x: nat)
    ensures x / 0x1_0000 == x / 0x100 / 0x100 && x / 0x100_0000 == x / 0x1_0000 / 0x100
  {
  }

  lemma Remainder(x: nat)
    ensures x == x % 0x100 + 0x100 * (x / 0x100)
  {
  }

  /** A 32-bit number from its bytes. */
  lemma Digits(x: dword)
    ensures x == x % 0x100 + 0x100 * (x / 0x100 % 0x100) + 0x1_0000 * (x / 0x1_0000 % 0x100) +
      0x100_0000 * (x / 0x100_0000)
  {
    Quotients(x);
    Remainder(x);
    Remainder(x / 0x100);
    Remainder(x / 0x1_0000);
  }

  lemma BytesOf32(mem: Memory, p: nat, x: dword)
    requires HoldsAt(mem, p, Encode32(x))
    ensures mem(p) == x % 0x100 && mem(p + 1) == x / 0x100 % 0x100
    ensures mem(p + 2) == x / 0x1_0000 % 0x100 && mem(p + 3) == x / 0x100_0000
  {
    var bs := Encode32(x);
    assert mem(p + 0) == bs[0] && mem(p + 1) == bs[1] && mem(p + 2) == bs[2] && mem(p + 3) == bs[3];
  }

  lemma DecodeEncode32(mem: Memory, p: nat, x: dword)
    requires HoldsAt(mem, p, Encode32(x))
    ensures U32(mem, p) == x
  {
    hide HoldsAt, Encode32;
    BytesOf32(mem, p, x);
    Digits(x);
  }

  lemma DecodeEncode24(mem: Memory, p: nat, x: nat)
    requires x < 0x100_0000 && HoldsAt(mem, p, Encode24(x))
    ensures U24(mem, p) == x
  {
    var bs := Encode24(x);
    assert x == x % 0x100 + 0x100 * (x / 0x100 % 0x100) + 0x1_0000 * (x / 0x1_0000);
    assert mem(p + 0) == bs[0] && mem(p + 1) == bs[1] && mem(p + 2) == bs[2];
  }

  lemma DecodeEncode64(mem: Memory, p: nat, x: nat)
    requires x < 0x1_0000_0000_0000_0000 && HoldsAt(mem, p, Encode64(x))
    ensures U64(mem, p) == x
  {
    var low, high := Encode32(x % 0x1_0000_0000), Encode32(x / 0x1_0000_0000);
    assert |low| == 4;
    hide Encode32, U32, HoldsAt;
    HoldsAtConcat(mem, p, low, high);
    DecodeEncode32(mem, p, x % 0x1_0000_0000);
    DecodeEncode32(mem, p + 4, x / 0x1_0000_0000);
  }

  lemma Lengths(x: word, y: dword)
    ensures |Encode16(x)| == 2 && |Encode32(y)| == 4
  {
  }
}
