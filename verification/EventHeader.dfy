/** The event that a TCG 2 log starts with (section 10.4.5.1 of the TCG PC Client Platform Firmware Profile). */
module EventHeader {
  import opened Memory

  /** Sizes of TCG_PCR_EVENT_HDR and TCG_EfiSpecIDEventStruct. */
  const EVENT_HDR: nat := 32
  const SPEC_ID_STRUCT: nat := 24

  // ---------- what is read ----------

  function SpecId(base: nat): nat { base + EVENT_HDR }
  function AlgorithmCount(mem: Memory, base: nat): nat { U32(mem, SpecId(base) + SPEC_ID_STRUCT) }
  function Algorithm(mem: Memory, base: nat, i: nat): word { U16(mem, SpecId(base) + SPEC_ID_STRUCT + 4 + 4 * i) }

  /**
   * The address behind the header event: its algorithm list and its vendor information are sized by their own fields.
   */
  function FirstEvent2(mem: Memory, base: nat): (r: nat)
    ensures r > base + EVENT_HDR + SPEC_ID_STRUCT
  {
    var vendorInfo := SpecId(base) + SPEC_ID_STRUCT + 4 + 4 * AlgorithmCount(mem, base);
    vendorInfo + 1 + mem(vendorInfo)
  }

  // ---------- what is written ----------

  /** A bank: an algorithm and its digest size. */
  datatype Bank = Bank(alg: word, digestSize: word)

  /** The SHA-1 event header and the identification before the list of banks are of fixed size, and not looked at. */
  datatype Header = Header(event: seq<byte>, identification: seq<byte>, banks: seq<Bank>, vendorInfo: seq<byte>)

  predicate FitsHeader(hd: Header) {
    |hd.event| == 32 && |hd.identification| == 24 && |hd.banks| < 0x1_0000_0000 && |hd.vendorInfo| < 0x100
  }

  function EncodeBanks(banks: seq<Bank>): (bs: seq<byte>)
    ensures |bs| == 4 * |banks|
  {
    if banks == [] then [] else Encode16(banks[0].alg) + Encode16(banks[0].digestSize) + EncodeBanks(banks[1..])
  }

  function EncodeHeader(hd: Header): (bs: seq<byte>)
    requires FitsHeader(hd)
    ensures |bs| == 61 + 4 * |hd.banks| + |hd.vendorInfo|
  {
    hd.event + hd.identification + Encode32(|hd.banks|) + EncodeBanks(hd.banks) + [|hd.vendorInfo|] + hd.vendorInfo
  }

  // ---------- what was written is read ----------

  lemma {:induction false} BanksDecode(mem: Memory, p: nat, banks: seq<Bank>, i: nat)
    requires HoldsAt(mem, p, EncodeBanks(banks)) && i < |banks|
    ensures U16(mem, p + 4 * i) == banks[i].alg
    decreases i
  {
    var b := banks[0];
    Lengths(b.alg, 0);
    Lengths(b.digestSize, 0);
    hide HoldsAt, Encode16, U16;
    HoldsAtConcat(mem, p, Encode16(b.alg) + Encode16(b.digestSize), EncodeBanks(banks[1..]));
    if i == 0 {
      HoldsAtConcat(mem, p, Encode16(b.alg), Encode16(b.digestSize));
      DecodeEncode16(mem, p, b.alg);
    } else {
      BanksDecode(mem, p + 4, banks[1..], i - 1);
      assert p + 4 + 4 * (i - 1) == p + 4 * i;
    }
  }

  /** In memory that holds a header event, the banks are its banks, and the first event is right behind it. */
  lemma HeaderDecode(mem: Memory, base: nat, hd: Header)
    requires FitsHeader(hd) && HoldsAt(mem, base, EncodeHeader(hd))
    ensures AlgorithmCount(mem, base) == |hd.banks|
    ensures forall i :: 0 <= i < |hd.banks| ==> Algorithm(mem, base, i) == hd.banks[i].alg
    ensures FirstEvent2(mem, base) == base + |EncodeHeader(hd)|
  {
    var n, size := |hd.banks|, |hd.vendorInfo|;
    Lengths(0, n);
    hide HoldsAt, Encode32, U32, U16, EncodeBanks;
    HoldsAtConcat(mem, base, hd.event + hd.identification + Encode32(n) + EncodeBanks(hd.banks) + [size],
      hd.vendorInfo);
    HoldsAtConcat(mem, base, hd.event + hd.identification + Encode32(n) + EncodeBanks(hd.banks), [size]);
    HoldsAtConcat(mem, base, hd.event + hd.identification + Encode32(n), EncodeBanks(hd.banks));
    HoldsAtConcat(mem, base, hd.event + hd.identification, Encode32(n));
    DecodeEncode32(mem, base + 56, n);
    forall i | 0 <= i < n ensures Algorithm(mem, base, i) == hd.banks[i].alg {
      BanksDecode(mem, base + 60, hd.banks, i);
    }
    OneByte(mem, base + 60 + 4 * n, size);
  }

  lemma OneByte(mem: Memory, p: nat, b: byte)
    requires HoldsAt(mem, p, [b])
    ensures mem(p) == b
  {
    assert mem(p + 0) == [b][0];
  }

  /** The header event of a copy is as long as that of the original, whatever its bytes are. */
  lemma HeaderInCopy(mem: Memory, base: nat, n: nat, mem': Memory, base': nat)
    requires HoldsAt(mem', base', Bytes(mem, base, n)) && FirstEvent2(mem, base) <= base + n
    ensures FirstEvent2(mem', base') - base' == FirstEvent2(mem, base) - base
  {
    var c := EVENT_HDR + SPEC_ID_STRUCT;
    var v := c + 4 + 4 * AlgorithmCount(mem, base);
    assert FirstEvent2(mem, base) == base + v + 1 + mem(base + v);
    SameByte(mem, base, n, mem', base', c);
    SameByte(mem, base, n, mem', base', c + 1);
    SameByte(mem, base, n, mem', base', c + 2);
    SameByte(mem, base, n, mem', base', c + 3);
    assert U32(mem', base' + c) == U32(mem, base + c);
    SameByte(mem, base, n, mem', base', v);
  }

  lemma SameByte(mem: Memory, base: nat, n: nat, mem': Memory, base': nat, j: nat)
    requires HoldsAt(mem', base', Bytes(mem, base, n)) && j < n
    ensures mem'(base' + j) == mem(base + j)
  {
    assert mem'(base' + j) == Bytes(mem, base, n)[j];
  }
}
