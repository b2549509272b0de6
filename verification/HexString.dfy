/** Decoding a string of hexadecimal digits into a buffer. */
module HexString {
  import opened Memory
  import opened Options

  datatype Status = Success | InvalidParameter | BadBufferSize

  const INVALID: byte := 0xFF

  function HexCharToUint8(c: char): byte {
    if '0' <= c <= '9' then c as int - '0' as int
    else if 'a' <= c <= 'f' then c as int - 'a' as int + 10
    else if 'A' <= c <= 'F' then c as int - 'A' as int + 10
    else INVALID
  }

  /** (UINT8)((high << 4) | low), for the values the function above returns. */
  function Combine(high: byte, low: byte): byte
    requires low < 16 || low == INVALID
  {
    if low == INVALID then 0xFF else high % 16 * 16 + low
  }

  function DecodePair(s: string, i: nat): byte
    requires 2 * i + 1 < |s|
  {
    Combine(HexCharToUint8(s[2 * i]), HexCharToUint8(s[2 * i + 1]))
  }

  function Decode(s: string, size: nat): seq<byte>
    requires |s| == 2 * size
  {
    seq(size, i requires 0 <= i < size => DecodePair(s, i))
  }

  /**
   * Fills the buffer if the string has exactly two characters for each byte; what the characters are is not checked.
   */
  method HexStringToBuffer(hex: Option<string>, buffer: array<byte>) returns (status: Status)
    modifies buffer
    ensures status ==
      if hex.None? then InvalidParameter else if |hex.value| != 2 * buffer.Length then BadBufferSize else Success
    ensures buffer[..] == if status == Success then Decode(hex.value, buffer.Length) else old(buffer[..])
  {
    if hex.None? {
      return InvalidParameter;
    }
    var s := hex.value;
    if |s| != buffer.Length * 2 {
      return BadBufferSize;
    }
    var i := 0;
    while i < buffer.Length
      invariant i <= buffer.Length && forall j :: 0 <= j < i ==> buffer[j] == DecodePair(s, j)
    {
      buffer[i] := Combine(HexCharToUint8(s[i * 2]), HexCharToUint8(s[i * 2 + 1]));
      i := i + 1;
    }
    return Success;
  }

  // ---------- printing ----------

  function Digit(x: byte): char
    requires x < 16
  {
    if x < 10 then (x + '0' as int) as char else (x - 10 + 'a' as int) as char
  }

  /** %02x for every byte. */
  function Print(bs: seq<byte>): (s: string)
    ensures |s| == 2 * |bs|
  {
    seq(2 * |bs|, i requires 0 <= i < 2 * |bs| => Digit(if i % 2 == 0 then bs[i / 2] / 16 else bs[i / 2] % 16))
  }

  predicate IsHexDigit(c: char) {
    '0' <= c <= '9' || 'a' <= c <= 'f' || 'A' <= c <= 'F'
  }

  function LowerCase(c: char): char {
    if 'A' <= c <= 'F' then (c as int - 'A' as int + 'a' as int) as char else c
  }

  function Lower(s: string): (r: string)
    ensures |r| == |s|
  {
    seq(|s|, i requires 0 <= i < |s| => LowerCase(s[i]))
  }

  lemma DigitRoundTrip(x: byte, c: char)
    ensures x < 16 ==> HexCharToUint8(Digit(x)) == x && IsHexDigit(Digit(x)) && LowerCase(Digit(x)) == Digit(x)
    ensures IsHexDigit(c) ==> HexCharToUint8(c) < 16 && Digit(HexCharToUint8(c)) == LowerCase(c)
    ensures !IsHexDigit(c) ==> !IsHexDigit(LowerCase(c))
  {
  }

  /** Decoding inverts printing. */
  lemma DecodeOfPrint(bs: seq<byte>)
    ensures Decode(Print(bs), |bs|) == bs
  {
    hide HexCharToUint8, Digit;
    var s := Print(bs);
    forall i | 0 <= i < |bs| ensures DecodePair(s, i) == bs[i] {
      assert s[2 * i] == Digit(bs[i] / 16) && s[2 * i + 1] == Digit(bs[i] % 16);
      DigitRoundTrip(bs[i] / 16, ' ');
      DigitRoundTrip(bs[i] % 16, ' ');
    }
  }

  /** Printing gives the string back, up to the case of its letters, exactly when it consists of hexadecimal digits. */
  lemma PrintOfDecode(s: string, size: nat)
    requires |s| == 2 * size
    ensures Print(Decode(s, size)) == Lower(s) <==> forall i :: 0 <= i < |s| ==> IsHexDigit(s[i])
  {
    hide Digit, LowerCase, IsHexDigit, Print, Lower;
    if forall i :: 0 <= i < |s| ==> IsHexDigit(s[i]) {
      forall i | 0 <= i < |s| ensures Print(Decode(s, size))[i] == Lower(s)[i] {
        DigitsKept(s, size, i);
      }
    } else {
      var i :| 0 <= i < |s| && !IsHexDigit(s[i]);
      OnlyDigitsPrinted(s, size, i);
    }
  }

  lemma DigitsKept(s: string, size: nat, i: nat)
    requires |s| == 2 * size && i < |s| && forall j :: 0 <= j < |s| ==> IsHexDigit(s[j])
    ensures Print(Decode(s, size))[i] == Lower(s)[i]
  {
    hide HexCharToUint8, Digit, LowerCase, IsHexDigit;
    var bs, j := Decode(s, size), i / 2;
    DigitRoundTrip(0, s[2 * j]);
    DigitRoundTrip(0, s[2 * j + 1]);
    var high, low := HexCharToUint8(s[2 * j]), HexCharToUint8(s[2 * j + 1]);
    assert bs[j] == Combine(high, low);
    assert i == 2 * j || i == 2 * j + 1;
  }

  lemma OnlyDigitsPrinted(s: string, size: nat, i: nat)
    requires |s| == 2 * size && i < |s| && !IsHexDigit(s[i])
    ensures Print(Decode(s, size))[i] != Lower(s)[i]
  {
    hide HexCharToUint8, Digit, LowerCase, IsHexDigit, Combine;
    var b := Decode(s, size)[i / 2];
    DigitRoundTrip(if i % 2 == 0 then b / 16 else b % 16, s[i]);
  }

  /** A character that is no digit is decoded all the same. */
  lemma NotADigit()
    ensures Decode("g0", 1) == [0xF0] && Print([0xF0]) == "f0"
  {
  }
}
