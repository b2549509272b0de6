/** The layout of a Boot#### variable: written by the add command, taken apart by the dump. */
module LoadOption {
  import opened Memory

  /** LOAD_OPTION_ACTIVE, and sizeof (EFI_LOAD_OPTION): the attributes and the length of the file path list. */
  const ACTIVE: dword := 1
  const HEADER: nat := 6

  /** A CHAR16 string without its terminator. */
  type Text = s: seq<word> | 0 !in s

  function EncodeText(s: seq<word>): (bs: seq<byte>)
    ensures |bs| == 2 * |s|
  {
    if s == [] then [] else Encode16(s[0]) + EncodeText(s[1..])
  }

  /** What AddBootOption writes. The length of the file path list is cut to 16 bits. */
  function EncodeOption(description: Text, filePath: seq<byte>): seq<byte> {
    Encode32(ACTIVE) + Encode16(|filePath| % 0x1_0000) + EncodeText(description + [0]) + filePath
  }

  /** The terminator of the string at p is n characters behind p. */
  ghost predicate TerminatedAt(mem: Memory, p: nat, n: nat) {
    U16(mem, p + 2 * n) == 0 && forall i :: 0 <= i < n ==> U16(mem, p + 2 * i) != 0
  }

  method StrSize(mem: Memory, p: nat, ghost n: nat) returns (size: nat)
    requires TerminatedAt(mem, p, n)
    ensures size == 2 * (n + 1)
  {
    hide U16;
    var i := 0;
    while U16(mem, p + 2 * i) != 0
      invariant i <= n
      decreases n - i
    {
      i := i + 1;
    }
    size := 2 * (i + 1);
  }

  /** The parts of an option, as the dump finds them: addresses and sizes. */
  datatype Parts = Parts(attributes: dword, description: nat, filePath: nat, filePathSize: word, optionalData: nat,
    optionalSize: nat)

  method DumpBootOption(mem: Memory, p: nat, size: nat, ghost n: nat) returns (parts: Parts)
    requires TerminatedAt(mem, p + HEADER, n)
    ensures parts == PartsAt(mem, p, size, n)
    ensures ReadsBack(mem, p, size, parts)
  {
    PartsReadBack(mem, p, size, n);
    hide U16, U32, TerminatedAt, ReadsBack;
    var descriptionSize := StrSize(mem, p + HEADER, n);
    var filePath := p + HEADER + descriptionSize;
    var optionalData := filePath + U16(mem, p + 4);
    var optionalSize := (p + size - optionalData) % UINTN;
    parts := Parts(U32(mem, p), p + HEADER, filePath, U16(mem, p + 4), optionalData, optionalSize);
  }

  /** If memory holds an option that was added, the parts are those of that option. */
  ghost predicate ReadsBack(mem: Memory, p: nat, size: nat, parts: Parts) {
    forall description: Text, filePath: seq<byte> ::
      HoldsAt(mem, p, EncodeOption(description, filePath)) && size == |EncodeOption(description, filePath)| ==>
        IsOption(mem, parts, description, filePath)
  }

  ghost predicate IsOption(mem: Memory, parts: Parts, description: Text, filePath: seq<byte>) {
    && parts.attributes == 1
    && TerminatedAt(mem, parts.description, |description|)
    && (forall i :: 0 <= i < |description| ==> U16(mem, parts.description + 2 * i) == description[i])
    && HoldsAt(mem, parts.filePath, filePath)
    && parts.filePathSize == |filePath| % 0x1_0000 && parts.optionalData == parts.filePath + parts.filePathSize
    && (|filePath| < UINTN ==> parts.optionalSize == |filePath| - parts.filePathSize)
  }

  /** A string has one end. */
  lemma OneEnd(mem: Memory, p: nat, m: nat, n: nat)
    requires TerminatedAt(mem, p, m) && TerminatedAt(mem, p, n)
    ensures m == n
  {
    hide U16;
  }

  lemma PartsReadBack(mem: Memory, p: nat, size: nat, n: nat)
    requires TerminatedAt(mem, p + HEADER, n)
    ensures ReadsBack(mem, p, size, PartsAt(mem, p, size, n))
  {
    hide U16, U32, HoldsAt, EncodeText, TerminatedAt, EncodeOption;
    forall description: Text, filePath: seq<byte> |
      HoldsAt(mem, p, EncodeOption(description, filePath)) && size == |EncodeOption(description, filePath)|
      ensures IsOption(mem, PartsAt(mem, p, size, n), description, filePath)
    {
      OptionIsReadBack(mem, p, description, filePath);
      OneEnd(mem, p + HEADER, n, |description|);
      OptionSize(description, filePath);
    }
  }

  lemma OptionSize(description: Text, filePath: seq<byte>)
    ensures |EncodeOption(description, filePath)| == HEADER + 2 * (|description| + 1) + |filePath|
  {
  }

  function PartsAt(mem: Memory, p: nat, size: nat, n: nat): Parts {
    var filePath, length := p + HEADER + 2 * (n + 1), U16(mem, p + 4);
    Parts(U32(mem, p), p + HEADER, filePath, length, filePath + length, (p + size - (filePath + length)) % UINTN)
  }

  /** A string that is in memory ends where it should, and is read back. */
  lemma {:induction false} TextIsReadBack(mem: Memory, p: nat, s: Text)
    requires HoldsAt(mem, p, EncodeText(s + [0]))
    ensures TerminatedAt(mem, p, |s|)
    ensures forall i :: 0 <= i < |s| ==> U16(mem, p + 2 * i) == s[i]
    decreases |s|
  {
    hide U16;
    var t := s + [0];
    HoldsAtConcat(mem, p, Encode16(t[0]), EncodeText(t[1..]));
    DecodeEncode16(mem, p, t[0]);
    assert |Encode16(t[0])| == 2;
    if s != [] {
      assert t[1..] == s[1..] + [0];
      TextIsReadBack(mem, p + 2, s[1..]);
      forall i | 0 <= i < |s| ensures U16(mem, p + 2 * i) == s[i] && U16(mem, p + 2 * i) != 0 {
        assert s[i] in s;
        if i > 0 {
          assert p + 2 + 2 * (i - 1) == p + 2 * i;
          assert U16(mem, p + 2 + 2 * (i - 1)) == s[1..][i - 1];
        }
      }
      assert U16(mem, p + 2 + 2 * |s[1..]|) == 0 && p + 2 + 2 * |s[1..]| == p + 2 * |s|;

    }
  }

  /** The dump finds the description and the file path that were added. */
  lemma OptionIsReadBack(mem: Memory, p: nat, description: Text, filePath: seq<byte>)
    requires HoldsAt(mem, p, EncodeOption(description, filePath))
    ensures TerminatedAt(mem, p + HEADER, |description|)
    ensures forall i :: 0 <= i < |description| ==> U16(mem, p + HEADER + 2 * i) == description[i]
    ensures var parts := PartsAt(mem, p, |EncodeOption(description, filePath)|, |description|);
      parts.attributes == ACTIVE && parts.filePathSize == |filePath| % 0x1_0000 &&
        HoldsAt(mem, parts.filePath, filePath)
  {
    hide U16, U32, HoldsAt, EncodeText;
    var length, text := Encode16(|filePath| % 0x1_0000), EncodeText(description + [0]);
    assert |Encode32(ACTIVE)| == 4 && |length| == 2;
    HoldsAtConcat(mem, p, Encode32(ACTIVE) + length + text, filePath);
    HoldsAtConcat(mem, p, Encode32(ACTIVE) + length, text);
    HoldsAtConcat(mem, p, Encode32(ACTIVE), length);
    DecodeEncode32(mem, p, ACTIVE);
    DecodeEncode16(mem, p + 4, |filePath| % 0x1_0000);
    TextIsReadBack(mem, p + HEADER, description);
  }

  /** It shows the whole path and no optional data, as was added, exactly when the path's size fits in 16 bits. */
  lemma WholePathExactlyWhen(mem: Memory, p: nat, description: Text, filePath: seq<byte>)
    requires HoldsAt(mem, p, EncodeOption(description, filePath)) && |filePath| < UINTN
    ensures var parts := PartsAt(mem, p, |EncodeOption(description, filePath)|, |description|);
      (parts.filePathSize == |filePath| && parts.optionalSize == 0 <==> |filePath| < 0x1_0000)
      && parts.optionalSize == |filePath| / 0x1_0000 * 0x1_0000
  {
    hide U16, U32, HoldsAt, EncodeText, TerminatedAt;
    OptionIsReadBack(mem, p, description, filePath);
  }

  /** It fails for a path of 64 KB: the whole path is shown as optional data. */
  lemma LongPath(mem: Memory, p: nat, description: Text, filePath: seq<byte>)
    requires HoldsAt(mem, p, EncodeOption(description, filePath)) && |filePath| == 0x1_0000
    ensures var parts := PartsAt(mem, p, |EncodeOption(description, filePath)|, |description|);
      parts.filePathSize == 0 && parts.optionalData == parts.filePath && parts.optionalSize == 0x1_0000
  {
    hide U32, HoldsAt, EncodeText, TerminatedAt;
    OptionIsReadBack(mem, p, description, filePath);
    WholePathExactlyWhen(mem, p, description, filePath);
  }
}
