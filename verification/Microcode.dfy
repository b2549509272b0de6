/** The checksums of a microcode update: computed once for the image, then adjusted for every extended signature. */
module Microcode {
  import opened Memory
  import opened Options

  /** Words of the header that differ between the signatures, and the words after which the sizes are. */
  const SIGNATURE: nat := 3
  const CHECKSUM: nat := 4
  const FLAGS: nat := 6

  /** sizeof (CPU_MICROCODE_HEADER), the default data size, and the sizes of the extended table's header and entries. */
  const HEADER: nat := 48
  const DEFAULT_DATA: nat := 2000
  const TABLE_HEADER: nat := 20
  const ENTRY: nat := 12

  // ---------- arithmetic of UINT32 ----------

  lemma WrapAdd(a: int, b: int)
    ensures Wrap(Wrap(a) + b) == Wrap(a + b)
  {
  }

  lemma WrapZero()
    ensures Wrap(0) == 0
  {
  }

  /** Three steps up and three steps down, each wrapping. */
  lemma WrapThree(base: int, a: int, b: int, c: int)
    ensures Wrap(Wrap(Wrap(Wrap(base) + a) + b) + c) == Wrap(base + a + b + c)
    ensures Wrap(Wrap(Wrap(Wrap(base) - a) - b) - c) == Wrap(base - a - b - c)
  {
    hide Wrap;
    WrapAdd(base, a);
    WrapAdd(base + a, b);
    WrapAdd(base + a + b, c);
    WrapAdd(base, -a);
    WrapAdd(base - a, -b);
    WrapAdd(base - a - b, -c);
  }

  function Sum(ws: seq<dword>): nat {
    if ws == [] then 0 else Sum(ws[..|ws| - 1]) + ws[|ws| - 1]
  }

  lemma {:induction false} SumUpdate(ws: seq<dword>, i: nat, v: dword)
    requires i < |ws|
    ensures Sum(ws[i := v]) == Sum(ws) - ws[i] + v
  {
    var init := ws[..|ws| - 1];
    if i == |ws| - 1 {
      assert ws[i := v][..|ws| - 1] == init;
    } else {
      SumUpdate(init, i, v);
      assert ws[i := v][..|ws| - 1] == init[i := v];
    }
  }

  // ---------- the image ----------

  function ProcessorSignature(mem: Memory, p: nat): dword { U32(mem, p + 12) }
  function Checksum(mem: Memory, p: nat): dword { U32(mem, p + 16) }
  function ProcessorFlags(mem: Memory, p: nat): dword { U32(mem, p + 24) }
  function DataSize(mem: Memory, p: nat): dword { U32(mem, p + 28) }
  function TotalSize(mem: Memory, p: nat): dword { U32(mem, p + 32) }

  function Words(mem: Memory, p: nat, length: nat): (ws: seq<dword>)
    ensures |ws| == length / 4
  {
    seq(length / 4, i requires 0 <= i < length / 4 => U32(mem, p + 4 * i))
  }

  /** Header and data: what a checksum covers. */
  function ImageSize(mem: Memory, p: nat): nat {
    HEADER + if DataSize(mem, p) == 0 then DEFAULT_DATA else DataSize(mem, p)
  }

  function Image(mem: Memory, p: nat): (ws: seq<dword>)
    ensures |ws| >= 12
  {
    Words(mem, p, ImageSize(mem, p))
  }

  /** An entry of the extended signature table. */
  datatype Entry = Entry(signature: dword, flag: dword, checksum: dword)

  function EntryAt(mem: Memory, q: nat): Entry {
    Entry(U32(mem, q), U32(mem, q + 4), U32(mem, q + 8))
  }

  /** The image as a processor with the entry's signature would have it. */
  function ImageFor(ws: seq<dword>, e: Entry): seq<dword>
    requires |ws| >= 12
  {
    ws[SIGNATURE := e.signature][CHECKSUM := e.checksum][FLAGS := e.flag]
  }

  lemma SumFor(ws: seq<dword>, e: Entry)
    requires |ws| >= 12
    ensures Sum(ImageFor(ws, e)) ==
      Sum(ws) - ws[SIGNATURE] - ws[CHECKSUM] - ws[FLAGS] + e.signature + e.checksum + e.flag
  {
    hide Sum;
    SumUpdate(ws, SIGNATURE, e.signature);
    SumUpdate(ws[SIGNATURE := e.signature], CHECKSUM, e.checksum);
    SumUpdate(ws[SIGNATURE := e.signature][CHECKSUM := e.checksum], FLAGS, e.flag);
  }

  // ---------- the checksums ----------

  /** The wrapping sum of the words of a buffer. */
  method CalculateSum32(mem: Memory, p: nat, length: nat) returns (sum: dword)
    ensures sum == Wrap(Sum(Words(mem, p, length)))
  {
    hide Wrap, Words;
    var ws := Words(mem, p, length);
    sum := 0;
    var i := 0;
    assert Wrap(0) == 0 by { WrapZero(); }
    while i < |ws|
      invariant i <= |ws| && sum == Wrap(Sum(ws[..i]))
    {
      assert ws[..i + 1][..i] == ws[..i];
      WrapAdd(Sum(ws[..i]), ws[i]);
      sum := Wrap(sum + ws[i]);
      i := i + 1;
    }
    assert ws[..i] == ws;
  }

  /** Adding an entry's words to the incomplete sum gives the sum of the image with the entry in it. */
  lemma CompletedSum(ws: seq<dword>, e: Entry)
    requires |ws| >= 12
    ensures var base := Sum(ws) - ws[SIGNATURE] - ws[FLAGS] - ws[CHECKSUM];
      Wrap(Wrap(Wrap(Wrap(base) + e.signature) + e.flag) + e.checksum) == Wrap(Sum(ImageFor(ws, e)))
  {
    hide Sum, Wrap, ImageFor;
    SumFor(ws, e);
    WrapThree(Sum(ws) - ws[SIGNATURE] - ws[FLAGS] - ws[CHECKSUM], e.signature, e.flag, e.checksum);
  }

  /** What is printed: the checksum of the image and, if there is an extended table, its checksum and one per entry. */
  datatype Report = Report(image: dword, table: Option<ExtendedTable>)
  datatype ExtendedTable = ExtendedTable(checksum: dword, entries: seq<dword>)

  function TableLength(mem: Memory, p: nat): nat {
    (TotalSize(mem, p) - (DataSize(mem, p) + HEADER)) % UINTN
  }

  function TableAddress(mem: Memory, p: nat): nat { p + DataSize(mem, p) + HEADER }

  /** Entry i of the table. */
  function ExtendedEntry(mem: Memory, p: nat, i: nat): Entry {
    EntryAt(mem, TableAddress(mem, p) + TABLE_HEADER + ENTRY * i)
  }

  predicate HasTable(mem: Memory, p: nat) { DataSize(mem, p) != 0 && TableLength(mem, p) != 0 }

  /** The checksum for an entry is that of the whole image with the entry in it. */
  ghost predicate IsChecksumFor(mem: Memory, p: nat, i: nat, sum: dword) {
    sum == Wrap(Sum(ImageFor(Image(mem, p), ExtendedEntry(mem, p, i))))
  }

  ghost predicate AreEntryChecksums(mem: Memory, p: nat, sums: seq<dword>) {
    forall i :: 0 <= i < |sums| ==> IsChecksumFor(mem, p, i, sums[i])
  }

  function EntryCount(mem: Memory, p: nat): dword { U32(mem, TableAddress(mem, p)) }

  /** All checksums of an update in memory, and for an update that was written those of the words that were written. */
  method DumpMicrocode(mem: Memory, p: nat) returns (r: Report)
    ensures r.image == Wrap(Sum(Image(mem, p)))
    ensures r.table.Some? <==> HasTable(mem, p)
    ensures r.table.Some? ==> r.table.value.checksum == Wrap(Sum(Words(mem, TableAddress(mem, p), TableLength(mem, p))))
    ensures r.table.Some? ==>
      AreEntryChecksums(mem, p, r.table.value.entries) && |r.table.value.entries| == EntryCount(mem, p)
    ensures forall u, t :: HoldsUpdate(mem, p, u, t) ==> Reports(r, u, t)
  {
    r := DumpChecksums(mem, p);
    hide HoldsUpdate, Reports, HasTable, AreEntryChecksums, EntryCount, Image, Words, TableAddress, TableLength;
    forall u, t | HoldsUpdate(mem, p, u, t) ensures Reports(r, u, t) {
      UpdateReported(mem, p, u, t, r);
    }
  }

  method DumpChecksums(mem: Memory, p: nat) returns (r: Report)
    ensures r.image == Wrap(Sum(Image(mem, p)))
    ensures r.table.Some? <==> HasTable(mem, p)
    ensures r.table.Some? ==> r.table.value.checksum == Wrap(Sum(Words(mem, TableAddress(mem, p), TableLength(mem, p))))
    ensures r.table.Some? ==>
      AreEntryChecksums(mem, p, r.table.value.entries) && |r.table.value.entries| == EntryCount(mem, p)
  {
    hide Wrap, Sum, U32, Image, ImageFor, ExtendedEntry, EntryCount, TableAddress, TableLength, HasTable, Words;
    hide ProcessorSignature, ProcessorFlags, Checksum;
    ghost var ws := Image(mem, p);
    ghost var base := Sum(ws) - ws[SIGNATURE] - ws[FLAGS] - ws[CHECKSUM];
    HeaderWords(mem, p);
    WrapThree(Sum(ws), ws[SIGNATURE], ws[FLAGS], ws[CHECKSUM]);
    WrapThree(base, ws[SIGNATURE], ws[FLAGS], ws[CHECKSUM]);
    var incomplete := CalculateImageSum(mem, p);
    incomplete := Wrap(incomplete - ProcessorSignature(mem, p));
    incomplete := Wrap(incomplete - ProcessorFlags(mem, p));
    incomplete := Wrap(incomplete - Checksum(mem, p));
    var checkSum := incomplete;
    checkSum := Wrap(checkSum + ProcessorSignature(mem, p));
    checkSum := Wrap(checkSum + ProcessorFlags(mem, p));
    checkSum := Wrap(checkSum + Checksum(mem, p));
    r := Report(checkSum, None);
    if !HasTable(mem, p) {
      return;
    }
    var tableSum := CalculateSum32(mem, TableAddress(mem, p), TableLength(mem, p));
    var entries := DumpEntries(mem, p, incomplete);
    r := Report(r.image, Some(ExtendedTable(tableSum, entries)));
  }

  /** The loop over the entries. */
  method DumpEntries(mem: Memory, p: nat, incomplete: dword) returns (entries: seq<dword>)
    requires var ws := Image(mem, p); incomplete == Wrap(Sum(ws) - ws[SIGNATURE] - ws[FLAGS] - ws[CHECKSUM])
    ensures AreEntryChecksums(mem, p, entries) && |entries| == EntryCount(mem, p)
  {
    hide Wrap, Sum, Image, ImageFor, ExtendedEntry, EntryCount;
    entries := [];
    while |entries| < EntryCount(mem, p)
      invariant |entries| <= EntryCount(mem, p) && AreEntryChecksums(mem, p, entries)
    {
      var e := ExtendedEntry(mem, p, |entries|);
      CompletedSum(Image(mem, p), e);
      var checkSum := incomplete;
      checkSum := Wrap(checkSum + e.signature);
      checkSum := Wrap(checkSum + e.flag);
      checkSum := Wrap(checkSum + e.checksum);
      entries := entries + [checkSum];
    }
  }

  method CalculateImageSum(mem: Memory, p: nat) returns (sum: dword)
    ensures sum == Wrap(Sum(Image(mem, p)))
  {
    sum := CalculateSum32(mem, p, ImageSize(mem, p));
  }

  lemma HeaderWords(mem: Memory, p: nat)
    ensures var ws := Image(mem, p);
      ws[SIGNATURE] == ProcessorSignature(mem, p) && ws[CHECKSUM] == Checksum(mem, p) &&
        ws[FLAGS] == ProcessorFlags(mem, p)
  {
  }

  // ---------- updates as they are written ----------

  /** Header and data; all fields are 32-bit words. */
  datatype Update = Update(headerVersion: dword, updateRevision: dword, date: dword, signature: dword,
    checksum: dword, loaderRevision: dword, flags: dword, dataSize: dword, totalSize: dword,
    reserved1: dword, reserved2: dword, reserved3: dword, data: seq<dword>)

  function UpdateWords(u: Update): (ws: seq<dword>)
    ensures |ws| == 12 + |u.data|
  {
    [u.headerVersion, u.updateRevision, u.date, u.signature, u.checksum, u.loaderRevision, u.flags, u.dataSize,
     u.totalSize, u.reserved1, u.reserved2, u.reserved3] + u.data
  }

  datatype SignatureTable = SignatureTable(checksum: dword, reserved1: dword, reserved2: dword, reserved3: dword,
    entries: seq<Entry>)

  function EntryWords(es: seq<Entry>): (ws: seq<dword>)
    ensures |ws| == 3 * |es|
  {
    if es == [] then [] else [es[0].signature, es[0].flag, es[0].checksum] + EntryWords(es[1..])
  }

  function TableWords(t: SignatureTable): (ws: seq<dword>)
    requires |t.entries| < UINT32
    ensures |ws| == 5 + 3 * |t.entries|
  {
    [|t.entries|, t.checksum, t.reserved1, t.reserved2, t.reserved3] + EntryWords(t.entries)
  }

  function EncodeWords(ws: seq<dword>): (bs: seq<byte>)
    ensures |bs| == 4 * |ws|
  {
    if ws == [] then [] else Encode32(ws[0]) + EncodeWords(ws[1..])
  }

  /** Memory holds the update at p, followed by its table. A data size of zero stands for 2000 bytes, and no table. */
  ghost predicate HoldsUpdate(mem: Memory, p: nat, u: Update, t: Option<SignatureTable>) {
    && u.dataSize % 4 == 0 && 4 * |u.data| == (if u.dataSize == 0 then 2000 else u.dataSize)
    && HoldsAt(mem, p, EncodeWords(UpdateWords(u)))
    && match t
       case None => u.dataSize == 0 || u.totalSize == u.dataSize + 48
       case Some(table) =>
         && u.dataSize != 0 && |table.entries| < UINT32 && u.totalSize == u.dataSize + 68 + 12 * |table.entries|
         && HoldsAt(mem, p + 48 + u.dataSize, EncodeWords(TableWords(table)))
  }

  /** The update as a processor with the entry's signature would have it. */
  function UpdateFor(u: Update, e: Entry): Update {
    u.(signature := e.signature, flags := e.flag, checksum := e.checksum)
  }

  /** The checksums of the update, of the table, and of the update for every entry of the table. */
  ghost predicate Reports(r: Report, u: Update, t: Option<SignatureTable>) {
    && r.image == Wrap(Sum(UpdateWords(u)))
    && match t
       case None => r.table == None
       case Some(table) =>
         && r.table.Some? && |table.entries| < UINT32
         && r.table.value.checksum == Wrap(Sum(TableWords(table)))
         && |r.table.value.entries| == |table.entries|
         && forall i :: 0 <= i < |table.entries| ==>
              r.table.value.entries[i] == Wrap(Sum(UpdateWords(UpdateFor(u, table.entries[i]))))
  }

  lemma {:induction false} WordIsRead(mem: Memory, p: nat, ws: seq<dword>, i: nat)
    requires HoldsAt(mem, p, EncodeWords(ws)) && i < |ws|
    ensures U32(mem, p + 4 * i) == ws[i]
    decreases i
  {
    hide HoldsAt, Encode32, U32;
    Lengths(0, ws[0]);
    HoldsAtConcat(mem, p, Encode32(ws[0]), EncodeWords(ws[1..]));
    if i == 0 {
      DecodeEncode32(mem, p, ws[0]);
    } else {
      WordIsRead(mem, p + 4, ws[1..], i - 1);
      assert p + 4 + 4 * (i - 1) == p + 4 * i;
    }
  }

  lemma WordsAt(mem: Memory, p: nat, n: nat)
    ensures |Words(mem, p, 4 * n)| == n && forall i :: 0 <= i < n ==> Words(mem, p, 4 * n)[i] == U32(mem, p + 4 * i)
  {
    hide U32;
  }

  lemma WordsAreRead(mem: Memory, p: nat, ws: seq<dword>)
    requires HoldsAt(mem, p, EncodeWords(ws))
    ensures Words(mem, p, 4 * |ws|) == ws
  {
    hide *;
    WordsAt(mem, p, |ws|);
    forall i | 0 <= i < |ws| ensures Words(mem, p, 4 * |ws|)[i] == ws[i] {
      WordIsRead(mem, p, ws, i);
    }
  }

  lemma UpdateIsRead(mem: Memory, p: nat, u: Update, t: Option<SignatureTable>)
    requires HoldsUpdate(mem, p, u, t)
    ensures Image(mem, p) == UpdateWords(u) && DataSize(mem, p) == u.dataSize && TotalSize(mem, p) == u.totalSize
  {
    hide HoldsAt, EncodeWords, U32, Words;
    WordIsRead(mem, p, UpdateWords(u), 7);
    WordIsRead(mem, p, UpdateWords(u), 8);
    WordsAreRead(mem, p, UpdateWords(u));
  }

  lemma {:induction false} EntryWord(es: seq<Entry>, i: nat)
    requires i < |es|
    ensures var ws := EntryWords(es);
      ws[3 * i] == es[i].signature && ws[3 * i + 1] == es[i].flag && ws[3 * i + 2] == es[i].checksum
    decreases i
  {
    if i > 0 {
      EntryWord(es[1..], i - 1);
    }
  }

  lemma EntryIsRead(mem: Memory, q: nat, t: SignatureTable, i: nat)
    requires |t.entries| < UINT32 && HoldsAt(mem, q, EncodeWords(TableWords(t))) && i < |t.entries|
    ensures EntryAt(mem, q + 20 + 12 * i) == t.entries[i]
  {
    var ws := TableWords(t);
    EntryWord(t.entries, i);
    assert ws[5 + 3 * i] == EntryWords(t.entries)[3 * i] && ws[6 + 3 * i] == EntryWords(t.entries)[3 * i + 1] &&
      ws[7 + 3 * i] == EntryWords(t.entries)[3 * i + 2];
    hide HoldsAt, EncodeWords, TableWords, EntryWords, U32;
    WordIsRead(mem, q, ws, 5 + 3 * i);
    WordIsRead(mem, q, ws, 6 + 3 * i);
    WordIsRead(mem, q, ws, 7 + 3 * i);
  }

  lemma TableIsRead(mem: Memory, p: nat, u: Update, t: Option<SignatureTable>)
    requires HoldsUpdate(mem, p, u, t)
    ensures HasTable(mem, p) <==> t.Some?
    ensures t.Some? ==> Words(mem, TableAddress(mem, p), TableLength(mem, p)) == TableWords(t.value)
    ensures t.Some? ==> EntryCount(mem, p) == |t.value.entries|
    ensures t.Some? ==> forall i :: 0 <= i < |t.value.entries| ==> ExtendedEntry(mem, p, i) == t.value.entries[i]
  {
    TablePlace(mem, p, u, t);
    hide *;
    if t.Some? {
      var q := p + 48 + u.dataSize;
      TableStart(mem, q, t.value);
      WordsAreRead(mem, q, TableWords(t.value));
      FieldsOfTable(mem, p);
      EntriesAreRead(mem, p, t.value);
    }
  }

  lemma EntriesAreRead(mem: Memory, p: nat, t: SignatureTable)
    requires |t.entries| < UINT32 && HoldsAt(mem, TableAddress(mem, p), EncodeWords(TableWords(t)))
    ensures forall i :: 0 <= i < |t.entries| ==> ExtendedEntry(mem, p, i) == t.entries[i]
  {
    hide *;
    forall i | 0 <= i < |t.entries| ensures ExtendedEntry(mem, p, i) == t.entries[i] {
      EntryIsRead(mem, TableAddress(mem, p), t, i);
      FieldsOfEntry(mem, p, i);
    }
  }

  lemma FieldsOfTable(mem: Memory, p: nat)
    ensures EntryCount(mem, p) == U32(mem, TableAddress(mem, p))
  {
  }

  lemma FieldsOfEntry(mem: Memory, p: nat, i: nat)
    ensures ExtendedEntry(mem, p, i) == EntryAt(mem, TableAddress(mem, p) + 20 + 12 * i)
  {
  }

  /** Where the table is, and how long. */
  lemma TablePlace(mem: Memory, p: nat, u: Update, t: Option<SignatureTable>)
    requires HoldsUpdate(mem, p, u, t)
    ensures HasTable(mem, p) <==> t.Some?
    ensures t.Some? ==>
      && |t.value.entries| < UINT32 && HoldsAt(mem, p + 48 + u.dataSize, EncodeWords(TableWords(t.value)))
      && TableAddress(mem, p) == p + 48 + u.dataSize && TableLength(mem, p) == 4 * |TableWords(t.value)|
  {
    UpdateIsRead(mem, p, u, t);
    hide HoldsAt, EncodeWords, U32, Words, DataSize, TotalSize, Image;
    if t.Some? {
      SmallModulo(20 + 12 * |t.value.entries|);
    } else if u.dataSize != 0 {
      SmallModulo(0);
    }
  }

  lemma SmallModulo(n: nat)
    requires n < UINTN
    ensures n % UINTN == n
  {
  }

  lemma TableStart(mem: Memory, q: nat, t: SignatureTable)
    requires |t.entries| < UINT32 && HoldsAt(mem, q, EncodeWords(TableWords(t)))
    ensures U32(mem, q) == |t.entries|
  {
    hide HoldsAt, EncodeWords, U32;
    WordIsRead(mem, q, TableWords(t), 0);
  }

  lemma ImageForEntry(u: Update, e: Entry)
    ensures ImageFor(UpdateWords(u), e) == UpdateWords(UpdateFor(u, e))
  {
  }

  /** What is reported for an update that was written. */
  lemma UpdateReported(mem: Memory, p: nat, u: Update, t: Option<SignatureTable>, r: Report)
    requires HoldsUpdate(mem, p, u, t) && r.image == Wrap(Sum(Image(mem, p))) && (r.table.Some? <==> HasTable(mem, p))
    requires r.table.Some? ==>
      r.table.value.checksum == Wrap(Sum(Words(mem, TableAddress(mem, p), TableLength(mem, p))))
    requires r.table.Some? ==>
      AreEntryChecksums(mem, p, r.table.value.entries) && |r.table.value.entries| == EntryCount(mem, p)
    ensures Reports(r, u, t)
  {
    UpdateIsRead(mem, p, u, t);
    TableIsRead(mem, p, u, t);
    hide HoldsAt, EncodeWords, Words, Image, HasTable, Sum, Wrap, ImageFor, UpdateWords, TableWords, ExtendedEntry;
    hide EntryCount, TableAddress, TableLength, DataSize, TotalSize;
    if t.Some? {
      forall i | 0 <= i < |t.value.entries|
        ensures r.table.value.entries[i] == Wrap(Sum(UpdateWords(UpdateFor(u, t.value.entries[i]))))
      {
        assert IsChecksumFor(mem, p, i, r.table.value.entries[i]);
        ImageForEntry(u, t.value.entries[i]);
      }
    }
  }
}
