/**
 * The PIO data-in protocol against an arbitrary device: what a register read yields may depend on all that happened
 * before.
 */
module AtaPio {
  import opened Memory
  import opened Options

  datatype Register =
    | Status | AltStatus | Error | Head | Feature
    | SectorCount | SectorNumber | CylinderLsb | CylinderMsb | Command

  /** One access to the device, with what was read or written. */
  datatype Access = Read(reg: Register, value: byte) | Write(reg: Register, value: byte) | Data(words: seq<word>)

  // ---------- bits of the status and error registers ----------

  predicate Bsy(v: byte) { v >= 0x80 }
  predicate Drdy(v: byte) { v / 0x40 % 2 == 1 }
  predicate Dwf(v: byte) { v / 0x20 % 2 == 1 }
  predicate Drq(v: byte) { v / 8 % 2 == 1 }
  predicate Corr(v: byte) { v / 4 % 2 == 1 }
  predicate Err(v: byte) { v % 2 == 1 }
  predicate AbrtErr(v: byte) { v / 4 % 2 == 1 }

  /** What the polling loops wait for. */
  datatype Condition = NotBusy | NoRequest | DataRequest | DriveReady

  predicate Meets(v: byte, c: Condition) {
    !Bsy(v) && match c
      case NotBusy => true
      case NoRequest => !Drq(v)
      case DataRequest => Drq(v)
      case DriveReady => Drdy(v)
  }

  /** Bits 7 and 5 are reserved, bit 6 selects LBA mode. */
  function HeadRegister(device: bv8, head: bv8): byte {
    ((device << 4) | 0xE0 | head) as int
  }

  /** Polls before a timeout of one second: one every 30 microseconds, and one more. */
  const DELAY: nat := 1000 * 1000 / 30 + 1

  /** Words of one series of reads. */
  const BLOCK: nat := 256

  datatype Outcome = Success | Timeout | Aborted

  /** A register by its bits, the highest first. */
  function OfBits(b7: bool, b6: bool, b5: bool, b4: bool, b3: bool, b2: bool, b1: bool, b0: bool): byte {
    (if b7 then 128 else 0) + (if b6 then 64 else 0) + (if b5 then 32 else 0) + (if b4 then 16 else 0) +
    (if b3 then 8 else 0) + (if b2 then 4 else 0) + (if b1 then 2 else 0) + if b0 then 1 else 0
  }

  lemma HalfOf(n: nat, q: nat, b: bool)
    requires n == 2 * q + if b then 1 else 0
    ensures n / 2 == q && (n % 2 == 1 <==> b)
  {
  }

  lemma Quotients(v: nat)
    ensures v / 2 / 2 == v / 4 && v / 4 / 2 == v / 8 && v / 8 / 2 == v / 0x10
    ensures v / 0x10 / 2 == v / 0x20 && v / 0x20 / 2 == v / 0x40
  {
  }

  /** Which bits of the status register a wait and the error check look at, and which bit of the error register. */
  lemma RegisterBits(b7: bool, b6: bool, b5: bool, b4: bool, b3: bool, b2: bool, b1: bool, b0: bool)
    ensures var v := OfBits(b7, b6, b5, b4, b3, b2, b1, b0);
      && (Meets(v, NotBusy) <==> !b7) && (Meets(v, NoRequest) <==> !b7 && !b3)
      && (Meets(v, DataRequest) <==> !b7 && b3) && (Meets(v, DriveReady) <==> !b7 && b6)
      && (NoError(Read(Status, v)) <==> !b0 && !b2 && !b5)
      && (SeesError(Read(Status, v), Status) <==> !b7 && b0) && (SeesAbort(Read(Error, v)) <==> b2)
      && (DataReady(Read(AltStatus, v)) <==> !b7 && b3) && (Idle(Read(AltStatus, v)) <==> !b7 && !b3)
  {
    BitsOf(b7, b6, b5, b4, b3, b2, b1, b0);
    hide OfBits;
  }

  lemma BitsOf(b7: bool, b6: bool, b5: bool, b4: bool, b3: bool, b2: bool, b1: bool, b0: bool)
    ensures var v := OfBits(b7, b6, b5, b4, b3, b2, b1, b0);
      && (v >= 0x80 <==> b7) && (v / 0x40 % 2 == 1 <==> b6) && (v / 0x20 % 2 == 1 <==> b5)
      && (v / 8 % 2 == 1 <==> b3) && (v / 4 % 2 == 1 <==> b2) && (v % 2 == 1 <==> b0)
  {
    var v := OfBits(b7, b6, b5, b4, b3, b2, b1, b0);
    var q6 := (if b7 then 2 else 0) + if b6 then 1 else 0;
    var q5 := 2 * q6 + if b5 then 1 else 0;
    var q4 := 2 * q5 + if b4 then 1 else 0;
    var q3 := 2 * q4 + if b3 then 1 else 0;
    var q2 := 2 * q3 + if b2 then 1 else 0;
    var q1 := 2 * q2 + if b1 then 1 else 0;
    assert v == 2 * q1 + if b0 then 1 else 0;
    hide OfBits;
    Quotients(v);
    HalfOf(v, q1, b0);
    HalfOf(q1, q2, b1);
    HalfOf(q2, q3, b2);
    HalfOf(q3, q4, b3);
    HalfOf(q4, q5, b4);
    HalfOf(q5, q6, b5);
    HalfOf(q6, if b7 then 1 else 0, b6);
  }

  /** The drive number is bit 4. */
  lemma HeadRegisterBits(device: bv8, head: bv8)
    requires device <= 1 && head <= 15
    ensures HeadRegister(device, head) == 0xE0 + (if device == 1 then 16 else 0) + head as int
  {
    assert device == 0 || device == 1;
    assert device == 0 ==> ((device << 4) | 0xE0 | head) == 0xE0 + head;
    assert device == 1 ==> ((device << 4) | 0xE0 | head) == 0xF0 + head;
    assert (0xE0 as bv8) + head >= 0xE0 && (0xF0 as bv8) + head >= 0xF0;
  }

  // ---------- traces ----------

  predicate Sees(a: Access, reg: Register, c: Condition) {
    a.Read? && a.reg == reg && Meets(a.value, c)
  }

  predicate SeesError(a: Access, reg: Register) {
    a.Read? && a.reg == reg && !Bsy(a.value) && Err(a.value)
  }

  predicate SeesAbort(a: Access) {
    a.Read? && a.reg == Error && AbrtErr(a.value)
  }

  /** Ready to transfer, free of errors, idle. */
  predicate DataReady(a: Access) { Sees(a, AltStatus, DataRequest) }
  predicate NoError(a: Access) { a.Read? && a.reg == Status && !Err(a.value) && !Dwf(a.value) && !Corr(a.value) }
  predicate Idle(a: Access) { Sees(a, AltStatus, NoRequest) }

  /** A device: its answer to a register read, given all accesses before it. */
  type Answers = (seq<Access>, Register) -> byte

  /** The trace is one of the device. */
  ghost predicate Answered(answers: Answers, t: seq<Access>) {
    forall i :: 0 <= i < |t| && t[i].Read? ==> t[i].value == answers(t[..i], t[i].reg)
  }

  lemma AnsweredMore(answers: Answers, t: seq<Access>, a: Access)
    requires Answered(answers, t) && (a.Read? ==> a.value == answers(t, a.reg))
    ensures Answered(answers, t + [a])
  {
    forall i | 0 <= i < |t + [a]| && (t + [a])[i].Read?
      ensures (t + [a])[i].value == answers((t + [a])[..i], (t + [a])[i].reg)
    {
      assert (t + [a])[..i] == t[..i];
      assert t[..|t|] == t;
    }
  }

  /** Every transfer comes right after the device was seen ready for it and then free of errors. */
  ghost predicate Guarded(t: seq<Access>) {
    forall i :: 0 <= i < |t| && t[i].Data? ==> i >= 2 && DataReady(t[i - 2]) && NoError(t[i - 1])
  }

  /** All words transferred. */
  function Received(t: seq<Access>): seq<word> {
    if t == [] then [] else Received(t[..|t| - 1]) + (if t[|t| - 1].Data? then t[|t| - 1].words else [])
  }

  ghost predicate ReadsOnly(t: seq<Access>) {
    forall a :: a in t ==> a.Read?
  }

  lemma {:induction false} ReceivedConcat(s: seq<Access>, t: seq<Access>)
    ensures Received(s + t) == Received(s) + Received(t)
    decreases |t|
  {
    if t == [] {
      assert s + t == s;
    } else {
      var init := t[..|t| - 1];
      ReceivedConcat(s, init);
      assert (s + t)[|s + t| - 1] == t[|t| - 1];
      assert (s + t)[..|s + t| - 1] == s + init;
    }
  }

  lemma {:induction false} ReceivedNothing(t: seq<Access>)
    requires forall a :: a in t ==> !a.Data?
    ensures Received(t) == []
  {
    if t != [] {
      assert t[|t| - 1] in t;
      ReceivedNothing(t[..|t| - 1]);
    }
  }

  lemma GuardedConcat(s: seq<Access>, t: seq<Access>)
    requires Guarded(s) && Guarded(t)
    ensures Guarded(s + t)
  {
    forall i | 0 <= i < |s + t| && (s + t)[i].Data?
      ensures i >= 2 && DataReady((s + t)[i - 2]) && NoError((s + t)[i - 1])
    {
      if i >= |s| {
        assert t[i - |s|].Data?;
      }
    }
  }

  lemma ReadsConcat(s: seq<Access>, t: seq<Access>)
    requires ReadsOnly(s) && ReadsOnly(t)
    ensures ReadsOnly(s + t)
  {
  }

  /** The parameter registers and then the command, without a pause. */
  datatype Parameters = Parameters(command: byte, head: bv8, feature: byte, sectorCount: byte, sectorNumber: byte,
    cylinderLsb: byte, cylinderMsb: byte)

  function CommandBlock(p: Parameters): seq<Access> {
    [Write(SectorCount, p.sectorCount), Write(SectorNumber, p.sectorNumber), Write(CylinderLsb, p.cylinderLsb),
     Write(CylinderMsb, p.cylinderMsb), Write(Feature, p.feature), Write(Command, p.command)]
  }

  /**
   * The drive is selected once it was seen not busy; reads follow, the last of which sees it idle, and then the
   * command.
   */
  ghost predicate Commanded(t: seq<Access>, device: bv8, hardDisk: bool, p: Parameters) {
    exists before, between :: t == before + [Write(Head, HeadRegister(device, p.head))] + between + CommandBlock(p) &&
      IsSelection(before, between, hardDisk)
  }

  ghost predicate IsSelection(before: seq<Access>, between: seq<Access>, hardDisk: bool) {
    && ReadsOnly(before) && before != [] && Sees(before[|before| - 1], Status, NotBusy)
    && ReadsOnly(between) && between != [] && Idle(between[|between| - 1])
    && (hardDisk ==> exists a :: a in between && Sees(a, Status, DriveReady))
  }

  /** What was last written to a register. */
  function LastWritten(t: seq<Access>, reg: Register): Option<byte> {
    if t == [] then None
    else
      var a := t[|t| - 1];
      if a.Write? && a.reg == reg then Some(a.value) else LastWritten(t[..|t| - 1], reg)
  }

  /** When the command is written, every parameter is in its register. */
  ghost predicate Programmed(t: seq<Access>, device: bv8, p: Parameters) {
    && t != [] && t[|t| - 1] == Write(Command, p.command)
    && LastWritten(t, Head) == Some(HeadRegister(device, p.head))
    && LastWritten(t, Feature) == Some(p.feature)
    && LastWritten(t, SectorCount) == Some(p.sectorCount) && LastWritten(t, SectorNumber) == Some(p.sectorNumber)
    && LastWritten(t, CylinderLsb) == Some(p.cylinderLsb) && LastWritten(t, CylinderMsb) == Some(p.cylinderMsb)
  }

  lemma LastWrittenStep(t: seq<Access>, a: Access, reg: Register)
    ensures LastWritten(t + [a], reg) == if a.Write? && a.reg == reg then Some(a.value) else LastWritten(t, reg)
  {
    assert (t + [a])[..|t|] == t && (t + [a])[|t|] == a;
  }

  lemma {:induction false} LastWrittenReads(s: seq<Access>, t: seq<Access>, reg: Register)
    requires ReadsOnly(t)
    ensures LastWritten(s + t, reg) == LastWritten(s, reg)
    decreases |t|
  {
    if t == [] {
      assert s + t == s;
    } else {
      var init := t[..|t| - 1];
      assert t[|t| - 1] in t && s + t == s + init + [t[|t| - 1]];
      LastWrittenReads(s, init, reg);
      LastWrittenStep(s + init, t[|t| - 1], reg);
    }
  }

  lemma BlockWritten(t: seq<Access>, p: Parameters, reg: Register)
    ensures LastWritten(t + CommandBlock(p), reg) ==
      match reg
      case SectorCount => Some(p.sectorCount)
      case SectorNumber => Some(p.sectorNumber)
      case CylinderLsb => Some(p.cylinderLsb)
      case CylinderMsb => Some(p.cylinderMsb)
      case Feature => Some(p.feature)
      case Command => Some(p.command)
      case _ => LastWritten(t, reg)
  {
    var b := CommandBlock(p);
    hide LastWritten;
    LastWrittenStep(t, b[0], reg);
    LastWrittenStep(t + [b[0]], b[1], reg);
    LastWrittenStep(t + [b[0]] + [b[1]], b[2], reg);
    LastWrittenStep(t + [b[0]] + [b[1]] + [b[2]], b[3], reg);
    LastWrittenStep(t + [b[0]] + [b[1]] + [b[2]] + [b[3]], b[4], reg);
    LastWrittenStep(t + [b[0]] + [b[1]] + [b[2]] + [b[3]] + [b[4]], b[5], reg);
    assert t + b == t + [b[0]] + [b[1]] + [b[2]] + [b[3]] + [b[4]] + [b[5]];
  }

  /** A command that was issued as described has programmed the drive. */
  lemma CommandedIsProgrammed(t: seq<Access>, device: bv8, hardDisk: bool, p: Parameters)
    requires Commanded(t, device, hardDisk, p)
    ensures Programmed(t, device, p)
  {
    var before, between :| t == before + [Write(Head, HeadRegister(device, p.head))] + between + CommandBlock(p) &&
      IsSelection(before, between, hardDisk);
    var head := Write(Head, HeadRegister(device, p.head));
    var selected := before + [head] + between;
    assert t[|t| - 1] == CommandBlock(p)[5];
    hide LastWritten, CommandBlock;
    LastWrittenStep(before, head, Head);
    LastWrittenReads(before + [head], between, Head);
    BlockWritten(selected, p, Head);
    BlockWritten(selected, p, Feature);
    BlockWritten(selected, p, SectorCount);
    BlockWritten(selected, p, SectorNumber);
    BlockWritten(selected, p, CylinderLsb);
    BlockWritten(selected, p, CylinderMsb);
  }

  /** No access of the trace ends a polling loop. */
  ghost predicate Missed(t: seq<Access>, reg: Register, c: Condition) {
    forall i :: 0 <= i < |t| ==> !Sees(t[i], reg, c) && !SeesAbort(t[i])
  }

  /** Whenever the status shows an error, and not what is waited for, the error register is read next. */
  ghost predicate Examined(t: seq<Access>, reg: Register, c: Condition) {
    forall i :: 0 <= i < |t| && SeesError(t[i], reg) && !Sees(t[i], reg, c) ==>
      i + 1 < |t| && t[i + 1].Read? && t[i + 1].reg == Error
  }

  lemma ExaminedConcat(s: seq<Access>, t: seq<Access>, reg: Register, c: Condition)
    requires Examined(s, reg, c) && Examined(t, reg, c)
    ensures Examined(s + t, reg, c)
  {
    hide Sees, SeesError;
    forall i | 0 <= i < |s + t| && SeesError((s + t)[i], reg) && !Sees((s + t)[i], reg, c)
      ensures i + 1 < |s + t| && (s + t)[i + 1].Read? && (s + t)[i + 1].reg == Error
    {
      if i >= |s| {
        assert (s + t)[i] == t[i - |s|];
      }
    }
  }

  lemma ExaminedRound(reg: Register, c: Condition, value: byte, error: byte)
    requires reg != Error
    ensures Meets(value, c) || Bsy(value) || !Err(value) ==> Examined([Read(reg, value)], reg, c)
    ensures Examined([Read(reg, value), Read(Error, error)], reg, c)
  {
    hide Meets, Bsy, Err;
  }

  /** What one round of a polling loop reads, and what comes of it. */
  ghost predicate IsRound(t: seq<Access>, reg: Register, c: Condition, aborts: bool, outcome: Option<Outcome>) {
    IsLastRound(t, reg, c, aborts, outcome) && Missed(t[..|t| - 1], reg, c)
  }

  /** A whole polling loop, or as much of it as has run: all missed but the last round, which ends as said. */
  ghost predicate IsPoll(t: seq<Access>, reg: Register, c: Condition, aborts: bool, outcome: Option<Outcome>) {
    ReadsOnly(t) && IsRound(t, reg, c, aborts, outcome)
  }

  lemma OneMoreRound(t: seq<Access>, more: seq<Access>, reg: Register, c: Condition, aborts: bool,
        outcome: Option<Outcome>)
    requires t == [] || IsPoll(t, reg, c, aborts, None)
    requires IsPoll(more, reg, c, aborts, outcome)
    ensures IsPoll(t + more, reg, c, aborts, outcome)
  {
    hide Sees, SeesAbort, SeesError;
    assert (t + more)[..|t + more| - 1] == t + more[..|more| - 1];
    if t != [] {
      assert t == t[..|t| - 1] + [t[|t| - 1]];
    }
    MissedConcat(t, more[..|more| - 1], reg, c);
    LastRound(t, more, reg, c, aborts, outcome);
  }

  lemma PollEnds(t: seq<Access>, reg: Register, c: Condition, aborts: bool, outcome: Option<Outcome>)
    requires IsPoll(t, reg, c, aborts, outcome)
    ensures t != [] && outcome != Some(Timeout)
  {
  }

  lemma MissedConcat(s: seq<Access>, t: seq<Access>, reg: Register, c: Condition)
    requires Missed(s, reg, c) && Missed(t, reg, c)
    ensures Missed(s + t, reg, c)
  {
    hide Sees, SeesAbort;
  }

  lemma LastRound(t: seq<Access>, more: seq<Access>, reg: Register, c: Condition, aborts: bool,
        outcome: Option<Outcome>)
    requires IsLastRound(more, reg, c, aborts, outcome)
    ensures IsLastRound(t + more, reg, c, aborts, outcome)
  {
    hide Sees, SeesAbort, SeesError;
  }

  /** How a round ends, by its last reads. */
  ghost predicate IsLastRound(t: seq<Access>, reg: Register, c: Condition, aborts: bool, outcome: Option<Outcome>) {
    && t != []
    && (outcome == Some(Success) <==> Sees(t[|t| - 1], reg, c))
    && (outcome == Some(Aborted) <==> SeesAbort(t[|t| - 1]))
    && (outcome == Some(Aborted) ==> aborts && |t| >= 2 && SeesError(t[|t| - 2], reg))
    && outcome != Some(Timeout)
  }

  /** How often a register was read. */
  function Rounds(t: seq<Access>, reg: Register): nat {
    if t == [] then 0
    else Rounds(t[..|t| - 1], reg) + if t[|t| - 1].Read? && t[|t| - 1].reg == reg then 1 else 0
  }

  lemma {:induction false} RoundsConcat(s: seq<Access>, t: seq<Access>, reg: Register)
    ensures Rounds(s + t, reg) == Rounds(s, reg) + Rounds(t, reg)
    decreases |t|
  {
    if t == [] {
      assert s + t == s;
    } else {
      RoundsConcat(s, t[..|t| - 1], reg);
      assert (s + t)[..|s + t| - 1] == s + t[..|t| - 1] && (s + t)[|s + t| - 1] == t[|t| - 1];
    }
  }

  lemma {:induction false} RoundsSeen(t: seq<Access>, reg: Register) returns (i: nat)
    requires Rounds(t, reg) > 0
    ensures i < |t| && t[i].Read? && t[i].reg == reg
  {
    i := |t| - 1;
    if !(t[i].Read? && t[i].reg == reg) {
      i := RoundsSeen(t[..i], reg);
    }
  }

  lemma RoundsOfRound(reg: Register, value: byte, error: byte)
    requires reg != Error
    ensures Rounds([Read(reg, value)], reg) == 1 && Rounds([Read(reg, value), Read(Error, error)], reg) == 1
  {
    var one := [Read(reg, value)];
    assert one[..0] == [] && [Read(reg, value), Read(Error, error)][..1] == one;
  }

  /** A polling loop that was aborted, or that failed in each of its DELAY rounds. */
  ghost predicate FailedPoll(t: seq<Access>, reg: Register, c: Condition) {
    || IsPoll(t, reg, c, true, Some(Aborted))
    || (IsPoll(t, reg, c, true, None) && Rounds(t, reg) == DELAY)
  }

  /** The last thing that happened was such a polling loop. */
  ghost predicate GaveUp(t: seq<Access>, reg: Register, c: Condition) {
    exists i :: 0 <= i <= |t| && FailedPoll(t[i..], reg, c)
  }

  /** The last access saw an error. */
  ghost predicate SawFault(t: seq<Access>) {
    t != [] && t[|t| - 1].Read? && t[|t| - 1].reg == Status && !NoError(t[|t| - 1])
  }

  lemma GaveUpLater(s: seq<Access>, t: seq<Access>, reg: Register, c: Condition)
    requires FailedPoll(t, reg, c)
    ensures GaveUp(s + t, reg, c)
  {
    assert (s + t)[|s|..] == t;
  }

  lemma GaveUpStill(s: seq<Access>, t: seq<Access>, reg: Register, c: Condition)
    requires GaveUp(t, reg, c)
    ensures GaveUp(s + t, reg, c)
  {
    var i :| 0 <= i <= |t| && FailedPoll(t[i..], reg, c);
    assert (s + t)[|s| + i..] == t[i..];
  }

  /** Why the command was not issued. */
  ghost predicate SelectionFailed(t: seq<Access>, hardDisk: bool) {
    || GaveUp(t, Status, NotBusy)
    || (hardDisk && GaveUp(t, Status, DriveReady))
    || GaveUp(t, AltStatus, NoRequest)
  }

  /** Why the data did not all come. */
  ghost predicate TransferFailed(t: seq<Access>) {
    GaveUp(t, AltStatus, DataRequest) || SawFault(t)
  }

  lemma TransferFailedStill(s: seq<Access>, t: seq<Access>)
    requires TransferFailed(t)
    ensures TransferFailed(s + t)
  {
    hide FailedPoll, GaveUp;
    if GaveUp(t, AltStatus, DataRequest) {
      GaveUpStill(s, t, AltStatus, DataRequest);
    }
  }

  lemma RoundOfOne(reg: Register, c: Condition, aborts: bool, value: byte)
    requires reg != Error
    ensures IsRound([Read(reg, value)], reg, c, aborts, if Meets(value, c) then Some(Success) else None)
  {
    hide Meets, AbrtErr;
  }

  lemma RoundOfTwo(reg: Register, c: Condition, value: byte, error: byte)
    requires reg != Error && !Meets(value, c) && !Bsy(value) && Err(value)
    ensures IsRound([Read(reg, value), Read(Error, error)], reg, c, true,
                    if AbrtErr(error) then Some(Aborted) else None)
  {
    hide Meets, AbrtErr, Bsy, Err;
    assert [Read(reg, value), Read(Error, error)][..1] == [Read(reg, value)];
  }

  /** Series of reads for so many words. */
  function Blocks(words: nat): nat {
    (words + BLOCK - 1) / BLOCK
  }

  lemma NextBlock(words: nat, count: nat)
    requires words < count && words % BLOCK == 0
    ensures Blocks(if words + BLOCK > count then count else words + BLOCK) == Blocks(words) + 1
    ensures Blocks(words) + 1 <= Blocks(count)
  {
  }

  lemma NoBlocks()
    ensures Blocks(0) == 0
  {
  }

  lemma NoReads()
    ensures ReadsOnly([])
  {
  }

  /**
   * The accesses of a transfer: guarded, no command among them, and what they moved is what changed in the buffer at
   * start.
   */
  ghost predicate Transfers(t: seq<Access>, start: nat, before: seq<word>, after: seq<word>) {
    var got := Received(t);
    && Guarded(t) && (forall a :: a in t ==> !a.Write?)
    && start + |got| <= |before| && after == before[..start] + got + before[start + |got|..]
  }

  /** A block stored behind what is stored already. */
  lemma TransferMore(t: seq<Access>, more: seq<Access>, original: seq<word>, before: seq<word>, after: seq<word>)
    requires Transfers(t, 0, original, before) && Transfers(more, |Received(t)|, before, after)
    ensures Transfers(t + more, 0, original, after) && |Received(t + more)| == |Received(t)| + |Received(more)|
  {
    hide Guarded, Received;
    ReceivedConcat(t, more);
    GuardedConcat(t, more);
    var got := Received(t);
    assert before[..|got|] == got;
    assert before[|got| + |Received(more)|..] == original[|got| + |Received(more)|..];
  }

  lemma NoTransfer(t: seq<Access>, start: nat, before: seq<word>)
    requires ReadsOnly(t) && start <= |before|
    ensures Transfers(t, start, before, before) && Received(t) == []
  {
    ReceivedNothing(t);
    assert before == before[..start] + before[start..];
  }

  lemma OneTransfer(polls: seq<Access>, check: seq<Access>, words: seq<word>, start: nat, before: seq<word>)
    requires ReadsOnly(polls) && polls != [] && DataReady(polls[|polls| - 1])
    requires ReadsOnly(check) && |check| == 1 && NoError(check[0])
    requires start + |words| <= |before|
    ensures Transfers(polls + check + [Data(words)], start, before, before[..start] + words + before[start + |words|..])
    ensures Received(polls + check + [Data(words)]) == words
  {
    hide DataReady, NoError, ReadsOnly, Guarded, Received;
    OneGuarded(polls, check, Data(words));
    OneReceived(polls + check, words);
  }

  lemma OneGuarded(polls: seq<Access>, check: seq<Access>, last: Access)
    requires ReadsOnly(polls) && polls != [] && DataReady(polls[|polls| - 1])
    requires ReadsOnly(check) && |check| == 1 && NoError(check[0])
    requires last.Data?
    ensures Guarded(polls + check + [last]) && ReadsOnly(polls + check)
    ensures forall a :: a in polls + check + [last] ==> !a.Write?
  {
    hide DataReady, NoError;
    var t := polls + check + [last];
    assert t[|t| - 3] == polls[|polls| - 1] && t[|t| - 2] == check[0];
    assert forall i :: 0 <= i < |t| - 1 ==> t[i] in polls + check;
  }

  lemma OneReceived(t: seq<Access>, words: seq<word>)
    requires ReadsOnly(t)
    ensures Received(t + [Data(words)]) == words
  {
    ReceivedNothing(t);
    assert (t + [Data(words)])[..|t|] == t;
  }

  class IdeDev {
    const device: bv8
    const hardDisk: bool
    const answers: Answers
    var trace: seq<Access>
    ghost var stalls: nat

    ghost predicate Valid()
      reads this`trace
    {
      Answered(answers, trace)
    }

    constructor (device: bv8, hardDisk: bool, answers: Answers)
      ensures this.device == device && this.hardDisk == hardDisk && this.answers == answers
      ensures Valid() && trace == [] && stalls == 0
    {
      this.device, this.hardDisk, this.answers := device, hardDisk, answers;
      trace, stalls := [], 0;
    }

    // ---------- port access ----------

    method ReadPortB(reg: Register) returns (value: byte)
      requires Valid()
      modifies this
      ensures Valid() && trace == old(trace) + [Read(reg, value)] && stalls == old(stalls)
    {
      value := answers(trace, reg);
      AnsweredMore(answers, trace, Read(reg, value));
      trace := trace + [Read(reg, value)];
    }

    method WritePortB(reg: Register, value: byte)
      requires Valid()
      modifies this
      ensures Valid() && trace == old(trace) + [Write(reg, value)] && stalls == old(stalls)
    {
      AnsweredMore(answers, trace, Write(reg, value));
      trace := trace + [Write(reg, value)];
    }

    /** The words are any; what is read is what is stored. */
    method ReadPortWMultiple(buffer: array<word>, start: nat, count: nat) returns (words: seq<word>)
      requires Valid() && start + count <= buffer.Length
      modifies this, buffer
      ensures Valid() && |words| == count && trace == old(trace) + [Data(words)] && stalls == old(stalls)
      ensures buffer[..] == old(buffer[..start]) + words + old(buffer[start + count..])
    {
      words := [];
      var n := 0;
      while n < count
        invariant n <= count && |words| == n && unchanged(this)
        invariant buffer[..] == old(buffer[..start]) + words + old(buffer[start + n..])
      {
        var w: word := *;
        buffer[start + n] := w;
        words := words + [w];
        n := n + 1;
      }
      AnsweredMore(answers, trace, Data(words));
      trace := trace + [Data(words)];
    }

    method Stall()
      modifies this`stalls
      ensures stalls == old(stalls) + 1
    {
      stalls := stalls + 1;
    }

    // ---------- polling ----------

    /** One round of the polling loop: the status register, and after an error the error register. */
    method PollOnce(reg: Register, c: Condition, aborts: bool) returns (outcome: Option<Outcome>, ghost t: seq<Access>)
      requires Valid() && (reg == Status || reg == AltStatus)
      modifies this
      ensures Valid() && trace == old(trace) + t && stalls == old(stalls)
      ensures IsPoll(t, reg, c, aborts, outcome) && Rounds(t, reg) == 1
      ensures aborts ==> Examined(t, reg, c)
    {
      hide IsRound, Meets, AbrtErr, Bsy, Err, Rounds, Answered, Examined;
      var value := ReadPortB(reg);
      t := [Read(reg, value)];
      RoundOfOne(reg, c, aborts, value);
      RoundsOfRound(reg, value, 0);
      ExaminedRound(reg, c, value, 0);
      if Meets(value, c) {
        return Some(Success), t;
      }
      if aborts && !Bsy(value) && Err(value) {
        var error := ReadPortB(Error);
        t := [Read(reg, value), Read(Error, error)];
        RoundOfTwo(reg, c, value, error);
        RoundsOfRound(reg, value, error);
        ExaminedRound(reg, c, value, error);
        if AbrtErr(error) {
          return Some(Aborted), t;
        }
      }
      return None, t;
    }

    /**
     * The polling loop the five functions below share: reads a status register until the masked value is the wanted
     * one, an aborted command is reported (if that is looked at), or DELAY rounds have failed.
     */
    method Poll(reg: Register, c: Condition, aborts: bool) returns (outcome: Outcome, ghost t: seq<Access>)
      requires Valid() && (reg == Status || reg == AltStatus)
      modifies this
      ensures Valid() && trace == old(trace) + t
      ensures IsPoll(t, reg, c, aborts, if outcome == Timeout then None else Some(outcome))
      ensures Rounds(t, reg) <= 33334 && (outcome == Timeout ==> Rounds(t, reg) == 33334)
      ensures aborts ==> Examined(t, reg, c)
      ensures if outcome == Timeout then stalls == old(stalls) + DELAY else old(stalls) <= stalls < old(stalls) + DELAY
    {
      hide IsPoll, Rounds, Valid, Sees, SeesError;
      t := [];
      var delay := DELAY;
      NoRounds(reg);
      while delay > 0
        invariant Valid() && stalls + delay == old(stalls) + DELAY && Rounds(t, reg) + delay == DELAY
        invariant trace == old(trace) + t
        invariant if t == [] then delay > 0 else IsPoll(t, reg, c, aborts, None)
        invariant aborts ==> Examined(t, reg, c)
        decreases delay
      {
        var round;
        ghost var more;
        round, more := PollOnce(reg, c, aborts);
        OneMoreRound(t, more, reg, c, aborts, round);
        RoundsConcat(t, more, reg);
        if aborts {
          ExaminedConcat(t, more, reg, c);
        }
        t := t + more;
        PollEnds(t, reg, c, aborts, round);
        if round.Some? {
          return round.value, t;
        }
        Stall();
        delay := delay - 1;
      }
      return Timeout, t;
    }

    method DRQClear() returns (outcome: Outcome, ghost t: seq<Access>)
      requires Valid()
      modifies this
      ensures Valid() && trace == old(trace) + t && ReadsOnly(t) && old(stalls) <= stalls <= old(stalls) + DELAY
      ensures t != [] && (outcome == Success <==> Sees(t[|t| - 1], Status, NoRequest)) &&
        (outcome == Aborted <==> SeesAbort(t[|t| - 1]))
      ensures outcome == Timeout ==> Rounds(t, Status) == 33334
      ensures outcome != Success ==> FailedPoll(t, Status, NoRequest)
      ensures Examined(t, Status, NoRequest)
    {
      outcome, t := Poll(Status, NoRequest, true);
    }

    method DRQClear2() returns (outcome: Outcome, ghost t: seq<Access>)
      requires Valid()
      modifies this
      ensures Valid() && trace == old(trace) + t && ReadsOnly(t) && old(stalls) <= stalls <= old(stalls) + DELAY
      ensures t != [] && (outcome == Success <==> Idle(t[|t| - 1])) &&
        (outcome == Aborted <==> SeesAbort(t[|t| - 1]))
      ensures outcome == Timeout ==> Rounds(t, AltStatus) == 33334
      ensures outcome != Success ==> FailedPoll(t, AltStatus, NoRequest)
      ensures Examined(t, AltStatus, NoRequest)
    {
      outcome, t := Poll(AltStatus, NoRequest, true);
    }

    method DRQReady2() returns (outcome: Outcome, ghost t: seq<Access>)
      requires Valid()
      modifies this
      ensures Valid() && trace == old(trace) + t && ReadsOnly(t) && old(stalls) <= stalls <= old(stalls) + DELAY
      ensures t != [] && (outcome == Success <==> DataReady(t[|t| - 1])) &&
        (outcome == Aborted <==> SeesAbort(t[|t| - 1]))
      ensures outcome == Timeout ==> Rounds(t, AltStatus) == 33334
      ensures outcome != Success ==> FailedPoll(t, AltStatus, DataRequest)
      ensures Examined(t, AltStatus, DataRequest)
    {
      outcome, t := Poll(AltStatus, DataRequest, true);
    }

    method DRDYReady() returns (outcome: Outcome, ghost t: seq<Access>)
      requires Valid()
      modifies this
      ensures Valid() && trace == old(trace) + t && ReadsOnly(t) && old(stalls) <= stalls <= old(stalls) + DELAY
      ensures t != [] && (outcome == Success <==> Sees(t[|t| - 1], Status, DriveReady)) &&
        (outcome == Aborted <==> SeesAbort(t[|t| - 1]))
      ensures outcome == Timeout ==> Rounds(t, Status) == 33334
      ensures outcome != Success ==> FailedPoll(t, Status, DriveReady)
      ensures Examined(t, Status, DriveReady)
    {
      outcome, t := Poll(Status, DriveReady, true);
    }

    method WaitForBSYClear() returns (outcome: Outcome, ghost t: seq<Access>)
      requires Valid()
      modifies this
      ensures Valid() && trace == old(trace) + t && ReadsOnly(t) && old(stalls) <= stalls <= old(stalls) + DELAY
      ensures t != [] && (outcome == Success <==> Sees(t[|t| - 1], Status, NotBusy))
      ensures outcome != Aborted && (outcome == Timeout ==> Rounds(t, Status) == DELAY)
      ensures outcome != Success ==> FailedPoll(t, Status, NotBusy)
    {
      outcome, t := Poll(Status, NotBusy, false);
    }

    method CheckErrorStatus() returns (ok: bool, ghost t: seq<Access>)
      requires Valid()
      modifies this
      ensures Valid() && trace == old(trace) + t && stalls == old(stalls)
      ensures |t| == 1 && ReadsOnly(t) && t[0].reg == Status && (ok <==> NoError(t[0]))
    {
      var value := ReadPortB(Status);
      t := [Read(Status, value)];
      ok := !Err(value) && !Dwf(value) && !Corr(value);
    }

    // ---------- the protocol ----------

    method WriteCommandBlock(p: Parameters)
      requires Valid()
      modifies this
      ensures Valid() && trace == old(trace) + CommandBlock(p) && stalls == old(stalls)
    {
      hide Valid;
      WritePortB(SectorCount, p.sectorCount);
      WritePortB(SectorNumber, p.sectorNumber);
      WritePortB(CylinderLsb, p.cylinderLsb);
      WritePortB(CylinderMsb, p.cylinderMsb);
      WritePortB(Feature, p.feature);
      WritePortB(Command, p.command);
    }

    /** Waits until the drive is ready (a hard disk only) and idle. */
    method WaitForIdle() returns (ok: bool, ghost t: seq<Access>)
      requires Valid()
      modifies this
      ensures Valid() && trace == old(trace) + t && ReadsOnly(t) && old(stalls) <= stalls <= old(stalls) + 2 * DELAY
      ensures ok ==> t != [] && Idle(t[|t| - 1]) && (hardDisk ==> exists a :: a in t && Sees(a, Status, DriveReady))
      ensures !ok ==> (hardDisk && GaveUp(t, Status, DriveReady)) || GaveUp(t, AltStatus, NoRequest)
    {
      hide Sees, Idle, Valid, FailedPoll, GaveUp, Examined, SeesAbort, Rounds;
      var outcome;
      ghost var ready;
      t := [];
      if hardDisk {
        outcome, t := DRDYReady();
        if outcome != Success {
          assert [] + t == t;
          GaveUpLater([], t, Status, DriveReady);
          return false, t;
        }
      }
      ghost var seen := t;
      outcome, ready := DRQClear2();
      t := t + ready;
      ok := outcome == Success;
      if !ok {
        GaveUpLater(seen, ready, AltStatus, NoRequest);
      } else if hardDisk {
        assert seen[|seen| - 1] in t;
      }
    }

    /** Selects the drive and issues the command, or gives up without having issued it. */
    method IssueCommand(p: Parameters) returns (ok: bool, ghost t: seq<Access>)
      requires Valid()
      modifies this
      ensures Valid() && trace == old(trace) + t && old(stalls) <= stalls <= old(stalls) + 3 * DELAY
      ensures ok ==> Commanded(t, device, hardDisk, p) && Programmed(t, device, p)
      ensures !ok ==> SelectionFailed(t, hardDisk) && forall a :: a in t ==> !a.Data? && (a.Write? ==> a.reg == Head)
    {
      hide Sees, Idle, CommandBlock, Valid, FailedPoll, GaveUp, Programmed, Examined, SeesAbort, Rounds;
      var outcome;
      ghost var between;
      outcome, t := WaitForBSYClear();
      if outcome != Success {
        assert [] + t == t;
        GaveUpLater([], t, Status, NotBusy);
        return false, t;
      }
      ghost var before := t;
      WritePortB(Head, HeadRegister(device, p.head));
      t := t + [Write(Head, HeadRegister(device, p.head))];
      ghost var selected := t;
      ok, between := WaitForIdle();
      t := t + between;
      if !ok {
        if GaveUp(between, AltStatus, NoRequest) {
          GaveUpStill(selected, between, AltStatus, NoRequest);
        } else {
          GaveUpStill(selected, between, Status, DriveReady);
        }
        return false, t;
      }
      WriteCommandBlock(p);
      t := t + CommandBlock(p);
      assert IsSelection(before, between, hardDisk);
      CommandedIsProgrammed(t, device, hardDisk, p);
    }

    /** One series of reads: waits for the device, looks for an error, transfers. */
    method ReadBlock(buffer: array<word>, start: nat, count: nat) returns (ok: bool, ghost t: seq<Access>)
      requires Valid() && start + count <= buffer.Length
      modifies this, buffer
      ensures Valid() && trace == old(trace) + t && t != [] && old(stalls) <= stalls <= old(stalls) + DELAY
      ensures Transfers(t, start, old(buffer[..]), buffer[..])
      ensures |Received(t)| == if ok then count else 0
      ensures !ok ==> TransferFailed(t)
    {
      hide Transfers, Received, Sees, DataReady, NoError, ReadsOnly, Valid, FailedPoll, GaveUp, Examined, SeesAbort;
      var outcome;
      ghost var check;
      ghost var before := buffer[..];
      outcome, t := DRQReady2();
      if outcome != Success {
        NoTransfer(t, start, before);
        assert [] + t == t;
        GaveUpLater([], t, AltStatus, DataRequest);
        return false, t;
      }
      ghost var polls := t;
      ok, check := CheckErrorStatus();
      t := t + check;
      if !ok {
        ReadsConcat(polls, check);
        NoTransfer(t, start, before);
        ReadsRead(check);
        return false, t;
      }
      ghost var words := ReadPortWMultiple(buffer, start, count);
      t := t + [Data(words)];
      OneTransfer(polls, check, words, start, before);
    }

    /** Reads the data block by block. */
    method ReadBlocks(buffer: array<word>, count: nat) returns (ok: bool, ghost t: seq<Access>)
      requires Valid() && count <= buffer.Length
      modifies this, buffer
      ensures Valid() && trace == old(trace) + t
      ensures Transfers(t, 0, old(buffer[..]), buffer[..])
      ensures if ok then |Received(t)| == count else |Received(t)| < count && |Received(t)| % BLOCK == 0
      ensures !ok ==> TransferFailed(t)
      ensures old(stalls) <= stalls <= old(stalls) + Blocks(count) * DELAY
    {
      hide Transfers, Received, Blocks, Valid, TransferFailed;
      var wordCount, increment := 0, BLOCK;
      t := [];
      NoBlocks();
      NoTransfer(t, 0, buffer[..]);
      ghost var original, begin := buffer[..], stalls;
      while wordCount < count
        invariant Valid() && wordCount <= count && |Received(t)| == wordCount
        invariant wordCount < count ==> increment == BLOCK && wordCount % BLOCK == 0
        invariant trace == old(trace) + t && Transfers(t, 0, original, buffer[..])
        invariant begin <= stalls <= begin + Blocks(wordCount) * DELAY
      {
        NextBlock(wordCount, count);
        if wordCount + increment > count {
          increment := count - wordCount;
        }
        ghost var more;
        ghost var now, done := buffer[..], t;
        ok, more := ReadBlock(buffer, wordCount, increment);
        TransferMore(t, more, original, now, buffer[..]);
        t := t + more;
        if !ok {
          TransferFailedStill(done, more);
          return false, t;
        }
        wordCount := wordCount + increment;
      }
      ok := true;
    }

    /**
     * The transfer. Whatever the device does, it ends; what is stored is what the device sent, in order, and all of
     * it on success; on failure it is whole blocks, or everything. A failing exit comes after a poll that was aborted
     * or failed in all its rounds, or after an error; cleared is how the last wait went, if that was reached, and
     * then only the final error bits decide.
     */
    method AtaPioDataIn(buffer: array<word>, byteCount: dword, p: Parameters)
        returns (ok: bool, ghost issued: bool, ghost cleared: Option<Outcome>, ghost issue: seq<Access>,
          ghost rest: seq<Access>)
      requires Valid() && byteCount / 2 <= buffer.Length
      modifies this, buffer
      ensures Valid() && trace == old(trace) + issue + rest
      ensures issued ==> Commanded(issue, device, hardDisk, p) && Programmed(issue, device, p)
      ensures !issued ==> !ok && cleared == None && rest == [] && SelectionFailed(issue, hardDisk)
      ensures !issued ==> forall a :: a in issue ==> !a.Data? && (a.Write? ==> a.reg == Head)
      ensures Transfers(rest, 0, old(buffer[..]), buffer[..])
      ensures |Received(rest)| <= byteCount / 2 && (|Received(rest)| % 256 == 0 || |Received(rest)| == byteCount / 2)
      ensures issued && cleared == None ==> !ok && |Received(rest)| < byteCount / 2 && TransferFailed(rest)
      ensures cleared.Some? ==> |Received(rest)| == byteCount / 2 && Finished(rest, cleared.value, ok)
      ensures stalls <= old(stalls) + (4 + Blocks(byteCount / 2)) * DELAY
    {
      hide Transfers, Received, Blocks, Commanded, SelectionFailed, TransferFailed, Sees, SeesAbort, NoError, ReadsOnly;
      hide Finished, Valid, Programmed, Examined;
      rest, cleared := [], None;
      ghost var original := buffer[..];
      NoReads();
      NoTransfer(rest, 0, original);
      ok, issue := IssueCommand(p);
      issued := ok;
      if !ok {
        return;
      }
      ok, rest := ReadBlocks(buffer, byteCount / 2);
      if !ok {
        return;
      }
      var outcome;
      ghost var clear, check;
      outcome, clear := DRQClear();
      ok, check := CheckErrorStatus();
      cleared := Some(outcome);
      ReadsConcat(clear, check);
      NoTransfer(clear + check, |Received(rest)|, buffer[..]);
      TransferMore(rest, clear + check, original, buffer[..], buffer[..]);
      Finish(rest, clear, check, outcome, ok);
      rest := rest + (clear + check);
    }
  }

  /**
   * How a transfer ends that has read everything: a wait, whose outcome does not count, and a look at the error bits,
   * which does.
   */
  ghost predicate Finished(t: seq<Access>, cleared: Outcome, ok: bool) {
    && |t| >= 2 && t[|t| - 1].Read? && t[|t| - 1].reg == Status
    && (ok <==> NoError(t[|t| - 1]))
    && (cleared == Success <==> Sees(t[|t| - 2], Status, NoRequest))
    && (cleared == Aborted <==> SeesAbort(t[|t| - 2]))
  }

  lemma Finish(rest: seq<Access>, clear: seq<Access>, check: seq<Access>, cleared: Outcome, ok: bool)
    requires clear != [] && (cleared == Success <==> Sees(clear[|clear| - 1], Status, NoRequest))
    requires cleared == Aborted <==> SeesAbort(clear[|clear| - 1])
    requires |check| == 1 && ReadsOnly(check) && check[0].Read? && check[0].reg == Status && (ok <==> NoError(check[0]))
    ensures Finished(rest + (clear + check), cleared, ok)
  {
    hide Sees, SeesAbort, NoError;
    var t := rest + (clear + check);
    assert t[|t| - 1] == check[0] && t[|t| - 2] == clear[|clear| - 1];
  }

  lemma ReadsRead(t: seq<Access>)
    requires ReadsOnly(t)
    ensures forall i :: 0 <= i < |t| ==> t[i].Read?
  {
  }

  lemma NoRounds(reg: Register)
    ensures Rounds([], reg) == 0
  {
  }

  // ---------- a device that never takes its request back ----------

  /** Idle and ready until a command comes; then it requests data for ever, without an error. */
  function Insatiable(t: seq<Access>, reg: Register): byte {
    if reg == Error then 0 else if exists i :: 0 <= i < |t| && t[i].Write? && t[i].reg == Command then 0x58 else 0x50
  }

  /** Every read of the register gave v. */
  ghost predicate Always(t: seq<Access>, reg: Register, v: byte) {
    forall i :: 0 <= i < |t| && t[i].Read? && t[i].reg == reg ==> t[i].value == v
  }

  lemma NoFailedPoll(t: seq<Access>, reg: Register, c: Condition, v: byte)
    requires Always(t, reg, v) && Meets(v, c) && !Err(v)
    ensures !FailedPoll(t, reg, c)
  {
    hide Meets, Err, IsPoll;
    if IsPoll(t, reg, c, true, Some(Aborted)) {
      var i := AbortSawError(t, reg, c);
    }
    if IsPoll(t, reg, c, true, None) && Rounds(t, reg) == DELAY {
      var i := TimeoutMissed(t, reg, c);
    }
  }

  lemma AbortSawError(t: seq<Access>, reg: Register, c: Condition) returns (i: nat)
    requires IsPoll(t, reg, c, true, Some(Aborted))
    ensures i < |t| && t[i].Read? && t[i].reg == reg && Err(t[i].value)
  {
    hide Meets, Err, AbrtErr, Bsy;
    i := |t| - 2;
  }

  lemma TimeoutMissed(t: seq<Access>, reg: Register, c: Condition) returns (i: nat)
    requires IsPoll(t, reg, c, true, None) && Rounds(t, reg) == DELAY
    ensures i < |t| && t[i].Read? && t[i].reg == reg && !Meets(t[i].value, c)
  {
    hide Meets, Err, AbrtErr, Bsy;
    i := RoundsSeen(t, reg);
    assert i < |t| - 1 ==> t[i] == t[..|t| - 1][i];
  }

  lemma NeverGaveUp(t: seq<Access>, reg: Register, c: Condition, v: byte)
    requires Always(t, reg, v) && Meets(v, c) && !Err(v)
    ensures !GaveUp(t, reg, c)
  {
    hide FailedPoll, Meets, Err;
    if GaveUp(t, reg, c) {
      var i :| 0 <= i <= |t| && FailedPoll(t[i..], reg, c);
      assert Always(t[i..], reg, v);
      NoFailedPoll(t[i..], reg, c, v);
    }
  }

  /** Before the command the device lets no wait fail. */
  lemma InsatiableIsSelected(t: seq<Access>, hardDisk: bool)
    requires Answered(Insatiable, t) && forall a :: a in t ==> (a.Write? ==> a.reg == Head)
    ensures !SelectionFailed(t, hardDisk)
  {
    forall i | 0 <= i < |t| && t[i].Read? && t[i].reg != Error ensures t[i].value == 0x50 {
      assert forall j :: 0 <= j < i ==> t[..i][j] in t;
    }
    hide GaveUp;
    NeverGaveUp(t, Status, NotBusy, 0x50);
    NeverGaveUp(t, Status, DriveReady, 0x50);
    NeverGaveUp(t, AltStatus, NoRequest, 0x50);
  }

  /** Behind the command it answers every read alike. */
  lemma InsatiableAnswers(t: seq<Access>, rest: seq<Access>, c: nat)
    requires Answered(Insatiable, t + rest) && c < |t| && t[c].Write? && t[c].reg == Command
    ensures Always(rest, Status, 0x58) && Always(rest, AltStatus, 0x58) && Always(rest, Error, 0)
  {
    var all := t + rest;
    forall i | 0 <= i < |rest| && rest[i].Read? ensures rest[i].value == if rest[i].reg == Error then 0 else 0x58 {
      var j := |t| + i;
      assert all[j] == rest[i];
      assert all[..j][c] == t[c];
    }
  }

  lemma InsatiableDelivers(rest: seq<Access>)
    requires Always(rest, Status, 0x58) && Always(rest, AltStatus, 0x58)
    ensures !TransferFailed(rest)
  {
    hide GaveUp;
    NeverGaveUp(rest, AltStatus, DataRequest, 0x58);
  }

  lemma InsatiableFinishes(rest: seq<Access>, cleared: Outcome, ok: bool)
    requires Always(rest, Status, 0x58) && Always(rest, Error, 0) && Finished(rest, cleared, ok)
    ensures ok && cleared == Timeout
  {
  }

  lemma CommandIsWritten(t: seq<Access>, device: bv8, hardDisk: bool, p: Parameters) returns (c: nat)
    requires Commanded(t, device, hardDisk, p)
    ensures c < |t| && t[c].Write? && t[c].reg == Command
  {
    hide IsSelection;
    c := |t| - 1;
  }

  /** With that device every transfer succeeds although the last wait runs into its timeout. */
  method TimeoutIsIgnored(buffer: array<word>, byteCount: dword, p: Parameters)
      returns (ok: bool, ghost cleared: Option<Outcome>)
    requires byteCount / 2 <= buffer.Length
    modifies buffer
    ensures ok && cleared == Some(Timeout)
  {
    hide Commanded, SelectionFailed, TransferFailed, Transfers, Finished, Received, Answered, Always;
    var drive := new IdeDev(0, true, Insatiable);
    ghost var issued, issue, rest;
    ok, issued, cleared, issue, rest := drive.AtaPioDataIn(buffer, byteCount, p);
    if !issued {
      assert [] + issue + rest == issue;
      InsatiableIsSelected(issue, true);
    } else {
      assert [] + issue + rest == issue + rest;
      var c := CommandIsWritten(issue, 0, true, p);
      InsatiableAnswers(issue, rest, c);
      InsatiableDelivers(rest);
      InsatiableFinishes(rest, cleared.value, ok);
    }
  }
}
