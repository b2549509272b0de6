/** Which PCRs the dump of both event log formats computes expected values for. */
module LogFormats {
  import opened EventLog
  import opened Memory

  /** One call of DumpEventLog: the format and the PCR. */
  datatype Call = Call(format: nat, pcr: dword)

  function AllPcrs(format: nat, n: nat): (calls: seq<Call>)
    requires n <= 0xFFFF_FFFF
    ensures |calls| == n && forall i :: 0 <= i < n ==> calls[i] == Call(format, i)
  {
    seq(n, i requires 0 <= i < n => Call(format, i))
  }

  /**
   * The calls for the formats whose log could be read. With -E and no PCR given, the requested index itself counts
   * through the PCRs, and so it no longer asks for all of them when the next format's turn comes.
   */
  method DumpFormats(readable: seq<bool>, expected: bool, requested: dword, maxPcr: dword) returns (calls: seq<Call>)
    requires maxPcr < PCR_INDEX_ALL - 1
    ensures calls == Calls(readable, 0, expected, requested, maxPcr)
  {
    calls := [];
    var pcr: dword := requested;
    for format := 0 to |readable|
      invariant calls + Calls(readable, format, expected, pcr, maxPcr) ==
        Calls(readable, 0, expected, requested, maxPcr)
    {
      if readable[format] {
        if expected && pcr == PCR_INDEX_ALL {
          ghost var before := calls;
          pcr := 0;
          while pcr <= maxPcr
            invariant pcr <= maxPcr + 1 && calls == before + AllPcrs(format, pcr)
          {
            calls := calls + [Call(format, pcr)];
            pcr := pcr + 1;
          }
        } else {
          calls := calls + [Call(format, pcr)];
        }
      }
    }
  }

  function Calls(readable: seq<bool>, format: nat, expected: bool, pcr: dword, maxPcr: dword): seq<Call>
    requires format <= |readable| && maxPcr < PCR_INDEX_ALL - 1
    decreases |readable| - format
  {
    if format == |readable| then []
    else if !readable[format] then Calls(readable, format + 1, expected, pcr, maxPcr)
    else if expected && pcr == PCR_INDEX_ALL then
      AllPcrs(format, maxPcr + 1) + Calls(readable, format + 1, expected, maxPcr + 1, maxPcr)
    else [Call(format, pcr)] + Calls(readable, format + 1, expected, pcr, maxPcr)
  }

  /** Every readable format is replayed for every PCR. */
  ghost predicate Complete(readable: seq<bool>, maxPcr: dword, calls: seq<Call>) {
    forall f, p: dword :: 0 <= f < |readable| && readable[f] && p <= maxPcr ==> Call(f, p) in calls
  }

  lemma {:induction false} LaterCalls(readable: seq<bool>, format: nat, pcr: dword, maxPcr: dword, c: Call)
    requires format <= |readable| && maxPcr < PCR_INDEX_ALL - 1 && pcr != PCR_INDEX_ALL
    requires c in Calls(readable, format, true, pcr, maxPcr)
    ensures c.format >= format && c.pcr == pcr
    decreases |readable| - format
  {
    if c !in (if readable[format] then [Call(format, pcr)] else []) {
      LaterCalls(readable, format + 1, pcr, maxPcr, c);
    }
  }

  /** Asking for the expected values of all PCRs is answered in full exactly when no second format is readable. */
  lemma {:induction false} AllPcrsOnlyForFirstFormat(readable: seq<bool>, format: nat, maxPcr: dword)
    requires format <= |readable| && maxPcr < PCR_INDEX_ALL - 1
    requires forall f :: 0 <= f < format ==> !readable[f]
    ensures Complete(readable, maxPcr, Calls(readable, format, true, PCR_INDEX_ALL, maxPcr)) <==>
      forall f, g :: 0 <= f < g < |readable| ==> !(readable[f] && readable[g])
    decreases |readable| - format
  {
    if format < |readable| {
      if !readable[format] {
        AllPcrsOnlyForFirstFormat(readable, format + 1, maxPcr);
      } else {
        var first, rest := AllPcrs(format, maxPcr + 1), Calls(readable, format + 1, true, maxPcr + 1, maxPcr);
        forall p: dword | p <= maxPcr ensures Call(format, p) in first + rest {
          assert first[p] == Call(format, p);
        }
        if g :| format < g < |readable| && readable[g] {
          if Call(g, 0) in first + rest {
            assert Call(g, 0) in rest;
            LaterCalls(readable, format + 1, maxPcr + 1, maxPcr, Call(g, 0));
          }
          assert !Complete(readable, maxPcr, first + rest) by { assert Call(g, 0) !in first + rest; }
        }
      }
    }
  }

  /**
   * Without -E, and for a given PCR, there is one call for each readable format, in the order of the formats, and all
   * are for what was requested.
   */
  lemma {:induction false} OneCallEach(readable: seq<bool>, format: nat, expected: bool, pcr: dword, maxPcr: dword)
    requires format <= |readable| && maxPcr < PCR_INDEX_ALL - 1 && (!expected || pcr != 0xFFFF_FFFF)
    ensures var calls := Calls(readable, format, expected, pcr, maxPcr);
      && (forall c :: c in calls <==> format <= c.format < |readable| && readable[c.format] && c.pcr == pcr)
      && (forall i, j :: 0 <= i < j < |calls| ==> calls[i].format < calls[j].format)
    decreases |readable| - format
  {
    if format < |readable| {
      OneCallEach(readable, format + 1, expected, pcr, maxPcr);
      var rest := Calls(readable, format + 1, expected, pcr, maxPcr);
      assert forall j :: 0 <= j < |rest| ==> rest[j] in rest;
    }
  }

  /** With both formats readable and 24 PCRs, the second is replayed for PCR 24 only, which does not exist. */
  lemma SecondFormatMissed()
    ensures Calls([true, true], 0, true, PCR_INDEX_ALL, 23) == AllPcrs(0, 24) + [Call(1, 24)]
  {
    assert Calls([true, true], 2, true, 24, 23) == [];
    assert Calls([true, true], 1, true, 24, 23) == [Call(1, 24)];
  }
}
