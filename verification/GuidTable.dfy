/** The GUID name table, read by tokenizing lines, and fields inside each line, in the same buffer. */
module GuidTable {
  import opened AsciiRuns
  import opened Options
  import opened Tokenizer
  import opened InPlaceSplit
  import opened GuidLines
  import opened GuidNames
  import opened GuidXref

  /** t and u agree outside the span. */
  ghost predicate SameOutside(t: seq<char>, u: seq<char>, x: Span) {
    |t| == |u| && forall i :: 0 <= i < |t| && !(x.start <= i < x.end) ==> t[i] == u[i]
  }

  lemma LineIsOriginal(s: seq<char>, t: seq<char>, x: Span)
    requires ReadsAs(s, t, x)
    ensures StrEnd(t, x.start) == x.end && x.end < |t| && t[x.end] == NUL
    ensures forall i :: x.start <= i < x.end ==> t[i] == s[i] != NUL
    ensures Runs(t, x.start, x.end, SPACE) == Runs(s, x.start, x.end, SPACE)
  {
    var a := x.start;
    assert |CString(t, a)| == x.end - a;
    assert forall i :: 0 <= i < x.end - a ==> t[a + i] == CString(t, a)[i] == s[a..x.end][i] == s[a + i];
    assert forall i :: a <= i < x.end ==> t[i] == t[a + (i - a)];
    RunsAgree(t, s, a, x.end, SPACE);
  }

  /** The first field stays readable while the second is cut. */
  lemma FirstFieldStays(t: seq<char>, p: nat, e: nat, v: seq<char>, cursor: Option<nat>)
    requires p <= e < |t| && t[e] == NUL && (forall i :: p <= i < e ==> t[i] != NUL)
    requires FieldProgress(t, p, e, SPACE, 2, v, cursor) && |Runs(t, p, e, SPACE)| > 1
    ensures ReadsAs(t, v, Runs(t, p, e, SPACE)[0])
  {
    var all := Runs(t, p, e, SPACE);
    RunsInside(t, p, e, SPACE, 0);
    RunsInside(t, p, e, SPACE, 1);
    RunsOrdered(t, p, e, SPACE);
    hide Runs, Left, StrEnd, Terminated;
    CutReads(t, v, all[0]);
  }

  lemma RunsOrdered(t: seq<char>, p: nat, e: nat, delims: string)
    requires p <= e <= |t| && |Runs(t, p, e, delims)| > 1
    ensures Runs(t, p, e, delims)[0].end < Runs(t, p, e, delims)[1].start
  {
    var r := RunEnd(t, SkipDelims(t, p, e, delims), e, delims);
    RunsInside(t, r, e, delims, 0);
  }

  lemma NoSecondField(t: seq<char>, p: nat, u: seq<char>, cursor1: Option<nat>, token2: Option<nat>, v: seq<char>,
        cursor2: Option<nat>)
    requires Terminated(t, p) && FieldStep(t, Some(p), SPACE, None, u, cursor1)
    requires (cursor1.Some? ==> Terminated(u, cursor1.value)) && FieldStep(u, cursor1, SPACE, token2, v, cursor2)
    ensures token2 == None && v == u
  {
  }

  lemma FieldStateFrame(t: seq<char>, p: nat, e: nat, n: nat, token: Option<nat>, v: seq<char>, cursor: Option<nat>)
    requires p <= e < |t| && FieldState(t, p, e, SPACE, n, token, v, cursor)
    ensures SameOutside(t, v, Span(p, e))
  {
    hide Runs, ReadsAs, Left;
  }

  lemma FieldText(s: seq<char>, t: seq<char>, x: Span, k: nat)
    requires x.start <= x.end <= |s| && x.end <= |t| && (forall i :: x.start <= i < x.end ==> t[i] == s[i])
    requires k < |Runs(t, x.start, x.end, SPACE)|
    ensures var all := Runs(t, x.start, x.end, SPACE);
      all[k].start <= all[k].end <= |t| && RunText(s, all, k) == RunText(t, all, k) == t[all[k].start..all[k].end]
  {
    RunsInside(t, x.start, x.end, SPACE, k);
  }

  lemma ReadsText(t: seq<char>, v: seq<char>, x: Span)
    requires ReadsAs(t, v, x)
    ensures x.start <= x.end <= |t| && Terminated(v, x.start) && CString(v, x.start) == t[x.start..x.end]
  {
  }

  lemma FirstToken(t: seq<char>, p: nat, e: nat, token: nat, u: seq<char>, cursor: Option<nat>)
    requires p <= e < |t| && FieldState(t, p, e, SPACE, 0, Some(token), u, cursor)
    ensures Runs(t, p, e, SPACE) != [] && token == Runs(t, p, e, SPACE)[0].start
    ensures cursor.Some? ==> Terminated(u, cursor.value)
  {
  }

  lemma SecondToken(t: seq<char>, p: nat, e: nat, token: nat, v: seq<char>, cursor: Option<nat>)
    requires p <= e < |t| && t[e] == NUL && (forall i :: p <= i < e ==> t[i] != NUL)
    requires FieldState(t, p, e, SPACE, 1, Some(token), v, cursor)
    ensures |Runs(t, p, e, SPACE)| > 1 && ReadsAs(t, v, Runs(t, p, e, SPACE)[0])
  {
    hide Runs, ReadsAs;
    FirstFieldStays(t, p, e, v, cursor);
  }

  lemma PairOfLine(s: seq<char>, t: seq<char>, x: Span)
    requires ReadsAs(s, t, x)
    ensures x.end < |t|
    ensures var all := Runs(t, x.start, x.end, SPACE);
      && (|all| < 2 ==> LinePair(s, x) == None)
      && (|all| >= 2 ==> LinePair(s, x) == Some((RunText(t, all, 0), RunText(t, all, 1))))
  {
    LineIsOriginal(s, t, x);
    hide Runs;
    if |Runs(t, x.start, x.end, SPACE)| >= 2 {
      FieldText(s, t, x, 0);
      FieldText(s, t, x, 1);
    }
  }

  lemma FirstFieldOfLine(s: seq<char>, t: seq<char>, x: Span, token1: Option<nat>, u: seq<char>, cursor1: Option<nat>)
    requires ReadsAs(s, t, x) && FieldStep(t, Some(x.start), SPACE, token1, u, cursor1)
    ensures x.start <= x.end < |t| && t[x.end] == NUL && (forall i :: x.start <= i < x.end ==> t[i] != NUL)
    ensures Terminated(t, x.start) && FieldState(t, x.start, x.end, SPACE, 0, token1, u, cursor1)
  {
    LineIsOriginal(s, t, x);
    hide Runs, FieldStep, FieldState, CString;
    FirstFieldState(t, x.start, SPACE, token1, u, cursor1);
  }

  /** What two field calls on a line find, and that they stay inside the line. */
  lemma TwoFields(s: seq<char>, t: seq<char>, x: Span, token1: Option<nat>, u: seq<char>, cursor1: Option<nat>,
      token2: Option<nat>, v: seq<char>, cursor2: Option<nat>)
    requires ReadsAs(s, t, x) && (cursor1.Some? ==> Terminated(u, cursor1.value))
    requires FieldStep(t, Some(x.start), SPACE, token1, u, cursor1) && FieldStep(u, cursor1, SPACE, token2, v, cursor2)
    ensures SameOutside(t, v, x)
    ensures token1.Some? && token2.Some? ==>
      && Terminated(v, token1.value) && Terminated(v, token2.value)
      && LinePair(s, x) == Some((CString(v, token1.value), CString(v, token2.value)))
    ensures token1 == None || token2 == None ==> LinePair(s, x) == None
  {
    hide Runs, StrEnd, FieldStep, FieldState, SameOutside, CString, LinePair, Terminated;
    var p, e := x.start, x.end;
    FirstFieldOfLine(s, t, x, token1, u, cursor1);
    PairOfLine(s, t, x);
    hide ReadsAs;
    if token1 == None {
      FieldStateBounds(t, p, e, SPACE, 0, token1, u, cursor1);
      FieldStateFrame(t, p, e, 0, token1, u, cursor1);
      NoSecondField(t, p, u, cursor1, token2, v, cursor2);
    } else {
      FirstToken(t, p, e, token1.value, u, cursor1);
      NextFieldState(t, p, e, SPACE, 0, token1.value, u, cursor1, token2, v, cursor2);
      FieldStateFrame(t, p, e, 1, token2, v, cursor2);
      FieldStateBounds(t, p, e, SPACE, 1, token2, v, cursor2);
      if token2.Some? {
        UseField(t, p, e, SPACE, 1, token2.value, v, cursor2);
        SecondToken(t, p, e, token2.value, v, cursor2);
        ReadsText(t, v, Runs(t, p, e, SPACE)[0]);
      }
    }
  }

  /** mGuidString with its two counts. */
  class NameTable {
    const strings: array<GuidString>
    var count: nat

    ghost predicate Valid()
      reads this
    {
      count <= strings.Length
    }

    ghost function Entries(): seq<GuidString>
      reads this, strings
      requires Valid()
    {
      strings[..count]
    }

    constructor (max: nat)
      ensures Valid() && fresh(strings) && strings.Length == max && Entries() == []
    {
      strings := new GuidString[max](_ => GuidString(0, ""));
      count := 0;
    }

    method AddGuidName(parse: string -> Option<Guid>, guid: string, name: string)
      requires Valid()
      modifies this, strings
      ensures Valid() && Entries() == AddName(old(Entries()), strings.Length, parse, guid, name)
      ensures old(count) < strings.Length && parse(guid).Some? ==>
        Entries() == old(Entries()) + [GuidString(parse(guid).value,
          if guid == "00000000-0000-0000-0000-000000000000" then "ZeroGuid"
          else name[..if |name| > 63 then 63 else |name|])]
    {
      StrKept(guid, name);
      if count >= strings.Length {
        return;
      }
      var value := parse(guid);
      if value == None {
        return;
      }
      if guid == ZERO_GUID {
        strings[count] := GuidString(value.value, "ZeroGuid");
      } else {
        var length := if |name| < GUID_STRING_LENGTH_MAX then |name| else GUID_STRING_LENGTH_MAX - 1;
        strings[count] := GuidString(value.value, name[..length]);
      }
      count := count + 1;
      assert name[..|name|] == name;
      assert Entries() == old(Entries()) + [GuidString(value.value, KeptName(guid, name))];
    }

    /** The first entry with the GUID, as GuidToName looks it up. */
    method Find(guid: Guid) returns (name: Option<string>)
      requires Valid()
      ensures name == None <==> forall i :: 0 <= i < |Entries()| ==> Entries()[i].guid != guid
      ensures name.Some? ==>
        exists i :: (0 <= i < |Entries()| && Entries()[i] == GuidString(guid, name.value)
                     && forall j :: 0 <= j < i ==> Entries()[j].guid != guid)
    {
      var i := 0;
      while i < count
        invariant i <= count && forall j :: 0 <= j < i ==> strings[j].guid != guid
      {
        if strings[i].guid == guid {
          assert Entries()[i] == GuidString(guid, strings[i].str);
          return Some(strings[i].str);
        }
        i := i + 1;
      }
      return None;
    }
  }

  /** One line: its first two fields become a name, unless there are fewer. */
  method AddLine(tk: Tokenizer, table: NameTable, parse: string -> Option<Guid>, line: nat, ghost s: seq<char>,
        ghost x: Span)
    requires table.Valid() && ReadsAs(s, tk.text[..], x) && line == x.start
    requires table.strings as object != tk.text
    modifies tk`fieldCursor, tk.text, table, table.strings
    ensures table.Valid() && SameOutside(old(tk.text[..]), tk.text[..], x)
    ensures table.Entries() == match LinePair(s, x)
      case None => old(table.Entries())
      case Some(pair) => AddName(old(table.Entries()), table.strings.Length, parse, pair.0, pair.1)
  {
    hide Runs, StrEnd, FieldStep, CString, LinePair, RunText, AddName, SameOutside;
    ghost var t := tk.text[..];
    var guidStr := tk.AsciiStrGetTokenField(Some(line), SPACE);
    ghost var u, cursor := tk.text[..], tk.fieldCursor;
    StepResumes(t, line, guidStr, u, cursor);
    var nameStr := tk.AsciiStrGetTokenField(None, SPACE);
    TwoFields(s, t, x, guidStr, u, cursor, nameStr, tk.text[..], tk.fieldCursor);
    if guidStr != None && nameStr != None {
      table.AddGuidName(parse, CString(tk.text[..], guidStr.value), CString(tk.text[..], nameStr.value));
    }
  }

  lemma StepResumes(t: seq<char>, p: nat, token: Option<nat>, u: seq<char>, cursor: Option<nat>)
    requires Terminated(t, p) && FieldStep(t, Some(p), SPACE, token, u, cursor)
    ensures cursor.Some? ==> Terminated(u, cursor.value)
  {
  }

  /** Changing a line that has been cut off leaves the lines behind the cursor as they were. */
  lemma TailKept(s: seq<char>, e: nat, k: nat, t: seq<char>, cursor: Option<nat>, v: seq<char>, x: Span)
    requires e < |s| && s[e] == NUL && (forall i :: 0 <= i < e ==> s[i] != NUL)
    requires LineTail(s, 0, e, LINE_ENDS, k, t, cursor) && SameOutside(t, v, x)
    requires x.end <= e && (cursor.Some? ==> x.end < cursor.value)
    ensures LineTail(s, 0, e, LINE_ENDS, k, v, cursor)
  {
    hide Runs;
    if cursor.Some? {
      StrEndIs(v, cursor.value, e);
      RunsAgree(t, v, cursor.value, e, LINE_ENDS);
    }
  }

  /** One entry for each line feed of the file, and one more, if there is room. */
  method AllocateNames(file: seq<char>, room: bool) returns (table: NameTable?)
    ensures table != null <==> room
    ensures table != null ==>
      && fresh(table) && fresh(table.strings) && table.Valid() && table.Entries() == []
      && table.strings.Length == LineFeeds(file, 0, |file|) + 1
  {
    var max := 0;
    for i := 0 to |file|
      invariant max == LineFeeds(file, 0, i)
    {
      LineFeedsSplit(file, 0, i, i + 1);
      if file[i] == '\n' {
        max := max + 1;
      }
    }
    if !room {
      return null;
    }
    table := new NameTable(max + 1);
  }

  lemma FirstLine(s: seq<char>, token: Option<nat>, u: seq<char>, cursor: Option<nat>)
    requires Terminated(s, 0) && LineStep(s, Some(0), LINE_ENDS, token, u, cursor)
    ensures LineReady(s, 0, token, u, cursor)
  {
    var e := StrEnd(s, 0);
    var all := Runs(s, 0, e, LINE_ENDS);
    assert all[0..] == all && LineTail(s, 0, e, LINE_ENDS, 0, s, Some(0));
    hide Runs, LineTail, LineStep, ReadsAs;
    if all != [] {
      NextLine(s, 0, e, LINE_ENDS, 0, s, Some(0), token, u, cursor);
    } else {
      LastLine(s, 0, e, LINE_ENDS, 0, s, Some(0), token, u, cursor);
    }
  }

  /** Between two lines: n lines are done, token is the next, and everything behind it is as in s. */
  ghost predicate LineReady(s: seq<char>, n: nat, token: Option<nat>, t: seq<char>, cursor: Option<nat>)
    requires Terminated(s, 0)
  {
    var e := StrEnd(s, 0);
    var all := Runs(s, 0, e, LINE_ENDS);
    && n <= |all| && (token == None <==> n == |all|)
    && (token.Some? ==>
      && token == Some(all[n].start) && ReadsAs(s, t, all[n]) && LineTail(s, 0, e, LINE_ENDS, n + 1, t, cursor)
      && all[n].end <= e && (cursor.Some? ==> all[n].end < cursor.value))
  }

  lemma LineUse(s: seq<char>, n: nat, token: nat, t: seq<char>, cursor: Option<nat>)
    requires Terminated(s, 0) && LineReady(s, n, Some(token), t, cursor)
    ensures var all := Runs(s, 0, StrEnd(s, 0), LINE_ENDS);
      n < |all| && ReadsAs(s, t, all[n]) && token == all[n].start
    ensures cursor.Some? ==> Terminated(t, cursor.value)
  {
    hide Runs, ReadsAs;
  }

  /** The tail survives the work on line n, so the next call finds line n + 1. */
  lemma LineNext(s: seq<char>, n: nat, last: nat, t: seq<char>, cursor: Option<nat>, v: seq<char>,
      token: Option<nat>, u: seq<char>, cursor': Option<nat>)
    requires Terminated(s, 0) && LineReady(s, n, Some(last), t, cursor)
    requires SameOutside(t, v, Runs(s, 0, StrEnd(s, 0), LINE_ENDS)[n])
    requires (cursor.Some? ==> Terminated(v, cursor.value)) && LineStep(v, cursor, LINE_ENDS, token, u, cursor')
    ensures LineReady(s, n + 1, token, u, cursor')
  {
    var e := StrEnd(s, 0);
    var all := Runs(s, 0, e, LINE_ENDS);
    hide Runs, LineTail, LineStep, ReadsAs, SameOutside;
    TailKept(s, e, n + 1, t, cursor, v, all[n]);
    if n + 1 < |all| {
      NextLine(s, 0, e, LINE_ENDS, n + 1, v, cursor, token, u, cursor');
    } else {
      LastLine(s, 0, e, LINE_ENDS, n + 1, v, cursor, token, u, cursor');
    }
  }

  lemma LineResumes(s: seq<char>, n: nat, last: nat, t: seq<char>, cursor: Option<nat>, v: seq<char>)
    requires Terminated(s, 0) && LineReady(s, n, Some(last), t, cursor)
    requires SameOutside(t, v, Runs(s, 0, StrEnd(s, 0), LINE_ENDS)[n])
    ensures cursor.Some? ==> Terminated(v, cursor.value)
  {
    var e := StrEnd(s, 0);
    var all := Runs(s, 0, e, LINE_ENDS);
    hide Runs, ReadsAs, SameOutside;
    TailKept(s, e, n + 1, t, cursor, v, all[n]);
  }

  /** The loop over the lines of the text. */
  method ReadLines(tk: Tokenizer, table: NameTable, parse: string -> Option<Guid>)
    requires Terminated(tk.text[..], 0) && table.Valid() && table.Entries() == [] && table.strings as object != tk.text
    modifies tk, tk.text, table, table.strings
    ensures table.Valid()
    ensures var s := old(tk.text[..]); var lines := Runs(s, 0, StrEnd(s, 0), LINE_ENDS);
      table.Entries() == NamesOf(s, lines, |lines|, table.strings.Length, parse)
  {
    hide Runs, StrEnd, LineReady, LineStep, SameOutside, LinePair, AddName, Terminated, NamesOf, ReadsAs;
    ghost var s, max := tk.text[..], table.strings.Length;
    ghost var lines := Runs(s, 0, StrEnd(s, 0), LINE_ENDS);
    var line := tk.AsciiStrGetTokenLine(Some(0), LINE_ENDS);
    FirstLine(s, line, tk.text[..], tk.lineCursor);
    ghost var n := 0;
    assert NamesOf(s, lines, 0, max, parse) == [] by { NoNames(s, lines, max, parse); }
    while line != None
      invariant n <= |lines| && LineReady(s, n, line, tk.text[..], tk.lineCursor)
      invariant table.Valid() && table.Entries() == NamesOf(s, lines, n, max, parse)
      decreases |lines| - n
    {
      ghost var last, t, cursor := line.value, tk.text[..], tk.lineCursor;
      LineUse(s, n, last, t, cursor);
      AddLine(tk, table, parse, line.value, s, lines[n]);
      NamesStep(s, lines, n, max, parse);
      ghost var v := tk.text[..];
      LineResumes(s, n, last, t, cursor, v);
      line := tk.AsciiStrGetTokenLine(None, LINE_ENDS);
      LineNext(s, n, last, t, cursor, v, line, tk.text[..], tk.lineCursor);
      LineCount(s, n + 1, line, tk.text[..], tk.lineCursor);
      n := n + 1;
    }
    LineCount(s, n, None, tk.text[..], tk.lineCursor);
  }

  /**
   * Reads the name table from the text of Guid.xref. The fields are cut inside the line buffer itself, and still the
   * lines are those of the original text. The table has the first names of the text, all of them exactly when there
   * is room; that is so, in particular, if the carriage returns are all followed by line feeds.
   */
  method InitGuid(file: seq<char>, parse: string -> Option<Guid>, room: bool) returns (table: NameTable?)
    ensures table != null <==> room
    ensures table != null ==>
      var s, lines := FileText(file), FileLines(file);
      && table.Valid() && table.strings.Length == LineFeeds(file, 0, |file|) + 1
      && table.Entries() == NamesOf(s, lines, |lines|, table.strings.Length, parse)
      && table.Entries() <= AllNames(s, lines, |lines|, parse)
      && (table.Entries() == AllNames(s, lines, |lines|, parse) <==>
        NamedLines(s, lines, |lines|, parse) <= table.strings.Length)
      && (ReturnsFed(s, 0, StrEnd(s, 0)) ==> NamedLines(s, lines, |lines|, parse) <= |lines| <= table.strings.Length)
      && (forall e :: e in table.Entries() ==> FromSomeLine(s, lines, parse, e))
    ensures table != null ==>
      forall xs :: AreLines(xs) && file == Text(xs) ==> table.Entries() == FirstNames(xs, parse)
  {
    hide *;
    table := ReadNames(file, parse, room);
    Capacity(file, parse);
    AllComeFrom(file, LineFeeds(file, 0, |file|) + 1, parse);
    forall xs | AreLines(xs) && file == Text(xs)
      ensures table != null ==> table.Entries() == FirstNames(xs, parse)
    {
      XrefTable(xs, parse);
    }
  }

  lemma AllComeFrom(file: seq<char>, max: nat, parse: string -> Option<Guid>)
    ensures var s, lines := FileText(file), FileLines(file);
      var names := NamesOf(s, lines, |lines|, max, parse);
      forall e :: e in names ==> FromSomeLine(s, lines, parse, e)
  {
    hide AllNames, NamesOf, NamedLines, FromSomeLine, Runs;
    NamesComeFrom(FileText(file), FileLines(file), |FileLines(file)|, parse);
    TableIsPrefix(FileText(file), FileLines(file), |FileLines(file)|, max, parse);
  }

  method ReadNames(file: seq<char>, parse: string -> Option<Guid>, room: bool) returns (table: NameTable?)
    ensures table != null <==> room
    ensures table != null ==>
      var s, lines := FileText(file), FileLines(file);
      && table.Valid() && table.strings.Length == LineFeeds(file, 0, |file|) + 1
      && table.Entries() == NamesOf(s, lines, |lines|, table.strings.Length, parse)
  {
    table := AllocateNames(file, room);
    if table == null {
      return;
    }
    hide Runs, StrEnd, Terminated, NamesOf, AllNames, NamedLines, LineFeeds, ReturnsFed;
    var text := new char[|file| + 2](i requires 0 <= i => if i < |file| then file[i] else NUL);
    assert text[..] == FileText(file);
    var tk := new Tokenizer(text);
    ReadLines(tk, table, parse);
  }

  lemma LineCount(s: seq<char>, n: nat, token: Option<nat>, t: seq<char>, cursor: Option<nat>)
    requires Terminated(s, 0) && LineReady(s, n, token, t, cursor)
    ensures var all := Runs(s, 0, StrEnd(s, 0), LINE_ENDS); n <= |all| && (token == None ==> n == |all|)
  {
  }
}
