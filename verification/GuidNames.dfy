/** The names in the cross-reference text, by its lines and their fields. */
module GuidNames {
  import opened AsciiRuns
  import opened Options
  import opened Tokenizer
  import opened InPlaceSplit
  import opened GuidLines

  type Guid = nat

  datatype GuidString = GuidString(guid: Guid, str: string)

  const GUID_STRING_LENGTH_MAX: nat := 64
  const ZERO_GUID := "00000000-0000-0000-0000-000000000000"

  /** The name kept for a GUID string: at most 63 characters of it. */
  function KeptName(guid: string, name: string): string {
    if guid == ZERO_GUID then "ZeroGuid"
    else if |name| < GUID_STRING_LENGTH_MAX then name else name[..GUID_STRING_LENGTH_MAX - 1]
  }

  /** The table after one more pair: a full table or an unreadable GUID leaves it alone. */
  function AddName(entries: seq<GuidString>, max: nat, parse: string -> Option<Guid>, guid: string,
        name: string): seq<GuidString> {
    if |entries| >= max || parse(guid) == None then entries
    else entries + [GuidString(parse(guid).value, KeptName(guid, name))]
  }

  /** The first two fields of a line. */
  function LinePair(s: seq<char>, line: Span): Option<(string, string)> {
    if line.start <= line.end <= |s| then
      var fields := Runs(s, line.start, line.end, SPACE);
      if |fields| < 2 then None else Some((RunText(s, fields, 0), RunText(s, fields, 1)))
    else None
  }

  /** The table after the first n lines. */
  function NamesOf(s: seq<char>, lines: seq<Span>, n: nat, max: nat, parse: string -> Option<Guid>): seq<GuidString>
    requires n <= |lines|
  {
    if n == 0 then []
    else
      var entries := NamesOf(s, lines, n - 1, max, parse);
      match LinePair(s, lines[n - 1])
      case None => entries
      case Some(pair) => AddName(entries, max, parse, pair.0, pair.1)
  }

  /** The name a line gives: its first two fields, if it has two and the first is a GUID. */
  function NameOf(s: seq<char>, line: Span, parse: string -> Option<Guid>): Option<GuidString> {
    match LinePair(s, line)
    case None => None
    case Some(pair) =>
      if parse(pair.0) == None then None else Some(GuidString(parse(pair.0).value, KeptName(pair.0, pair.1)))
  }

  /** The names of the first n lines, without any bound. */
  function AllNames(s: seq<char>, lines: seq<Span>, n: nat, parse: string -> Option<Guid>): seq<GuidString>
    requires n <= |lines|
  {
    if n == 0 then []
    else
      var before := AllNames(s, lines, n - 1, parse);
      match NameOf(s, lines[n - 1], parse)
      case None => before
      case Some(name) => before + [name]
  }

  /** How many of the first n lines give a name. */
  function NamedLines(s: seq<char>, lines: seq<Span>, n: nat, parse: string -> Option<Guid>): nat
    requires n <= |lines|
  {
    if n == 0 then 0 else NamedLines(s, lines, n - 1, parse) + if NameOf(s, lines[n - 1], parse).Some? then 1 else 0
  }

  /**
   * A table of max entries has the first max names, so it has all of them exactly when no more than max lines give
   * one.
   */
  lemma {:induction false} TableIsPrefix(s: seq<char>, lines: seq<Span>, n: nat, max: nat,
        parse: string -> Option<Guid>)
    requires n <= |lines|
    ensures var all := AllNames(s, lines, n, parse);
      && |all| == NamedLines(s, lines, n, parse) <= n
      && NamesOf(s, lines, n, max, parse) == all[..if |all| < max then |all| else max]
    decreases n
  {
    hide LinePair, KeptName;
    if n > 0 {
      TableIsPrefix(s, lines, n - 1, max, parse);
    }
  }

  lemma NothingDroppedExactlyWhen(s: seq<char>, lines: seq<Span>, max: nat, parse: string -> Option<Guid>)
    ensures var n := |lines|;
      NamesOf(s, lines, n, max, parse) == AllNames(s, lines, n, parse) <==> NamedLines(s, lines, n, parse) <= max
  {
    hide NamesOf, AllNames, NamedLines;
    TableIsPrefix(s, lines, |lines|, max, parse);
  }

  // ---------- what a name is ----------

  lemma StrKept(guid: string, name: string)
    ensures KeptName(guid, name) ==
      if guid == "00000000-0000-0000-0000-000000000000" then "ZeroGuid"
      else name[..if |name| > 63 then 63 else |name|]
  {
    assert name[..|name|] == name;
  }

  /** The entry is for the first two fields of the line: the GUID, and no more than 63 characters of the name. */
  ghost predicate ComesFrom(s: seq<char>, x: Span, parse: string -> Option<Guid>, e: GuidString) {
    && x.start <= x.end <= |s| && |Runs(s, x.start, x.end, " ")| >= 2
    && var guid, name := FieldAt(s, x, 0), FieldAt(s, x, 1);
    && parse(guid) == Some(e.guid)
    && e.str == if guid == "00000000-0000-0000-0000-000000000000" then "ZeroGuid"
                else name[..if |name| > 63 then 63 else |name|]
  }

  function FieldAt(s: seq<char>, x: Span, k: nat): string
    requires x.start <= x.end <= |s| && k < |Runs(s, x.start, x.end, " ")|
  {
    var f := Runs(s, x.start, x.end, " ")[k];
    if f.start <= f.end <= |s| then s[f.start..f.end] else []
  }

  lemma NameComesFrom(s: seq<char>, x: Span, parse: string -> Option<Guid>)
    requires NameOf(s, x, parse).Some?
    ensures ComesFrom(s, x, parse, NameOf(s, x, parse).value)
  {
    hide Runs, KeptName;
    StrKept(LinePair(s, x).value.0, LinePair(s, x).value.1);
  }

  ghost predicate FromSomeLine(s: seq<char>, lines: seq<Span>, parse: string -> Option<Guid>, e: GuidString) {
    exists k :: 0 <= k < |lines| && ComesFrom(s, lines[k], parse, e)
  }

  /** Every name comes from a line. */
  lemma {:induction false} NamesComeFrom(s: seq<char>, lines: seq<Span>, n: nat, parse: string -> Option<Guid>)
    requires n <= |lines|
    ensures forall e :: e in AllNames(s, lines, n, parse) ==> FromSomeLine(s, lines, parse, e)
    decreases n
  {
    hide ComesFrom, NameOf;
    if n > 0 {
      NamesComeFrom(s, lines, n - 1, parse);
      if NameOf(s, lines[n - 1], parse).Some? {
        NameComesFrom(s, lines[n - 1], parse);
      }
    }
  }

  lemma NamesStep(s: seq<char>, lines: seq<Span>, n: nat, max: nat, parse: string -> Option<Guid>)
    requires n < |lines|
    ensures NamesOf(s, lines, n + 1, max, parse) ==
      match LinePair(s, lines[n])
      case None => NamesOf(s, lines, n, max, parse)
      case Some(pair) => AddName(NamesOf(s, lines, n, max, parse), max, parse, pair.0, pair.1)
  {
  }

  lemma NoNames(s: seq<char>, lines: seq<Span>, max: nat, parse: string -> Option<Guid>)
    ensures NamesOf(s, lines, 0, max, parse) == []
  {
  }

  /** The capacity of the table against the names and the lines of the file. */
  lemma Capacity(file: seq<char>, parse: string -> Option<Guid>)
    ensures var s, lines, max := FileText(file), FileLines(file), LineFeeds(file, 0, |file|) + 1;
      && NamesOf(s, lines, |lines|, max, parse) <= AllNames(s, lines, |lines|, parse)
      && (NamesOf(s, lines, |lines|, max, parse) == AllNames(s, lines, |lines|, parse) <==>
        NamedLines(s, lines, |lines|, parse) <= max)
      && (ReturnsFed(s, 0, StrEnd(s, 0)) ==> NamedLines(s, lines, |lines|, parse) <= |lines| <= max)
  {
    hide NamesOf, AllNames, NamedLines, Runs, LineFeeds, ReturnsFed;
    var s, lines, max := FileText(file), FileLines(file), LineFeeds(file, 0, |file|) + 1;
    var e := StrEnd(s, 0);
    TableIsPrefix(s, lines, |lines|, max, parse);
    LineFeedsAgree(s, file, 0, e);
    LineFeedsSplit(file, 0, e, |file|);
    if ReturnsFed(s, 0, e) {
      LinesFit(s, e);
    }
  }
}
