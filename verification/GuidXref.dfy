/** Cross-reference texts as they are written, one GUID and its name on a line, and reading them back. */
module GuidXref {
  import opened AsciiRuns
  import opened Options
  import opened Tokenizer
  import opened InPlaceSplit
  import opened GuidLines
  import opened GuidNames

  /** A GUID, its name, what else is on the line, and how the line ends. */
  datatype XrefLine = XrefLine(guid: string, name: string, more: string, ending: string)

  /** No line end and no terminator in it. */
  predicate OnOneLine(w: string) {
    forall i :: 0 <= i < |w| ==> w[i] != '\n' && w[i] != '\r' && w[i] != '\0'
  }

  predicate Word(w: string) {
    w != [] && OnOneLine(w) && forall i :: 0 <= i < |w| ==> w[i] != ' '
  }

  /** GUID and name are words, and a blank follows them if anything does. */
  predicate IsLine(x: XrefLine) {
    && Word(x.guid) && Word(x.name) && OnOneLine(x.more) && (x.more != [] ==> x.more[0] == ' ')
    && forall i :: 0 <= i < |x.ending| ==> x.ending[i] == '\n' || x.ending[i] == '\r'
  }

  /** Every line but the last has to be ended, by any line feeds and carriage returns. */
  predicate AreLines(xs: seq<XrefLine>) {
    forall i :: 0 <= i < |xs| ==> IsLine(xs[i]) && (i < |xs| - 1 ==> xs[i].ending != [])
  }

  function Body(x: XrefLine): string {
    x.guid + " " + x.name + x.more
  }

  function Text(xs: seq<XrefLine>): string {
    if xs == [] then [] else Body(xs[0]) + xs[0].ending + Text(xs[1..])
  }

  /** The names of the lines whose GUID can be read; of a name no more than 63 characters. */
  function NamesFor(xs: seq<XrefLine>, parse: string -> Option<Guid>): seq<GuidString> {
    if xs == [] then []
    else
      var x := xs[|xs| - 1];
      var str :=
        if x.guid == "00000000-0000-0000-0000-000000000000" then "ZeroGuid"
        else x.name[..if |x.name| > 63 then 63 else |x.name|];
      NamesFor(xs[..|xs| - 1], parse) + if parse(x.guid).Some? then [GuidString(parse(x.guid).value, str)] else []
  }

  /** The number of line feeds in a string. */
  function Feeds(w: string): nat {
    if w == [] then 0 else Feeds(w[..|w| - 1]) + if w[|w| - 1] == '\n' then 1 else 0
  }

  // ---------- where the lines are ----------

  function Spans(p: nat, xs: seq<XrefLine>): (r: seq<Span>)
    ensures |r| == |xs|
    decreases |xs|
  {
    if xs == [] then [] else [Span(p, p + |Body(xs[0])|)] + Spans(p + |Body(xs[0])| + |xs[0].ending|, xs[1..])
  }

  /** The string holds the text w at p. */
  ghost predicate TextAt(s: seq<char>, p: nat, w: string) {
    p + |w| <= |s| && s[p..p + |w|] == w
  }

  lemma TextAtConcat(s: seq<char>, p: nat, a: string, b: string)
    requires TextAt(s, p, a + b)
    ensures TextAt(s, p, a) && TextAt(s, p + |a|, b)
  {
    assert s[p..p + |a|] == s[p..p + |a + b|][..|a|] == (a + b)[..|a|];
    assert s[p + |a|..p + |a| + |b|] == s[p..p + |a + b|][|a|..] == (a + b)[|a|..];
  }

  lemma CharsAt(s: seq<char>, p: nat, w: string)
    requires TextAt(s, p, w)
    ensures forall i :: p <= i < p + |w| ==> s[i] == w[i - p]
  {
    assert forall i :: p <= i < p + |w| ==> s[i] == s[p..p + |w|][i - p];
  }

  lemma BodyOnOneLine(x: XrefLine)
    requires IsLine(x)
    ensures OnOneLine(Body(x)) && |Body(x)| > 2
  {
  }

  /** A line of the text is one run. */
  lemma LineRun(s: seq<char>, p: nat, e: nat, x: XrefLine)
    requires IsLine(x) && TextAt(s, p, Body(x)) && TextAt(s, p + |Body(x)|, x.ending)
    requires p + |Body(x)| + |x.ending| <= e <= |s| && (x.ending == [] ==> p + |Body(x)| == e)
    ensures Runs(s, p, e, LINE_ENDS) ==
      [Span(p, p + |Body(x)|)] + Runs(s, p + |Body(x)| + |x.ending|, e, LINE_ENDS)
  {
    hide *;
    var r := p + |Body(x)|;
    BodyOnOneLine(x);
    NoLineEndAt(s, p, Body(x));
    OnlyLineEndsAt(s, r, x);
    NextRun(s, p, p, r, e, LINE_ENDS);
    RunsSkip(s, r, r + |x.ending|, e, LINE_ENDS);
  }

  lemma NoLineEndAt(s: seq<char>, p: nat, w: string)
    requires OnOneLine(w) && TextAt(s, p, w)
    ensures p + |w| <= |s| && forall i :: p <= i < p + |w| ==> s[i] !in LINE_ENDS
  {
    CharsAt(s, p, w);
  }

  lemma OnlyLineEndsAt(s: seq<char>, p: nat, x: XrefLine)
    requires IsLine(x) && TextAt(s, p, x.ending)
    ensures p + |x.ending| <= |s| && forall i :: p <= i < p + |x.ending| ==> s[i] in LINE_ENDS
  {
    CharsAt(s, p, x.ending);
  }

  lemma {:induction false} LinesAre(s: seq<char>, p: nat, xs: seq<XrefLine>)
    requires AreLines(xs) && TextAt(s, p, Text(xs))
    ensures Runs(s, p, p + |Text(xs)|, LINE_ENDS) == Spans(p, xs)
    decreases |xs|
  {
    hide Runs, Body, IsLine;
    var e := p + |Text(xs)|;
    if xs == [] {
      NoRuns(s, p, LINE_ENDS);
    } else {
      var x := xs[0];
      TextAtConcat(s, p, Body(x) + x.ending, Text(xs[1..]));
      TextAtConcat(s, p, Body(x), x.ending);
      assert |xs| == 1 ==> Text(xs[1..]) == [];
      LineRun(s, p, e, x);
      LinesAre(s, p + |Body(x)| + |x.ending|, xs[1..]);
    }
  }

  // ---------- the two words of a line ----------

  lemma BodyParts(s: seq<char>, p: nat, x: XrefLine)
    requires IsLine(x) && TextAt(s, p, Body(x))
    ensures var q := p + |x.guid|; var r := q + 1 + |x.name|;
      && TextAt(s, p, x.guid) && TextAt(s, q + 1, x.name) && r <= p + |Body(x)| <= |s|
      && s[q] == ' ' && (r < p + |Body(x)| ==> s[r] == ' ')
  {
    var q := p + |x.guid|;
    TextAtConcat(s, p, x.guid + " " + x.name, x.more);
    TextAtConcat(s, p, x.guid + " ", x.name);
    TextAtConcat(s, p, x.guid, " ");
    CharsAt(s, q, " ");
    CharsAt(s, q + 1 + |x.name|, x.more);
  }

  lemma WordRun(s: seq<char>, p: nat, q: nat, e: nat, w: string)
    requires Word(w) && TextAt(s, q, w) && p <= q && q + |w| <= e <= |s|
    requires (q == p || (q == p + 1 && s[p] == ' ')) && (q + |w| < e ==> s[q + |w|] == ' ')
    ensures Runs(s, p, e, SPACE) == [Span(q, q + |w|)] + Runs(s, q + |w|, e, SPACE)
    ensures s[q..q + |w|] == w
  {
    CharsAt(s, q, w);
    hide Runs;
    NextRun(s, p, q, q + |w|, e, SPACE);
  }

  /** The two words are the first two fields, whatever follows them. */
  lemma WordsOfLine(s: seq<char>, p: nat, x: XrefLine)
    requires IsLine(x) && TextAt(s, p, Body(x))
    ensures LinePair(s, Span(p, p + |Body(x)|)) == Some((x.guid, x.name))
  {
    hide *;
    var e, q := p + |Body(x)|, p + |x.guid|;
    BodyParts(s, p, x);
    IsLineWords(x);
    WordRun(s, p, p, e, x.guid);
    WordRun(s, q, q + 1, e, x.name);
    PairFrom(s, p, e, Span(p, q), Span(q + 1, q + 1 + |x.name|), Runs(s, q + 1 + |x.name|, e, SPACE));
  }

  lemma IsLineWords(x: XrefLine)
    requires IsLine(x)
    ensures Word(x.guid) && Word(x.name)
  {
  }

  lemma PairFrom(s: seq<char>, p: nat, e: nat, a: Span, b: Span, rest: seq<Span>)
    requires p <= e <= |s| && a.start <= a.end <= e && b.start <= b.end <= e
    requires Runs(s, p, e, SPACE) == [a] + ([b] + rest)
    ensures LinePair(s, Span(p, e)) == Some((s[a.start..a.end], s[b.start..b.end]))
  {
    hide Runs;
  }

  lemma NameOfLine(s: seq<char>, p: nat, x: XrefLine, parse: string -> Option<Guid>)
    requires IsLine(x) && TextAt(s, p, Body(x))
    ensures NamesFor([x], parse) ==
      match NameOf(s, Span(p, p + |Body(x)|), parse)
      case None => []
      case Some(name) => [name]
  {
    WordsOfLine(s, p, x);
    StrKept(x.guid, x.name);
    hide LinePair, Body, IsLine, TextAt, KeptName;
    assert [x][..0] == [] && NamesFor([], parse) == [];
  }

  // ---------- all lines ----------

  /** Line i of the text is where its span says. */
  lemma {:induction false} LineAt(s: seq<char>, p: nat, xs: seq<XrefLine>, i: nat)
    requires AreLines(xs) && TextAt(s, p, Text(xs)) && i < |xs|
    ensures var x := Spans(p, xs)[i]; TextAt(s, x.start, Body(xs[i])) && x == Span(x.start, x.start + |Body(xs[i])|)
    decreases |xs|
  {
    hide Body, IsLine, TextAt;
    TextAtConcat(s, p, Body(xs[0]) + xs[0].ending, Text(xs[1..]));
    TextAtConcat(s, p, Body(xs[0]), xs[0].ending);
    if i > 0 {
      LineAt(s, p + |Body(xs[0])| + |xs[0].ending|, xs[1..], i - 1);
    }
  }

  lemma NamesForStep(xs: seq<XrefLine>, n: nat, parse: string -> Option<Guid>)
    requires n < |xs|
    ensures NamesFor(xs[..n + 1], parse) == NamesFor(xs[..n], parse) + NamesFor([xs[n]], parse)
  {
    assert xs[..n + 1][..n] == xs[..n] && xs[..n + 1][n] == xs[n];
    assert [xs[n]][..0] == [] && NamesFor([], parse) == [];
  }

  lemma {:induction false} NamesAre(s: seq<char>, p: nat, xs: seq<XrefLine>, n: nat, parse: string -> Option<Guid>)
    requires AreLines(xs) && TextAt(s, p, Text(xs)) && n <= |xs|
    ensures AllNames(s, Spans(p, xs), n, parse) == NamesFor(xs[..n], parse)
    decreases n
  {
    hide Body, TextAt, Spans, Text, NamesFor, NameOf, IsLine;
    if n == 0 {
      assert NamesFor([], parse) == [] by { NoNamesFor(parse); }
      assert xs[..0] == [];
    } else {
      NamesAre(s, p, xs, n - 1, parse);
      LineAt(s, p, xs, n - 1);
      NameOfLine(s, Spans(p, xs)[n - 1].start, xs[n - 1], parse);
      NamesForStep(xs, n - 1, parse);
    }
  }

  lemma NoNamesFor(parse: string -> Option<Guid>)
    ensures NamesFor([], parse) == []
  {
  }

  // ---------- the room ----------

  function AllFeeds(xs: seq<XrefLine>): nat {
    if xs == [] then 0 else Feeds(xs[0].ending) + AllFeeds(xs[1..])
  }

  lemma {:induction false} FeedsAt(s: seq<char>, p: nat, w: string)
    requires TextAt(s, p, w)
    ensures LineFeeds(s, p, p + |w|) == Feeds(w)
    decreases |w|
  {
    if w != [] {
      var n := |w| - 1;
      assert w == w[..n] + [w[n]];
      TextAtConcat(s, p, w[..n], [w[n]]);
      FeedsAt(s, p, w[..n]);
      LineFeedsSplit(s, p, p + n, p + n + 1);
      CharsAt(s, p + n, [w[n]]);
    }
  }

  lemma {:induction false} NoFeedsIn(w: string)
    requires OnOneLine(w)
    ensures Feeds(w) == 0
  {
    if w != [] {
      NoFeedsIn(w[..|w| - 1]);
    }
  }

  lemma {:induction false} AllFeedsAt(s: seq<char>, p: nat, xs: seq<XrefLine>)
    requires AreLines(xs) && TextAt(s, p, Text(xs))
    ensures LineFeeds(s, p, p + |Text(xs)|) == AllFeeds(xs)
    decreases |xs|
  {
    if xs != [] {
      var x, q := xs[0], p + |Body(xs[0])|;
      LineFeedsOf(s, p, x, Text(xs[1..]));
      hide *;
      TextStep(xs);
      TextAtConcat(s, p, Body(x) + x.ending, Text(xs[1..]));
      AllFeedsAt(s, q + |x.ending|, xs[1..]);
      LineFeedsSplit(s, p, q + |x.ending|, p + |Text(xs)|);
    } else {
      TextAtInside(s, p, []);
      NoLineFeeds(s, p);
    }
  }

  lemma TextStep(xs: seq<XrefLine>)
    requires xs != [] && AreLines(xs)
    ensures Text(xs) == Body(xs[0]) + xs[0].ending + Text(xs[1..]) && AreLines(xs[1..]) && IsLine(xs[0])
    ensures AllFeeds(xs) == Feeds(xs[0].ending) + AllFeeds(xs[1..])
  {
  }

  lemma LineFeedsOf(s: seq<char>, p: nat, x: XrefLine, rest: string)
    requires IsLine(x) && TextAt(s, p, Body(x) + x.ending + rest)
    ensures p + |Body(x)| + |x.ending| + |rest| <= |s|
    ensures LineFeeds(s, p, p + |Body(x)| + |x.ending|) == Feeds(x.ending)
  {
    BodyOnOneLine(x);
    TextAtInside(s, p, Body(x) + x.ending + rest);
    hide *;
    var q := p + |Body(x)|;
    TextAtConcat(s, p, Body(x) + x.ending, rest);
    TextAtConcat(s, p, Body(x), x.ending);
    FeedsAt(s, p, Body(x));
    NoFeedsIn(Body(x));
    FeedsAt(s, q, x.ending);
    LineFeedsSplit(s, p, q, q + |x.ending|);
  }

  lemma TextAtInside(s: seq<char>, p: nat, w: string)
    requires TextAt(s, p, w)
    ensures p + |w| <= |s|
  {
  }

  lemma NoLineFeeds(s: seq<char>, p: nat)
    requires p <= |s|
    ensures LineFeeds(s, p, p) == 0
  {
  }

  // ---------- the whole text ----------

  lemma {:induction false} TextHasNoEnd(xs: seq<XrefLine>)
    requires AreLines(xs)
    ensures forall i :: 0 <= i < |Text(xs)| ==> Text(xs)[i] != '\0'
    decreases |xs|
  {
    if xs != [] {
      BodyOnOneLine(xs[0]);
      TextHasNoEnd(xs[1..]);
      hide Body;
      var front := Body(xs[0]) + xs[0].ending;
      forall i | 0 <= i < |Text(xs)| ensures Text(xs)[i] != '\0' {
        assert Text(xs)[i] == if i < |front| then front[i] else Text(xs[1..])[i - |front|];
      }
    }
  }

  lemma FileIsText(xs: seq<XrefLine>)
    requires AreLines(xs)
    ensures var s := FileText(Text(xs)); TextAt(s, 0, Text(xs)) && Terminated(s, 0) && StrEnd(s, 0) == |Text(xs)|
    ensures LineFeeds(Text(xs), 0, |Text(xs)|) == AllFeeds(xs)
  {
    TextHasNoEnd(xs);
    hide Text, AreLines, LineFeeds, AllFeeds, StrEnd, Terminated;
    var s := FileText(Text(xs));
    StrEndIs(s, 0, |Text(xs)|);
    assert s[0..|Text(xs)|] == Text(xs) && Text(xs)[0..|Text(xs)|] == Text(xs);
    AllFeedsAt(Text(xs), 0, xs);
  }

  /** The names of a text that was written are those of its lines, in order. */
  lemma XrefIsRead(xs: seq<XrefLine>, parse: string -> Option<Guid>)
    requires AreLines(xs)
    ensures var s, lines := FileText(Text(xs)), FileLines(Text(xs));
      |lines| == |xs| && AllNames(s, lines, |lines|, parse) == NamesFor(xs, parse)
    ensures LineFeeds(Text(xs), 0, |Text(xs)|) == AllFeeds(xs)
  {
    hide Text, AreLines, LineFeeds, AllFeeds, StrEnd, Terminated, Runs, Spans, AllNames, NamesFor, FileText, TextAt;
    FileIsText(xs);
    LinesAre(FileText(Text(xs)), 0, xs);
    NamesAre(FileText(Text(xs)), 0, xs, |xs|, parse);
    assert xs[..|xs|] == xs;
  }

  /** The names for which there is room. */
  function FirstNames(xs: seq<XrefLine>, parse: string -> Option<Guid>): seq<GuidString> {
    var names := NamesFor(xs, parse);
    names[..if |names| < AllFeeds(xs) + 1 then |names| else AllFeeds(xs) + 1]
  }

  /** The table holds as many of them as there are line feeds, and one more. */
  lemma XrefTable(xs: seq<XrefLine>, parse: string -> Option<Guid>)
    requires AreLines(xs)
    ensures var file := Text(xs);
      var s, lines := FileText(file), FileLines(file);
      NamesOf(s, lines, |lines|, LineFeeds(file, 0, |file|) + 1, parse) == FirstNames(xs, parse)
  {
    hide Text, AreLines, LineFeeds, AllFeeds, AllNames, NamesOf, NamesFor, FileText, FileLines, NamedLines;
    XrefIsRead(xs, parse);
    TableIsPrefix(FileText(Text(xs)), FileLines(Text(xs)), |FileLines(Text(xs))|, AllFeeds(xs) + 1, parse);
  }

  lemma {:induction false} FeedEachLine(xs: seq<XrefLine>)
    requires forall i :: 0 <= i < |xs| - 1 ==> Feeds(xs[i].ending) > 0
    ensures |xs| <= AllFeeds(xs) + 1
    decreases |xs|
  {
    hide Feeds;
    if xs != [] {
      FeedEachLine(xs[1..]);
    }
  }

  lemma {:induction false} NamesForCount(xs: seq<XrefLine>, parse: string -> Option<Guid>)
    ensures |NamesFor(xs, parse)| <= |xs|
  {
    if xs != [] {
      NamesForCount(xs[..|xs| - 1], parse);
    }
  }

  /** With a line feed in every line end but the last the table has every name of the text, and no other. */
  lemma XrefRoundTrip(xs: seq<XrefLine>, parse: string -> Option<Guid>)
    requires AreLines(xs) && forall i :: 0 <= i < |xs| - 1 ==> Feeds(xs[i].ending) > 0
    ensures var file := Text(xs);
      var s, lines := FileText(file), FileLines(file);
      NamesOf(s, lines, |lines|, LineFeeds(file, 0, |file|) + 1, parse) == NamesFor(xs, parse)
  {
    hide Text, LineFeeds, AllFeeds, NamesOf, NamesFor, FileText, FileLines, Feeds, IsLine;
    XrefTable(xs, parse);
    FeedEachLine(xs);
    NamesForCount(xs, parse);
  }

  lemma TwoLinesText(x: XrefLine, y: XrefLine)
    requires Word(x.guid) && Word(x.name) && Word(y.guid) && Word(y.name)
    requires x.more == y.more == y.ending == "" && x.ending == "\r"
    ensures AreLines([x, y]) && AllFeeds([x, y]) == 0
    ensures Text([x, y]) == x.guid + " " + x.name + "\r" + y.guid + " " + y.name
  {
    assert [x, y][1..] == [y] && [y][1..] == [] && Text([]) == [] && AllFeeds([]) == 0;
    assert Feeds("") == 0 && "\r"[..0] == "" && Feeds("\r") == 0;
    assert Text([y]) == Body(y) && Text([x, y]) == Body(x) + "\r" + Text([y]);
  }

  lemma TwoLinesNames(x: XrefLine, y: XrefLine, parse: string -> Option<Guid>)
    requires parse(x.guid).Some? && parse(y.guid).Some?
    ensures var names := NamesFor([x, y], parse);
      && |names| == 2 && names[0].guid == parse(x.guid).value && names[1].guid == parse(y.guid).value
      && (x.guid != "00000000-0000-0000-0000-000000000000" && |x.name| < 64 ==> names[0].str == x.name)
      && (y.guid != "00000000-0000-0000-0000-000000000000" && |y.name| < 64 ==> names[1].str == y.name)
  {
    assert [x, y][..1] == [x] && [x][..0] == [] && NamesFor([], parse) == [];
    assert x.name[..|x.name|] == x.name && y.name[..|y.name|] == y.name;
  }

  /**
   * A name is dropped: of two lines, each with a GUID and a name, that a lone carriage return separates, the table has
   * room for the first only.
   */
  lemma DroppedName(g: string, a: string, h: string, b: string, parse: string -> Option<Guid>)
    requires Word(g) && Word(a) && Word(h) && Word(b) && parse(g).Some? && parse(h).Some?
    ensures var file := g + " " + a + "\r" + h + " " + b;
      var s, lines, max := FileText(file), FileLines(file), LineFeeds(file, 0, |file|) + 1;
      var names := AllNames(s, lines, |lines|, parse);
      && |names| == 2 && names[0].guid == parse(g).value && names[1].guid == parse(h).value
      && (g != "00000000-0000-0000-0000-000000000000" && |a| < 64 ==> names[0].str == a)
      && (h != "00000000-0000-0000-0000-000000000000" && |b| < 64 ==> names[1].str == b)
      && NamesOf(s, lines, |lines|, max, parse) == names[..1]
  {
    hide *;
    var x, y := XrefLine(g, a, "", "\r"), XrefLine(h, b, "", "");
    TwoLinesText(x, y);
    TwoLinesNames(x, y, parse);
    SecondDropped([x, y], parse);
  }

  lemma SecondDropped(xs: seq<XrefLine>, parse: string -> Option<Guid>)
    requires AreLines(xs) && |NamesFor(xs, parse)| == 2 && AllFeeds(xs) == 0
    ensures var file := Text(xs);
      var s, lines, max := FileText(file), FileLines(file), LineFeeds(file, 0, |file|) + 1;
      var names := AllNames(s, lines, |lines|, parse);
      names == NamesFor(xs, parse) && NamesOf(s, lines, |lines|, max, parse) == names[..1]
  {
    hide *;
    XrefIsRead(xs, parse);
    XrefTable(xs, parse);
    FirstNamesAre(xs, parse);
  }

  lemma FirstNamesAre(xs: seq<XrefLine>, parse: string -> Option<Guid>)
    ensures var names, n := NamesFor(xs, parse), AllFeeds(xs) + 1;
      FirstNames(xs, parse) == names[..if |names| < n then |names| else n]
  {
  }
}
