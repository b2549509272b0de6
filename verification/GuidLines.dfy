/** The lines of the cross-reference text, and the room the table has: one entry for each line feed, and one more. */
module GuidLines {
  import opened AsciiRuns
  import opened Options
  import opened Tokenizer
  import opened InPlaceSplit

  const LINE_ENDS := "\n\r"
  const SPACE := " "

  function LineFeeds(s: seq<char>, p: nat, e: nat): nat
    requires p <= e <= |s|
    decreases e - p
  {
    if p == e then 0 else (if s[p] == '\n' then 1 else 0) + LineFeeds(s, p + 1, e)
  }

  /** Every carriage return is followed by a line feed. */
  ghost predicate ReturnsFed(s: seq<char>, p: nat, e: nat)
    requires p <= e <= |s|
  {
    forall i :: p <= i < e && s[i] == '\r' ==> i + 1 < e && s[i + 1] == '\n'
  }

  lemma {:induction false} LineFeedsSplit(s: seq<char>, p: nat, q: nat, e: nat)
    requires p <= q <= e <= |s|
    ensures LineFeeds(s, p, e) == LineFeeds(s, p, q) + LineFeeds(s, q, e)
    decreases q - p
  {
    if p < q {
      LineFeedsSplit(s, p + 1, q, e);
    }
  }

  /** From a line end on, there is a line feed in front of every line. */
  lemma {:induction false} LinesBehindEnd(s: seq<char>, p: nat, e: nat)
    requires p <= e <= |s| && ReturnsFed(s, p, e) && (p < e ==> s[p] in LINE_ENDS)
    ensures |Runs(s, p, e, LINE_ENDS)| <= LineFeeds(s, p, e)
    decreases e - p
  {
    var q := SkipDelims(s, p, e, LINE_ENDS);
    if q < e {
      var r := RunEnd(s, q, e, LINE_ENDS);
      LinesBehindEnd(s, r, e);
      LineFeedsSplit(s, p, q, e);
      LineFeedsSplit(s, q, r, e);
      assert LineFeeds(s, p, q) >= 1 by {
        if s[p] == '\r' {
          LineFeedsSplit(s, p, p + 1, q);
        }
      }
    }
  }

  /** If every carriage return is followed by a line feed, there are at most as many lines as entries. */
  lemma LinesFit(s: seq<char>, e: nat)
    requires e <= |s| && ReturnsFed(s, 0, e)
    ensures |Runs(s, 0, e, LINE_ENDS)| <= LineFeeds(s, 0, e) + 1
  {
    var q := SkipDelims(s, 0, e, LINE_ENDS);
    if q < e {
      var r := RunEnd(s, q, e, LINE_ENDS);
      LinesBehindEnd(s, r, e);
      LineFeedsSplit(s, 0, r, e);
    }
  }

  /** Behind a line that ends at r: the breaks between lines that hold no line feed. */
  function BareBreaks(s: seq<char>, r: nat, e: nat): nat
    requires r <= e <= |s|
    decreases e - r
  {
    var q := SkipDelims(s, r, e, LINE_ENDS);
    if q == e then 0
    else (if LineFeeds(s, r, q) == 0 then 1 else 0) + BareBreaks(s, RunEnd(s, q, e, LINE_ENDS), e)
  }

  /** Behind a line that ends at r: the line feeds beyond the first of each break, and those behind the last line. */
  function SurplusFeeds(s: seq<char>, r: nat, e: nat): nat
    requires r <= e <= |s|
    decreases e - r
  {
    var q := SkipDelims(s, r, e, LINE_ENDS);
    var feeds := LineFeeds(s, r, q);
    if q == e then feeds
    else (if feeds == 0 then 0 else feeds - 1) + SurplusFeeds(s, RunEnd(s, q, e, LINE_ENDS), e)
  }

  /** Each line behind r is paid for by the first line feed of its break, or not at all. */
  lemma {:induction false} BreaksBalance(s: seq<char>, r: nat, e: nat)
    requires r <= e <= |s|
    ensures |Runs(s, r, e, LINE_ENDS)| + SurplusFeeds(s, r, e) == LineFeeds(s, r, e) + BareBreaks(s, r, e)
    decreases e - r
  {
    var q := SkipDelims(s, r, e, LINE_ENDS);
    if q < e {
      var next := RunEnd(s, q, e, LINE_ENDS);
      BreaksBalance(s, next, e);
      LineFeedsSplit(s, r, q, e);
      LineFeedsSplit(s, q, next, e);
      NoFeeds(s, q, next);
    }
  }

  /** Where the first line ends; the end of the text if there is none. */
  function FirstLineEnd(s: seq<char>, e: nat): (r: nat)
    requires e <= |s|
    ensures r <= e
  {
    RunEnd(s, SkipDelims(s, 0, e, LINE_ENDS), e, LINE_ENDS)
  }

  /**
   * There is an entry for every line exactly when the breaks without a line feed are no more than the spare line
   * feeds.
   */
  lemma LinesFitExactlyWhen(s: seq<char>, e: nat, more: nat)
    requires e <= |s|
    ensures var r := FirstLineEnd(s, e);
      |Runs(s, 0, e, LINE_ENDS)| <= LineFeeds(s, 0, e) + more + 1 <==>
        BareBreaks(s, r, e) <= LineFeeds(s, 0, r) + SurplusFeeds(s, r, e) + more
  {
    var q, r := SkipDelims(s, 0, e, LINE_ENDS), FirstLineEnd(s, e);
    LineFeedsSplit(s, 0, r, e);
    BreaksBalance(s, r, e);
    if q == e {
      assert Runs(s, 0, e, LINE_ENDS) == [] && Runs(s, r, e, LINE_ENDS) == [];
    }
  }

  /** A lone carriage return ends a line without making room for the next. */
  lemma LoneReturnsOverflow()
    ensures var s := "a\rb"; |Runs(s, 0, 3, LINE_ENDS)| == 2 && LineFeeds(s, 0, 3) + 1 == 1
  {
    var s := "a\rb";
    assert RunEnd(s, 0, 3, LINE_ENDS) == 1 && SkipDelims(s, 1, 3, LINE_ENDS) == 2 && RunEnd(s, 2, 3, LINE_ENDS) == 3;
    assert Runs(s, 3, 3, LINE_ENDS) == [];
    assert Runs(s, 1, 3, LINE_ENDS) == [Span(2, 3)];
    assert LineFeeds(s, 0, 3) == LineFeeds(s, 1, 3) == LineFeeds(s, 2, 3) == LineFeeds(s, 3, 3) == 0;
  }

  lemma {:induction false} NoFeeds(s: seq<char>, p: nat, e: nat)
    requires p <= e <= |s| && forall i :: p <= i < e ==> s[i] != '\n'
    ensures LineFeeds(s, p, e) == 0
    decreases e - p
  {
    if p < e {
      NoFeeds(s, p + 1, e);
    }
  }

  lemma {:induction false} LineFeedsAgree(s: seq<char>, t: seq<char>, p: nat, e: nat)
    requires p <= e <= |s| && e <= |t| && forall i :: p <= i < e ==> s[i] == t[i]
    ensures LineFeeds(s, p, e) == LineFeeds(t, p, e)
    decreases e - p
  {
    if p < e {
      LineFeedsAgree(s, t, p + 1, e);
    }
  }

  lemma NextRun(s: seq<char>, p: nat, q: nat, r: nat, e: nat, delims: string)
    requires p <= q < r <= e <= |s| && (forall i :: p <= i < q ==> s[i] in delims) &&
      (forall i :: q <= i < r ==> s[i] !in delims)
    requires r < e ==> s[r] in delims
    ensures Runs(s, p, e, delims) == [Span(q, r)] + Runs(s, r, e, delims)
  {
    RunsSkip(s, p, q, e, delims);
    RunsFirst(s, q, e, delims);
    hide Runs;
    var end := RunEnd(s, q, e, delims);
    assert !(end < r) && !(end > r);
  }

  // ---------- the file ----------

  /** The file in memory: two zero bytes follow what was read. */
  function FileText(file: seq<char>): (s: seq<char>)
    ensures Terminated(s, 0) && StrEnd(s, 0) <= |file|
  {
    TerminatedBefore(file + [NUL, NUL], |file|, 0);
    file + [NUL, NUL]
  }

  function FileLines(file: seq<char>): seq<Span> {
    Runs(FileText(file), 0, StrEnd(FileText(file), 0), LINE_ENDS)
  }

  /**
   * There is an entry for every line of the file exactly when the breaks without a line feed are no more than the
   * spare line feeds.
   */
  lemma FileLinesFitExactlyWhen(file: seq<char>)
    ensures var s := FileText(file); var e := StrEnd(s, 0); var r := FirstLineEnd(s, e);
      |FileLines(file)| <= LineFeeds(file, 0, |file|) + 1 <==>
        BareBreaks(s, r, e) <= LineFeeds(s, 0, r) + SurplusFeeds(s, r, e) + LineFeeds(file, e, |file|)
  {
    hide Runs, LineFeeds, BareBreaks, SurplusFeeds, FirstLineEnd, StrEnd;
    var s := FileText(file);
    var e := StrEnd(s, 0);
    LineFeedsAgree(s, file, 0, e);
    LineFeedsSplit(file, 0, e, |file|);
    LinesFitExactlyWhen(s, e, LineFeeds(file, e, |file|));
  }
}
