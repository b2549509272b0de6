/** The two tokenizers, which cut a text buffer in place and remember where they stopped. */
module Tokenizer {
  import opened AsciiRuns
  import opened Options

  /** What is left to tokenize from a cursor. */
  function Left(s: seq<char>, cursor: Option<nat>, delims: string): seq<Span>
    requires cursor.Some? ==> Terminated(s, cursor.value)
  {
    match cursor
    case None => []
    case Some(p) => Runs(s, p, StrEnd(s, p), delims)
  }

  /** s with the characters from lo to hi overwritten by terminators. */
  function Blanked(s: seq<char>, lo: nat, hi: nat): (r: seq<char>)
    requires lo <= hi <= |s|
    ensures |r| == |s| && forall i :: 0 <= i < |s| ==> r[i] == if lo <= i < hi then NUL else s[i]
  {
    seq(|s|, i requires 0 <= i < |s| => if lo <= i < hi then NUL else s[i])
  }

  lemma {:induction false} TerminatedBefore(s: seq<char>, e: nat, p: nat)
    requires p <= e < |s| && s[e] == NUL
    ensures Terminated(s, p) && StrEnd(s, p) <= e
    decreases e - p
  {
    if s[p] != NUL {
      TerminatedBefore(s, e, p + 1);
    }
  }

  lemma {:induction false} ScanAgree(s: seq<char>, t: seq<char>, p: nat, e: nat, delims: string)
    requires p <= e <= |s| && e <= |t| && forall i :: p <= i < e ==> s[i] == t[i]
    ensures SkipDelims(s, p, e, delims) == SkipDelims(t, p, e, delims)
    ensures RunEnd(s, p, e, delims) == RunEnd(t, p, e, delims)
    decreases e - p
  {
    if p < e {
      ScanAgree(s, t, p + 1, e, delims);
    }
  }

  /** The split of a piece of text depends on that piece alone. */
  lemma {:induction false} RunsAgree(s: seq<char>, t: seq<char>, p: nat, e: nat, delims: string)
    requires p <= e <= |s| && e <= |t| && forall i :: p <= i < e ==> s[i] == t[i]
    ensures Runs(s, p, e, delims) == Runs(t, p, e, delims)
    decreases e - p
  {
    var q := SkipDelims(s, p, e, delims);
    ScanAgree(s, t, p, e, delims);
    if q < e {
      ScanAgree(s, t, q, e, delims);
      RunsFirst(s, q, e, delims);
      RunsAgree(s, t, RunEnd(s, q, e, delims), e, delims);
    }
  }

  lemma {:induction false} SkipSkip(s: seq<char>, p: nat, q: nat, e: nat, delims: string)
    requires p <= q <= e <= |s| && forall i :: p <= i < q ==> s[i] in delims
    ensures SkipDelims(s, p, e, delims) == SkipDelims(s, q, e, delims)
    decreases q - p
  {
    if p < q {
      SkipSkip(s, p + 1, q, e, delims);
    }
  }

  /** Passing leading delimiters changes nothing. */
  lemma RunsSkip(s: seq<char>, p: nat, q: nat, e: nat, delims: string)
    requires p <= q <= e <= |s| && forall i :: p <= i < q ==> s[i] in delims
    ensures Runs(s, p, e, delims) == Runs(s, q, e, delims)
  {
    SkipSkip(s, p, q, e, delims);
    hide SkipDelims, RunEnd;
  }

  lemma NoRuns(s: seq<char>, e: nat, delims: string)
    requires e <= |s|
    ensures Runs(s, e, e, delims) == []
  {
  }

  /** A run that starts right at q is the first. */
  lemma RunsFirst(s: seq<char>, q: nat, e: nat, delims: string)
    requires q < e <= |s| && s[q] !in delims
    ensures var r := RunEnd(s, q, e, delims);
      SkipDelims(s, q, e, delims) == q < r && Runs(s, q, e, delims) == [Span(q, r)] + Runs(s, r, e, delims)
  {
  }

  /** Skipping the delimiters in front of the first run. */
  lemma SkipToFirstRun(s: seq<char>, p: nat, delims: string)
    requires Terminated(s, p)
    ensures var e := StrEnd(s, p); var q := SkipDelims(s, p, e, delims);
      && Terminated(s, q) && StrEnd(s, q) == e && (q == e <==> s[q] == NUL)
      && Left(s, Some(p), delims) == Left(s, Some(q), delims)
      && (q == e ==> Left(s, Some(p), delims) == [])
      && SkipDelims(s, q, e, delims) == q
  {
    var e := StrEnd(s, p);
    var q := SkipDelims(s, p, e, delims);
    StrEndIs(s, q, e);
    RunsSkip(s, p, q, e, delims);
  }

  /** Behind a cut at the delimiter r, the string and its split go on as before. */
  lemma BehindCut(s: seq<char>, t: seq<char>, r: nat, e: nat, delims: string)
    requires r < e < |s| == |t| && s[r] in delims
    requires forall i :: r < i <= e ==> s[i] == t[i] && (s[i] == NUL <==> i == e)
    ensures Terminated(t, r + 1) && StrEnd(t, r + 1) == e && Runs(t, r + 1, e, delims) == Runs(s, r, e, delims)
  {
    StrEndIs(t, r + 1, e);
    RunsSkip(s, r, r + 1, e, delims);
    RunsAgree(s, t, r + 1, e, delims);
  }

  lemma LeftIs(s: seq<char>, p: nat, delims: string)
    requires Terminated(s, p)
    ensures Left(s, Some(p), delims) == Runs(s, p, StrEnd(s, p), delims)
  {
  }

  /** Cutting behind the first run leaves the other runs to be found behind the cut. */
  lemma CutFirstRun(s: seq<char>, q: nat, e: nat, r: nat, delims: string)
    requires Terminated(s, q) && e == StrEnd(s, q) && r == RunEnd(s, q, e, delims)
    requires s[q] != NUL && s[q] !in delims && NUL !in delims
    ensures q < r && (r == e <==> s[r] == NUL)
    ensures Left(s, Some(q), delims) != [] && Left(s, Some(q), delims)[0] == Span(q, r)
    ensures r == e ==> Left(s, Some(q), delims)[1..] == []
    ensures r < e ==> Terminated(s[r := NUL], r + 1) && StrEnd(s[r := NUL], r + 1) == e
    ensures r < e ==> Left(s[r := NUL], Some(r + 1), delims) == Left(s, Some(q), delims)[1..]
  {
    RunsFirst(s, q, e, delims);
    hide Runs, RunEnd, SkipDelims, StrEnd, Terminated;
    var rest := Runs(s, r, e, delims);
    var left := Left(s, Some(q), delims);
    assert left == [Span(q, r)] + rest;
    assert left[1..] == rest;
    hide Left;
    if r == e {
      NoRuns(s, e, delims);
    } else {
      BehindCut(s, s[r := NUL], r, e, delims);
      LeftIs(s[r := NUL], r + 1, delims);
    }
  }

  /** One line token: it is the first run that is left, it alone is cut off, and the other runs stay to be found. */
  ghost predicate LineStep(s: seq<char>, start: Option<nat>, delims: string, token: Option<nat>, t: seq<char>,
        cursor: Option<nat>)
    requires start.Some? ==> Terminated(s, start.value)
  {
    var left := Left(s, start, delims);
    && (left == [] ==> token == None && cursor == None && t == s)
    && (left != [] ==> LineCut(s, StrEnd(s, start.value), left, delims, token, t, cursor))
  }

  /** The first of the runs left before e is the token, cut off right behind it. */
  ghost predicate LineCut(s: seq<char>, e: nat, left: seq<Span>, delims: string, token: Option<nat>, t: seq<char>,
        cursor: Option<nat>)
    requires left != []
  {
    var x := left[0];
    && x.start < x.end <= e < |s|
    && token == Some(x.start) && t == s[x.end := NUL]
    && cursor == (if x.end == e then None else Some(x.end + 1))
    && (cursor.Some? ==> Terminated(t, cursor.value) && StrEnd(t, cursor.value) == e)
    && Left(t, cursor, delims) == left[1..]
  }

  lemma FirstRunIsText(s: seq<char>, p: nat, delims: string)
    requires Terminated(s, p)
    ensures var left := Left(s, Some(p), delims);
      left != [] ==> p <= left[0].start < left[0].end <= StrEnd(s, p) && s[left[0].start] != NUL
  {
  }

  /** One cut at the first delimiter, which may leave an empty field. */
  ghost predicate FieldToken(s: seq<char>, start: Option<nat>, delims: string, token: Option<nat>, t: seq<char>,
        cursor: Option<nat>)
    requires start.Some? ==> Terminated(s, start.value)
  {
    if start == None || s[start.value] == NUL then token == None && cursor == None && t == s
    else FieldCut(s, start.value, start.value, StrEnd(s, start.value), delims, token, t, cursor)
  }

  /** What cutting the field at c leaves, once the delimiters from p to c have been cut off as empty fields. */
  ghost predicate FieldCut(s: seq<char>, p: nat, c: nat, e: nat, delims: string, token: Option<nat>, t: seq<char>,
        cursor: Option<nat>)
    requires p <= c < e < |s|
  {
    var r := RunEnd(s, c, e, delims);
    && token == Some(c) && t == Blanked(s, p, c)[r := NUL]
    && cursor == (if r == e then None else Some(r + 1))
    && (r < e ==> Terminated(t, r + 1) && StrEnd(t, r + 1) == e)
  }

  /** One field token: the first run that is left; the delimiters before it are cut off as well. */
  ghost predicate FieldStep(s: seq<char>, start: Option<nat>, delims: string, token: Option<nat>, t: seq<char>,
        cursor: Option<nat>)
    requires start.Some? ==> Terminated(s, start.value)
  {
    var left := Left(s, start, delims);
    if start == None then token == None && cursor == None && t == s
    else if left == [] then token == None && cursor == None && t == Blanked(s, start.value, StrEnd(s, start.value))
    else FirstCut(s, start.value, StrEnd(s, start.value), left, delims, token, t, cursor)
  }

  /** The first of the runs left in [p, e) is the token; what is before it is cut off, what is behind it is left. */
  ghost predicate FirstCut(s: seq<char>, p: nat, e: nat, left: seq<Span>, delims: string, token: Option<nat>,
        t: seq<char>, cursor: Option<nat>)
    requires left != []
  {
    var x := left[0];
    && p <= x.start < x.end <= e < |s|
    && token == Some(x.start) && t == Blanked(s, p, x.start)[x.end := NUL]
    && cursor == (if x.end == e then None else Some(x.end + 1))
    && (cursor.Some? ==> Terminated(t, cursor.value) && StrEnd(t, cursor.value) == e)
    && Left(t, cursor, delims) == left[1..]
  }

  /** Where passing over empty fields has come to: at c, or at the end of the string. */
  ghost predicate FieldsPassed(s: seq<char>, p: nat, c: nat, e: nat, delims: string, token: Option<nat>, t: seq<char>,
        cursor: Option<nat>)
    requires p <= c <= e < |s|
  {
    && (forall i :: p <= i < c ==> s[i] in delims)
    && (if c == e then token == None && t == Blanked(s, p, e) && cursor == None
        else FieldCut(s, p, c, e, delims, token, t, cursor))
  }

  /** An empty field is a delimiter cut off. */
  lemma EmptyField(s: seq<char>, p: nat, c: nat, e: nat, delims: string, t: seq<char>, cursor: Option<nat>)
    requires p <= c < e < |s| && NUL !in delims && s[c] != NUL && s[e] == NUL
    requires FieldsPassed(s, p, c, e, delims, Some(c), t, cursor) && t[c] == NUL
    ensures s[c] in delims && t == Blanked(s, p, c + 1) && cursor == Some(c + 1)
    ensures Terminated(t, c + 1) && StrEnd(t, c + 1) == e
  {
    assert RunEnd(s, c, e, delims) == c;
  }

  /** The next cut is made behind it. */
  lemma NextField(s: seq<char>, p: nat, c: nat, e: nat, delims: string, t: seq<char>, token: Option<nat>, u: seq<char>,
        cursor: Option<nat>)
    requires p < c <= e < |s| && s[e] == NUL && forall i :: p <= i < c ==> s[i] in delims
    requires t == Blanked(s, p, c) && Terminated(t, c) && StrEnd(t, c) == e
    requires FieldToken(t, Some(c), delims, token, u, cursor)
    ensures FieldsPassed(s, p, c, e, delims, token, u, cursor) && token == if c == e then None else Some(c)
  {
    ScanAgree(s, t, c, e, delims);
    hide RunEnd, Terminated, StrEnd;
    if c < e {
      var r := RunEnd(s, c, e, delims);
      assert u == Blanked(t, c, c)[r := NUL] == Blanked(s, p, c)[r := NUL];
    }
  }

  lemma CutsFirst(s: seq<char>, p: nat, c: nat, e: nat, r: nat, delims: string, token: Option<nat>, t: seq<char>,
        cursor: Option<nat>)
    requires p <= c < r <= e < |s| && r == RunEnd(s, c, e, delims)
    requires forall i :: p <= i <= e ==> (s[i] == NUL <==> i == e)
    requires FieldCut(s, p, c, e, delims, token, t, cursor)
    ensures FirstCut(s, p, e, [Span(c, r)] + Runs(s, r, e, delims), delims, token, t, cursor)
  {
    hide Runs, RunEnd, SkipDelims, StrEnd, Terminated;
    var left := [Span(c, r)] + Runs(s, r, e, delims);
    assert left[1..] == Runs(s, r, e, delims);
    if r < e {
      BehindCut(s, t, r, e, delims);
    } else {
      NoRuns(s, e, delims);
    }
  }

  /** A field that is not empty is the first run. */
  lemma FieldFound(s: seq<char>, p: nat, c: nat, e: nat, delims: string, token: Option<nat>, t: seq<char>,
        cursor: Option<nat>)
    requires Terminated(s, p) && e == StrEnd(s, p) && NUL !in delims && p <= c < e
    requires FieldsPassed(s, p, c, e, delims, token, t, cursor) && t[c] != NUL
    ensures FieldStep(s, Some(p), delims, token, t, cursor)
  {
    var r := RunEnd(s, c, e, delims);
    assert c < r;
    hide Runs, RunEnd, SkipDelims, StrEnd, Terminated, FirstCut;
    CutsFirst(s, p, c, e, r, delims, token, t, cursor);
    RunsSkip(s, p, c, e, delims);
    RunsFirst(s, c, e, delims);
  }

  lemma NoCursor(s: seq<char>, delims: string, token: Option<nat>, t: seq<char>, cursor: Option<nat>)
    requires FieldToken(s, None, delims, token, t, cursor)
    ensures FieldStep(s, None, delims, token, t, cursor)
  {
  }

  /** Where the first cut comes to. */
  lemma FirstField(s: seq<char>, p: nat, delims: string, token: Option<nat>, t: seq<char>, cursor: Option<nat>)
    requires Terminated(s, p) && FieldToken(s, Some(p), delims, token, t, cursor)
    ensures FieldsPassed(s, p, p, StrEnd(s, p), delims, token, t, cursor)
    ensures token == if s[p] == NUL then None else Some(p)
  {
  }

  /** Nothing but delimiters: no field, and all of them are cut off. */
  lemma NoField(s: seq<char>, p: nat, delims: string, token: Option<nat>, t: seq<char>, cursor: Option<nat>)
    requires Terminated(s, p) && FieldsPassed(s, p, StrEnd(s, p), StrEnd(s, p), delims, token, t, cursor)
    ensures FieldStep(s, Some(p), delims, token, t, cursor)
  {
    SkipToFirstRun(s, p, delims);
  }

  class Tokenizer {
    const text: array<char>
    var lineCursor: Option<nat>
    var fieldCursor: Option<nat>

    constructor (text: array<char>)
      ensures this.text == text && lineCursor == None && fieldCursor == None
    {
      this.text, lineCursor, fieldCursor := text, None, None;
    }

    /** The number of leading delimiters of the string at p. */
    method AsciiStrSpn(p: nat, delims: string) returns (count: nat)
      requires NUL !in delims && Terminated(text[..], p)
      ensures p + count == SkipDelims(text[..], p, StrEnd(text[..], p), delims)
    {
      ghost var s, e := text[..], StrEnd(text[..], p);
      count := 0;
      while text[p + count] != NUL
        invariant p + count <= e
        invariant SkipDelims(s, p + count, e, delims) == SkipDelims(s, p, e, delims)
        decreases e - count
      {
        var i := 0;
        while i < |delims| && text[p + count] != delims[i]
          invariant i <= |delims| && forall k :: 0 <= k < i ==> text[p + count] != delims[k]
        {
          i := i + 1;
        }
        if i == |delims| {
          return;
        }
        count := count + 1;
      }
    }

    /** The first delimiter of the string at p, if it has one. */
    method AsciiStrBrk(p: nat, delims: string) returns (found: Option<nat>)
      requires NUL !in delims && Terminated(text[..], p)
      ensures var e := StrEnd(text[..], p); var r := RunEnd(text[..], p, e, delims);
        found == if r == e then None else Some(r)
    {
      ghost var s, e := text[..], StrEnd(text[..], p);
      var i := p;
      while text[i] != NUL
        invariant p <= i <= e && RunEnd(s, i, e, delims) == RunEnd(s, p, e, delims)
        decreases e - i
      {
        var k := 0;
        while k < |delims|
          invariant k <= |delims| && forall l :: 0 <= l < k ==> text[i] != delims[l]
        {
          if text[i] == delims[k] {
            return Some(i);
          }
          k := k + 1;
        }
        i := i + 1;
      }
      return None;
    }

    /** The next line: skips delimiters, cuts behind the run that follows. */
    method AsciiStrTokenLine(str: Option<nat>, delims: string) returns (token: Option<nat>)
      requires NUL !in delims
      requires var start := if str == None then lineCursor else str; start.Some? ==> Terminated(text[..], start.value)
      modifies text, this`lineCursor
      ensures var start := if str == None then old(lineCursor) else str;
        LineStep(old(text[..]), start, delims, token, text[..], lineCursor)
    {
      hide Runs, RunEnd, SkipDelims, StrEnd, Terminated;
      ghost var s := text[..];
      var start := if str == None then lineCursor else str;
      if start == None {
        return None;
      }
      var begin := start.value;
      SkipToFirstRun(s, begin, delims);
      var count := AsciiStrSpn(begin, delims);
      begin := begin + count;
      if text[begin] == NUL {
        lineCursor := None;
        return None;
      }
      CutFirstRun(s, begin, StrEnd(s, begin), RunEnd(s, begin, StrEnd(s, begin), delims), delims);
      var end := AsciiStrBrk(begin, delims);
      if end.Some? && text[end.value] != NUL {
        text[end.value] := NUL;
        assert text[..] == s[end.value := NUL];
        end := Some(end.value + 1);
      } else {
        assert text[..] == s == s[StrEnd(s, begin) := NUL];
      }
      lineCursor := end;
      return Some(begin);
    }

    /** The next field: cuts at the first delimiter, which may be right at the start. */
    method AsciiStrTokenField(str: Option<nat>, delims: string) returns (token: Option<nat>)
      requires NUL !in delims
      requires var start := if str == None then fieldCursor else str; start.Some? ==> Terminated(text[..], start.value)
      modifies text, this`fieldCursor
      ensures FieldToken(old(text[..]), if str == None then old(fieldCursor) else str, delims,
                         token, text[..], fieldCursor)
    {
      ghost var s := text[..];
      var start := if str == None then fieldCursor else str;
      if start == None {
        return None;
      }
      var begin := start.value;
      if text[begin] == NUL {
        fieldCursor := None;
        return None;
      }
      ghost var e := StrEnd(s, begin);
      var end := AsciiStrBrk(begin, delims);
      if end.Some? && text[end.value] != NUL {
        text[end.value] := NUL;
        StrEndIs(text[..], end.value + 1, e);
        end := Some(end.value + 1);
      }
      fieldCursor := end;
      return Some(begin);
    }

    /**
     * AsciiStrGetNewTokenLine for a string, AsciiStrGetNextTokenLine for None. A line is never empty, so nothing is
     * retried.
     */
    method AsciiStrGetTokenLine(str: Option<nat>, delims: string) returns (token: Option<nat>)
      requires NUL !in delims
      requires var start := if str == None then lineCursor else str; start.Some? ==> Terminated(text[..], start.value)
      modifies text, this`lineCursor
      ensures var start := if str == None then old(lineCursor) else str;
        LineStep(old(text[..]), start, delims, token, text[..], lineCursor)
    {
      ghost var start := if str == None then lineCursor else str;
      if start.Some? {
        FirstRunIsText(text[..], start.value, delims);
      }
      token := AsciiStrTokenLine(str, delims);
      if token != None {
        if text[token.value] == NUL {
          assert false;
        }
      }
    }

    /** AsciiStrGetNewTokenField for a string, AsciiStrGetNextTokenField for None: empty fields are passed over. */
    method AsciiStrGetTokenField(str: Option<nat>, delims: string) returns (token: Option<nat>)
      requires NUL !in delims
      requires var start := if str == None then fieldCursor else str; start.Some? ==> Terminated(text[..], start.value)
      modifies text, this`fieldCursor
      ensures var start := if str == None then old(fieldCursor) else str;
        FieldStep(old(text[..]), start, delims, token, text[..], fieldCursor)
    {
      hide Runs, RunEnd, SkipDelims, Terminated, StrEnd, FieldStep, FieldToken, FieldsPassed, FieldCut, FirstCut, Left;
      hide Blanked;
      ghost var s := text[..];
      var start := if str == None then fieldCursor else str;
      token := AsciiStrTokenField(str, delims);
      if start == None {
        NoCursor(s, delims, token, text[..], fieldCursor);
        return;
      }
      ghost var p, c, e := start.value, start.value, StrEnd(s, start.value);
      FirstField(s, p, delims, token, text[..], fieldCursor);
      while token != None
        invariant p <= c <= e && token == (if c == e then None else Some(c))
        invariant (forall i :: p <= i < c ==> s[i] in delims) &&
          FieldsPassed(s, p, c, e, delims, token, text[..], fieldCursor)
        decreases e - c
      {
        if text[token.value] == NUL {
          EmptyField(s, p, c, e, delims, text[..], fieldCursor);
          c := c + 1;
          ghost var t := text[..];
          token := AsciiStrTokenField(None, delims);
          NextField(s, p, c, e, delims, t, token, text[..], fieldCursor);
        } else {
          break;
        }
      }
      if c == e {
        NoField(s, p, delims, token, text[..], fieldCursor);
      } else {
        FieldFound(s, p, c, e, delims, token, text[..], fieldCursor);
      }
    }
  }
}
