/** Tokenizing a whole string: a first token, then next tokens until there is none. */
module InPlaceSplit {
  import opened AsciiRuns
  import opened Options
  import opened Tokenizer

  /** A run lies inside the string, has no delimiters, and is followed by one unless the string ends. */
  ghost predicate RunInside(s: seq<char>, p: nat, e: nat, delims: string, x: Span)
    requires p <= e <= |s|
  {
    && p <= x.start < x.end <= e && (x.end < e ==> s[x.end] in delims)
    && forall i :: x.start <= i < x.end ==> s[i] !in delims
  }

  lemma {:induction false} RunsInside(s: seq<char>, p: nat, e: nat, delims: string, k: nat)
    requires p <= e <= |s| && k < |Runs(s, p, e, delims)|
    ensures RunInside(s, p, e, delims, Runs(s, p, e, delims)[k])
    decreases k
  {
    if k > 0 {
      RunsInside(s, RunEnd(s, SkipDelims(s, p, e, delims), e, delims), e, delims, k - 1);
    }
  }

  /** Where field tokenizing stands: before the cursor every delimiter is blanked, behind it nothing is touched. */
  ghost predicate FieldProgress(s: seq<char>, p: nat, e: nat, delims: string, k: nat, t: seq<char>, cursor: Option<nat>)
    requires p <= e < |s|
  {
    var all := Runs(s, p, e, delims);
    var c := if cursor == None then e else cursor.value;
    && p <= c <= e && k <= |all|
    && (cursor.Some? ==> Terminated(t, c) && StrEnd(t, c) == e)
    && Left(t, cursor, delims) == all[k..]
    && (k > 0 && cursor.Some? ==> all[k - 1].end < c)
    && DelimsBlanked(s, p, c, delims, t)
  }

  /** Exactly the delimiters from p to c are overwritten. */
  ghost predicate DelimsBlanked(s: seq<char>, p: nat, c: nat, delims: string, t: seq<char>) {
    |t| == |s| && forall i :: 0 <= i < |s| ==> t[i] == if p <= i < c && s[i] in delims then NUL else s[i]
  }

  lemma BlankMore(s: seq<char>, p: nat, c: nat, x: Span, e: nat, delims: string, t: seq<char>, u: seq<char>)
    requires p <= c <= x.start < x.end <= e < |s| && s[e] == NUL && DelimsBlanked(s, p, c, delims, t)
    requires forall i :: c <= i < x.start ==> t[i] in delims
    requires forall i :: x.start <= i < x.end ==> s[i] !in delims
    requires x.end < e ==> s[x.end] in delims
    requires u == Blanked(t, c, x.start)[x.end := NUL]
    ensures DelimsBlanked(s, p, if x.end == e then e else x.end + 1, delims, u)
    ensures forall i :: x.start <= i < x.end ==> u[i] == s[i]
  {
  }

  /** A pointer to the start of the span now denotes the text the span had. */
  ghost predicate ReadsAs(s: seq<char>, u: seq<char>, x: Span) {
    && x.start <= x.end <= |s|
    && Terminated(u, x.start) && CString(u, x.start) == s[x.start..x.end]
  }

  lemma FirstRunStart(s: seq<char>, p: nat, e: nat, delims: string)
    requires p <= e <= |s| && Runs(s, p, e, delims) != []
    ensures p <= Runs(s, p, e, delims)[0].start <= e
    ensures forall i :: p <= i < Runs(s, p, e, delims)[0].start ==> s[i] in delims
  {
  }

  lemma CutReads(s: seq<char>, u: seq<char>, x: Span)
    requires x.start <= x.end < |u| <= |s| && u[x.end] == NUL
    requires forall i :: x.start <= i < x.end ==> u[i] == s[i] != NUL
    ensures ReadsAs(s, u, x)
  {
    StrEndIs(u, x.start, x.end);
  }

  /** When no run is left, the rest of the string is delimiters, and the last call blanks them. */
  lemma LastField(s: seq<char>, p: nat, e: nat, delims: string, k: nat,
      t: seq<char>, cursor: Option<nat>, token: Option<nat>, u: seq<char>, cursor': Option<nat>)
    requires p <= e < |s| && FieldProgress(s, p, e, delims, k, t, cursor) && k == |Runs(s, p, e, delims)|
    requires FieldStep(t, cursor, delims, token, u, cursor')
    ensures token == None && cursor' == None && FieldProgress(s, p, e, delims, k, u, None)
  {
    if cursor.Some? {
      SkipToFirstRun(t, cursor.value, delims);
      assert forall i :: cursor.value <= i < e ==> t[i] in delims by { NoRunsLeft(t, cursor.value, e, delims); }
    }
    hide Runs;
  }

  lemma NoRunsLeft(s: seq<char>, p: nat, e: nat, delims: string)
    requires p <= e <= |s| && Runs(s, p, e, delims) == []
    ensures forall i :: p <= i < e ==> s[i] in delims
  {
  }

  lemma FieldFoundNext(s: seq<char>, p: nat, e: nat, delims: string, k: nat,
      t: seq<char>, cursor: Option<nat>, token: Option<nat>, u: seq<char>, cursor': Option<nat>)
    requires p <= e < |s| && FieldProgress(s, p, e, delims, k, t, cursor) && k < |Runs(s, p, e, delims)|
    requires FieldStep(t, cursor, delims, token, u, cursor')
    ensures var all := Runs(s, p, e, delims);
      && cursor.Some? && cursor.value <= all[k].start && RunInside(s, p, e, delims, all[k])
      && (forall i :: cursor.value <= i < all[k].start ==> t[i] in delims)
      && FirstCut(t, cursor.value, e, all[k..], delims, token, u, cursor')
  {
    RunsInside(s, p, e, delims, k);
    FirstRunStart(t, cursor.value, e, delims);
    hide Runs, StrEnd, Terminated, FieldStep, FirstCut, DelimsBlanked;
    StepIsCut(t, cursor.value, e, delims, token, u, cursor');
  }

  lemma ProgressAfterCut(s: seq<char>, p: nat, e: nat, delims: string, k: nat,
      t: seq<char>, c: nat, token: Option<nat>, u: seq<char>, cursor: Option<nat>)
    requires p <= c <= e < |s| && s[e] == NUL && FieldProgress(s, p, e, delims, k, t, Some(c)) &&
      k < |Runs(s, p, e, delims)|
    requires var all := Runs(s, p, e, delims);
      c <= all[k].start && RunInside(s, p, e, delims, all[k]) && FirstCut(t, c, e, all[k..], delims, token, u, cursor)
    requires forall i :: c <= i < Runs(s, p, e, delims)[k].start ==> t[i] in delims
    ensures FieldProgress(s, p, e, delims, k + 1, u, cursor)
    ensures var x := Runs(s, p, e, delims)[k];
      |u| == |s| && u[x.end] == NUL && forall i :: x.start <= i < x.end ==> u[i] == s[i]
  {
    var all := Runs(s, p, e, delims);
    hide Runs, StrEnd, Terminated, Left;
    assert all[k..][1..] == all[k + 1..] && all[k..][0] == all[k];
    BlankMore(s, p, c, all[k], e, delims, t, u);
    hide DelimsBlanked;
  }

  /** The next field is the next run, readable as a string; the delimiters up to and behind it are blanked. */
  lemma NextField(s: seq<char>, p: nat, e: nat, delims: string, k: nat,
      t: seq<char>, cursor: Option<nat>, token: Option<nat>, u: seq<char>, cursor': Option<nat>)
    requires p <= e < |s| && s[e] == NUL && NUL !in delims && forall i :: p <= i < e ==> s[i] != NUL
    requires FieldProgress(s, p, e, delims, k, t, cursor) && k < |Runs(s, p, e, delims)|
    requires FieldStep(t, cursor, delims, token, u, cursor')
    ensures var x := Runs(s, p, e, delims)[k];
      token == Some(x.start) && FieldProgress(s, p, e, delims, k + 1, u, cursor') && ReadsAs(s, u, x)
  {
    FieldFoundNext(s, p, e, delims, k, t, cursor, token, u, cursor');
    hide Runs, StrEnd, Terminated, FieldStep, Left;
    ProgressAfterCut(s, p, e, delims, k, t, cursor.value, token, u, cursor');
    CutReads(s, u, Runs(s, p, e, delims)[k]);
    hide ReadsAs, FieldProgress;
  }

  /** The step of a string that has a run left. */
  lemma StepIsCut(t: seq<char>, c: nat, e: nat, delims: string, token: Option<nat>, u: seq<char>, cursor: Option<nat>)
    requires Terminated(t, c) && StrEnd(t, c) == e && FieldStep(t, Some(c), delims, token, u, cursor)
    requires Left(t, Some(c), delims) != []
    ensures FirstCut(t, c, e, Left(t, Some(c), delims), delims, token, u, cursor)
  {
  }

  // ---------- lines ----------

  /** Exactly the ends of the first k runs are overwritten. */
  ghost predicate EndsCut(s: seq<char>, all: seq<Span>, k: nat, t: seq<char>)
    requires k <= |all|
  {
    |t| == |s| && forall i :: 0 <= i < |s| ==> t[i] == if (exists j :: 0 <= j < k && all[j].end == i) then NUL else s[i]
  }

  /** Where line tokenizing stands: k runs have been found, and nothing from the cursor on is touched. */
  ghost predicate LineTail(s: seq<char>, p: nat, e: nat, delims: string, k: nat, t: seq<char>, cursor: Option<nat>)
    requires p <= e < |s|
  {
    var all := Runs(s, p, e, delims);
    var c := if cursor == None then e else cursor.value;
    && p <= c <= e && k <= |all| && |t| == |s|
    && (cursor.Some? ==> Terminated(t, c) && StrEnd(t, c) == e)
    && Left(t, cursor, delims) == all[k..]
    && (forall i :: c <= i < |s| ==> t[i] == s[i])
  }

  lemma CutMore(s: seq<char>, all: seq<Span>, k: nat, t: seq<char>)
    requires k < |all| && EndsCut(s, all, k, t) && all[k].end < |s|
    ensures EndsCut(s, all, k + 1, t[all[k].end := NUL])
  {
  }

  lemma NothingCut(s: seq<char>, all: seq<Span>)
    ensures EndsCut(s, all, 0, s)
  {
  }

  lemma StepIsLineCut(t: seq<char>, c: nat, e: nat, delims: string, token: Option<nat>, u: seq<char>,
        cursor: Option<nat>)
    requires Terminated(t, c) && StrEnd(t, c) == e && LineStep(t, Some(c), delims, token, u, cursor)
    requires Left(t, Some(c), delims) != []
    ensures LineCut(t, e, Left(t, Some(c), delims), delims, token, u, cursor)
  {
  }

  lemma LineFound(s: seq<char>, p: nat, e: nat, delims: string, k: nat,
      t: seq<char>, cursor: Option<nat>, token: Option<nat>, u: seq<char>, cursor': Option<nat>)
    requires p <= e < |s| && LineTail(s, p, e, delims, k, t, cursor) && k < |Runs(s, p, e, delims)|
    requires LineStep(t, cursor, delims, token, u, cursor')
    ensures var all := Runs(s, p, e, delims);
      && cursor.Some? && cursor.value <= all[k].start && RunInside(s, p, e, delims, all[k])
      && LineCut(t, e, all[k..], delims, token, u, cursor')
  {
    RunsInside(s, p, e, delims, k);
    FirstRunStart(t, cursor.value, e, delims);
    hide Runs, StrEnd, Terminated, LineStep, LineCut;
    StepIsLineCut(t, cursor.value, e, delims, token, u, cursor');
  }

  lemma TailAfterCut(s: seq<char>, p: nat, e: nat, delims: string, k: nat,
      t: seq<char>, c: nat, token: Option<nat>, u: seq<char>, cursor: Option<nat>)
    requires p <= e < |s| && s[e] == NUL && LineTail(s, p, e, delims, k, t, Some(c)) && k < |Runs(s, p, e, delims)|
    requires var all := Runs(s, p, e, delims); p <= all[k].start && LineCut(t, e, all[k..], delims, token, u, cursor)
    requires c <= Runs(s, p, e, delims)[k].start
    ensures LineTail(s, p, e, delims, k + 1, u, cursor)
  {
    var all := Runs(s, p, e, delims);
    hide Runs, StrEnd, Terminated;
    assert all[k..][1..] == all[k + 1..] && all[k..][0] == all[k];
  }

  /** The next line is the next run, readable as a string; only the character behind it is overwritten. */
  lemma NextLine(s: seq<char>, p: nat, e: nat, delims: string, k: nat,
      t: seq<char>, cursor: Option<nat>, token: Option<nat>, u: seq<char>, cursor': Option<nat>)
    requires p <= e < |s| && s[e] == NUL && forall i :: p <= i < e ==> s[i] != NUL
    requires LineTail(s, p, e, delims, k, t, cursor) && k < |Runs(s, p, e, delims)|
    requires LineStep(t, cursor, delims, token, u, cursor')
    ensures var x := Runs(s, p, e, delims)[k];
      && token == Some(x.start) && LineTail(s, p, e, delims, k + 1, u, cursor') && ReadsAs(s, u, x)
      && x.start < x.end <= e && u == t[x.end := NUL] && (cursor'.Some? ==> x.end < cursor'.value)
  {
    LineFound(s, p, e, delims, k, t, cursor, token, u, cursor');
    hide Runs, StrEnd, Terminated, LineStep, Left;
    TailAfterCut(s, p, e, delims, k, t, cursor.value, token, u, cursor');
    CutReads(s, u, Runs(s, p, e, delims)[k]);
    hide ReadsAs, LineTail;
  }

  /** When no run is left, there is no line, and nothing is overwritten. */
  lemma LastLine(s: seq<char>, p: nat, e: nat, delims: string, k: nat,
      t: seq<char>, cursor: Option<nat>, token: Option<nat>, u: seq<char>, cursor': Option<nat>)
    requires p <= e < |s| && LineTail(s, p, e, delims, k, t, cursor) && k == |Runs(s, p, e, delims)|
    requires LineStep(t, cursor, delims, token, u, cursor')
    ensures token == None && cursor' == None && u == t
  {
    hide Runs;
  }

  // ---------- whole strings ----------

  /** The text of the k-th run. */
  function RunText(s: seq<char>, all: seq<Span>, k: nat): string
    requires k < |all|
  {
    if all[k].start <= all[k].end <= |s| then s[all[k].start..all[k].end] else []
  }

  /** Between two calls for lines: n lines have been handed out, and token is the next. */
  ghost predicate LineState(s: seq<char>, p: nat, e: nat, delims: string, n: nat, token: Option<nat>, t: seq<char>,
        cursor: Option<nat>)
    requires p <= e < |s|
  {
    var all := Runs(s, p, e, delims);
    && n <= |all| && (token == None <==> n == |all|)
    && (token == None ==> EndsCut(s, all, |all|, t))
    && (token != None ==>
      && token == Some(all[n].start) && LineTail(s, p, e, delims, n + 1, t, cursor)
      && ReadsAs(s, t, all[n]) && EndsCut(s, all, n + 1, t))
  }

  lemma FirstLineState(s: seq<char>, p: nat, delims: string, token: Option<nat>, u: seq<char>, cursor: Option<nat>)
    requires Terminated(s, p) && LineStep(s, Some(p), delims, token, u, cursor)
    ensures LineState(s, p, StrEnd(s, p), delims, 0, token, u, cursor)
  {
    var e := StrEnd(s, p);
    var all := Runs(s, p, e, delims);
    assert all[0..] == all && LineTail(s, p, e, delims, 0, s, Some(p));
    hide Runs, ReadsAs, LineTail, EndsCut, LineStep;
    NothingCut(s, all);
    if all != [] {
      NextLine(s, p, e, delims, 0, s, Some(p), token, u, cursor);
      CutMore(s, all, 0, s);
    } else {
      LastLine(s, p, e, delims, 0, s, Some(p), token, u, cursor);
    }
  }

  lemma NextLineState(s: seq<char>, p: nat, e: nat, delims: string, n: nat,
      last: nat, t: seq<char>, cursor: Option<nat>, token: Option<nat>, u: seq<char>, cursor': Option<nat>)
    requires p <= e < |s| && s[e] == NUL && (forall i :: p <= i < e ==> s[i] != NUL)
    requires LineState(s, p, e, delims, n, Some(last), t, cursor) && (cursor.Some? ==> Terminated(t, cursor.value))
    requires LineStep(t, cursor, delims, token, u, cursor')
    ensures LineState(s, p, e, delims, n + 1, token, u, cursor')
  {
    var all := Runs(s, p, e, delims);
    LineStateHolds(s, p, e, delims, n, last, t, cursor);
    hide Runs, ReadsAs, EndsCut, LineTail, LineStep, LineState, Terminated;
    if n + 1 < |all| {
      NextLine(s, p, e, delims, n + 1, t, cursor, token, u, cursor');
      CutMore(s, all, n + 1, t);
      LineStateFrom(s, p, e, delims, n + 1, token, u, cursor');
    } else {
      LastLine(s, p, e, delims, n + 1, t, cursor, token, u, cursor');
      LineStateAtEnd(s, p, e, delims, u);
    }
  }

  lemma LineStateHolds(s: seq<char>, p: nat, e: nat, delims: string, n: nat, last: nat, t: seq<char>,
        cursor: Option<nat>)
    requires p <= e < |s| && LineState(s, p, e, delims, n, Some(last), t, cursor)
    ensures var all := Runs(s, p, e, delims);
      n < |all| && LineTail(s, p, e, delims, n + 1, t, cursor) && EndsCut(s, all, n + 1, t)
  {
    hide Runs, ReadsAs, EndsCut, LineTail;
  }

  lemma LineStateFrom(s: seq<char>, p: nat, e: nat, delims: string, n: nat, token: Option<nat>, t: seq<char>,
        cursor: Option<nat>)
    requires p <= e < |s| && n < |Runs(s, p, e, delims)|
    requires var all := Runs(s, p, e, delims);
      token == Some(all[n].start) && LineTail(s, p, e, delims, n + 1, t, cursor) && ReadsAs(s, t, all[n]) &&
        EndsCut(s, all, n + 1, t)
    ensures LineState(s, p, e, delims, n, token, t, cursor)
  {
    hide Runs, ReadsAs, EndsCut, LineTail;
  }

  lemma LineStateAtEnd(s: seq<char>, p: nat, e: nat, delims: string, t: seq<char>)
    requires p <= e < |s| && EndsCut(s, Runs(s, p, e, delims), |Runs(s, p, e, delims)|, t)
    ensures LineState(s, p, e, delims, |Runs(s, p, e, delims)|, None, t, None)
  {
    hide Runs, ReadsAs, EndsCut, LineTail;
  }

  lemma UseLine(s: seq<char>, p: nat, e: nat, delims: string, n: nat, token: nat, t: seq<char>, cursor: Option<nat>)
    requires p <= e < |s| && LineState(s, p, e, delims, n, Some(token), t, cursor)
    ensures Terminated(t, token) && CString(t, token) == RunText(s, Runs(s, p, e, delims), n)
    ensures cursor.Some? ==> Terminated(t, cursor.value)
  {
    hide Runs;
  }

  /** Splits the string at p into lines: a first token, then next tokens until there is none. */
  method AllLines(tk: Tokenizer, p: nat, delims: string) returns (tokens: seq<string>)
    requires NUL !in delims && Terminated(tk.text[..], p)
    modifies tk, tk.text
    ensures var s := old(tk.text[..]); var all := Runs(s, p, StrEnd(s, p), delims);
      && tokens == seq(|all|, k requires 0 <= k < |all| => RunText(s, all, k))
      && EndsCut(s, all, |all|, tk.text[..])
  {
    hide Runs, LineState, StrEnd, Terminated, LineStep, CString, RunText, EndsCut;
    ghost var s, e := tk.text[..], StrEnd(tk.text[..], p);
    ghost var all := Runs(s, p, e, delims);
    tokens := [];
    var token := tk.AsciiStrGetTokenLine(Some(p), delims);
    FirstLineState(s, p, delims, token, tk.text[..], tk.lineCursor);
    while token != None
      invariant |tokens| <= |all| && LineState(s, p, e, delims, |tokens|, token, tk.text[..], tk.lineCursor)
      invariant forall k :: 0 <= k < |tokens| ==> tokens[k] == RunText(s, all, k)
      decreases |all| - |tokens|
    {
      ghost var n, last, t, c := |tokens|, token.value, tk.text[..], tk.lineCursor;
      UseLine(s, p, e, delims, n, last, t, c);
      tokens := tokens + [CString(tk.text[..], token.value)];
      token := tk.AsciiStrGetTokenLine(None, delims);
      NextLineState(s, p, e, delims, n, last, t, c, token, tk.text[..], tk.lineCursor);
      StateBounds(s, p, e, delims, n + 1, token, tk.text[..], tk.lineCursor);
    }
    StateBounds(s, p, e, delims, |tokens|, None, tk.text[..], tk.lineCursor);
  }

  lemma StateBounds(s: seq<char>, p: nat, e: nat, delims: string, n: nat, token: Option<nat>, t: seq<char>,
        cursor: Option<nat>)
    requires p <= e < |s| && LineState(s, p, e, delims, n, token, t, cursor)
    ensures var all := Runs(s, p, e, delims);
      n <= |all| && (token == None ==> n == |all| && EndsCut(s, all, n, t))
  {
  }

  /** Between two calls for fields: n fields have been handed out, and token is the next. */
  ghost predicate FieldState(s: seq<char>, p: nat, e: nat, delims: string, n: nat, token: Option<nat>, t: seq<char>,
        cursor: Option<nat>)
    requires p <= e < |s|
  {
    var all := Runs(s, p, e, delims);
    && n <= |all| && (token == None <==> n == |all|)
    && (token == None ==> DelimsBlanked(s, p, e, delims, t))
    && (token != None ==>
      token == Some(all[n].start) && FieldProgress(s, p, e, delims, n + 1, t, cursor) && ReadsAs(s, t, all[n]))
  }

  lemma FirstFieldState(s: seq<char>, p: nat, delims: string, token: Option<nat>, u: seq<char>, cursor: Option<nat>)
    requires Terminated(s, p) && NUL !in delims && FieldStep(s, Some(p), delims, token, u, cursor)
    ensures FieldState(s, p, StrEnd(s, p), delims, 0, token, u, cursor)
  {
    var e := StrEnd(s, p);
    var all := Runs(s, p, e, delims);
    assert all[0..] == all && FieldProgress(s, p, e, delims, 0, s, Some(p));
    hide Runs, ReadsAs, FieldStep, DelimsBlanked;
    if all != [] {
      NextField(s, p, e, delims, 0, s, Some(p), token, u, cursor);
    } else {
      LastField(s, p, e, delims, 0, s, Some(p), token, u, cursor);
    }
  }

  lemma NextFieldState(s: seq<char>, p: nat, e: nat, delims: string, n: nat,
      last: nat, t: seq<char>, cursor: Option<nat>, token: Option<nat>, u: seq<char>, cursor': Option<nat>)
    requires p <= e < |s| && s[e] == NUL && NUL !in delims && (forall i :: p <= i < e ==> s[i] != NUL)
    requires FieldState(s, p, e, delims, n, Some(last), t, cursor) && (cursor.Some? ==> Terminated(t, cursor.value))
    requires FieldStep(t, cursor, delims, token, u, cursor')
    ensures FieldState(s, p, e, delims, n + 1, token, u, cursor')
  {
    hide Runs, ReadsAs, FieldStep, DelimsBlanked;
    if n + 1 < |Runs(s, p, e, delims)| {
      NextField(s, p, e, delims, n + 1, t, cursor, token, u, cursor');
    } else {
      LastField(s, p, e, delims, n + 1, t, cursor, token, u, cursor');
    }
  }

  lemma UseField(s: seq<char>, p: nat, e: nat, delims: string, n: nat, token: nat, t: seq<char>, cursor: Option<nat>)
    requires p <= e < |s| && FieldState(s, p, e, delims, n, Some(token), t, cursor)
    ensures Terminated(t, token) && CString(t, token) == RunText(s, Runs(s, p, e, delims), n)
    ensures cursor.Some? ==> Terminated(t, cursor.value)
  {
    hide Runs;
  }

  lemma FieldStateBounds(s: seq<char>, p: nat, e: nat, delims: string, n: nat, token: Option<nat>, t: seq<char>,
        cursor: Option<nat>)
    requires p <= e < |s| && FieldState(s, p, e, delims, n, token, t, cursor)
    ensures var all := Runs(s, p, e, delims);
      n <= |all| && (token == None ==> n == |all| && DelimsBlanked(s, p, e, delims, t))
  {
  }

  /** Splits the string at p into fields: a first token, then next tokens until there is none. */
  method AllFields(tk: Tokenizer, p: nat, delims: string) returns (tokens: seq<string>)
    requires NUL !in delims && Terminated(tk.text[..], p)
    modifies tk, tk.text
    ensures var s := old(tk.text[..]); var all := Runs(s, p, StrEnd(s, p), delims);
      && tokens == seq(|all|, k requires 0 <= k < |all| => RunText(s, all, k))
      && DelimsBlanked(s, p, StrEnd(s, p), delims, tk.text[..])
  {
    hide Runs, FieldState, StrEnd, Terminated, FieldStep, CString, RunText, DelimsBlanked;
    ghost var s, e := tk.text[..], StrEnd(tk.text[..], p);
    ghost var all := Runs(s, p, e, delims);
    tokens := [];
    var token := tk.AsciiStrGetTokenField(Some(p), delims);
    FirstFieldState(s, p, delims, token, tk.text[..], tk.fieldCursor);
    while token != None
      invariant |tokens| <= |all| && FieldState(s, p, e, delims, |tokens|, token, tk.text[..], tk.fieldCursor)
      invariant forall k :: 0 <= k < |tokens| ==> tokens[k] == RunText(s, all, k)
      decreases |all| - |tokens|
    {
      ghost var n, last, t, c := |tokens|, token.value, tk.text[..], tk.fieldCursor;
      UseField(s, p, e, delims, n, last, t, c);
      tokens := tokens + [CString(tk.text[..], token.value)];
      token := tk.AsciiStrGetTokenField(None, delims);
      NextFieldState(s, p, e, delims, n, last, t, c, token, tk.text[..], tk.fieldCursor);
      FieldStateBounds(s, p, e, delims, n + 1, token, tk.text[..], tk.fieldCursor);
    }
    FieldStateBounds(s, p, e, delims, |tokens|, None, tk.text[..], tk.fieldCursor);
  }
}
