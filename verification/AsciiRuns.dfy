/** NUL-terminated text and its split into maximal delimiter-free runs. */
module AsciiRuns {

  const NUL := '\0'

  /** The text at p reaches a terminator inside the buffer. */
  predicate Terminated(s: seq<char>, p: nat)
    decreases |s| - p
  {
    p < |s| && (s[p] == NUL || Terminated(s, p + 1))
  }

  /** The index of the terminator of the string at p. */
  function StrEnd(s: seq<char>, p: nat): (e: nat)
    requires Terminated(s, p)
    ensures p <= e < |s| && s[e] == NUL && forall i :: p <= i < e ==> s[i] != NUL
    decreases |s| - p
  {
    if s[p] == NUL then p else StrEnd(s, p + 1)
  }

  /** The string a pointer to p denotes. */
  function CString(s: seq<char>, p: nat): string
    requires Terminated(s, p)
  {
    s[p..StrEnd(s, p)]
  }

  lemma {:induction false} StrEndIs(s: seq<char>, p: nat, e: nat)
    requires p <= e < |s| && s[e] == NUL && forall i :: p <= i < e ==> s[i] != NUL
    ensures Terminated(s, p) && StrEnd(s, p) == e
    decreases e - p
  {
    if p < e {
      StrEndIs(s, p + 1, e);
    }
  }

  /** A piece of text: the positions from start up to, not including, end. */
  datatype Span = Span(start: nat, end: nat)

  /** The first position from p on that is no delimiter, or e. */
  function SkipDelims(s: seq<char>, p: nat, e: nat, delims: string): (q: nat)
    requires p <= e <= |s|
    ensures p <= q <= e && (forall i :: p <= i < q ==> s[i] in delims) && (q < e ==> s[q] !in delims)
    decreases e - p
  {
    if p < e && s[p] in delims then SkipDelims(s, p + 1, e, delims) else p
  }

  /** The first delimiter from p on, or e. */
  function RunEnd(s: seq<char>, p: nat, e: nat, delims: string): (q: nat)
    requires p <= e <= |s|
    ensures p <= q <= e && (forall i :: p <= i < q ==> s[i] !in delims) && (q < e ==> s[q] in delims)
    decreases e - p
  {
    if p < e && s[p] !in delims then RunEnd(s, p + 1, e, delims) else p
  }

  /** The runs of s between p and e, left to right. */
  function Runs(s: seq<char>, p: nat, e: nat, delims: string): seq<Span>
    requires p <= e <= |s|
    decreases e - p
  {
    var q := SkipDelims(s, p, e, delims);
    if q == e then []
    else
      var r := RunEnd(s, q, e, delims);
      [Span(q, r)] + Runs(s, r, e, delims)
  }

  // ---------- what a split is, without saying how to compute it ----------

  /** A non-empty piece without delimiters that no delimiter-free piece of [p, e) exceeds. */
  ghost predicate IsMaximalRun(s: seq<char>, p: nat, e: nat, delims: string, x: Span)
    requires p <= e <= |s|
  {
    && p <= x.start < x.end <= e
    && (forall i :: x.start <= i < x.end ==> s[i] !in delims)
    && (x.start == p || s[x.start - 1] in delims)
    && (x.end == e || s[x.end] in delims)
  }

  ghost predicate Covered(i: nat, xs: seq<Span>) {
    exists k :: 0 <= k < |xs| && xs[k].start <= i < xs[k].end
  }

  /** All maximal runs, in order of position. */
  ghost predicate IsSplit(s: seq<char>, p: nat, e: nat, delims: string, xs: seq<Span>)
    requires p <= e <= |s|
  {
    && (forall k :: 0 <= k < |xs| ==> IsMaximalRun(s, p, e, delims, xs[k]))
    && (forall k, l :: 0 <= k < l < |xs| ==> xs[k].end <= xs[l].start)
    && (forall i :: p <= i < e && s[i] !in delims ==> Covered(i, xs))
  }

  /** Dropping the first run of a split, if its text is left behind. */
  lemma SplitTail(s: seq<char>, p: nat, e: nat, delims: string, xs: seq<Span>)
    requires p <= e <= |s| && xs != [] && IsSplit(s, p, e, delims, xs)
    requires p <= xs[0].end <= e
    ensures IsSplit(s, xs[0].end, e, delims, xs[1..])
  {
    var r := xs[0].end;
    forall k | 0 <= k < |xs| - 1 ensures IsMaximalRun(s, r, e, delims, xs[1..][k]) {
      var x := xs[k + 1];
      assert IsMaximalRun(s, p, e, delims, x) && r <= x.start;
    }
    forall i | r <= i < e && s[i] !in delims ensures Covered(i, xs[1..]) {
      assert Covered(i, xs);
      var k :| 0 <= k < |xs| && xs[k].start <= i < xs[k].end;
      assert xs[1..][k - 1] == xs[k];
    }
  }

  lemma SplitFirst(s: seq<char>, p: nat, e: nat, delims: string, xs: seq<Span>)
    requires p <= e <= |s| && IsSplit(s, p, e, delims, xs)
    ensures var q := SkipDelims(s, p, e, delims);
      if q == e then xs == [] else xs != [] && xs[0] == Span(q, RunEnd(s, q, e, delims))
  {
    var q := SkipDelims(s, p, e, delims);
    if xs != [] {
      assert IsMaximalRun(s, p, e, delims, xs[0]);
      assert s[xs[0].start] !in delims;
    }
    if q < e {
      assert Covered(q, xs);
      var k :| 0 <= k < |xs| && xs[k].start <= q < xs[k].end;
      assert IsMaximalRun(s, p, e, delims, xs[k]);
      assert k == 0;
      var r := RunEnd(s, q, e, delims);
      assert !(xs[0].end < r) && !(xs[0].end > r);
    }
  }

  /** Runs computes the split, and nothing else is one. */
  lemma {:induction false} RunsAreTheSplit(s: seq<char>, p: nat, e: nat, delims: string, xs: seq<Span>)
    requires p <= e <= |s|
    ensures IsSplit(s, p, e, delims, xs) <==> xs == Runs(s, p, e, delims)
    decreases e - p
  {
    var q := SkipDelims(s, p, e, delims);
    if IsSplit(s, p, e, delims, xs) {
      SplitFirst(s, p, e, delims, xs);
      if q < e {
        SplitTail(s, p, e, delims, xs);
        RunsAreTheSplit(s, xs[0].end, e, delims, xs[1..]);
        assert xs == [xs[0]] + xs[1..];
      }
    }
    if xs == Runs(s, p, e, delims) && q < e {
      var r := RunEnd(s, q, e, delims);
      RunsAreTheSplit(s, r, e, delims, xs[1..]);
      PrependRun(s, p, q, r, e, delims, xs);
    }
  }

  lemma PrependRun(s: seq<char>, p: nat, q: nat, r: nat, e: nat, delims: string, xs: seq<Span>)
    requires p <= q < r <= e <= |s| && (forall i :: p <= i < q ==> s[i] in delims)
    requires (forall i :: q <= i < r ==> s[i] !in delims) && (r < e ==> s[r] in delims)
    requires xs != [] && xs[0] == Span(q, r) && IsSplit(s, r, e, delims, xs[1..])
    ensures IsSplit(s, p, e, delims, xs)
  {
    forall k | 0 <= k < |xs| ensures IsMaximalRun(s, p, e, delims, xs[k]) {
      if k > 0 {
        assert IsMaximalRun(s, r, e, delims, xs[1..][k - 1]);
      }
    }
    forall k, l | 0 <= k < l < |xs| ensures xs[k].end <= xs[l].start {
      assert IsMaximalRun(s, r, e, delims, xs[1..][l - 1]);
      if k > 0 { assert xs[1..][k - 1].end <= xs[1..][l - 1].start; }
    }
    forall i | p <= i < e && s[i] !in delims ensures Covered(i, xs) {
      if i < r {
        assert xs[0].start <= i < xs[0].end;
      } else {
        assert Covered(i, xs[1..]);
        var k :| 0 <= k < |xs| - 1 && xs[1..][k].start <= i < xs[1..][k].end;
        assert xs[k + 1].start <= i < xs[k + 1].end;
      }
    }
  }
}
