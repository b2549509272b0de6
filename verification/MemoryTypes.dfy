/** The heuristic that sizes the memory types for the next boot. */
module MemoryTypes {
  import opened Memory
  import opened Options

  /** EFI_MEMORY_TYPE_INFORMATION; a table ends at the first entry of the type EfiMaxMemoryType. */
  datatype Entry = Entry(typ: dword, pages: dword)

  predicate IsTable(t: seq<Entry>, max: dword) {
    exists i :: 0 <= i < |t| && t[i].typ == max
  }

  /** The pages the table has for the type. */
  function PagesOf(t: seq<Entry>, max: dword, typ: dword): Option<dword> {
    if t == [] || t[0].typ == max then None
    else if t[0].typ == typ then Some(t[0].pages)
    else PagesOf(t[1..], max, typ)
  }

  /** The pages for the next boot, from those allocated at this boot and those needed. */
  function Next(previous: dword, current: dword, defaults: bool): dword {
    var next :=
      if Wrap(current + current / 2) < previous then (if defaults then Wrap(current + current / 4) else previous)
      else if current > previous then Wrap(current + current / 4)
      else previous;
    if 0 < next < 4 then 4 else next
  }

  /** The adjusted table. */
  function Adjusted(previous: seq<Entry>, current: seq<Entry>, max: dword, defaults: bool): (r: seq<Entry>)
    ensures |r| == |previous|
  {
    if previous == [] || previous[0].typ == max then previous
    else [AdjustedEntry(previous[0], current, max, defaults)] + Adjusted(previous[1..], current, max, defaults)
  }

  function AdjustedEntry(e: Entry, current: seq<Entry>, max: dword, defaults: bool): Entry {
    match PagesOf(current, max, e.typ)
    case None => e
    case Some(pages) => e.(pages := Next(e.pages, pages, defaults))
  }

  /** The search for the type in the table of needed pages. */
  method Find(current: seq<Entry>, max: dword, typ: dword) returns (pages: Option<dword>)
    requires IsTable(current, max)
    ensures pages == PagesOf(current, max, typ)
  {
    var i := 0;
    while current[i].typ != max
      invariant i < |current| && PagesOf(current[i..], max, typ) == PagesOf(current, max, typ)
      invariant forall j :: 0 <= j < i ==> current[j].typ != max
      decreases |current| - i
    {
      if typ == current[i].typ {
        return Some(current[i].pages);
      }
      assert current[i..][1..] == current[i + 1..];
      i := i + 1;
    }
    return None;
  }

  /** What becomes of one entry. */
  method AdjustOne(e: Entry, current: seq<Entry>, max: dword, defaults: bool) returns (adjusted: Entry)
    requires IsTable(current, max)
    ensures adjusted == AdjustedEntry(e, current, max, defaults)
  {
    hide PagesOf, Next;
    var pages := Find(current, max, e.typ);
    adjusted := e;
    if pages.Some? {
      var next := Next(e.pages, pages.value, defaults);
      if next != e.pages {
        adjusted := Entry(e.typ, next);
      }
    }
  }

  /** One pass over the table, in place. */
  method Adjust(previous: array<Entry>, current: seq<Entry>, max: dword, defaults: bool) returns (modified: bool)
    requires IsTable(previous[..], max) && IsTable(current, max)
    modifies previous
    ensures previous[..] == Adjusted(old(previous[..]), current, max, defaults)
    ensures modified <==> previous[..] != old(previous[..])
  {
    hide Adjusted, AdjustedEntry, Progress;
    ghost var original := previous[..];
    modified := false;
    var i := 0;
    ProgressStarts(original, current, max, defaults);
    while previous[i].typ != max
      invariant i < previous.Length
      invariant Progress(previous[..], original, i, modified, current, max, defaults)
      decreases previous.Length - i
    {
      ghost var before, was := previous[..], modified;
      var e := AdjustOne(previous[i], current, max, defaults);
      if e != previous[i] {
        previous[i] := e;
        modified := true;
      }
      assert previous[..] == before[i := e];
      ProgressStep(before, original, i, was, e, current, max, defaults);
      i := i + 1;
    }
    ProgressEnds(previous[..], original, i, modified, current, max, defaults);
  }

  /** The entries before i are adjusted, the others are not yet; modified says whether there is a difference. */
  ghost predicate Progress(now: seq<Entry>, original: seq<Entry>, i: nat, modified: bool,
                           current: seq<Entry>, max: dword, defaults: bool) {
    && i < |now| == |original| && now[i..] == original[i..]
    && (exists j :: i <= j < |original| && original[j].typ == max)
    && now[..i] + Adjusted(original[i..], current, max, defaults) == Adjusted(original, current, max, defaults)
    && (modified <==> now != original)
  }

  lemma ProgressStarts(original: seq<Entry>, current: seq<Entry>, max: dword, defaults: bool)
    requires IsTable(original, max)
    ensures Progress(original, original, 0, false, current, max, defaults)
  {
    hide Adjusted;
    assert original[0..] == original;
  }

  lemma ProgressStep(now: seq<Entry>, original: seq<Entry>, i: nat, modified: bool, e: Entry,
                     current: seq<Entry>, max: dword, defaults: bool)
    requires Progress(now, original, i, modified, current, max, defaults)
    requires now[i].typ != max && e == AdjustedEntry(now[i], current, max, defaults)
    ensures i + 1 < |original| &&
      Progress(now[i := e], original, i + 1, modified || e != now[i], current, max, defaults)
  {
    hide Adjusted, AdjustedEntry;
    UpdateAt(now, original, i, e);
    AdjustStep(original, current, max, defaults, i);
  }

  lemma UpdateAt<T>(now: seq<T>, original: seq<T>, i: nat, e: T)
    requires i < |now| == |original| && now[i..] == original[i..]
    ensures now[i] == original[i]
    ensures now[i := e][..i + 1] == now[..i] + [e] && now[i := e][i + 1..] == original[i + 1..]
    ensures now[i := e] != original <==> now != original || e != now[i]
  {
    assert now[i] == now[i..][0] == original[i];
    assert now[i + 1..] == now[i..][1..] == original[i..][1..] == original[i + 1..];
    assert now[i := e][..i] == now[..i] && now[i := e][i] == e;
    assert now == now[..i] + now[i..] && original == original[..i] + original[i..];
  }

  lemma ProgressEnds(now: seq<Entry>, original: seq<Entry>, i: nat, modified: bool, current: seq<Entry>, max: dword,
        defaults: bool)
    requires Progress(now, original, i, modified, current, max, defaults) && now[i].typ == max
    ensures now == Adjusted(original, current, max, defaults) && (modified <==> now != original)
  {
    assert now[i] == now[i..][0] == original[i];
    assert Adjusted(original[i..], current, max, defaults) == original[i..];
    assert now == now[..i] + now[i..];
  }

  lemma AdjustStep(original: seq<Entry>, current: seq<Entry>, max: dword, defaults: bool, i: nat)
    requires i < |original| && original[i].typ != max
    ensures Adjusted(original[i..], current, max, defaults) ==
      [AdjustedEntry(original[i], current, max, defaults)] + Adjusted(original[i + 1..], current, max, defaults)
  {
    assert original[i..][1..] == original[i + 1..];
  }

  // ---------- what the heuristic gives ----------

  /**
   * The next boot has the pages needed, except when the 125% overflow, or when an overflow of the 150% hides a
   * shortage.
   */
  lemma EnoughPages(previous: dword, current: dword, defaults: bool)
    ensures Next(previous, current, defaults) >= current <==>
      if Wrap(current + current / 2) < previous && !defaults then previous >= current
      else Wrap(current + current / 2) < previous || current > previous ==> current + current / 4 < UINT32
  {
    assert Wrap(current + current / 4) ==
      if current + current / 4 < UINT32 then current + current / 4 else current + current / 4 - UINT32;
    assert Wrap(current + current / 2) ==
      if current + current / 2 < UINT32 then current + current / 2 else current + current / 2 - UINT32;
  }

  /**
   * What the next boot has, without overflow: a quarter more than needed if the pages were too few, or were more than
   * half as many again as needed and defaults are asked for; otherwise what it had; and four pages if that is less.
   */
  lemma NextExactly(previous: dword, current: dword, defaults: bool)
    requires current + current / 2 < 0x1_0000_0000
    ensures var wanted: nat := if previous < current || (defaults && previous > current + current / 2)
        then current + current / 4 else previous;
      Next(previous, current, defaults) == if 1 <= wanted <= 3 then 4 else wanted
  {
    NoWrap(current + current / 2);
    NoWrap(current + current / 4);
    hide Wrap;
  }

  /** A type that is found is found in its first entry, before the end of the table. */
  lemma {:induction false} FoundIsFirst(t: seq<Entry>, max: dword, typ: dword)
    ensures PagesOf(t, max, typ) == None <==> !exists i :: 0 <= i < |t| && IsFirst(t, max, typ, i)
    ensures forall i :: 0 <= i < |t| && IsFirst(t, max, typ, i) ==> PagesOf(t, max, typ) == Some(t[i].pages)
  {
    if t != [] && t[0].typ != max && t[0].typ != typ {
      FoundIsFirst(t[1..], max, typ);
      forall i | 0 < i < |t| ensures IsFirst(t, max, typ, i) <==> IsFirst(t[1..], max, typ, i - 1) {
        assert forall j :: 0 < j <= i ==> t[1..][j - 1] == t[j];
        assert forall j :: 0 <= j < i ==> t[1..][j] == t[j + 1];
      }
      assert !IsFirst(t, max, typ, 0);
      hide IsFirst;
      if i :| 0 <= i < |t| - 1 && IsFirst(t[1..], max, typ, i) {
        assert IsFirst(t, max, typ, i + 1);
      }
    } else if t != [] && t[0].typ != max {
      assert IsFirst(t, max, typ, 0);
    }
  }

  /** Entry i is of the type, and no entry before it is; and none up to it ends the table. */
  ghost predicate IsFirst(t: seq<Entry>, max: dword, typ: dword, i: nat)
    requires i < |t|
  {
    t[i].typ == typ && (forall j :: 0 <= j < i ==> t[j].typ != typ) && (forall j :: 0 <= j <= i ==> t[j].typ != max)
  }

  /** It fails: a need of about four billion pages is met with a quarter of them. */
  lemma TooFewPages()
    ensures Next(0, 0xFFFF_FFFF, false) == 0x3FFF_FFFE
  {
  }

  /** Once adjusted, a type stays as it is, whatever the numbers. */
  lemma NextIsStable(previous: dword, current: dword, defaults: bool)
    ensures var next := Next(previous, current, defaults); Next(next, current, defaults) == next
  {
    var quarter, half := Wrap(current + current / 4), Wrap(current + current / 2);
    assert quarter == if current + current / 4 < UINT32 then current + current / 4 else current + current / 4 - UINT32;
    assert half == if current + current / 2 < UINT32 then current + current / 2 else current + current / 2 - UINT32;
    hide Wrap;
  }

  /**
   * Every entry of the table before its end: types stay, unneeded types keep their pages, needed ones get what Next
   * says; what follows the end stays.
   */
  lemma {:induction false} EntryAdjusted(previous: seq<Entry>, current: seq<Entry>, max: dword, defaults: bool, i: nat)
    requires i < |previous|
    ensures Adjusted(previous, current, max, defaults)[i] ==
      if forall j :: 0 <= j <= i ==> previous[j].typ != max
      then AdjustedEntry(previous[i], current, max, defaults) else previous[i]
  {
    if previous[0].typ != max && i > 0 {
      EntryAdjusted(previous[1..], current, max, defaults, i - 1);
      assert forall j :: 0 < j <= i ==> previous[1..][j - 1] == previous[j];
      assert (forall j :: 0 <= j <= i ==> previous[j].typ != max) <==>
        (forall j :: 0 <= j <= i - 1 ==> previous[1..][j].typ != max);
    }
  }

  /** A second pass changes nothing. */
  lemma {:induction false} SecondPass(previous: seq<Entry>, current: seq<Entry>, max: dword, defaults: bool)
    ensures var once := Adjusted(previous, current, max, defaults); Adjusted(once, current, max, defaults) == once
  {
    hide Next, PagesOf;
    if previous != [] && previous[0].typ != max {
      SecondPass(previous[1..], current, max, defaults);
      var pages := PagesOf(current, max, previous[0].typ);
      if pages.Some? {
        NextIsStable(previous[0].pages, pages.value, defaults);
      }
      var once := Adjusted(previous, current, max, defaults);
      assert once[1..] == Adjusted(previous[1..], current, max, defaults);
    }
  }

  /** Without overflow, every needed type has enough after one pass. */
  lemma NeedsAreMet(previous: seq<Entry>, current: seq<Entry>, max: dword, defaults: bool, i: nat)
    requires i < |previous| && forall j :: 0 <= j <= i ==> previous[j].typ != max
    requires PagesOf(current, max, previous[i].typ).Some?
    requires var need := PagesOf(current, max, previous[i].typ).value; need + need / 2 < UINT32
    ensures Adjusted(previous, current, max, defaults)[i].pages >= PagesOf(current, max, previous[i].typ).value
  {
    hide Next, PagesOf, Wrap;
    var need := PagesOf(current, max, previous[i].typ).value;
    EntryAdjusted(previous, current, max, defaults, i);
    EnoughPages(previous[i].pages, need, defaults);
    assert Wrap(need + need / 2) == need + need / 2 by { NoWrap(need + need / 2); }
  }

  lemma NoWrap(x: nat)
    requires x < UINT32
    ensures Wrap(x) == x
  {
  }
}
