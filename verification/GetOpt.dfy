/** The option scanner, and what it makes of an argument vector that was printed from options and operands. */
module GetOpt {
  import opened Options

  /** A string as C has it: no NUL inside. */
  type CString = s: string | '\0' !in s

  type Letter = c: char | c != '\0' witness 'a'

  function CharAt(s: CString, i: nat): char {
    if i < |s| then s[i] else '\0'
  }

  /** GET_OPT_CONTEXT. */
  datatype State = State(opt: char, optArg: Option<CString>, optIndex: nat)

  const START := State('\0', None, 1)

  predicate TakesArgument(withArgs: Option<CString>, c: char) {
    withArgs.Some? && c in withArgs.value
  }

  /** Whether the argument vector has an option at i, and whether it has a lone dash there. */
  predicate IsOption(argv: seq<CString>, i: nat) {
    i < |argv| && CharAt(argv[i], 0) == '-' && CharAt(argv[i], 1) != '\0'
  }

  predicate IsLoneDash(argv: seq<CString>, i: nat) {
    i < |argv| && argv[i] == "-"
  }

  /** The state after an option has been read. */
  function AfterOption(argv: seq<CString>, withArgs: Option<CString>, s: State): (r: State)
    requires IsOption(argv, s.optIndex)
    ensures s.optIndex < r.optIndex <= |argv|
  {
    var i, c := s.optIndex, CharAt(argv[s.optIndex], 1);
    if !TakesArgument(withArgs, c) then State(c, s.optArg, i + 1)
    else if |argv[i]| > 2 then State(c, Some(argv[i][2..]), i + 1)
    else if i + 1 < |argv| && CharAt(argv[i + 1], 0) != '-' then State(c, Some(argv[i + 1]), i + 2)
    else State(c, None, i + 1)
  }

  class Context {
    var opt: char
    var optArg: Option<CString>
    var optIndex: nat

    ghost function Value(): State
      reads this
    {
      State(opt, optArg, optIndex)
    }

    constructor ()
      ensures Value() == START
    {
      opt, optArg, optIndex := '\0', None, 1;
    }

    /** Reads one option; at an operand, at a lone dash, which is skipped, and at the end there is none. */
    method GetOpt(argv: seq<CString>, withArgs: Option<CString>) returns (success: bool)
      modifies this
      ensures success == IsOption(argv, old(optIndex))
      ensures success ==> Value() == AfterOption(argv, withArgs, old(Value()))
      ensures !success ==>
        Value() == old(Value()).(optIndex := old(optIndex) + if IsLoneDash(argv, old(optIndex)) then 1 else 0)
      ensures old(optIndex) <= |argv| ==> optIndex <= |argv|
    {
      if optIndex >= |argv| || CharAt(argv[optIndex], 0) != '-' {
        return false;
      }
      if CharAt(argv[optIndex], 1) == '\0' {
        optIndex := optIndex + 1;
        return false;
      }
      var skipCount: nat := 1;
      opt := CharAt(argv[optIndex], 1);
      if withArgs.Some? {
        var index := 0;
        while index < |withArgs.value|
          invariant index <= |withArgs.value| && opt !in withArgs.value[..index]
          invariant unchanged(`optArg) && unchanged(`optIndex)
        {
          if withArgs.value[index] == opt {
            if CharAt(argv[optIndex], 2) != '\0' {
              optArg := Some(argv[optIndex][2..]);
            } else if optIndex + 1 < |argv| && CharAt(argv[optIndex + 1], 0) != '-' {
              optArg := Some(argv[optIndex + 1]);
              skipCount := skipCount + 1;
            } else {
              optArg := None;
            }
            break;
          }
          index := index + 1;
        }
        assert index == |withArgs.value| ==> withArgs.value[..index] == withArgs.value;
      }
      optIndex := optIndex + skipCount;
      success := true;
    }

    /** Scans until there are no more options. The option's argument counts only for an option that takes one. */
    method Scan(argv: seq<CString>, withArgs: Option<CString>) returns (items: seq<Item>)
      modifies this
      ensures items == Scanned(argv, withArgs, old(Value()))
      ensures optIndex == StopsAt(argv, withArgs, old(Value()))
    {
      hide AfterOption, Scanned, StopsAt, IsOption, IsLoneDash, ItemOf;
      items := [];
      while true
        invariant items + Scanned(argv, withArgs, Value()) == Scanned(argv, withArgs, old(Value()))
        invariant StopsAt(argv, withArgs, Value()) == StopsAt(argv, withArgs, old(Value()))
        decreases |argv| - optIndex
      {
        ScanStep(argv, withArgs, Value());
        var success := GetOpt(argv, withArgs);
        if !success {
          return;
        }
        items := items + [ItemOf(withArgs, State(opt, optArg, optIndex))];
      }
    }
  }

  // ---------- whole scans ----------

  datatype Item = Item(opt: char, arg: Option<CString>)

  /** The option just read; its argument counts only if it takes one. */
  function ItemOf(withArgs: Option<CString>, s: State): Item {
    Item(s.opt, if TakesArgument(withArgs, s.opt) then s.optArg else None)
  }

  /** The options a scan yields. */
  function Scanned(argv: seq<CString>, withArgs: Option<CString>, s: State): seq<Item>
    decreases |argv| - s.optIndex
  {
    if IsOption(argv, s.optIndex) then
      var next := AfterOption(argv, withArgs, s);
      [ItemOf(withArgs, next)] + Scanned(argv, withArgs, next)
    else []
  }

  /** The index it stops at. */
  function StopsAt(argv: seq<CString>, withArgs: Option<CString>, s: State): nat
    decreases |argv| - s.optIndex
  {
    if IsOption(argv, s.optIndex) then StopsAt(argv, withArgs, AfterOption(argv, withArgs, s))
    else s.optIndex + if IsLoneDash(argv, s.optIndex) then 1 else 0
  }

  lemma ScanStep(argv: seq<CString>, withArgs: Option<CString>, s: State)
    ensures IsOption(argv, s.optIndex) ==>
      var next := AfterOption(argv, withArgs, s);
      Scanned(argv, withArgs, s) == [ItemOf(withArgs, next)] + Scanned(argv, withArgs, next) &&
      StopsAt(argv, withArgs, s) == StopsAt(argv, withArgs, next)
    ensures !IsOption(argv, s.optIndex) ==>
      Scanned(argv, withArgs, s) == [] &&
        StopsAt(argv, withArgs, s) == s.optIndex + if IsLoneDash(argv, s.optIndex) then 1 else 0
  {
    hide AfterOption;
  }

  /** An option on the command line; text behind a flag's letter is ignored. */
  datatype Given =
    | Flag(opt: Letter, ignored: CString)
    | Attached(opt: Letter, arg: CString)
    | Separate(opt: Letter, arg: CString)
    | Bare(opt: Letter)

  function Meaning(g: Given): Item {
    match g
    case Flag(c, _) => Item(c, None)
    case Attached(c, arg) => Item(c, Some(arg))
    case Separate(c, arg) => Item(c, Some(arg))
    case Bare(c) => Item(c, None)
  }

  predicate Proper(withArgs: Option<CString>, g: Given) {
    && (g.Flag? <==> !TakesArgument(withArgs, g.opt))
    && (g.Attached? ==> g.arg != "")
    && (g.Separate? ==> CharAt(g.arg, 0) != '-')
  }

  function Print(g: Given): seq<CString> {
    match g
    case Flag(c, text) => [['-', c] + text]
    case Attached(c, arg) => [['-', c] + arg]
    case Separate(c, arg) => [['-', c], arg]
    case Bare(c) => [['-', c]]
  }

  function PrintAll(gs: seq<Given>): seq<CString> {
    if gs == [] then [] else Print(gs[0]) + PrintAll(gs[1..])
  }

  /** The operands do not begin with something that looks like an option. */
  predicate AreOperands(operands: seq<CString>) {
    !IsOption(operands, 0)
  }

  /** A bare option, whose argument is missing, must not be followed by something that could be the argument. */
  predicate NothingTaken(gs: seq<Given>, operands: seq<CString>) {
    gs != [] && gs[|gs| - 1].Bare? && operands != [] ==> CharAt(operands[0], 0) == '-'
  }

  ghost predicate AllProper(withArgs: Option<CString>, gs: seq<Given>) {
    forall i :: 0 <= i < |gs| ==> Proper(withArgs, gs[i])
  }

  /** One printed option is read back, and exactly its words are consumed. */
  lemma OneOption(argv: seq<CString>, withArgs: Option<CString>, g: Given, tail: seq<CString>, s: State)
    requires Proper(withArgs, g) && s.optIndex <= |argv| && argv[s.optIndex..] == Print(g) + tail
    requires g.Bare? && tail != [] ==> CharAt(tail[0], 0) == '-'
    ensures IsOption(argv, s.optIndex)
    ensures ReadsBack(withArgs, g, s.optIndex, AfterOption(argv, withArgs, s))
    ensures AfterOption(argv, withArgs, s).optArg == if g.Flag? then s.optArg else Meaning(g).arg
  {
    hide TakesArgument;
    var i, word := s.optIndex, Print(g)[0];
    assert argv[i] == argv[i..][0] == word;
    assert word == ['-', g.opt] + word[2..];
    if g.Separate? {
      assert argv[i + 1] == argv[i..][1] == g.arg;
    } else if tail != [] {
      assert argv[i + 1] == argv[i..][1] == tail[0];
    } else {
      assert |argv[i..]| == 1;
    }
  }

  ghost predicate ReadsBack(withArgs: Option<CString>, g: Given, before: nat, next: State) {
    && next.optIndex == before + |Print(g)| && next.opt == g.opt
    && Meaning(g) == ItemOf(withArgs, next)
  }

  /** What follows a bare option looks like an option. */
  lemma NothingTakenBy(withArgs: Option<CString>, gs: seq<Given>, operands: seq<CString>)
    requires gs != [] && NothingTaken(gs, operands)
    ensures var tail := PrintAll(gs[1..]) + operands; gs[0].Bare? && tail != [] ==> CharAt(tail[0], 0) == '-'
    ensures NothingTaken(gs[1..], operands)
  {
    if |gs| > 1 {
      assert (PrintAll(gs[1..]) + operands)[0] == Print(gs[1])[0];
    }
  }

  lemma {:induction false} ScanFrom(argv: seq<CString>, withArgs: Option<CString>, gs: seq<Given>,
        operands: seq<CString>, s: State)
    requires AllProper(withArgs, gs)
    requires AreOperands(operands) && NothingTaken(gs, operands)
    requires s.optIndex <= |argv| && argv[s.optIndex..] == PrintAll(gs) + operands
    ensures Scanned(argv, withArgs, s) == Meanings(gs)
    ensures StopsAt(argv, withArgs, s) == s.optIndex + |PrintAll(gs)| + if IsLoneDash(operands, 0) then 1 else 0
    decreases |gs|
  {
    hide AfterOption, Proper, Print, Meaning, Scanned, StopsAt, IsOption, IsLoneDash, ItemOf, NothingTaken;
    ScanStep(argv, withArgs, s);
    var i, rest := s.optIndex, argv[s.optIndex..];
    if gs == [] {
      SameAtFront(argv, i, operands);
    } else {
      var g, tail := gs[0], PrintAll(gs[1..]) + operands;
      assert rest == Print(g) + tail;
      NothingTakenBy(withArgs, gs, operands);
      OneOption(argv, withArgs, g, tail, s);
      var next := AfterOption(argv, withArgs, s);
      assert argv[next.optIndex..] == rest[next.optIndex - i..];
      ScanFrom(argv, withArgs, gs[1..], operands, next);
      assert Meanings(gs) == [Meaning(g)] + Meanings(gs[1..]);
    }
  }

  lemma SameAtFront(argv: seq<CString>, i: nat, operands: seq<CString>)
    requires i <= |argv| && argv[i..] == operands
    ensures IsOption(argv, i) == IsOption(operands, 0) && IsLoneDash(argv, i) == IsLoneDash(operands, 0)
  {
    assert i < |argv| ==> argv[i] == operands[0];
  }

  function Meanings(gs: seq<Given>): seq<Item> {
    seq(|gs|, i requires 0 <= i < |gs| => Meaning(gs[i]))
  }

  /**
   * A command line printed from options, whichever way their arguments are written, followed by operands: the scan
   * yields the options in order and stops at the first operand, or behind a lone dash there.
   */
  lemma ScanOfPrinted(program: CString, withArgs: Option<CString>, gs: seq<Given>, operands: seq<CString>)
    requires AllProper(withArgs, gs)
    requires AreOperands(operands) && NothingTaken(gs, operands)
    ensures var argv := [program] + PrintAll(gs) + operands;
      && Scanned(argv, withArgs, START) == Meanings(gs)
      && StopsAt(argv, withArgs, START) == 1 + |PrintAll(gs)| + if IsLoneDash(operands, 0) then 1 else 0
  {
    var argv := [program] + PrintAll(gs) + operands;
    assert argv[1..] == PrintAll(gs) + operands;
    ScanFrom(argv, withArgs, gs, operands, START);
  }
}
