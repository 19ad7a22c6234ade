/** The IF and REPEAT handlers of src/ops.c, and the loop of MainShadow (src/main.c) that reads
    a file line by line and calls the handlers of its statements. */
module LineReader {
  import opened Results
  import opened Operators
  import L = LineSpec
  import R = LineRefinement
  import opened PassSpec
  import opened PassFacts
  import opened StatementHandlers

  type Effects = L.Effects<State, Statement>

  /** What a label and an operand come to. */
  type Decision = (State, Arg)

  /** Every operand in the file has room on the operator stack. */
  ghost predicate FittingLines(lines: Lines) { forall line <- lines :: FittingStatement(line.t) }

  // ----- a run that is over -----

  /** A run that has ended is not changed by anything. */
  ghost predicate Final(h: Effects) {
    && (forall s: State, t: Statement | !s.Ok? :: h.define(s, t) == s)
    && (forall s: State, t: Statement | !s.Ok? :: h.plain(s, t) == s)
    && (forall s: State, t: Statement | !s.Ok? :: h.eval(s, t).0 == s)
    && (forall s: State | !s.Ok? :: h.redo(s) == s)
  }

  lemma HandleFinal(h: Effects, line: L.Line<Statement>, f: Reader)
    requires Final(h) && f.ifs != [] && !f.s.Ok?
    ensures L.Handle(h, line, f).s == f.s
  {}

  /** Once a line has ended the run, the lines after it change nothing. */
  lemma {:induction false} RunFinal(h: Effects, lines: Lines, f: Reader, n: nat)
    requires Final(h) && !f.s.Ok?
    decreases n
    ensures L.Run(h, lines, f, n).s == f.s
  {
    if n == 0 {
      assert L.Run(h, lines, f, 0) == f;
    } else {
      R.RunUnfolds(h, lines, f, n);
      R.NextHandles(h, lines, f);
      if f.ifs != [] && f.pc < |lines| {
        HandleFinal(h, lines[f.pc], f.(pc := f.pc + 1));
      }
      RunFinal(h, lines, L.Next(h, lines, f), n - 1);
    }
  }

  lemma Unroll(h: Effects, lines: Lines, f: Reader, n: nat)
    requires f.ifs != [] && f.pc < |lines| <= L.Run(h, lines, f, n).pc
    ensures 0 < n
    ensures L.Run(h, lines, f, n) == L.Run(h, lines, L.Step(h, lines[f.pc], f), n - 1)
  {
    assert L.Run(h, lines, f, 0) == f;
    R.RunUnfolds(h, lines, f, n);
  }

  /** An active IF line, and an active REPEAT line, from what their label and operand do. */
  lemma IfDecided(h: Effects, f: Reader, t: Statement)
    requires f.ifs != [] && L.Active(f.ifs)
    ensures
      var d := h.eval(h.define(f.s, t), t);
      L.DoIf(h, f, t) == L.Flat(
        f.pc, if d.1.unknown then f.ifs + [L.IfFrame(false, false)] else L.PushIf(f.ifs, d.1.value != 0), f.loops,
        Asking(h, d.0, d.1, false))
  {}

  lemma RepeatDecided(h: Effects, f: Reader, t: Statement)
    requires f.ifs != [] && L.Active(f.ifs)
    ensures
      var d := h.eval(h.define(f.s, t), t);
      L.DoRepeat(h, f, t) == L.Flat(
        f.pc, L.PushIf(f.ifs, d.1.value != 0),
        if d.1.value == 0 then f.loops else f.loops + [L.Loop(d.1.value % L.ULONG, f.pc, d.1.unknown)],
        Asking(h, d.0, d.1, true))
  {}

  /** An undecided IF asks for another pass, and so does an undecided REPEAT unless its value
      is 0. */
  function Asking(h: Effects, s: State, a: Arg, loop: bool): State {
    if a.unknown && (!loop || a.value != 0) then h.redo(s) else s
  }

  class Lister {
    const hand: Handler
    const lines: Lines
    /** What the handlers do, as a whole pass sees it. */
    ghost const h: Effects
    /** Where the next line is read, in place of the position in the file. */
    var pc: nat
    /** Ifstack and Reploop; the tops are at the end. */
    var ifs: seq<L.IfFrame>
    var loops: seq<L.Loop>

    constructor (hand: Handler, lines: Lines)
      ensures this.hand == hand && this.lines == lines && pc == 0 && ifs == [L.TOP_LEVEL] && loops == []
      ensures h == Handlers(hand.c) && Serves(1)
    {
      this.hand, this.lines, h := hand, lines, Handlers(hand.c);
      pc, ifs, loops := 0, [L.TOP_LEVEL], [];
    }

    /** h is what the handlers do; folded up. */
    ghost predicate Serves(n: nat)
      decreases n
    {
      n == 0 || ((forall key: nat :: Opened(OfLister, key) ==> h == Handlers(hand.c)) && Serves(n - 1))
    }

    ghost function State(): Reader
      reads this, hand
    {
      L.Flat(pc, ifs, loops, Ok(hand.now))
    }

    ghost predicate Shows(r: Outcome, spec: Reader)
      reads this, hand, hand.Repr
    {
      && r == OutcomeOf(spec.s)
      && (r.Fine? ==> hand.Whole(1) && State() == spec)
    }

    // ----- what the handlers do -----

    method Label(t: Statement)
      requires Serves(1) && this !in hand.Repr && hand.Whole(1)
      modifies hand.Repr
      ensures Ok(hand.now) == h.define(Ok(old(hand.now)), t)
      ensures hand.Whole(1)
      ensures fresh(hand.Repr - old(hand.Repr))
    {
      assert Opened(OfLister, 0);
      hand.Programlabel(t.name);
    }

    /** The label and the operand of an IF or REPEAT; `d` is what h says of them. */
    method Decided(t: Statement, ghost d: Decision) returns (a: Result<Arg>)
      requires Serves(1) && this !in hand.Repr && hand.Whole(1) && FittingStatement(t) && d == h.eval(h.define(Ok(hand.now), t), t)
      modifies hand.Repr
      ensures OutcomeOf(a) == OutcomeOf(d.0)
      ensures if a.Ok? then hand.Whole(1) && Ok(hand.now) == d.0 && a.value == d.1 else h.redo(d.0) == d.0
      ensures fresh(hand.Repr - old(hand.Repr))
    {
      assert Opened(OfLister, 0);
      hand.Programlabel(t.name);
      a := hand.EvalCondition(t);
    }

    method AskAgain()
      requires Serves(1) && this !in hand.Repr && hand.Whole(1)
      modifies hand.Repr
      ensures Ok(hand.now) == h.redo(Ok(old(hand.now)))
      ensures hand.Whole(1)
      ensures hand.Repr == old(hand.Repr)
    {
      assert Opened(OfLister, 0);
      hand.CountRedo(true);
    }

    /** The same, and another pass if it asks for one; `s` is what comes of it. */
    method DecidedOrAgain(t: Statement, loop: bool, ghost d: Decision, ghost s: State) returns (r: Outcome, a: Arg)
      requires Serves(1) && this !in hand.Repr && hand.Whole(1) && FittingStatement(t)
      requires d == h.eval(h.define(Ok(hand.now), t), t) && s == Asking(h, d.0, d.1, loop)
      modifies hand.Repr
      ensures r == OutcomeOf(s)
      ensures r.Fine? ==> hand.Whole(1) && a == d.1 && Ok(hand.now) == s
      ensures fresh(hand.Repr - old(hand.Repr))
    {
      var v := Decided(t, d);
      r, a := OutcomeOf(v), Arg(0, false);
      if v.Ok? {
        a := v.value;
        if a.unknown && (!loop || a.value != 0) {
          AskAgain();
        }
      }
    }

    method Executed(t: Statement) returns (r: Outcome)
      requires Serves(1) && this !in hand.Repr && hand.Whole(1) && FittingStatement(t)
      modifies hand.Repr
      ensures
        var s := h.plain(Ok(old(hand.now)), t);
        r == OutcomeOf(s) && (r.Fine? ==> hand.Whole(1) && Ok(hand.now) == s)
      ensures fresh(hand.Repr - old(hand.Repr))
    {
      assert Opened(OfLister, 0);
      r := hand.ExecuteLine(t);
    }

    lemma EndIsFinal()
      requires Serves(1)
      ensures Final(h)
    {
      assert Opened(OfLister, 0);
    }

    // ----- conditionals and loops -----

    method Push(x: bool)
      requires ifs != []
      modifies this`ifs
      ensures ifs == L.PushIf(old(ifs), x)
    {
      var top := ifs[|ifs| - 1];
      ifs := ifs + [L.IfFrame(x, top.acctrue && top.xtrue)];
    }

    /** The frame of a decided IF; an undecided one skips its ELSE as well. */
    method PushIf(a: Arg)
      requires ifs != []
      modifies this`ifs
      ensures ifs == if a.unknown then old(ifs) + [L.IfFrame(false, false)] else L.PushIf(old(ifs), a.value != 0)
    {
      if a.unknown {
        Push(false);
        ifs := ifs[..|ifs| - 1] + [ifs[|ifs| - 1].(acctrue := false)];
      } else {
        Push(a.value != 0);
      }
    }

    method PushRepeat(a: Arg)
      requires ifs != []
      modifies this`ifs, this`loops
      ensures ifs == L.PushIf(old(ifs), a.value != 0)
      ensures loops == if a.value == 0 then old(loops) else old(loops) + [L.Loop(a.value % L.ULONG, pc, a.unknown)]
    {
      if a.value != 0 {
        loops := loops + [L.Loop(a.value % L.ULONG, pc, a.unknown)];
      }
      Push(a.value != 0);
    }

    /** REPEND of an active loop: back to its beginning, or out of it. */
    method CountDown() returns (again: bool)
      requires loops != []
      modifies this`pc, this`loops
      ensures
        var loop := old(loops)[|old(loops)| - 1];
        var left := (loop.count - 1) % L.ULONG;
        && again == (!loop.unknown && left != 0)
        && loops == L.Pop(old(loops)) + (if again then [loop.(count := left)] else [])
        && pc == if again then loop.seek else old(pc)
    {
      var last := |loops| - 1;
      var left := (loops[last].count - 1) % L.ULONG;
      again := !loops[last].unknown && left != 0;
      if again {
        pc := loops[last].seek;
        loops := loops[..last] + [loops[last].(count := left)];
      } else {
        loops := loops[..last];
      }
    }

    /** An active IF; `goal` is the state it leads to. */
    method ActiveIf(t: Statement, ghost d: Decision, ghost goal: Reader) returns (r: Outcome)
      requires Serves(1) && this !in hand.Repr && hand.Whole(1) && FittingStatement(t) && ifs != [] && goal.pc == pc && goal.loops == loops
      requires d == h.eval(h.define(Ok(hand.now), t), t) && goal.s == Asking(h, d.0, d.1, false)
      requires goal.ifs == if d.1.unknown then ifs + [L.IfFrame(false, false)] else L.PushIf(ifs, d.1.value != 0)
      modifies this, hand.Repr
      ensures Shows(r, goal)
      ensures fresh(hand.Repr - old(hand.Repr))
    {
      var a;
      r, a := DecidedOrAgain(t, false, d, goal.s);
      if r.Fine? {
        PushIf(a);
      }
    }

    method VIf(t: Statement) returns (r: Outcome)
      requires Serves(1) && this !in hand.Repr && hand.Whole(1) && FittingStatement(t) && ifs != []
      modifies this, hand.Repr
      ensures Shows(r, L.DoIf(h, old(State()), t))
      ensures fresh(hand.Repr - old(hand.Repr))
    {
      r := Fine;
      if !ifs[|ifs| - 1].xtrue || !ifs[|ifs| - 1].acctrue {
        Push(false);
      } else {
        IfDecided(h, State(), t);
        r := ActiveIf(t, h.eval(h.define(Ok(hand.now), t), t), L.DoIf(h, State(), t));
      }
    }

    method VElse(t: Statement)
      requires Serves(1) && this !in hand.Repr && hand.Whole(1) && ifs != []
      modifies this, hand.Repr
      ensures hand.Whole(1) && State() == L.DoElse(h, old(State()), t)
      ensures fresh(hand.Repr - old(hand.Repr))
    {
      var top := ifs[|ifs| - 1];
      if top.acctrue && |ifs| != 1 {
        ifs := ifs[..|ifs| - 1] + [top.(xtrue := !top.xtrue)];
        Label(t);
      }
    }

    method VEndif(t: Statement)
      requires Serves(1) && this !in hand.Repr && hand.Whole(1) && ifs != []
      modifies this, hand.Repr
      ensures hand.Whole(1) && State() == L.DoEndif(h, old(State()), t)
      ensures fresh(hand.Repr - old(hand.Repr))
    {
      if |ifs| != 1 {
        var inner := ifs[|ifs| - 1].acctrue;
        ifs := ifs[..|ifs| - 1];
        if inner {
          Label(t);
        }
      }
    }

    /** An active REPEAT; `goal` is the state it leads to. */
    method ActiveRepeat(t: Statement, ghost d: Decision, ghost goal: Reader) returns (r: Outcome)
      requires Serves(1) && this !in hand.Repr && hand.Whole(1) && FittingStatement(t) && ifs != [] && goal.pc == pc
      requires d == h.eval(h.define(Ok(hand.now), t), t) && goal.s == Asking(h, d.0, d.1, true)
      requires goal.ifs == L.PushIf(ifs, d.1.value != 0)
      requires goal.loops == if d.1.value == 0 then loops else loops + [L.Loop(d.1.value % L.ULONG, pc, d.1.unknown)]
      modifies this, hand.Repr
      ensures Shows(r, goal)
      ensures fresh(hand.Repr - old(hand.Repr))
    {
      var a;
      r, a := DecidedOrAgain(t, true, d, goal.s);
      if r.Fine? {
        PushRepeat(a);
      }
    }

    method VRepeat(t: Statement) returns (r: Outcome)
      requires Serves(1) && this !in hand.Repr && hand.Whole(1) && FittingStatement(t) && ifs != []
      modifies this, hand.Repr
      ensures Shows(r, L.DoRepeat(h, old(State()), t))
      ensures fresh(hand.Repr - old(hand.Repr))
    {
      r := Fine;
      if !ifs[|ifs| - 1].xtrue || !ifs[|ifs| - 1].acctrue {
        Push(false);
      } else {
        RepeatDecided(h, State(), t);
        r := ActiveRepeat(t, h.eval(h.define(Ok(hand.now), t), t), L.DoRepeat(h, State(), t));
      }
    }

    method VRepend(t: Statement)
      requires Serves(1) && this !in hand.Repr && hand.Whole(1) && ifs != []
      modifies this, hand.Repr
      ensures hand.Whole(1) && State() == L.DoRepend(h, old(State()), t)
      ensures fresh(hand.Repr - old(hand.Repr))
    {
      if !ifs[|ifs| - 1].xtrue || !ifs[|ifs| - 1].acctrue {
        VEndif(t);
      } else if loops != [] {
        var again := CountDown();
        if !again {
          VEndif(t);
        }
      }
    }

    // ----- the file -----

    /** The handler of an IF, ELSE, ENDIF, REPEAT or REPEND line. */
    method Nest(line: L.Line<Statement>) returns (r: Outcome)
      requires Serves(1) && this !in hand.Repr && hand.Whole(1) && ifs != [] && FittingStatement(line.t) && !line.Plain?
      modifies this, hand.Repr
      ensures Shows(r, L.Handle(h, line, old(State())))
      ensures fresh(hand.Repr - old(hand.Repr))
    {
      r := Fine;
      match line
      case If(t) => r := VIf(t);
      case Else(t) => VElse(t);
      case Endif(t) => VEndif(t);
      case Repeat(t) => r := VRepeat(t);
      case Repend(t) => VRepend(t);
    }

    /** Lines that are not conditional are executed only where the top of the IF stack says so. */
    method HandleLine(line: L.Line<Statement>) returns (r: Outcome)
      requires Serves(1) && this !in hand.Repr && hand.Whole(1) && ifs != [] && FittingStatement(line.t)
      modifies this, hand.Repr
      ensures Shows(r, L.Handle(h, line, old(State())))
      ensures fresh(hand.Repr - old(hand.Repr))
    {
      r := Fine;
      if !line.Plain? {
        r := Nest(line);
      } else if ifs[|ifs| - 1].xtrue && ifs[|ifs| - 1].acctrue {
        r := Executed(line.t);
      }
    }

    /** Reads one line and calls the handler of its mnemonic. */
    method ReadLine() returns (r: Outcome)
      requires Serves(1) && this !in hand.Repr && hand.Whole(1) && ifs != [] && pc < |lines| && FittingStatement(lines[pc].t)
      modifies this, hand.Repr
      ensures Shows(r, L.Step(h, lines[old(pc)], old(State())))
      ensures fresh(hand.Repr - old(hand.Repr))
    {
      var line := lines[pc];
      pc := pc + 1;
      r := HandleLine(line);
    }

    /** One turn of the loop over the lines: `n` lines would lead to `goal`. */
    method Turn(ghost n: nat, ghost goal: Reader) returns (r: Outcome)
      requires Serves(1) && this !in hand.Repr && hand.Whole(1) && ifs != [] && pc < |lines| == goal.pc && FittingLines(lines)
      requires L.Run(h, lines, State(), n) == goal
      modifies this, hand.Repr
      ensures 0 < n
      ensures if r.Fine? then hand.Whole(1) && ifs != [] && L.Run(h, lines, State(), n - 1) == goal else r == OutcomeOf(goal.s)
      ensures fresh(hand.Repr - old(hand.Repr))
    {
      ghost var f := State();
      Unroll(h, lines, f, n);
      assert lines[pc] in lines;
      r := ReadLine();
      if !r.Fine? {
        EndIsFinal();
        RunFinal(h, lines, L.Step(h, lines[f.pc], f), n - 1);
      }
    }

    /** The loop over the lines. */
    method ReadOn(ghost n0: nat, ghost goal: Reader) returns (r: Outcome)
      requires Serves(1) && this !in hand.Repr && hand.Whole(1) && ifs != [] && |lines| == goal.pc && FittingLines(lines)
      requires L.Run(h, lines, State(), n0) == goal
      modifies this, hand.Repr
      ensures Shows(r, goal)
      ensures fresh(hand.Repr - old(hand.Repr))
    {
      ghost var n := n0;
      r := Fine;
      while pc < |lines|
        invariant r.Fine? && this !in hand.Repr && hand.Whole(1) && ifs != []
        invariant L.Run(h, lines, State(), n) == goal
        invariant fresh(hand.Repr - old(hand.Repr))
        decreases n
      {
        r := Turn(n, goal);
        if !r.Fine? {
          return;
        }
        n := n - 1;
      }
      R.Halted(h, lines, State(), n);
    }

    /** Reading a well-nested file to its end comes to an end, does what the structure of the
        file says and leaves both stacks as they began; or some line ends the run, as the
        structure says too. */
    method ReadFile(ghost b: L.Block<Statement>) returns (r: Outcome)
      requires Serves(1) && lines == L.Lines(b) && FittingLines(lines)
      requires this !in hand.Repr && hand.Whole(1) && pc == 0 && ifs == [L.TOP_LEVEL] && loops == []
      modifies this, hand.Repr
      ensures Shows(r, L.Flat(|lines|, [L.TOP_LEVEL], [], L.Exec(h, b, Ok(old(hand.now)))))
      ensures fresh(hand.Repr - old(hand.Repr))
    {
      R.FileRefines(h, b, Ok(hand.now));
      ghost var goal := L.Flat(|lines|, [L.TOP_LEVEL], [], L.Exec(h, b, Ok(hand.now)));
      ghost var n: nat :| L.Run(h, lines, State(), n) == goal;
      r := ReadOn(n, goal);
    }
  }
}
