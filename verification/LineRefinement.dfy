/** The line machine runs well-nested programs as their structure says. */
module LineRefinement {
  import opened LineSpec

  ghost predicate At<T>(lines: seq<Line<T>>, pc: nat, part: seq<Line<T>>) {
    pc + |part| <= |lines| && lines[pc..pc + |part|] == part
  }

  lemma AtSplit<T>(lines: seq<Line<T>>, pc: nat, a: seq<Line<T>>, b: seq<Line<T>>)
    requires At(lines, pc, a + b)
    ensures At(lines, pc, a) && At(lines, pc + |a|, b)
  {
    assert lines[pc..pc + |a|] == (a + b)[..|a|];
    assert lines[pc + |a|..pc + |a| + |b|] == (a + b)[|a|..];
  }

  lemma {:induction false} RepeatedlyAdds<X>(next: X -> X, x: X, m: nat, n: nat)
    decreases m
    ensures Repeatedly(next, x, m + n) == Repeatedly(next, Repeatedly(next, x, m), n)
  {
    if m > 0 {
      RepeatedlyAdds(next, next(x), m - 1, n);
    }
  }

  lemma NextHandles<S, T>(h: Effects<S, T>, lines: seq<Line<T>>, f: Flat<S>)
    ensures Next(h, lines, f) ==
      if f.ifs == [] || |lines| <= f.pc then f else Handle(h, lines[f.pc], f.(pc := f.pc + 1))
  {}

  lemma StepperIsNext<S, T>(h: Effects<S, T>, lines: seq<Line<T>>, f: Flat<S>)
    ensures Stepper(h, lines)(f) == Next(h, lines, f)
  {}

  lemma RunUnfolds<S, T>(h: Effects<S, T>, lines: seq<Line<T>>, f: Flat<S>, n: nat)
    requires 0 < n
    ensures Run(h, lines, f, n) == Run(h, lines, Next(h, lines, f), n - 1)
  {
    assert Stepper(h, lines)(f) == Next(h, lines, f);
  }

  /** Some number of lines later the machine is in state g. */
  ghost predicate Reaches<S, T>(h: Effects<S, T>, lines: seq<Line<T>>, f: Flat<S>, g: Flat<S>) {
    exists n: nat :: Run(h, lines, f, n) == g
  }

  lemma OneStep<S, T>(h: Effects<S, T>, lines: seq<Line<T>>, f: Flat<S>, line: Line<T>)
    requires f.ifs != [] && At(lines, f.pc, [line])
    ensures Reaches(h, lines, f, Step(h, line, f))
  {
    assert lines[f.pc] == lines[f.pc..f.pc + 1][0] == line;
    var g := Stepper(h, lines)(f);
    assert g == Step(h, line, f);
    assert Repeatedly(Stepper(h, lines), g, 0) == g;
    assert Run(h, lines, f, 1) == g;
  }

  lemma Onward<S, T>(h: Effects<S, T>, lines: seq<Line<T>>, f: Flat<S>, g: Flat<S>, k: Flat<S>)
    requires Reaches(h, lines, f, g) && Reaches(h, lines, g, k)
    ensures Reaches(h, lines, f, k)
  {
    var m: nat :| Run(h, lines, f, m) == g;
    var n: nat :| Run(h, lines, g, n) == k;
    RepeatedlyAdds(Stepper(h, lines), f, m, n);
    assert Run(h, lines, f, m + n) == k;
  }

  lemma {:induction false} Halted<S, T>(h: Effects<S, T>, lines: seq<Line<T>>, f: Flat<S>, n: nat)
    requires |lines| <= f.pc
    ensures Run(h, lines, f, n) == f
  {
    if n > 0 {
      assert Stepper(h, lines)(f) == f;
      Halted(h, lines, f, n - 1);
    }
  }

  /** The state in which a file has been read to its end is unique. */
  lemma OneEnd<S, T>(h: Effects<S, T>, lines: seq<Line<T>>, f: Flat<S>, m: nat, n: nat)
    requires |lines| <= Run(h, lines, f, m).pc && |lines| <= Run(h, lines, f, n).pc
    ensures Run(h, lines, f, m) == Run(h, lines, f, n)
  {
    var (few, more) := if m <= n then (m, n) else (n, m);
    RepeatedlyAdds(Stepper(h, lines), f, few, more - few);
    Halted(h, lines, Run(h, lines, f, few), more - few);
  }

  lemma Here<S, T>(h: Effects<S, T>, lines: seq<Line<T>>, f: Flat<S>)
    ensures Reaches(h, lines, f, f)
  {
    assert Run(h, lines, f, 0) == f;
  }

  /** The lines of the first statement of a block. */
  function First<T>(b: Block<T>): (r: seq<Line<T>>)
    requires !b.Empty?
    ensures Lines(b) == r + Lines(b.rest)
  {
    match b
    case PlainThen(t, _) => [Plain(t)]
    case IfThen(t, yes, alt, end, _) => [If(t)] + ((Lines(yes) + AltLines(alt)) + [Endif(end)])
    case RepeatThen(t, body, end, _) => [Repeat(t)] + (Lines(body) + [Repend(end)])
  }

  // ----- a block that is not executed -----

  lemma {:induction false} SkipBlock<S, T>(h: Effects<S, T>, lines: seq<Line<T>>, b: Block<T>, f: Flat<S>)
    requires f.ifs != [] && !Active(f.ifs) && At(lines, f.pc, Lines(b))
    decreases b, 3
    ensures Reaches(h, lines, f, f.(pc := f.pc + |Lines(b)|))
  {
    if b.Empty? {
      Here(h, lines, f);
    } else {
      AtSplit(lines, f.pc, First(b), Lines(b.rest));
      SkipFirst(h, lines, b, f);
      var g := f.(pc := f.pc + |First(b)|);
      SkipBlock(h, lines, b.rest, g);
      Onward(h, lines, f, g, f.(pc := f.pc + |Lines(b)|));
    }
  }

  lemma {:induction false} SkipFirst<S, T>(h: Effects<S, T>, lines: seq<Line<T>>, b: Block<T>, f: Flat<S>)
    requires !b.Empty? && f.ifs != [] && !Active(f.ifs) && At(lines, f.pc, First(b))
    decreases b, 2
    ensures Reaches(h, lines, f, f.(pc := f.pc + |First(b)|))
  {
    match b
    case PlainThen(t, _) => OneStep(h, lines, f, Plain(t));
    case IfThen(_, _, _, _, _) => SkipIf(h, lines, b, f);
    case RepeatThen(_, _, _, _) => SkipRepeat(h, lines, b, f);
  }

  lemma {:induction false} SkipIf<S, T>(h: Effects<S, T>, lines: seq<Line<T>>, b: Block<T>, f: Flat<S>)
    requires b.IfThen? && f.ifs != [] && !Active(f.ifs)
    requires At(lines, f.pc, [If(b.t)] + ((Lines(b.yes) + AltLines(b.alt)) + [Endif(b.end)]))
    decreases b, 1
    ensures Reaches(h, lines, f, f.(pc := f.pc + |Lines(b.yes)| + |AltLines(b.alt)| + 2))
  {
    var inner := Lines(b.yes) + AltLines(b.alt);
    AtSplit(lines, f.pc, [If(b.t)], inner + [Endif(b.end)]);
    AtSplit(lines, f.pc + 1, inner, [Endif(b.end)]);
    OneStep(h, lines, f, If(b.t));
    var f1 := f.(pc := f.pc + 1, ifs := PushIf(f.ifs, false));
    SkipInside(h, lines, b, f1);
    var f2 := f1.(pc := f1.pc + |inner|);
    OneStep(h, lines, f2, Endif(b.end));
    assert Pop(f2.ifs) == f.ifs;
    Onward(h, lines, f, f1, f2);
    Onward(h, lines, f, f2, f.(pc := f2.pc + 1));
  }

  /** Inside a frame that cannot become active neither branch is executed. */
  lemma {:induction false} SkipInside<S, T>(h: Effects<S, T>, lines: seq<Line<T>>, b: Block<T>, f: Flat<S>)
    requires b.IfThen? && |f.ifs| > 1 && !Top(f.ifs).acctrue && At(lines, f.pc, Lines(b.yes) + AltLines(b.alt))
    decreases b, 0
    ensures Reaches(h, lines, f, f.(pc := f.pc + |Lines(b.yes)| + |AltLines(b.alt)|))
  {
    AtSplit(lines, f.pc, Lines(b.yes), AltLines(b.alt));
    SkipBlock(h, lines, b.yes, f);
    var f1 := f.(pc := f.pc + |Lines(b.yes)|);
    match b.alt
    case NoElse =>
    case WithElse(t, no) =>
      AtSplit(lines, f1.pc, [Else(t)], Lines(no));
      OneStep(h, lines, f1, Else(t));
      var f2 := f1.(pc := f1.pc + 1);
      SkipBlock(h, lines, no, f2);
      Onward(h, lines, f, f1, f2);
      Onward(h, lines, f, f2, f2.(pc := f2.pc + |Lines(no)|));
  }

  lemma {:induction false} SkipRepeat<S, T>(h: Effects<S, T>, lines: seq<Line<T>>, b: Block<T>, f: Flat<S>)
    requires b.RepeatThen? && f.ifs != [] && !Active(f.ifs)
    requires At(lines, f.pc, [Repeat(b.t)] + (Lines(b.body) + [Repend(b.end)]))
    decreases b, 1
    ensures Reaches(h, lines, f, f.(pc := f.pc + |Lines(b.body)| + 2))
  {
    AtSplit(lines, f.pc, [Repeat(b.t)], Lines(b.body) + [Repend(b.end)]);
    AtSplit(lines, f.pc + 1, Lines(b.body), [Repend(b.end)]);
    OneStep(h, lines, f, Repeat(b.t));
    var f1 := f.(pc := f.pc + 1, ifs := PushIf(f.ifs, false));
    SkipBlock(h, lines, b.body, f1);
    var f2 := f1.(pc := f1.pc + |Lines(b.body)|);
    OneStep(h, lines, f2, Repend(b.end));
    assert Pop(f2.ifs) == f.ifs;
    Onward(h, lines, f, f1, f2);
    Onward(h, lines, f, f2, f.(pc := f2.pc + 1));
  }

  // ----- a block that is executed -----

  /** From anywhere in a file, with any stacks below, an active block is executed as its
      structure says, and both stacks are as they were when it is done. */
  lemma {:induction false} RunBlock<S, T>(h: Effects<S, T>, lines: seq<Line<T>>, b: Block<T>, f: Flat<S>)
    requires f.ifs != [] && Active(f.ifs) && At(lines, f.pc, Lines(b))
    decreases b, 4
    ensures Reaches(h, lines, f, f.(pc := f.pc + |Lines(b)|, s := Exec(h, b, f.s)))
  {
    if b.Empty? {
      Here(h, lines, f);
    } else {
      AtSplit(lines, f.pc, First(b), Lines(b.rest));
      RunFirst(h, lines, b, f);
      var g := f.(pc := f.pc + |First(b)|, s := AfterFirst(h, b, f.s));
      RunBlock(h, lines, b.rest, g);
      Onward(h, lines, f, g, f.(pc := f.pc + |Lines(b)|, s := Exec(h, b, f.s)));
    }
  }

  function AfterFirst<S, T>(h: Effects<S, T>, b: Block<T>, s: S): (r: S)
    requires !b.Empty?
    ensures Exec(h, b, s) == Exec(h, b.rest, r)
  {
    match b
    case PlainThen(t, _) => h.plain(s, t)
    case IfThen(_, _, _, _, _) => AfterIf(h, b, s)
    case RepeatThen(_, _, _, _) => AfterRepeat(h, b, s)
  }

  lemma {:induction false} RunFirst<S, T>(h: Effects<S, T>, lines: seq<Line<T>>, b: Block<T>, f: Flat<S>)
    requires !b.Empty? && f.ifs != [] && Active(f.ifs) && At(lines, f.pc, First(b))
    decreases b, 3
    ensures Reaches(h, lines, f, f.(pc := f.pc + |First(b)|, s := AfterFirst(h, b, f.s)))
  {
    match b
    case PlainThen(t, _) => OneStep(h, lines, f, Plain(t));
    case IfThen(_, _, _, _, _) => RunIf(h, lines, b, f);
    case RepeatThen(_, _, _, _) => RunRepeat(h, lines, b, f);
  }

  /** The state after an IF up to its ENDIF. */
  function AfterIf<S, T>(h: Effects<S, T>, b: Block<T>, s: S): S
    requires b.IfThen?
  {
    var (s1, a) := h.eval(h.define(s, b.t), b.t);
    if a.unknown then h.redo(s1) else h.define(Branches(h, b, a.value != 0, s1), b.end)
  }

  function Branches<S, T>(h: Effects<S, T>, b: Block<T>, taken: bool, s: S): S
    requires b.IfThen?
  {
    ExecAlt(h, b.alt, !taken, if taken then Exec(h, b.yes, s) else s)
  }

  lemma {:induction false} RunIf<S, T>(h: Effects<S, T>, lines: seq<Line<T>>, b: Block<T>, f: Flat<S>)
    requires b.IfThen? && f.ifs != [] && Active(f.ifs)
    requires At(lines, f.pc, [If(b.t)] + ((Lines(b.yes) + AltLines(b.alt)) + [Endif(b.end)]))
    decreases b, 1
    ensures Reaches(h, lines, f, f.(pc := f.pc + |Lines(b.yes)| + |AltLines(b.alt)| + 2, s := AfterIf(h, b, f.s)))
  {
    var inner := Lines(b.yes) + AltLines(b.alt);
    AtSplit(lines, f.pc, [If(b.t)], inner + [Endif(b.end)]);
    AtSplit(lines, f.pc + 1, inner, [Endif(b.end)]);
    OneStep(h, lines, f, If(b.t));
    var (s1, a) := h.eval(h.define(f.s, b.t), b.t);
    var f1 := Step(h, If(b.t), f);
    var g := f.(pc := f.pc + |inner| + 2, s := AfterIf(h, b, f.s));
    if a.unknown {
      SkipInside(h, lines, b, f1);
      EndOfIf(h, lines, b.end, f, f1, f1.(pc := f1.pc + |inner|));
    } else {
      RunBranches(h, lines, b, f1, a.value != 0);
      EndOfIf(h, lines, b.end, f, f1,
              f1.(pc := f1.pc + |inner|, ifs := AfterAlt(f1.ifs, b.alt), s := Branches(h, b, a.value != 0, s1)));
    }
    Onward(h, lines, f, f1, g);
  }

  lemma EndOfIf<S, T>(h: Effects<S, T>, lines: seq<Line<T>>, end: T, f: Flat<S>, f1: Flat<S>, f2: Flat<S>)
    requires f.ifs != [] && f1.ifs != [] && |f2.ifs| == |f.ifs| + 1 && Pop(f2.ifs) == f.ifs && f2.loops == f.loops
    requires Reaches(h, lines, f1, f2) && At(lines, f2.pc, [Endif(end)])
    ensures Reaches(h, lines, f1, f.(pc := f2.pc + 1, s := if Top(f2.ifs).acctrue then h.define(f2.s, end) else f2.s))
  {
    OneStep(h, lines, f2, Endif(end));
    Onward(h, lines, f1, f2, Step(h, Endif(end), f2));
  }

  /** ELSE turns the frame of its IF over. */
  function AfterAlt<T>(ifs: seq<IfFrame>, alt: Alt<T>): seq<IfFrame>
    requires ifs != []
  {
    if alt.NoElse? then ifs else Pop(ifs) + [IfFrame(!Top(ifs).xtrue, true)]
  }

  lemma {:induction false} RunBranches<S, T>(h: Effects<S, T>, lines: seq<Line<T>>, b: Block<T>, f: Flat<S>, taken: bool)
    requires b.IfThen? && |f.ifs| > 1 && Top(f.ifs) == IfFrame(taken, true)
    requires At(lines, f.pc, Lines(b.yes) + AltLines(b.alt))
    decreases b, 0
    ensures Reaches(h, lines, f,
      f.(pc := f.pc + |Lines(b.yes) + AltLines(b.alt)|, ifs := AfterAlt(f.ifs, b.alt), s := Branches(h, b, taken, f.s)))
  {
    AtSplit(lines, f.pc, Lines(b.yes), AltLines(b.alt));
    var f1 := f.(pc := f.pc + |Lines(b.yes)|);
    if taken {
      RunBlock(h, lines, b.yes, f);
      f1 := f1.(s := Exec(h, b.yes, f.s));
    } else {
      SkipBlock(h, lines, b.yes, f);
    }
    match b.alt
    case NoElse =>
    case WithElse(t, no) =>
      AtSplit(lines, f1.pc, [Else(t)], Lines(no));
      OneStep(h, lines, f1, Else(t));
      var f2 := f1.(pc := f1.pc + 1, ifs := AfterAlt(f.ifs, b.alt), s := h.define(f1.s, t));
      Onward(h, lines, f, f1, f2);
      var f3 := f2.(pc := f2.pc + |Lines(no)|);
      if taken {
        SkipBlock(h, lines, no, f2);
      } else {
        RunBlock(h, lines, no, f2);
        f3 := f3.(s := Exec(h, no, f2.s));
      }
      Onward(h, lines, f, f2, f3);
  }

  /** The state after a REPEAT up to its REPEND. */
  function AfterRepeat<S, T>(h: Effects<S, T>, b: Block<T>, s: S): S
    requires b.RepeatThen?
  {
    var (s1, a) := h.eval(h.define(s, b.t), b.t);
    h.define(
      if a.value == 0 then s1
      else if a.unknown then Exec(h, b.body, h.redo(s1))
      else Iterate(h, b.body, Times(a.value), s1), b.end)
  }

  lemma {:induction false} RunRepeat<S, T>(h: Effects<S, T>, lines: seq<Line<T>>, b: Block<T>, f: Flat<S>)
    requires b.RepeatThen? && f.ifs != [] && Active(f.ifs)
    requires At(lines, f.pc, [Repeat(b.t)] + (Lines(b.body) + [Repend(b.end)]))
    decreases b, 2
    ensures Reaches(h, lines, f, f.(pc := f.pc + |Lines(b.body)| + 2, s := AfterRepeat(h, b, f.s)))
  {
    AtSplit(lines, f.pc, [Repeat(b.t)], Lines(b.body) + [Repend(b.end)]);
    OneStep(h, lines, f, Repeat(b.t));
    var (s1, a) := h.eval(h.define(f.s, b.t), b.t);
    var f1 := Step(h, Repeat(b.t), f);
    if a.value == 0 {
      RunNoTurns(h, lines, b, f, f1);
    } else {
      var n := if a.unknown then 1 else Times(a.value);
      TimesLeft(a.value);
      OneTurn(h, b.body, f1.s);
      RunLoop(h, lines, b, f, f1, Loop(a.value % ULONG, f1.pc, a.unknown), n);
    }
    Onward(h, lines, f, f1, f.(pc := f.pc + |Lines(b.body)| + 2, s := AfterRepeat(h, b, f.s)));
  }

  lemma TimesLeft(v: int)
    ensures 0 < Times(v) <= ULONG && v % ULONG == Times(v) % ULONG
  {
    var q, r := (v - 1) / ULONG, (v - 1) % ULONG;
    assert v == ULONG * q + (r + 1);
    if r + 1 == ULONG {
      assert v == ULONG * (q + 1);
    }
  }

  lemma OneTurn<S, T>(h: Effects<S, T>, body: Block<T>, s: S)
    ensures Iterate(h, body, 1, s) == Exec(h, body, s)
  {
    assert Iterate(h, body, 0, Exec(h, body, s)) == Exec(h, body, s);
  }

  /** A REPEAT of 0 skips its body, and REPEND ends it like an ENDIF. */
  lemma {:induction false} RunNoTurns<S, T>(h: Effects<S, T>, lines: seq<Line<T>>, b: Block<T>, f: Flat<S>, f1: Flat<S>)
    requires b.RepeatThen? && f.ifs != [] && f1 == f.(pc := f.pc + 1, ifs := f.ifs + [IfFrame(false, true)], s := f1.s)
    requires At(lines, f1.pc, Lines(b.body) + [Repend(b.end)])
    decreases b, 0
    ensures Reaches(h, lines, f1, f.(pc := f.pc + |Lines(b.body)| + 2, s := h.define(f1.s, b.end)))
  {
    AtSplit(lines, f1.pc, Lines(b.body), [Repend(b.end)]);
    SkipBlock(h, lines, b.body, f1);
    var f2 := f1.(pc := f1.pc + |Lines(b.body)|);
    OneStep(h, lines, f2, Repend(b.end));
    assert Pop(f2.ifs) == f.ifs;
    Onward(h, lines, f1, f2, f.(pc := f2.pc + 1, s := h.define(f1.s, b.end)));
  }

  /** n more turns of the loop on top of the stack. */
  lemma {:induction false} RunLoop<S, T>(
    h: Effects<S, T>, lines: seq<Line<T>>, b: Block<T>, below: Flat<S>, f: Flat<S>, loop: Loop, n: nat)
    requires b.RepeatThen? && below.ifs != [] && 0 < n <= ULONG
    requires f.ifs == below.ifs + [IfFrame(true, true)]
    requires f.loops == below.loops + [loop] && loop.seek == f.pc && LoopLeft(loop, n)
    requires At(lines, f.pc, Lines(b.body) + [Repend(b.end)])
    decreases b, 1, n
    ensures Reaches(h, lines, f,
      below.(pc := f.pc + |Lines(b.body)| + 1, s := h.define(Iterate(h, b.body, n, f.s), b.end)))
  {
    RunTurn(h, lines, b, below, f, loop, n);
    if n == 1 {
      assert Iterate(h, b.body, 1, f.s) == Exec(h, b.body, f.s);
    } else {
      var f2 := f.(loops := below.loops + [loop.(count := n - 1)], s := Exec(h, b.body, f.s));
      RunLoop(h, lines, b, below, f2, loop.(count := n - 1), n - 1);
      Onward(h, lines, f, f2,
             below.(pc := f.pc + |Lines(b.body)| + 1, s := h.define(Iterate(h, b.body, n, f.s), b.end)));
    }
  }

  /** One turn: the body, then REPEND. */
  lemma {:induction false} RunTurn<S, T>(
    h: Effects<S, T>, lines: seq<Line<T>>, b: Block<T>, below: Flat<S>, f: Flat<S>, loop: Loop, n: nat)
    requires b.RepeatThen? && below.ifs != [] && 0 < n <= ULONG
    requires f.ifs == below.ifs + [IfFrame(true, true)]
    requires f.loops == below.loops + [loop] && loop.seek == f.pc && LoopLeft(loop, n)
    requires At(lines, f.pc, Lines(b.body) + [Repend(b.end)])
    decreases b, 0
    ensures Reaches(h, lines, f,
      if n == 1 then below.(pc := f.pc + |Lines(b.body)| + 1, s := h.define(Exec(h, b.body, f.s), b.end))
      else f.(loops := below.loops + [loop.(count := n - 1)], s := Exec(h, b.body, f.s)))
  {
    AtSplit(lines, f.pc, Lines(b.body), [Repend(b.end)]);
    RunBlock(h, lines, b.body, f);
    var f1 := f.(pc := f.pc + |Lines(b.body)|, s := Exec(h, b.body, f.s));
    OneStep(h, lines, f1, Repend(b.end));
    LoopTurn(h, b.end, below, f1, loop, n);
    Onward(h, lines, f, f1, Step(h, Repend(b.end), f1));
  }

  /** REPEND counts down and goes back, or leaves the loop. */
  lemma LoopTurn<S, T>(h: Effects<S, T>, end: T, below: Flat<S>, f: Flat<S>, loop: Loop, n: nat)
    requires below.ifs != [] && 0 < n <= ULONG
    requires f.ifs == below.ifs + [IfFrame(true, true)] && f.loops == below.loops + [loop] && LoopLeft(loop, n)
    ensures Step(h, Repend(end), f) ==
      if n == 1 then below.(pc := f.pc + 1, s := h.define(f.s, end))
      else f.(pc := loop.seek, loops := below.loops + [loop.(count := n - 1)])
  {
    assert Pop(f.loops) == below.loops && Pop(f.ifs) == below.ifs;
  }

  /** The counter stands for n turns; an undecided count stands for one. */
  predicate LoopLeft(loop: Loop, n: nat) { if loop.unknown then n == 1 else loop.count == n % ULONG }

  /** A whole well-nested file: read line by line it leaves exactly the state its structure
      describes, and the IF and REPEAT stacks as they began. */
  lemma FileRefines<S, T>(h: Effects<S, T>, b: Block<T>, s: S)
    ensures Reaches(h, Lines(b), Flat(0, [TOP_LEVEL], [], s), Flat(|Lines(b)|, [TOP_LEVEL], [], Exec(h, b, s)))
  {
    assert Lines(b)[0..0 + |Lines(b)|] == Lines(b);
    RunBlock(h, Lines(b), b, Flat(0, [TOP_LEVEL], [], s));
  }

  /** The file ends in this state. */
  ghost predicate Ends<S, T>(h: Effects<S, T>, b: Block<T>, s: S, end: S) {
    Reaches(h, Lines(b), Flat(0, [TOP_LEVEL], [], s), Flat(|Lines(b)|, [TOP_LEVEL], [], end))
  }

  /** The lines of an IF with a known operand come to those of its first part if the operand is
      not 0, and to those behind ELSE if it is; the labels of its own lines are defined either
      way. */
  lemma IfDecides<S, T>(h: Effects<S, T>, t: T, yes: Block<T>, e: T, no: Block<T>, end: T, s: S)
    requires !h.eval(h.define(s, t), t).1.unknown
    ensures
      var (s1, a) := h.eval(h.define(s, t), t);
      var chosen := if a.value == 0 then Exec(h, no, h.define(s1, e)) else h.define(Exec(h, yes, s1), e);
      && Ends(h, IfThen(t, yes, WithElse(e, no), end, Empty), s, h.define(chosen, end))
      && Ends(h, IfThen(t, yes, NoElse, end, Empty), s, h.define(if a.value == 0 then s1 else Exec(h, yes, s1), end))
  {
    EndsAfterFirst(h, IfThen(t, yes, WithElse(e, no), end, Empty), s);
    EndsAfterFirst(h, IfThen(t, yes, NoElse, end, Empty), s);
  }

  lemma EndsAfterFirst<S, T>(h: Effects<S, T>, b: Block<T>, s: S)
    requires !b.Empty? && b.rest.Empty?
    ensures Ends(h, b, s, AfterFirst(h, b, s))
  {
    FileRefines(h, b, s);
    assert Exec(h, b, s) == Exec(h, b.rest, AfterFirst(h, b, s)) == AfterFirst(h, b, s);
  }

  lemma {:induction false} IterateIsRepeatedly<S, T>(h: Effects<S, T>, body: Block<T>, n: nat, s: S)
    ensures Iterate(h, body, n, s) == Repeatedly((x: S) => Exec(h, body, x), s, n)
    decreases n
  {
    if n != 0 {
      IterateIsRepeatedly(h, body, n - 1, Exec(h, body, s));
    }
  }

  /** The lines of a REPEAT with a known operand of an unsigned long come to its body that many
      times. */
  lemma RepeatCounts<S, T>(h: Effects<S, T>, t: T, body: Block<T>, end: T, s: S)
    requires var a := h.eval(h.define(s, t), t).1; !a.unknown && 0 <= a.value < ULONG
    ensures
      var (s1, a) := h.eval(h.define(s, t), t);
      Ends(h, RepeatThen(t, body, end, Empty), s, h.define(Repeatedly((x: S) => Exec(h, body, x), s1, a.value), end))
  {
    var (s1, a) := h.eval(h.define(s, t), t);
    EndsAfterFirst(h, RepeatThen(t, body, end, Empty), s);
    IterateIsRepeatedly(h, body, a.value, s1);
    assert a.value != 0 ==> Times(a.value) == a.value;
  }
}
