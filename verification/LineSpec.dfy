/** Conditional and repeated lines: the line-by-line machine of src/main.c and src/ops.c
    with its IF and REPEAT stacks, and the structured meaning it should have.

    What a line does to the rest of the assembler is a parameter: any state S, any effect. */
module LineSpec {
  import opened Operators

  /** A source line with its text, told apart by its mnemonic. */
  datatype Line<T> = Plain(t: T) | If(t: T) | Else(t: T) | Endif(t: T) | Repeat(t: T) | Repend(t: T)

  /** What lines do to a state: define the label of a line, execute a plain line (label
      included), evaluate the operand of a line, ask for another pass. */
  datatype Effects<!S, !T> = Effects(
    define: (S, T) -> S,
    plain: (S, T) -> S,
    eval: (S, T) -> (S, Arg),
    redo: S -> S)

  // ----- the line machine -----

  datatype IfFrame = IfFrame(xtrue: bool, acctrue: bool)

  /** `count` is an unsigned long. */
  datatype Loop = Loop(count: nat, seek: nat, unknown: bool)

  const ULONG := 0x1_0000_0000_0000_0000

  /** `pc` is the line to be read next; the bottom of `ifs` is the frame of the top level. */
  datatype Flat<S> = Flat(pc: nat, ifs: seq<IfFrame>, loops: seq<Loop>, s: S)

  const TOP_LEVEL := IfFrame(true, true)

  function Top(ifs: seq<IfFrame>): IfFrame
    requires ifs != []
  {
    ifs[|ifs| - 1]
  }

  predicate Active(ifs: seq<IfFrame>)
    requires ifs != []
  {
    Top(ifs).xtrue && Top(ifs).acctrue
  }

  /** pushif */
  function PushIf(ifs: seq<IfFrame>, x: bool): seq<IfFrame>
    requires ifs != []
  {
    ifs + [IfFrame(x, Active(ifs))]
  }

  function Pop<X>(xs: seq<X>): seq<X>
    requires xs != []
  {
    xs[..|xs| - 1]
  }

  function DoIf<S, T>(h: Effects<S, T>, f: Flat<S>, t: T): (f': Flat<S>)
    requires f.ifs != []
    ensures f'.ifs != []
  {
    if !Active(f.ifs) then f.(ifs := PushIf(f.ifs, false))
    else
      var (s, a) := h.eval(h.define(f.s, t), t);
      if a.unknown then f.(ifs := f.ifs + [IfFrame(false, false)], s := h.redo(s))
      else f.(ifs := PushIf(f.ifs, a.value != 0), s := s)
  }

  function DoElse<S, T>(h: Effects<S, T>, f: Flat<S>, t: T): (f': Flat<S>)
    requires f.ifs != []
    ensures f'.ifs != []
  {
    if Top(f.ifs).acctrue && |f.ifs| != 1 then
      f.(ifs := Pop(f.ifs) + [IfFrame(!Top(f.ifs).xtrue, true)], s := h.define(f.s, t))
    else f
  }

  function DoEndif<S, T>(h: Effects<S, T>, f: Flat<S>, t: T): (f': Flat<S>)
    requires f.ifs != []
    ensures f'.ifs != []
  {
    if |f.ifs| == 1 then f
    else f.(ifs := Pop(f.ifs), s := if Top(f.ifs).acctrue then h.define(f.s, t) else f.s)
  }

  /** f.pc is already past the REPEAT line. */
  function DoRepeat<S, T>(h: Effects<S, T>, f: Flat<S>, t: T): (f': Flat<S>)
    requires f.ifs != []
    ensures f'.ifs != []
  {
    if !Active(f.ifs) then f.(ifs := PushIf(f.ifs, false))
    else
      var (s, a) := h.eval(h.define(f.s, t), t);
      if a.value == 0 then f.(ifs := PushIf(f.ifs, false), s := s)
      else
        f.(ifs := PushIf(f.ifs, true), loops := f.loops + [Loop(a.value % ULONG, f.pc, a.unknown)],
           s := if a.unknown then h.redo(s) else s)
  }

  function DoRepend<S, T>(h: Effects<S, T>, f: Flat<S>, t: T): (f': Flat<S>)
    requires f.ifs != []
    ensures f'.ifs != []
  {
    if !Active(f.ifs) then DoEndif(h, f, t)
    else if f.loops == [] then f
    else
      var loop := f.loops[|f.loops| - 1];
      var left := (loop.count - 1) % ULONG;
      if !loop.unknown && left != 0 then f.(loops := Pop(f.loops) + [loop.(count := left)], pc := loop.seek)
      else DoEndif(h, f.(loops := Pop(f.loops)), t)
  }

  /** The handler of a line; lines that are not conditional are executed only where the top of
      the IF stack says so. f.pc is already past the line. */
  function Handle<S, T>(h: Effects<S, T>, line: Line<T>, f: Flat<S>): (f': Flat<S>)
    requires f.ifs != []
    ensures f'.ifs != []
  {
    match line
    case Plain(t) => if Active(f.ifs) then f.(s := h.plain(f.s, t)) else f
    case If(t) => DoIf(h, f, t)
    case Else(t) => DoElse(h, f, t)
    case Endif(t) => DoEndif(h, f, t)
    case Repeat(t) => DoRepeat(h, f, t)
    case Repend(t) => DoRepend(h, f, t)
  }

  /** One line of the loop in MainShadow. */
  function Step<S, T>(h: Effects<S, T>, line: Line<T>, f: Flat<S>): (f': Flat<S>)
    requires f.ifs != []
    ensures f'.ifs != []
  {
    Handle(h, line, f.(pc := f.pc + 1))
  }

  /** One turn of the line loop, which stops at the end of the file. */
  function Next<S, T>(h: Effects<S, T>, lines: seq<Line<T>>, f: Flat<S>): Flat<S> {
    if f.ifs == [] || |lines| <= f.pc then f else Step(h, lines[f.pc], f)
  }

  function Stepper<S, T>(h: Effects<S, T>, lines: seq<Line<T>>): Flat<S> -> Flat<S> {
    f => Next(h, lines, f)
  }

  function Repeatedly<X>(next: X -> X, x: X, n: nat): X
    decreases n
  {
    if n == 0 then x else Repeatedly(next, next(x), n - 1)
  }

  /** n lines, or fewer if the file ends. */
  function Run<S, T>(h: Effects<S, T>, lines: seq<Line<T>>, f: Flat<S>, n: nat): Flat<S> {
    Repeatedly(Stepper(h, lines), f, n)
  }

  // ----- structured programs -----

  /** Well-nested lines: at most one ELSE for each IF. */
  datatype Block<T> =
    | Empty
    | PlainThen(t: T, rest: Block<T>)
    | IfThen(t: T, yes: Block<T>, alt: Alt<T>, end: T, rest: Block<T>)
    | RepeatThen(t: T, body: Block<T>, end: T, rest: Block<T>)

  datatype Alt<T> = NoElse | WithElse(t: T, no: Block<T>)

  function Lines<T>(b: Block<T>): seq<Line<T>> {
    match b
    case Empty => []
    case PlainThen(t, rest) => [Plain(t)] + Lines(rest)
    case IfThen(t, yes, alt, end, rest) => ([If(t)] + ((Lines(yes) + AltLines(alt)) + [Endif(end)])) + Lines(rest)
    case RepeatThen(t, body, end, rest) => ([Repeat(t)] + (Lines(body) + [Repend(end)])) + Lines(rest)
  }

  function AltLines<T>(alt: Alt<T>): seq<Line<T>> {
    match alt
    case NoElse => []
    case WithElse(t, no) => [Else(t)] + Lines(no)
  }

  /** How often a known count repeats: it is counted down in an unsigned long. */
  function Times(v: int): nat { (v - 1) % ULONG + 1 }

  /** The structured meaning. An undecided IF runs neither branch and asks for another pass;
      an undecided REPEAT runs once, unless its value is 0. */
  function Exec<S, T>(h: Effects<S, T>, b: Block<T>, s: S): S
    decreases b, 0
  {
    match b
    case Empty => s
    case PlainThen(t, rest) => Exec(h, rest, h.plain(s, t))
    case IfThen(t, yes, alt, end, rest) =>
      var (s1, a) := h.eval(h.define(s, t), t);
      var s2 :=
        if a.unknown then h.redo(s1)
        else h.define(ExecAlt(h, alt, a.value == 0, if a.value != 0 then Exec(h, yes, s1) else s1), end);
      Exec(h, rest, s2)
    case RepeatThen(t, body, end, rest) =>
      var (s1, a) := h.eval(h.define(s, t), t);
      var s2 :=
        if a.value == 0 then s1
        else if a.unknown then Exec(h, body, h.redo(s1))
        else Iterate(h, body, Times(a.value), s1);
      Exec(h, rest, h.define(s2, end))
  }

  /** The ELSE line of a decided IF defines its label either way. */
  function ExecAlt<S, T>(h: Effects<S, T>, alt: Alt<T>, chosen: bool, s: S): S
    decreases alt, 0
  {
    match alt
    case NoElse => s
    case WithElse(t, no) => if chosen then Exec(h, no, h.define(s, t)) else h.define(s, t)
  }

  function Iterate<S, T>(h: Effects<S, T>, body: Block<T>, n: nat, s: S): S
    decreases body, n
  {
    if n == 0 then s else Iterate(h, body, n - 1, Exec(h, body, s))
  }
}
