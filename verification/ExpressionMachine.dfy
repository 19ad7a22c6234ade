/** The two-stack evaluator of src/exp.c as functions on its stacks.

    `args` and `ops` are the parts of Argstack and Opdis/Oppri above the two bases of the
    evaluation in progress. An opening bracket stores a priority but no function: its cell
    keeps the function its slot held before. Reducing that cell calls the leftover function
    as a binary one; only where it is a unary one nothing is claimed (`Corrupt`). */
module ExpressionMachine {
  import opened Results
  import opened Operators
  import opened Expressions

  const MAXOPS := 32
  const MAXARGS := 64
  const MAX_RECURSION := 1000

  /** What a slot of Opdis holds, whether or not it is in use. */
  datatype Slot = NoFunction | UnaryFn(uop: UnaryOp) | BinaryFn(bop: BinaryOp)

  /** All of Opdis. */
  type Slots = s: seq<Slot> | |s| == MAXOPS witness seq(MAXOPS, _ => NoFunction)

  const UNUSED: Slots := seq(MAXOPS, _ => NoFunction)

  datatype Cell = Bracket(left: Slot) | UnaryCell(uop: UnaryOp) | BinaryCell(bop: BinaryOp)

  function CellPriority(c: Cell): nat {
    match c
    case Bracket(_) => 0
    case UnaryCell(_) => UNARY_PRIORITY
    case BinaryCell(op) => Priority(op)
  }

  function SlotOf(c: Cell): Slot {
    match c
    case Bracket(left) => left
    case UnaryCell(op) => UnaryFn(op)
    case BinaryCell(op) => BinaryFn(op)
  }

  /** `errors` counts the syntax errors reported without stopping. `strayed` only records how
      many opening brackets have been reduced as if they were operators. */
  datatype Mach = Mach(args: seq<Arg>, ops: seq<Cell>, argBase: nat, opBase: nat, errors: nat, strayed: nat)

  function Argi(m: Mach): nat { m.argBase + |m.args| }

  function Opi(m: Mach): nat { m.opBase + |m.ops| }

  /** What a symbol stands for: a value, or (EQM) an expression to evaluate at each use. */
  datatype Def = Value(arg: Arg) | Eqm(tokens: seq<Token>)

  type Table = map<string, Def>

  predicate Inv(m: Mach) { Argi(m) <= MAXARGS && Opi(m) <= MAXOPS }

  predicate Keeps(m: Mach, m': Mach) { Inv(m') && m'.argBase == m.argBase && m'.opBase == m.opBase }

  function PopArgs(m: Mach, n: nat): Mach
    requires n <= |m.args|
  {
    m.(args := m.args[..|m.args| - n])
  }

  function PopOp(m: Mach): Mach
    requires m.ops != []
  {
    m.(ops := m.ops[..|m.ops| - 1])
  }

  function Top(m: Mach): Cell
    requires m.ops != []
  {
    m.ops[|m.ops| - 1]
  }

  function SyntaxError(m: Mach): Mach { m.(args := [], errors := m.errors + 1) }

  /** evaltop. The priority of a bracket is not that of a unary operator, so it goes the
      way of a binary one. */
  function EvalTop(m: Mach): (r: Result<Mach>)
    requires Inv(m)
    decreases |m.ops|, 0
    ensures r.Ok? ==> Keeps(m, r.value)
    ensures r.Ok? && m.ops != [] ==> |r.value.ops| < |m.ops|
  {
    if m.ops == [] then Ok(m.(errors := m.errors + 1))
    else
      match Top(m)
      case Bracket(left) => if left.NoFunction? then Abort else TakeTwo(PopOp(m).(strayed := m.strayed + 1), left)
      case UnaryCell(op) => TakeOne(PopOp(m), op)
      case BinaryCell(op) => TakeTwo(PopOp(m), BinaryFn(op))
  }

  /** The two halves of evaltop, once the operator is off the stack. */
  function TakeOne(m: Mach, op: UnaryOp): (r: Result<Mach>)
    requires Inv(m)
    decreases |m.ops|, 3
    ensures r.Ok? ==> Keeps(m, r.value) && |r.value.ops| <= |m.ops|
  {
    var n := |m.args|;
    if n < 1 then Ok(SyntaxError(m)) else StackArg(PopArgs(m, 1), ApplyUnary(op, m.args[n - 1]))
  }

  function TakeTwo(m: Mach, fn: Slot): (r: Result<Mach>)
    requires Inv(m) && !fn.NoFunction?
    decreases |m.ops|, 3
    ensures r.Ok? ==> Keeps(m, r.value) && |r.value.ops| <= |m.ops|
  {
    var n := |m.args|;
    if n < 2 then Ok(SyntaxError(m))
    else
      match fn
      case UnaryFn(_) => Corrupt
      case BinaryFn(op) =>
        match ApplyBinary(op, m.args[n - 2], m.args[n - 1])
        case Ok(v) => StackArg(PopArgs(m, 2), v)
        case Abort => Abort
  }

  function PushArg(m: Mach, v: Arg): Mach { m.(args := m.args + [v]) }

  function PushOp(m: Mach, c: Cell): Mach { m.(ops := m.ops + [c]) }

  /** stackarg: push, then apply the unary operators that were waiting. */
  function StackArg(m: Mach, v: Arg): (r: Result<Mach>)
    requires Inv(m)
    decreases |m.ops|, 2
    ensures r.Ok? ==> Keeps(m, r.value) && |r.value.ops| <= |m.ops|
  {
    if MAXARGS <= Argi(m) then Abort else DrainUnaries(PushArg(m, v))
  }

  function DrainUnaries(m: Mach): (r: Result<Mach>)
    requires Inv(m)
    decreases |m.ops|, 1
    ensures r.Ok? ==> Keeps(m, r.value) && |r.value.ops| <= |m.ops|
  {
    if m.ops != [] && Top(m).UnaryCell? then
      match EvalTop(m)
      case Ok(m') => DrainUnaries(m')
      case e => e
    else Ok(m)
  }

  /** Reduce while the top operator is no bracket and binds at least as tightly as p. */
  function ReduceTo(m: Mach, p: nat): (r: Result<Mach>)
    requires Inv(m) && 0 < p
    decreases |m.ops|
    ensures r.Ok? ==> Keeps(m, r.value) && |r.value.ops| <= |m.ops|
  {
    if m.ops != [] && p <= CellPriority(Top(m)) then
      match EvalTop(m)
      case Ok(m') => ReduceTo(m', p)
      case e => e
    else Ok(m)
  }

  /** Reduce everything above the base, brackets included. */
  function Flush(m: Mach): (r: Result<Mach>)
    requires Inv(m)
    decreases |m.ops|
    ensures r.Ok? ==> Keeps(m, r.value) && r.value.ops == []
  {
    if m.ops != [] then
      match EvalTop(m)
      case Ok(m') => Flush(m')
      case e => e
    else Ok(m)
  }

  /** doop with priority 128 */
  function DoUnary(m: Mach, op: UnaryOp): (r: Result<Mach>)
    requires Inv(m)
    ensures r.Ok? ==> Keeps(m, r.value)
  {
    if MAXOPS <= Opi(m) then Abort else Ok(PushOp(m, UnaryCell(op)))
  }

  /** doop with a binary priority; a full stack drops every waiting operator. */
  function DoBinary(m: Mach, op: BinaryOp): (r: Result<Mach>)
    requires Inv(m)
    ensures r.Ok? ==> Keeps(m, r.value)
  {
    if m.ops == [] then
      if MAXOPS <= Opi(m) then Abort else Ok(PushOp(m, BinaryCell(op)))
    else
      match ReduceTo(m, Priority(op))
      case Ok(m1) =>
        if MAXOPS <= Opi(m1) then Ok(m1.(ops := [])) else Ok(PushOp(m1, BinaryCell(op)))
      case e => e
  }

  /** `[` stores its priority over whatever the slot holds. */
  function OpenBracket(m: Mach, slots: Slots): (r: Mach)
    requires Inv(m)
    ensures Keeps(m, r)
  {
    if Opi(m) == MAXOPS then m else PushOp(m, Bracket(slots[Opi(m)]))
  }

  function CloseBracket(m: Mach): (r: Result<Mach>)
    requires Inv(m)
    ensures r.Ok? ==> Keeps(m, r.value)
  {
    match ReduceTo(m, 1)
    case Ok(m1) => Ok(if m1.ops == [] then m1 else PopOp(m1))
    case e => e
  }

  /** An evaluation in progress: the machine, Opdis, and the list elements already taken. */
  datatype Progress = Progress(m: Mach, slots: Slots, taken: seq<Arg>)

  /** A comma takes the top argument without looking whether there is one. */
  function TakeAtComma(s: Progress): (r: Result<Progress>)
    requires Inv(s.m)
    ensures r.Ok? ==> Keeps(s.m, r.value.m)
  {
    match Flush(s.m)
    case Ok(m) =>
      if m.args == [] then Corrupt
      else
        var e := if |m.args| > 1 then 1 else 0;
        Ok(s.(m := PopArgs(m, 1).(errors := m.errors + e), taken := s.taken + [m.args[|m.args| - 1]]))
    case Abort => Abort
    case Corrupt => Corrupt
  }

  function OnMach(s: Progress, r: Result<Mach>): Result<Progress> {
    match r
    case Ok(m) => Ok(s.(m := m))
    case Abort => Abort
    case Corrupt => Corrupt
  }

  /** doop also writes the operator's function into its slot. */
  function Pushed(s: Progress, r: Result<Mach>): Result<Progress>
    requires r.Ok? ==> Inv(r.value)
  {
    match r
    case Ok(m) => Ok(s.(m := m, slots := if m.ops == [] then s.slots else s.slots[Opi(m) - 1 := SlotOf(Top(m))]))
    case Abort => Abort
    case Corrupt => Corrupt
  }

  /** pushsymbol; `rec` is how much deeper symbols may nest. */
  function PushSymbol(table: Table, rec: nat, s: Progress, name: string): (r: Result<Progress>)
    requires Inv(s.m)
    decreases rec, 0, 0
    ensures r.Ok? ==> Keeps(s.m, r.value.m)
  {
    if rec == 0 then Abort else PushNamed(table, rec - 1, s, name)
  }

  function PushNamed(table: Table, rec: nat, s: Progress, name: string): (r: Result<Progress>)
    requires Inv(s.m)
    decreases rec, 5, 0
    ensures r.Ok? ==> Keeps(s.m, r.value.m)
  {
    if name !in table then OnMach(s, StackArg(s.m, Arg(0, true)))
    else
      match table[name]
      case Value(a) => OnMach(s, StackArg(s.m, a))
      case Eqm(def) => PushValue(s, Eval(table, rec, s.m, s.slots, def))
  }

  /** The first value of the definition of an EQM is pushed. */
  function PushValue(s: Progress, def: Result<Progress>): (r: Result<Progress>)
    requires def.Ok? ==> Inv(def.value.m) && def.value.taken != []
    ensures r.Ok? ==> def.Ok? && Keeps(def.value.m, r.value.m)
  {
    match def
    case Ok(d) => OnMach(s.(slots := d.slots), StackArg(d.m, d.taken[0]))
    case Abort => Abort
    case Corrupt => Corrupt
  }

  function Step(table: Table, rec: nat, s: Progress, token: Token): (r: Result<Progress>)
    requires Inv(s.m)
    decreases rec, 1, 0
    ensures r.Ok? ==> Keeps(s.m, r.value.m)
  {
    match token
    case Operand(Number(v)) => OnMach(s, StackArg(s.m, Arg(v, false)))
    case Operand(Ref(x)) => PushSymbol(table, rec, s, x)
    case Prefix(op) => Pushed(s, DoUnary(s.m, op))
    case Infix(op) => Pushed(s, DoBinary(s.m, op))
    case Open => Ok(s.(m := OpenBracket(s.m, s.slots)))
    case Close => OnMach(s, CloseBracket(s.m))
    case Comma => TakeAtComma(s)
  }

  function Run(table: Table, rec: nat, s: Progress, tokens: seq<Token>): (r: Result<Progress>)
    requires Inv(s.m)
    decreases rec, 2, |tokens|
    ensures r.Ok? ==> Keeps(s.m, r.value.m)
  {
    if tokens == [] then Ok(s)
    else
      match Step(table, rec, s, tokens[0])
      case Ok(s') => Run(table, rec, s', tokens[1..])
      case e => e
  }

  /** The end of eval: the last element of the list. */
  function Finish(s: Progress): (r: Result<Progress>)
    requires Inv(s.m)
    ensures r.Ok? ==> r.value.taken != []
  {
    match Flush(s.m)
    case Ok(m) =>
      var n := |m.args|;
      var last := if n != 0 then m.args[n - 1] else Arg(0, false);
      var e := if n > 1 then 1 else 0;
      Ok(s.(m := m.(args := [], errors := m.errors + e), taken := s.taken + [last]))
    case Abort => Abort
    case Corrupt => Corrupt
  }

  function RunToEnd(table: Table, rec: nat, s: Progress, tokens: seq<Token>): (r: Result<Progress>)
    requires Inv(s.m)
    decreases rec, 3, 0
    ensures r.Ok? ==> r.value.taken != []
  {
    match Run(table, rec, s, tokens)
    case Ok(s') => Finish(s')
    case e => e
  }

  /** An evaluation that starts above everything m has on its stacks. */
  function Above(m: Mach): Mach { Mach([], [], Argi(m), Opi(m), m.errors, m.strayed) }

  /** eval: the stacks of m come back as they were; only what was counted may differ. */
  function Eval(table: Table, rec: nat, m: Mach, slots: Slots, tokens: seq<Token>): (r: Result<Progress>)
    requires Inv(m)
    decreases rec, 4, 0
    ensures r.Ok? ==> r.value.m == m.(errors := r.value.m.errors, strayed := r.value.m.strayed) && r.value.taken != []
  {
    match RunToEnd(table, rec, Progress(Above(m), slots, []), tokens)
    case Ok(d) => Ok(d.(m := m.(errors := d.m.errors, strayed := d.m.strayed)))
    case e => e
  }

  // ----- running token lists in pieces -----

  function ThenRun(table: Table, rec: nat, r: Result<Progress>, tokens: seq<Token>): Result<Progress>
    requires r.Ok? ==> Inv(r.value.m)
  {
    match r
    case Ok(s) => Run(table, rec, s, tokens)
    case e => e
  }

  function ThenStep(table: Table, rec: nat, r: Result<Progress>, token: Token): (r': Result<Progress>)
    requires r.Ok? ==> Inv(r.value.m)
    ensures r'.Ok? ==> Inv(r'.value.m)
  {
    match r
    case Ok(s) => Step(table, rec, s, token)
    case e => e
  }

  lemma {:induction false} RunAppend(table: Table, rec: nat, s: Progress, a: seq<Token>, b: seq<Token>)
    requires Inv(s.m)
    ensures Run(table, rec, s, a + b) == ThenRun(table, rec, Run(table, rec, s, a), b)
    decreases |a|
  {
    if a == [] {
      assert a + b == b;
    } else {
      assert (a + b)[1..] == a[1..] + b;
      if Step(table, rec, s, a[0]).Ok? {
        RunAppend(table, rec, Step(table, rec, s, a[0]).value, a[1..], b);
      }
    }
  }

  lemma RunOne(table: Table, rec: nat, s: Progress, token: Token)
    requires Inv(s.m)
    ensures Run(table, rec, s, [token]) == Step(table, rec, s, token)
  {
    if Step(table, rec, s, token).Ok? {
      var s' := Step(table, rec, s, token).value;
      assert Run(table, rec, s', [token][1..]) == Ok(s');
    }
  }

  /** Reading a, then one token, then b. */
  lemma RunAround(table: Table, rec: nat, s: Progress, a: seq<Token>, token: Token, b: seq<Token>)
    requires Inv(s.m)
    ensures Run(table, rec, s, a + ([token] + b))
         == ThenRun(table, rec, ThenStep(table, rec, Run(table, rec, s, a), token), b)
  {
    RunAppend(table, rec, s, a, [token] + b);
    if Run(table, rec, s, a).Ok? {
      var s' := Run(table, rec, s, a).value;
      RunAppend(table, rec, s', [token], b);
      RunOne(table, rec, s', token);
    }
  }
}
