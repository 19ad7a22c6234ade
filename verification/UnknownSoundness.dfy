/** A value called known does not depend on what is still unknown. */
module UnknownSoundness {
  import opened Results
  import opened Operators
  import opened Expressions
  import opened ExpressionMachine
  import opened ExpressionProofs

  /** later settles some unknowns of earlier and changes nothing that was settled. */
  ghost predicate Settles(earlier: Table, later: Table) {
    forall x <- earlier :: !(earlier[x].Value? && earlier[x].arg.unknown) ==> x in later && later[x] == earlier[x]
  }

  lemma {:induction false} TreeSound(earlier: Table, later: Table, rec: nat, t: Tree)
    requires Settles(earlier, later)
    requires EvalTree(earlier, rec, t).Ok? && EvalTree(later, rec, t).Ok?
    decreases rec, t
    ensures Resolves(EvalTree(earlier, rec, t).value, EvalTree(later, rec, t).value)
  {
    match t
    case Leaf(Number(_)) =>
    case Leaf(Ref(x)) =>
      if x in earlier && earlier[x].Eqm? && Parse(earlier[x].tokens).Some? {
        TreeSound(earlier, later, rec - 1, Parse(earlier[x].tokens).value);
      }
    case Group(e) => TreeSound(earlier, later, rec, e);
    case Unary(_, e) => TreeSound(earlier, later, rec, e);
    case Binary(op, l, r) =>
      TreeSound(earlier, later, rec, l);
      TreeSound(earlier, later, rec, r);
      BinaryResolves(op, EvalTree(earlier, rec, l).value, EvalTree(earlier, rec, r).value,
                     EvalTree(later, rec, l).value, EvalTree(later, rec, r).value);
  }

  /** The same of the stack machine: if eval calls a well-formed expression known while
      some symbols are not, it gives that value whatever those symbols turn out to be
      (unless a division by zero, or EQM recursion, ends that later evaluation). */
  lemma EvaluationSound(earlier: Table, later: Table, slots: Slots, slots': Slots, tokens: seq<Token>)
    requires Settles(earlier, later) && EqmsWellFormed(earlier) && EqmsWellFormed(later) && WellFormed(tokens)
    requires Parse(tokens).Some? ==> OpNeed(earlier, MAX_RECURSION, Parse(tokens).value) <= MAXOPS
    requires Parse(tokens).Some? ==> OpNeed(later, MAX_RECURSION, Parse(tokens).value) <= MAXOPS
    ensures
      var a := Eval(earlier, MAX_RECURSION, AT_REST, slots, tokens);
      var b := Eval(later, MAX_RECURSION, AT_REST, slots', tokens);
      a.Ok? && b.Ok? && !a.value.taken[0].unknown ==> b.value.taken == a.value.taken && b.value.m == a.value.m
  {
    WellFormedEvaluation(earlier, slots, tokens);
    WellFormedEvaluation(later, slots', tokens);
    var t := Parse(tokens).value;
    if EvalTree(earlier, MAX_RECURSION, t).Ok? && EvalTree(later, MAX_RECURSION, t).Ok? {
      TreeSound(earlier, later, MAX_RECURSION, t);
    }
  }

  // ----- the stack machine, on any text -----

  /** No symbol becomes an EQM. */
  ghost predicate SameTexts(earlier: Table, later: Table) {
    forall x <- later :: later[x].Eqm? ==> x in earlier && earlier[x] == later[x]
  }

  /** e and m are in the same place, and m has every value e knows. */
  ghost predicate Settled(e: Mach, m: Mach) {
    && m == e.(args := m.args) && |m.args| == |e.args|
    && forall i | 0 <= i < |e.args| :: Resolves(e.args[i], m.args[i])
  }

  /** The later evaluation ends in Abort, or both come to the same place. */
  ghost predicate SettledResult(e: Result<Mach>, m: Result<Mach>) {
    m.Abort? || (m.Corrupt? && e.Corrupt?) || (m.Ok? && e.Ok? && Settled(e.value, m.value))
  }

  ghost predicate SettledProgress(e: Progress, m: Progress) {
    && Settled(e.m, m.m) && m.slots == e.slots && |m.taken| == |e.taken|
    && forall i | 0 <= i < |e.taken| :: Resolves(e.taken[i], m.taken[i])
  }

  ghost predicate SettledRun(e: Result<Progress>, m: Result<Progress>) {
    m.Abort? || (m.Corrupt? && e.Corrupt?) || (m.Ok? && e.Ok? && SettledProgress(e.value, m.value))
  }

  lemma {:induction false} TopSettled(e: Mach, m: Mach)
    requires Inv(e) && Inv(m) && Settled(e, m)
    decreases |e.ops|, 0
    ensures SettledResult(EvalTop(e), EvalTop(m))
  {
    if e.ops != [] {
      match Top(e)
      case Bracket(left) =>
        if !left.NoFunction? {
          TwoSettled(PopOp(e).(strayed := e.strayed + 1), PopOp(m).(strayed := m.strayed + 1), left);
        }
      case UnaryCell(op) => OneSettled(PopOp(e), PopOp(m), op);
      case BinaryCell(op) => TwoSettled(PopOp(e), PopOp(m), BinaryFn(op));
    }
  }

  lemma UnaryResolves(op: UnaryOp, a: Arg, b: Arg)
    requires Resolves(a, b)
    ensures Resolves(ApplyUnary(op, a), ApplyUnary(op, b))
  {}

  lemma {:induction false} OneSettled(e: Mach, m: Mach, op: UnaryOp)
    requires Inv(e) && Inv(m) && Settled(e, m)
    decreases |e.ops|, 3
    ensures SettledResult(TakeOne(e, op), TakeOne(m, op))
  {
    var n := |e.args|;
    if n != 0 {
      UnaryResolves(op, e.args[n - 1], m.args[n - 1]);
      PushSettled(PopArgs(e, 1), PopArgs(m, 1), ApplyUnary(op, e.args[n - 1]), ApplyUnary(op, m.args[n - 1]));
    }
  }

  /** What is fatal with fewer values known is fatal with more. */
  lemma BinaryFatal(op: BinaryOp, a: Arg, b: Arg, a': Arg, b': Arg)
    requires Resolves(a, a') && Resolves(b, b') && ApplyBinary(op, a', b').Ok?
    ensures ApplyBinary(op, a, b).Ok? && Resolves(ApplyBinary(op, a, b).value, ApplyBinary(op, a', b').value)
  {
    BinaryResolves(op, a, b, a', b');
  }

  lemma {:induction false} TwoSettled(e: Mach, m: Mach, fn: Slot)
    requires Inv(e) && Inv(m) && Settled(e, m) && !fn.NoFunction?
    decreases |e.ops|, 3
    ensures SettledResult(TakeTwo(e, fn), TakeTwo(m, fn))
  {
    var n := |e.args|;
    if 2 <= n && fn.BinaryFn? && ApplyBinary(fn.bop, m.args[n - 2], m.args[n - 1]).Ok? {
      BinaryFatal(fn.bop, e.args[n - 2], e.args[n - 1], m.args[n - 2], m.args[n - 1]);
      PushSettled(PopArgs(e, 2), PopArgs(m, 2), ApplyBinary(fn.bop, e.args[n - 2], e.args[n - 1]).value,
                  ApplyBinary(fn.bop, m.args[n - 2], m.args[n - 1]).value);
    }
  }

  lemma {:induction false} PushSettled(e: Mach, m: Mach, a: Arg, b: Arg)
    requires Inv(e) && Inv(m) && Settled(e, m) && Resolves(a, b)
    decreases |e.ops|, 2
    ensures SettledResult(StackArg(e, a), StackArg(m, b))
  {
    if Argi(e) < MAXARGS {
      DrainSettled(PushArg(e, a), PushArg(m, b));
    }
  }

  lemma {:induction false} DrainSettled(e: Mach, m: Mach)
    requires Inv(e) && Inv(m) && Settled(e, m)
    decreases |e.ops|, 1
    ensures SettledResult(DrainUnaries(e), DrainUnaries(m))
  {
    if e.ops != [] && Top(e).UnaryCell? {
      TopSettled(e, m);
      if EvalTop(m).Ok? {
        DrainSettled(EvalTop(e).value, EvalTop(m).value);
      }
    }
  }

  lemma {:induction false} ReduceSettled(e: Mach, m: Mach, p: nat)
    requires Inv(e) && Inv(m) && Settled(e, m) && 0 < p
    decreases |e.ops|
    ensures SettledResult(ReduceTo(e, p), ReduceTo(m, p))
  {
    if e.ops != [] && p <= CellPriority(Top(e)) {
      TopSettled(e, m);
      if EvalTop(m).Ok? {
        ReduceSettled(EvalTop(e).value, EvalTop(m).value, p);
      }
    }
  }

  lemma {:induction false} FlushSettled(e: Mach, m: Mach)
    requires Inv(e) && Inv(m) && Settled(e, m)
    decreases |e.ops|
    ensures SettledResult(Flush(e), Flush(m))
  {
    if e.ops != [] {
      TopSettled(e, m);
      if EvalTop(m).Ok? {
        FlushSettled(EvalTop(e).value, EvalTop(m).value);
      }
    }
  }

  lemma CommaSettled(e: Progress, m: Progress)
    requires Inv(e.m) && Inv(m.m) && SettledProgress(e, m)
    ensures SettledRun(TakeAtComma(e), TakeAtComma(m))
  {
    FlushSettled(e.m, m.m);
  }

  lemma FinishSettled(e: Progress, m: Progress)
    requires Inv(e.m) && Inv(m.m) && SettledProgress(e, m)
    ensures SettledRun(Finish(e), Finish(m))
  {
    FlushSettled(e.m, m.m);
  }

  lemma {:induction false} NameSettled(earlier: Table, later: Table, rec: nat, e: Progress, m: Progress, x: string)
    requires Settles(earlier, later) && SameTexts(earlier, later)
    requires Inv(e.m) && Inv(m.m) && SettledProgress(e, m)
    decreases rec, 0, 0
    ensures SettledRun(PushSymbol(earlier, rec, e, x), PushSymbol(later, rec, m, x))
  {
    if rec != 0 {
      if x in earlier && earlier[x].Eqm? {
        MachineSound(earlier, later, rec - 1, e.m, m.m, e.slots, earlier[x].tokens);
        DefinitionSettled(e, m, Eval(earlier, rec - 1, e.m, e.slots, earlier[x].tokens),
                          Eval(later, rec - 1, m.m, m.slots, earlier[x].tokens));
      } else {
        var a := if x in earlier then earlier[x].arg else Arg(0, true);
        PushSettled(e.m, m.m, a, if x in later then later[x].arg else Arg(0, true));
      }
    }
  }

  lemma DefinitionSettled(e: Progress, m: Progress, d: Result<Progress>, d': Result<Progress>)
    requires d.Ok? ==> Inv(d.value.m) && d.value.taken != []
    requires d'.Ok? ==> Inv(d'.value.m) && d'.value.taken != []
    requires SettledProgress(e, m) && SettledRun(d, d')
    ensures SettledRun(PushValue(e, d), PushValue(m, d'))
  {
    if d'.Ok? {
      PushSettled(d.value.m, d'.value.m, d.value.taken[0], d'.value.taken[0]);
    }
  }

  lemma BinarySettled(e: Mach, m: Mach, op: BinaryOp)
    requires Inv(e) && Inv(m) && Settled(e, m)
    ensures SettledResult(DoBinary(e, op), DoBinary(m, op))
  {
    if e.ops != [] {
      ReduceSettled(e, m, Priority(op));
    }
  }

  lemma CloseSettled(e: Mach, m: Mach)
    requires Inv(e) && Inv(m) && Settled(e, m)
    ensures SettledResult(CloseBracket(e), CloseBracket(m))
  {
    ReduceSettled(e, m, 1);
  }

  lemma OnMachSettled(e: Progress, m: Progress, a: Result<Mach>, b: Result<Mach>)
    requires SettledProgress(e, m) && SettledResult(a, b)
    ensures SettledRun(OnMach(e, a), OnMach(m, b))
  {}

  lemma PushedSettled(e: Progress, m: Progress, a: Result<Mach>, b: Result<Mach>)
    requires (a.Ok? ==> Inv(a.value)) && (b.Ok? ==> Inv(b.value))
    requires SettledProgress(e, m) && SettledResult(a, b)
    ensures SettledRun(Pushed(e, a), Pushed(m, b))
  {}

  lemma {:induction false} StepSettled(earlier: Table, later: Table, rec: nat, e: Progress, m: Progress, token: Token)
    requires Settles(earlier, later) && SameTexts(earlier, later)
    requires Inv(e.m) && Inv(m.m) && SettledProgress(e, m)
    decreases rec, 1, 0
    ensures SettledRun(Step(earlier, rec, e, token), Step(later, rec, m, token))
  {
    match token
    case Operand(Number(v)) =>
      PushSettled(e.m, m.m, Arg(v, false), Arg(v, false));
      OnMachSettled(e, m, StackArg(e.m, Arg(v, false)), StackArg(m.m, Arg(v, false)));
    case Operand(Ref(x)) => NameSettled(earlier, later, rec, e, m, x);
    case Prefix(op) => PushedSettled(e, m, DoUnary(e.m, op), DoUnary(m.m, op));
    case Infix(op) =>
      BinarySettled(e.m, m.m, op);
      PushedSettled(e, m, DoBinary(e.m, op), DoBinary(m.m, op));
    case Open =>
    case Close =>
      CloseSettled(e.m, m.m);
      OnMachSettled(e, m, CloseBracket(e.m), CloseBracket(m.m));
    case Comma => CommaSettled(e, m);
  }

  lemma {:induction false} RunSettled(earlier: Table, later: Table, rec: nat, e: Progress, m: Progress, tokens: seq<Token>)
    requires Settles(earlier, later) && SameTexts(earlier, later)
    requires Inv(e.m) && Inv(m.m) && SettledProgress(e, m)
    decreases rec, 2, |tokens|
    ensures SettledRun(Run(earlier, rec, e, tokens), Run(later, rec, m, tokens))
  {
    if tokens != [] {
      StepSettled(earlier, later, rec, e, m, tokens[0]);
      if Step(later, rec, m, tokens[0]).Ok? {
        RunSettled(earlier, later, rec, Step(earlier, rec, e, tokens[0]).value, Step(later, rec, m, tokens[0]).value, tokens[1..]);
      }
    }
  }

  /** The evaluator treats unknown values soundly, on any text, however malformed: if symbols
      settle, the same evaluation later is fatal, or it goes the same way, down to the stacks,
      the errors it reports, the operators it leaves in Opdis and whether it leaves its memory;
      and every value that was known is the same. */
  lemma {:induction false} MachineSound(
    earlier: Table, later: Table, rec: nat, e: Mach, m: Mach, slots: Slots, tokens: seq<Token>)
    requires Settles(earlier, later) && SameTexts(earlier, later)
    requires Inv(e) && Inv(m) && Settled(e, m)
    decreases rec, 3, 0
    ensures SettledRun(Eval(earlier, rec, e, slots, tokens), Eval(later, rec, m, slots, tokens))
  {
    var e0, m0 := Progress(Above(e), slots, []), Progress(Above(m), slots, []);
    RunSettled(earlier, later, rec, e0, m0, tokens);
    if Run(later, rec, m0, tokens).Ok? {
      FinishSettled(Run(earlier, rec, e0, tokens).value, Run(later, rec, m0, tokens).value);
    }
  }

  /** All symbols unknown; the texts of EQMs stay. */
  function Unset(table: Table): Table {
    map x | x in table :: if table[x].Value? then Value(Arg(0, true)) else table[x]
  }

  /** So whether an evaluation leaves its memory does not depend on the values of symbols: unless
      it is fatal, it does so exactly if it does with all of them unknown. */
  lemma CorruptWhateverTheValues(table: Table, rec: nat, m: Mach, slots: Slots, tokens: seq<Token>)
    requires Inv(m)
    ensures
      var r := Eval(table, rec, m, slots, tokens);
      r.Abort? || (r.Corrupt? <==> Eval(Unset(table), rec, m, slots, tokens).Corrupt?)
  {
    MachineSound(Unset(table), table, rec, m, m, slots, tokens);
  }

  /** The exception is real: `7/x || 1` is known to be 1 while x is unknown, and fatal when
      x is 0. */
  lemma SettlingCanDivideByZero()
    ensures
      var t := Binary(OrOr, Binary(Div, Leaf(Number(7)), Leaf(Ref("x"))), Leaf(Number(1)));
      var unset: Table := map["x" := Value(Arg(0, true))];
      var zero: Table := map["x" := Value(Arg(0, false))];
      && Canonical(t) && Settles(unset, zero)
      && EvalTree(unset, MAX_RECURSION, t) == Ok(Arg(1, false))
      && EvalTree(zero, MAX_RECURSION, t) == Abort
  {
    var div := Binary(Div, Leaf(Number(7)), Leaf(Ref("x")));
    var unset: Table := map["x" := Value(Arg(0, true))];
    var zero: Table := map["x" := Value(Arg(0, false))];
    assert EvalTree(unset, MAX_RECURSION, div) == Ok(Arg(0, true));
    assert EvalTree(zero, MAX_RECURSION, div) == Abort;
  }
}
