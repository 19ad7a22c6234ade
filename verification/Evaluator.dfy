/** src/exp.c with its global stacks, proved against the functions of ExpressionMachine. */
module Evaluator {
  import opened Results
  import opened Operators
  import opened Expressions
  import opened ExpressionMachine

  /** A slot of Oppri and its slot of Opdis hold the cell c. */
  predicate Holds(c: Cell, pri: nat, fn: Slot) { CellPriority(c) == pri && SlotOf(c) == fn }

  /** The globals of src/exp.c; a cell of Argstack holds value and flag. `machine` is what
      the evaluation in progress has on the stacks. */
  class ExpressionStacks {
    const Argstack: array<Arg>
    const Opdis: array<Slot>
    const Oppri: array<nat>
    var Argi: nat
    var Opi: nat
    var Argibase: nat
    var Opibase: nat
    var symbolRecursionCount: nat
    var errors: nat
    ghost var machine: Mach

    ghost predicate Valid()
      reads this, Argstack, Opdis, Oppri
    {
      && Argstack.Length == MAXARGS && Opdis.Length == MAXOPS && Oppri.Length == MAXOPS
      && Argibase <= Argi <= MAXARGS && Opibase <= Opi <= MAXOPS
      && symbolRecursionCount <= MAX_RECURSION
      && machine.argBase == Argibase && machine.opBase == Opibase && machine.errors == errors
      && machine.args == Argstack[Argibase..Argi]
      && |machine.ops| == Opi - Opibase
      && forall k :: 0 <= k < |machine.ops| ==> Holds(machine.ops[k], Oppri[Opibase + k], Opdis[Opibase + k])
    }

    /** Valid, with no evaluation in progress and nothing left on the stacks. The recursion
        only keeps this folded up where a caller carries it from one call to the next. */
    ghost predicate Idle(n: nat)
      reads this, Argstack, Opdis, Oppri
      decreases n
    {
      n == 0 || (Valid() && machine == Mach([], [], 0, 0, 0, 0) && symbolRecursionCount == 0 && Idle(n - 1))
    }

    ghost predicate Shows(r: Outcome, spec: Result<Mach>)
      reads this, Argstack, Opdis, Oppri
    {
      && r == OutcomeOf(spec)
      && (r.Fine? ==> Valid() && machine == spec.value)
    }

    /** The same with Opdis. */
    ghost predicate ShowsStep(r: Outcome, spec: Result<Progress>)
      reads this, Argstack, Opdis, Oppri
    {
      && r == OutcomeOf(spec)
      && (r.Fine? ==> Valid() && machine == spec.value.m && Opdis[..] == spec.value.slots)
    }

    /** The same with the list elements taken so far. */
    ghost predicate ShowsList(r: Result<seq<Arg>>, spec: Result<Progress>)
      reads this, Argstack, Opdis, Oppri
    {
      && ShowsStep(OutcomeOf(r), spec)
      && (r.Ok? ==> r.value == spec.value.taken)
    }

    /** No other global than the tops and the counts has changed, and nothing below the bases. */
    twostate predicate Untouched()
      requires old(Valid()) && Valid()
      reads this, Argstack, Opdis, Oppri
    {
      && Argibase == old(Argibase) && Opibase == old(Opibase)
      && symbolRecursionCount == old(symbolRecursionCount)
      && Argstack[..Argibase] == old(Argstack[..Argibase])
      && Opdis[..Opibase] == old(Opdis[..Opibase])
      && Oppri[..Opibase] == old(Oppri[..Opibase])
    }

    constructor ()
      ensures Valid() && machine == Mach([], [], 0, 0, 0, 0) && Opdis[..] == UNUSED && symbolRecursionCount == 0
      ensures fresh(Argstack) && fresh(Opdis) && fresh(Oppri)
    {
      Argstack := new Arg[MAXARGS](_ => Arg(0, false));
      Opdis := new Slot[MAXOPS](_ => NoFunction);
      Oppri := new nat[MAXOPS](_ => 0);
      Argi, Opi, Argibase, Opibase, symbolRecursionCount, errors := 0, 0, 0, 0, 0, 0;
      machine := Mach([], [], 0, 0, 0, 0);
    }

    method DropOp()
      requires Valid() && Opibase < Opi
      modifies this`Opi, this`machine
      ensures Valid() && Opi == old(Opi) - 1 && machine == PopOp(old(machine))
      ensures Holds(Top(old(machine)), Oppri[Opi], Opdis[Opi])
    {
      Opi := Opi - 1;
      machine := PopOp(machine);
    }

    method DropArgs(n: nat)
      requires Valid() && Argibase + n <= Argi
      modifies this`Argi, this`machine
      ensures Valid() && Argi == old(Argi) - n && machine == PopArgs(old(machine), n)
    {
      assert Argstack[Argibase..Argi][..|machine.args| - n] == Argstack[Argibase..Argi - n];
      Argi := Argi - n;
      machine := PopArgs(machine, n);
    }

    method ReportSyntaxError()
      requires Valid()
      modifies this`Argi, this`errors, this`machine
      ensures Valid() && machine == SyntaxError(old(machine))
    {
      errors := errors + 1;
      Argi := Argibase;
      machine := SyntaxError(machine);
    }

    method EvalTop() returns (r: Outcome)
      requires Valid()
      modifies this, Argstack
      decreases Opi, 1
      ensures Shows(r, ExpressionMachine.EvalTop(old(machine)))
      ensures r.Fine? ==> Valid() && Untouched()
    {
      r := Fine;
      if Opi <= Opibase {
        errors := errors + 1;
        Opi := Opibase;
        machine := machine.(errors := errors);
        return;
      }
      DropOp();
      if Opdis[Opi].NoFunction? {
        return Aborted;
      }
      if Oppri[Opi] == UNARY_PRIORITY {
        r := TakeOne(Opdis[Opi].uop);
      } else {
        machine := machine.(strayed := machine.strayed + if Oppri[Opi] == 0 then 1 else 0);
        r := TakeTwo(Opdis[Opi]);
      }
    }

    method TakeOne(op: UnaryOp) returns (r: Outcome)
      requires Valid()
      modifies this, Argstack
      decreases Opi, 5
      ensures Shows(r, ExpressionMachine.TakeOne(old(machine), op))
      ensures r.Fine? ==> Valid() && Untouched()
    {
      if Argi < Argibase + 1 {
        ReportSyntaxError();
        return Fine;
      }
      DropArgs(1);
      r := StackArg(ApplyUnary(op, Argstack[Argi]));
    }

    method TakeTwo(fn: Slot) returns (r: Outcome)
      requires Valid() && !fn.NoFunction?
      modifies this, Argstack
      decreases Opi, 5
      ensures Shows(r, ExpressionMachine.TakeTwo(old(machine), fn))
      ensures r.Fine? ==> Valid() && Untouched()
    {
      if Argi < Argibase + 2 {
        ReportSyntaxError();
        return Fine;
      }
      DropArgs(2);
      match fn {
        case UnaryFn(_) => r := Broken;
        case BinaryFn(op) => r := CallBinary(op, Argstack[Argi], Argstack[Argi + 1]);
      }
    }

    /** A binary op_ function: it delivers its result by pushing. */
    method CallBinary(op: BinaryOp, a: Arg, b: Arg) returns (r: Outcome)
      requires Valid()
      modifies this, Argstack
      decreases Opi, 4
      ensures Shows(r, match ApplyBinary(op, a, b)
                       case Ok(v) => ExpressionMachine.StackArg(old(machine), v)
                       case Abort => Abort)
      ensures r.Fine? ==> Valid() && Untouched()
    {
      match ApplyBinary(op, a, b) {
        case Ok(v) => r := StackArg(v);
        case Abort => r := Aborted;
      }
    }

    method Store(v: Arg)
      requires Valid() && Argi < MAXARGS
      modifies this`Argi, this`machine, Argstack
      ensures Valid() && Untouched() && machine == PushArg(old(machine), v)
    {
      Argstack[Argi] := v;
      Argi := Argi + 1;
      machine := PushArg(machine, v);
    }

    method StackArg(v: Arg) returns (r: Outcome)
      requires Valid()
      modifies this, Argstack
      decreases Opi, 3
      ensures Shows(r, ExpressionMachine.StackArg(old(machine), v))
      ensures r.Fine? ==> Valid() && Untouched()
    {
      if MAXARGS <= Argi {
        return Aborted;
      }
      Store(v);
      r := Drain();
    }

    /** Applies the unary operators on top. */
    method Drain() returns (r: Outcome)
      requires Valid()
      modifies this, Argstack
      decreases Opi, 2
      ensures Shows(r, DrainUnaries(old(machine)))
      ensures r.Fine? ==> Valid() && Untouched()
    {
      r := Fine;
      while Opi != Opibase && Oppri[Opi - 1] == UNARY_PRIORITY
        invariant Valid() && Untouched() && r.Fine?
        invariant Opi <= old(Opi)
        invariant DrainUnaries(machine) == DrainUnaries(old(machine))
        decreases Opi
      {
        assert Holds(Top(machine), Oppri[Opi - 1], Opdis[Opi - 1]);
        r := EvalTop();
        if !r.Fine? {
          return;
        }
      }
      assert machine.ops != [] ==> Holds(Top(machine), Oppri[Opi - 1], Opdis[Opi - 1]);
    }

    /** Reduce down to the first operator looser than p. */
    method Reduce(p: nat) returns (r: Outcome)
      requires Valid() && 0 < p
      modifies this, Argstack
      ensures Shows(r, ReduceTo(old(machine), p))
      ensures r.Fine? ==> Valid() && Untouched() && Opi <= old(Opi)
    {
      r := Fine;
      while Opi != Opibase && p <= Oppri[Opi - 1]
        invariant Valid() && Untouched() && r.Fine? && Opi <= old(Opi)
        invariant ReduceTo(machine, p) == ReduceTo(old(machine), p)
        decreases Opi
      {
        assert Holds(Top(machine), Oppri[Opi - 1], Opdis[Opi - 1]);
        r := EvalTop();
        if !r.Fine? {
          return;
        }
      }
      assert machine.ops != [] ==> Holds(Top(machine), Oppri[Opi - 1], Opdis[Opi - 1]);
    }

    /** Reduce everything, brackets included. */
    method ReduceAll() returns (r: Outcome)
      requires Valid()
      modifies this, Argstack
      ensures Shows(r, Flush(old(machine)))
      ensures r.Fine? ==> Valid() && Untouched()
    {
      r := Fine;
      while Opi != Opibase
        invariant Valid() && Untouched() && r.Fine?
        invariant Flush(machine) == Flush(old(machine))
        decreases Opi
      {
        r := EvalTop();
        if !r.Fine? {
          return;
        }
      }
    }

    method PushOperator(fn: Slot, pri: nat, ghost c: Cell)
      requires Valid() && Opi < MAXOPS && Holds(c, pri, fn)
      modifies this`Opi, this`machine, Opdis, Oppri
      ensures Valid() && Untouched() && Opi == old(Opi) + 1
      ensures machine == PushOp(old(machine), c) && Opdis[..] == old(Opdis[..])[old(Opi) := fn]
    {
      Opdis[Opi], Oppri[Opi] := fn, pri;
      Opi := Opi + 1;
      machine := PushOp(machine, c);
    }

    /** doop, for the operator whose cell is c. */
    method DoOp(fn: Slot, pri: nat, ghost c: Cell) returns (r: Outcome)
      requires Valid() && Holds(c, pri, fn) && !c.Bracket?
      modifies this, Argstack, Opdis, Oppri
      ensures ShowsStep(r, Pushed(Progress(old(machine), old(Opdis[..]), []),
                                  match c case UnaryCell(op) => DoUnary(old(machine), op)
                                          case BinaryCell(op) => DoBinary(old(machine), op)))
      ensures r.Fine? ==> Valid() && Untouched()
    {
      if Opi == Opibase || pri == UNARY_PRIORITY {
        if MAXOPS <= Opi {
          return Aborted;
        }
        PushOperator(fn, pri, c);
        return Fine;
      }
      r := Reduce(pri);
      if r.Fine? {
        PushOrDrop(fn, pri, c);
      }
    }

    /** The second half of doop: a full stack loses all its operators. */
    method PushOrDrop(fn: Slot, pri: nat, ghost c: Cell)
      requires Valid() && Holds(c, pri, fn)
      modifies this`Opi, this`machine, Opdis, Oppri
      ensures Valid() && Untouched()
      ensures machine == if MAXOPS <= old(Opi) then old(machine).(ops := []) else PushOp(old(machine), c)
      ensures Opdis[..] == if MAXOPS <= old(Opi) then old(Opdis[..]) else old(Opdis[..])[old(Opi) := fn]
    {
      if MAXOPS <= Opi {
        Opi := Opibase;
        machine := machine.(ops := []);
        return;
      }
      PushOperator(fn, pri, c);
    }

    method DoOpen()
      requires Valid()
      modifies this`Opi, this`machine, Oppri
      ensures Valid() && Untouched() && machine == OpenBracket(old(machine), Opdis[..])
    {
      if Opi != MAXOPS {
        Oppri[Opi] := 0;
        machine := OpenBracket(machine, Opdis[..]);
        Opi := Opi + 1;
      }
    }

    method DoClose() returns (r: Outcome)
      requires Valid()
      modifies this, Argstack
      ensures Shows(r, CloseBracket(old(machine)))
      ensures r.Fine? ==> Valid() && Untouched()
    {
      r := Reduce(1);
      if r.Fine? && Opi != Opibase {
        DropOp();
      }
    }

    /** The `,` branch of eval: takes the argument on top, or reads below the base. */
    method DoComma(taken: seq<Arg>) returns (r: Result<seq<Arg>>)
      requires Valid()
      modifies this, Argstack
      ensures ShowsList(r, TakeAtComma(Progress(old(machine), old(Opdis[..]), taken)))
      ensures r.Ok? ==> Valid() && Untouched()
    {
      var st := ReduceAll();
      if !st.Fine? {
        return Failure(st);
      }
      if Argi == Argibase {
        return Corrupt;
      }
      if Argi - 1 > Argibase {
        errors := errors + 1;
        machine := machine.(errors := errors);
      }
      DropArgs(1);
      r := Ok(taken + [Argstack[Argi]]);
    }

    method PushSymbol(table: Table, name: string) returns (r: Outcome)
      requires Valid()
      modifies this, Argstack, Opdis, Oppri
      decreases MAX_RECURSION - symbolRecursionCount, 1
      ensures ShowsStep(r, ExpressionMachine.PushSymbol(table, old(MAX_RECURSION - symbolRecursionCount),
                                                        Progress(old(machine), old(Opdis[..]), []), name))
      ensures r.Fine? ==> Valid() && Untouched()
    {
      if MAX_RECURSION <= symbolRecursionCount {
        return Aborted;
      }
      symbolRecursionCount := symbolRecursionCount + 1;
      r := PushNamed(table, name);
      if r.Fine? {
        symbolRecursionCount := symbolRecursionCount - 1;
      }
    }

    method PushNamed(table: Table, name: string) returns (r: Outcome)
      requires Valid()
      modifies this, Argstack, Opdis, Oppri
      decreases MAX_RECURSION - symbolRecursionCount, 9
      ensures ShowsStep(r, ExpressionMachine.PushNamed(table, old(MAX_RECURSION - symbolRecursionCount),
                                                       Progress(old(machine), old(Opdis[..]), []), name))
      ensures r.Fine? ==> Valid() && Untouched()
    {
      if name !in table {
        r := StackArg(Arg(0, true));
      } else {
        match table[name] {
          case Value(v) => r := StackArg(v);
          case Eqm(def) => r := PushEqm(table, def);
        }
      }
    }

    method PushEqm(table: Table, def: seq<Token>) returns (r: Outcome)
      requires Valid()
      modifies this, Argstack, Opdis, Oppri
      decreases MAX_RECURSION - symbolRecursionCount, 8
      ensures ShowsStep(r, PushValue(Progress(old(machine), old(Opdis[..]), []),
                                     ExpressionMachine.Eval(table, old(MAX_RECURSION - symbolRecursionCount),
                                                            old(machine), old(Opdis[..]), def)))
      ensures r.Fine? ==> Valid() && Untouched()
    {
      var list := Eval(table, def);
      if !list.Ok? {
        return OutcomeOf(list);
      }
      r := StackArg(list.value[0]);
    }

    method DoOperand(table: Table, a: Atom) returns (r: Outcome)
      requires Valid()
      modifies this, Argstack, Opdis, Oppri
      decreases MAX_RECURSION - symbolRecursionCount, 2
      ensures ShowsStep(r, Step(table, old(MAX_RECURSION - symbolRecursionCount),
                                Progress(old(machine), old(Opdis[..]), []), Operand(a)))
      ensures r.Fine? ==> Valid() && Untouched()
    {
      match a {
        case Number(v) => r := StackArg(Arg(v, false));
        case Ref(x) => r := PushSymbol(table, x);
      }
    }

    /** One token of an expression that is no comma. */
    method DoToken(table: Table, token: Token) returns (r: Outcome)
      requires Valid() && !token.Comma?
      modifies this, Argstack, Opdis, Oppri
      decreases MAX_RECURSION - symbolRecursionCount, 3
      ensures ShowsStep(r, Step(table, old(MAX_RECURSION - symbolRecursionCount),
                                Progress(old(machine), old(Opdis[..]), []), token))
      ensures r.Fine? ==> Valid() && Untouched()
    {
      r := Fine;
      match token {
        case Operand(a) => r := DoOperand(table, a);
        case Prefix(op) => r := DoOp(UnaryFn(op), UNARY_PRIORITY, UnaryCell(op));
        case Infix(op) => r := DoOp(BinaryFn(op), Priority(op), BinaryCell(op));
        case Open => DoOpen();
        case Close => r := DoClose();
      }
    }

    method ReadToken(table: Table, token: Token, taken: seq<Arg>) returns (r: Result<seq<Arg>>)
      requires Valid()
      modifies this, Argstack, Opdis, Oppri
      decreases MAX_RECURSION - symbolRecursionCount, 4
      ensures ShowsList(r, Step(table, old(MAX_RECURSION - symbolRecursionCount),
                                Progress(old(machine), old(Opdis[..]), taken), token))
      ensures r.Ok? ==> Valid() && Untouched()
    {
      if token.Comma? {
        r := DoComma(taken);
      } else {
        StepKeepsTaken(table, MAX_RECURSION - symbolRecursionCount, Progress(machine, Opdis[..], taken), token);
        var st := DoToken(table, token);
        r := if st.Fine? then Ok(taken) else Failure(st);
      }
    }

    /** The loop of eval over the characters, here over the tokens they spell. */
    method ReadTokens(table: Table, tokens: seq<Token>) returns (r: Result<seq<Arg>>)
      requires Valid()
      modifies this, Argstack, Opdis, Oppri
      decreases MAX_RECURSION - symbolRecursionCount, 5
      ensures ShowsList(r, Run(table, old(MAX_RECURSION - symbolRecursionCount),
                               Progress(old(machine), old(Opdis[..]), []), tokens))
      ensures r.Ok? ==> Valid() && Untouched()
    {
      ghost var (rec, s0) := (MAX_RECURSION - symbolRecursionCount, Progress(machine, Opdis[..], []));
      var taken: seq<Arg> := [];
      var i := 0;
      while i < |tokens|
        invariant i <= |tokens| && Valid() && Untouched()
        invariant Run(table, rec, Progress(machine, Opdis[..], taken), tokens[i..]) == Run(table, rec, s0, tokens)
      {
        assert tokens[i..][0] == tokens[i] && tokens[i..][1..] == tokens[i + 1..];
        r := ReadToken(table, tokens[i], taken);
        if !r.Ok? {
          return;
        }
        taken := r.value;
        i := i + 1;
      }
      assert tokens[i..] == [];
      r := Ok(taken);
    }

    /** The end of eval, before the bases are put back. */
    method TakeLast(taken: seq<Arg>) returns (r: Result<seq<Arg>>)
      requires Valid()
      modifies this, Argstack
      ensures ShowsList(r, Finish(Progress(old(machine), old(Opdis[..]), taken)))
      ensures r.Ok? ==> Valid() && Untouched()
    {
      var st := ReduceAll();
      if !st.Fine? {
        return Failure(st);
      }
      var last := Arg(0, false);
      if Argi != Argibase {
        DropArgs(1);
        last := Argstack[Argi];
      }
      if Argi != Argibase {
        errors := errors + 1;
      }
      Argi, Opi := Argibase, Opibase;
      machine := machine.(args := [], errors := errors);
      r := Ok(taken + [last]);
    }

    /** eval between raising the bases and putting them back. */
    method EvalAbove(table: Table, tokens: seq<Token>) returns (r: Result<seq<Arg>>)
      requires Valid()
      modifies this, Argstack, Opdis, Oppri
      decreases MAX_RECURSION - symbolRecursionCount, 6
      ensures ShowsList(r, RunToEnd(table, old(MAX_RECURSION - symbolRecursionCount),
                                    Progress(old(machine), old(Opdis[..]), []), tokens))
      ensures r.Ok? ==> Valid() && Untouched() && Argi == Argibase && Opi == Opibase
    {
      r := ReadTokens(table, tokens);
      if r.Ok? {
        r := TakeLast(r.value);
      }
    }

    /** eval. Whatever the tokens are, it ends; a result leaves indices, bases and every
        stack cell below the tops as they were. */
    method Eval(table: Table, tokens: seq<Token>) returns (r: Result<seq<Arg>>)
      requires Valid()
      modifies this, Argstack, Opdis, Oppri
      decreases MAX_RECURSION - symbolRecursionCount, 7
      ensures ShowsList(r, ExpressionMachine.Eval(table, old(MAX_RECURSION - symbolRecursionCount), old(machine),
                                                  old(Opdis[..]), tokens))
      ensures r.Ok? ==> Valid() && Untouched() && Argi == old(Argi) && Opi == old(Opi)
      ensures r.Ok? ==> Argstack[..Argi] == old(Argstack[..Argi])
      ensures r.Ok? ==> Opdis[..Opi] == old(Opdis[..Opi]) && Oppri[..Opi] == old(Oppri[..Opi])
    {
      ghost var m0 := machine;
      var oldargibase, oldopibase := Argibase, Opibase;
      Argibase, Opibase := Argi, Opi;
      machine := Above(m0);
      r := EvalAbove(table, tokens);
      if r.Ok? {
        SamePrefix(Argstack[..], old(Argstack[..]), Argi, oldargibase);
        SamePrefix(Opdis[..], old(Opdis[..]), Opi, oldopibase);
        SamePrefix(Oppri[..], old(Oppri[..]), Opi, oldopibase);
        Argibase, Opibase := oldargibase, oldopibase;
        machine := m0.(errors := machine.errors, strayed := machine.strayed);
      }
    }
  }

  /** Only a comma looks at the elements already taken. */
  lemma StepKeepsTaken(table: Table, rec: nat, s: Progress, token: Token)
    requires Inv(s.m) && !token.Comma?
    ensures Step(table, rec, s, token) == match Step(table, rec, s.(taken := []), token)
      case Ok(s') => Ok(s'.(taken := s.taken))
      case e => e
  {
    if token.Operand? && token.atom.Ref? && rec != 0 {
      NamedKeepsTaken(table, rec - 1, s, token.atom.name);
    }
  }

  lemma NamedKeepsTaken(table: Table, rec: nat, s: Progress, name: string)
    requires Inv(s.m)
    ensures PushNamed(table, rec, s, name) == match PushNamed(table, rec, s.(taken := []), name)
      case Ok(s') => Ok(s'.(taken := s.taken))
      case e => e
  {}

  lemma SamePrefix<T>(s: seq<T>, t: seq<T>, n: nat, k: nat)
    requires k <= n <= |s| && n <= |t| && s[..n] == t[..n]
    ensures s[..k] == t[..k] && s[k..n] == t[k..n]
    ensures forall i :: k <= i < n ==> s[i] == t[i]
  {
    assert s[..k] == s[..n][..k] && t[..k] == t[..n][..k];
    assert s[k..n] == s[..n][k..] && t[k..n] == t[..n][k..];
    assert forall i :: k <= i < n ==> s[i] == s[..n][i] && t[i] == t[..n][i];
  }
}
