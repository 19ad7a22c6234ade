/** The stack machine computes the precedence tree. */
module ExpressionProofs {
  import opened Results
  import opened Operators
  import opened Expressions
  import opened ExpressionMachine

  /** The reference meaning of an expression: no stacks, no priorities. A symbol defined
      by EQM means the tree of its definition. */
  function EvalTree(table: Table, rec: nat, t: Tree): (r: Result<Arg>)
    decreases rec, t
    ensures !r.Corrupt?
  {
    match t
    case Leaf(Number(v)) => Ok(Arg(v, false))
    case Leaf(Ref(x)) =>
      if rec == 0 then Abort
      else if x !in table then Ok(Arg(0, true))
      else
        (match table[x]
         case Value(a) => Ok(a)
         case Eqm(def) => if Parse(def).Some? then EvalTree(table, rec - 1, Parse(def).value) else Abort)
    case Group(e) => EvalTree(table, rec, e)
    case Unary(op, e) =>
      (match EvalTree(table, rec, e)
       case Ok(a) => Ok(ApplyUnary(op, a))
       case Abort => Abort)
    case Binary(op, l, r) =>
      match EvalTree(table, rec, l)
      case Abort => Abort
      case Ok(a) =>
        match EvalTree(table, rec, r)
        case Abort => Abort
        case Ok(b) => ApplyBinary(op, a, b)
  }

  /** Operator cells the machine needs above the ones it starts from. */
  function OpNeed(table: Table, rec: nat, t: Tree): nat
    decreases rec, t
  {
    match t
    case Leaf(Number(_)) => 0
    case Leaf(Ref(x)) =>
      if rec != 0 && x in table && table[x].Eqm? && Parse(table[x].tokens).Some?
      then OpNeed(table, rec - 1, Parse(table[x].tokens).value) else 0
    case Group(e) => 1 + OpNeed(table, rec, e)
    case Unary(_, e) => 1 + OpNeed(table, rec, e)
    case Binary(_, l, r) =>
      var (a, b) := (OpNeed(table, rec, l), 1 + OpNeed(table, rec, r));
      if a < b then b else a
  }

  ghost predicate EqmsWellFormed(table: Table) {
    forall x <- table :: table[x].Eqm? ==> WellFormed(table[x].tokens)
  }

  /** Room for t: enough operator cells; arguments then fit by themselves. */
  ghost predicate Fits(table: Table, rec: nat, m: Mach, t: Tree) {
    Argi(m) <= Opi(m) && Opi(m) + OpNeed(table, rec, t) <= MAXOPS
  }

  /** What may wait on the operator stack when t begins. */
  predicate Awaits(m: Mach, t: Tree) {
    m.ops != [] ==>
      match Top(m)
      case Bracket(_) => true
      case BinaryCell(op) => Priority(op) < TreePriority(t)
      case UnaryCell(_) => TreePriority(t) == UNARY_PRIORITY
  }

  function Reduced(r: Result<Progress>, p: nat): Result<Progress>
    requires r.Ok? ==> Inv(r.value.m)
    requires 0 < p
  {
    match r
    case Ok(s) => OnMach(s, ReduceTo(s.m, p))
    case e => e
  }

  // ----- reductions compose -----

  function ThenReduce(r: Result<Mach>, p: nat): Result<Mach>
    requires r.Ok? ==> Inv(r.value)
    requires 0 < p
  {
    match r
    case Ok(m) => ReduceTo(m, p)
    case e => e
  }

  /** Applying waiting unaries early changes nothing for a reduction that would apply them. */
  lemma {:induction false} DrainThenReduce(m: Mach, p: nat)
    requires Inv(m) && 0 < p <= UNARY_PRIORITY
    decreases |m.ops|
    ensures ReduceTo(m, p) == ThenReduce(DrainUnaries(m), p)
  {
    if m.ops != [] && Top(m).UnaryCell? && EvalTop(m).Ok? {
      DrainThenReduce(EvalTop(m).value, p);
    }
  }

  lemma {:induction false} DrainTwice(m: Mach)
    requires Inv(m)
    decreases |m.ops|
    ensures DrainUnaries(m).Ok? ==> DrainUnaries(DrainUnaries(m).value) == DrainUnaries(m)
  {
    if m.ops != [] && Top(m).UnaryCell? && EvalTop(m).Ok? {
      DrainTwice(EvalTop(m).value);
    }
  }

  lemma {:induction false} FlushReduced(m: Mach)
    requires Inv(m)
    decreases |m.ops|
    ensures Flush(m) == match ReduceTo(m, 1)
      case Ok(m') => Flush(m')
      case e => e
  {
    if m.ops != [] && 1 <= CellPriority(Top(m)) && EvalTop(m).Ok? {
      FlushReduced(EvalTop(m).value);
    }
  }

  // ----- one tree -----

  /** Reading the tokens of t and then reducing is pushing its value and then reducing,
      for every reduction no tighter than t. Only unused slots of Opdis differ. */
  lemma {:induction false} RunTree(table: Table, rec: nat, s: Progress, t: Tree, p: nat) returns (kept: Slots)
    requires EqmsWellFormed(table) && Canonical(t)
    requires Inv(s.m) && Fits(table, rec, s.m, t) && Awaits(s.m, t)
    requires 0 < p <= TreePriority(t)
    decreases rec, 1, t
    ensures Reduced(Run(table, rec, s, Flatten(t)), p) == match EvalTree(table, rec, t)
      case Ok(v) => Reduced(OnMach(s.(slots := kept), StackArg(s.m, v)), p)
      case Abort => Abort
  {
    match t
    case Leaf(a) => kept := RunLeaf(table, rec, s, a);
    case Unary(op, e) => kept := RunUnary(table, rec, s, op, e, p);
    case Group(e) => kept := RunGroup(table, rec, s, e, p);
    case Binary(op, l, r) => kept := RunBinary(table, rec, s, op, l, r, p);
  }

  lemma {:induction false} RunLeaf(table: Table, rec: nat, s: Progress, a: Atom) returns (kept: Slots)
    requires EqmsWellFormed(table)
    requires Inv(s.m) && Fits(table, rec, s.m, Leaf(a))
    decreases rec, 0
    ensures Run(table, rec, s, Flatten(Leaf(a))) == match EvalTree(table, rec, Leaf(a))
      case Ok(v) => OnMach(s.(slots := kept), StackArg(s.m, v))
      case Abort => Abort
  {
    kept := s.slots;
    RunOne(table, rec, s, Operand(a));
    if a.Ref? && rec != 0 {
      assert PushSymbol(table, rec, s, a.name) == PushNamed(table, rec - 1, s, a.name);
    }
    if a.Ref? && rec != 0 && a.name in table && table[a.name].Eqm? {
      var def := table[a.name].tokens;
      ParseIffWellFormed(def);
      kept := EvalTreeTokens(table, rec - 1, s.m, s.slots, Parse(def).value);
    }
  }

  lemma {:induction false} RunUnary(table: Table, rec: nat, s: Progress, op: UnaryOp, e: Tree, p: nat) returns (kept: Slots)
    requires EqmsWellFormed(table) && Canonical(Unary(op, e))
    requires Inv(s.m) && Fits(table, rec, s.m, Unary(op, e))
    requires 0 < p <= UNARY_PRIORITY
    decreases rec, 1, Unary(op, e), 0
    ensures Reduced(Run(table, rec, s, Flatten(Unary(op, e))), p) == match EvalTree(table, rec, Unary(op, e))
      case Ok(v) => Reduced(OnMach(s.(slots := kept), StackArg(s.m, v)), p)
      case Abort => Abort
  {
    var s1 := UnaryBegins(table, rec, s, op, e);
    kept := RunTree(table, rec, s1, e, p);
    if EvalTree(table, rec, e).Ok? {
      UnaryReduced(s, s1, op, EvalTree(table, rec, e).value, p, kept);
    }
  }

  lemma UnaryBegins(table: Table, rec: nat, s: Progress, op: UnaryOp, e: Tree) returns (s1: Progress)
    requires Inv(s.m) && Fits(table, rec, s.m, Unary(op, e))
    ensures s1.m == PushOp(s.m, UnaryCell(op)) && s1.taken == s.taken
    ensures Run(table, rec, s, Flatten(Unary(op, e))) == Run(table, rec, s1, Flatten(e))
    ensures Inv(s1.m) && Fits(table, rec, s1.m, e)
  {
    s1 := Pushed(s, Ok(PushOp(s.m, UnaryCell(op)))).value;
    RunAround(table, rec, s, [], Prefix(op), Flatten(e));
    assert [] + ([Prefix(op)] + Flatten(e)) == Flatten(Unary(op, e));
  }

  lemma UnaryReduced(s: Progress, s1: Progress, op: UnaryOp, v: Arg, p: nat, kept: Slots)
    requires Inv(s.m) && Opi(s.m) < MAXOPS && 0 < p <= UNARY_PRIORITY
    requires s1.m == PushOp(s.m, UnaryCell(op)) && s1.taken == s.taken
    ensures Reduced(OnMach(s1.(slots := kept), StackArg(s1.m, v)), p)
      == Reduced(OnMach(s.(slots := kept), StackArg(s.m, ApplyUnary(op, v))), p)
  {
    UnaryApplied(s.m, op, v, p);
  }

  /** A value on top of a unary operator. */
  lemma UnaryApplied(m: Mach, op: UnaryOp, v: Arg, p: nat)
    requires Inv(m) && Opi(m) < MAXOPS && 0 < p <= UNARY_PRIORITY
    ensures ThenReduce(StackArg(PushOp(m, UnaryCell(op)), v), p) == ThenReduce(StackArg(m, ApplyUnary(op, v)), p)
  {
    if Argi(m) < MAXARGS {
      var pushed := PushArg(PushOp(m, UnaryCell(op)), v);
      assert PopArgs(PopOp(pushed), 1) == m;
      assert EvalTop(pushed) == StackArg(m, ApplyUnary(op, v));
      DrainTwice(PushArg(m, ApplyUnary(op, v)));
    }
  }

  lemma {:induction false} RunGroup(table: Table, rec: nat, s: Progress, e: Tree, p: nat) returns (kept: Slots)
    requires EqmsWellFormed(table) && Canonical(e)
    requires Inv(s.m) && Fits(table, rec, s.m, Group(e))
    requires 0 < p <= UNARY_PRIORITY
    decreases rec, 1, Group(e), 0
    ensures Reduced(Run(table, rec, s, Flatten(Group(e))), p) == match EvalTree(table, rec, Group(e))
      case Ok(v) => Reduced(OnMach(s.(slots := kept), StackArg(s.m, v)), p)
      case Abort => Abort
  {
    var s1 := s.(m := OpenBracket(s.m, s.slots));
    var inner := Run(table, rec, s1, Flatten(e));
    RunBracketed(table, rec, s, e);
    kept := RunTree(table, rec, s1, e, 1);
    match EvalTree(table, rec, e) {
      case Ok(v) => GroupClosed(table, rec, s, kept, inner, v, p);
      case Abort => GroupAborted(table, rec, inner, p);
    }
  }

  lemma GroupClosed(table: Table, rec: nat, s: Progress, slots: Slots, inner: Result<Progress>, v: Arg, p: nat)
    requires Inv(s.m) && Argi(s.m) < MAXARGS && Opi(s.m) < MAXOPS && 0 < p <= UNARY_PRIORITY && (inner.Ok? ==> Inv(inner.value.m))
    requires Reduced(inner, 1) == Reduced(OnMach(s.(slots := slots), StackArg(OpenBracket(s.m, s.slots), v)), 1)
    ensures Reduced(ThenStep(table, rec, inner, Close), p) == Reduced(OnMach(s.(slots := slots), StackArg(s.m, v)), p)
  {
    assert inner.Ok? && inner.value.taken == s.taken && inner.value.slots == slots;
    BracketClosed(s.m, s.slots, v, inner.value.m);
    DrainThenReduce(PushArg(s.m, v), p);
  }

  lemma GroupAborted(table: Table, rec: nat, inner: Result<Progress>, p: nat)
    requires (inner.Ok? ==> Inv(inner.value.m)) && Reduced(inner, 1) == Abort && 0 < p
    ensures Reduced(ThenStep(table, rec, inner, Close), p) == Abort
  {}

  lemma RunBracketed(table: Table, rec: nat, s: Progress, e: Tree)
    requires Inv(s.m) && Opi(s.m) < MAXOPS
    ensures
      var inner := Run(table, rec, s.(m := OpenBracket(s.m, s.slots)), Flatten(e));
      Run(table, rec, s, Flatten(Group(e))) == ThenStep(table, rec, inner, Close)
  {
    var s1 := s.(m := OpenBracket(s.m, s.slots));
    RunAround(table, rec, s, [], Open, Flatten(e) + [Close]);
    assert [] + ([Open] + (Flatten(e) + [Close])) == Flatten(Group(e));
    assert Step(table, rec, s, Open) == Ok(s1);
    RunAround(table, rec, s1, Flatten(e), Close, []);
    assert Flatten(e) + ([Close] + []) == Flatten(e) + [Close];
  }

  /** Between its brackets an expression leaves its value above the stacks it found; no
      unary waiting outside is applied yet. */
  lemma BracketClosed(m: Mach, slots: Slots, v: Arg, inner: Mach)
    requires Inv(m) && Inv(inner) && Argi(m) < MAXARGS && Opi(m) < MAXOPS
    requires ReduceTo(inner, 1) == ThenReduce(StackArg(OpenBracket(m, slots), v), 1)
    ensures CloseBracket(inner) == Ok(PushArg(m, v))
  {
    var inside := PushArg(OpenBracket(m, slots), v);
    assert PopOp(inside) == PushArg(m, v);
    assert ReduceTo(inner, 1) == Ok(inside);
  }

  lemma {:induction false} RunBinary(table: Table, rec: nat, s: Progress, op: BinaryOp, l: Tree, r: Tree, p: nat)
    returns (kept: Slots)
    requires EqmsWellFormed(table) && Canonical(Binary(op, l, r))
    requires Inv(s.m) && Fits(table, rec, s.m, Binary(op, l, r)) && Awaits(s.m, Binary(op, l, r))
    requires 0 < p <= Priority(op)
    decreases rec, 1, Binary(op, l, r), 0
    ensures Reduced(Run(table, rec, s, Flatten(Binary(op, l, r))), p) == match EvalTree(table, rec, Binary(op, l, r))
      case Ok(v) => Reduced(OnMach(s.(slots := kept), StackArg(s.m, v)), p)
      case Abort => Abort
  {
    RunAround(table, rec, s, Flatten(l), Infix(op), Flatten(r));
    kept := RunLeftOperand(table, rec, s, op, l, r);
    if EvalTree(table, rec, l).Ok? {
      kept := RunRightOperand(table, rec, s, kept, op, EvalTree(table, rec, l).value, l, r, p);
    }
  }

  lemma {:induction false} RunRightOperand(
    table: Table, rec: nat, s: Progress, slots: Slots, op: BinaryOp, a: Arg, l: Tree, r: Tree, p: nat)
    returns (slots': Slots)
    requires EqmsWellFormed(table) && Canonical(Binary(op, l, r))
    requires Inv(s.m) && Fits(table, rec, s.m, Binary(op, l, r))
    requires 0 < p <= Priority(op)
    decreases rec, 1, Binary(op, l, r), 0, 0
    ensures
      var s1 := s.(m := PushOp(PushArg(s.m, a), BinaryCell(op)), slots := slots);
      Reduced(Run(table, rec, s1, Flatten(r)), p) == match EvalTree(table, rec, r)
        case Ok(b) =>
          (match ApplyBinary(op, a, b)
           case Ok(v) => Reduced(OnMach(s.(slots := slots'), StackArg(s.m, v)), p)
           case Abort => Abort)
        case Abort => Abort
  {
    slots' := RunTree(table, rec, s.(m := PushOp(PushArg(s.m, a), BinaryCell(op)), slots := slots), r, p);
    if EvalTree(table, rec, r).Ok? {
      ReduceOperator(s.m, op, a, EvalTree(table, rec, r).value, p);
    }
  }

  lemma {:induction false} RunLeftOperand(table: Table, rec: nat, s: Progress, op: BinaryOp, l: Tree, r: Tree)
    returns (kept: Slots)
    requires EqmsWellFormed(table) && Canonical(Binary(op, l, r))
    requires Inv(s.m) && Fits(table, rec, s.m, Binary(op, l, r)) && Awaits(s.m, Binary(op, l, r))
    decreases rec, 1, Binary(op, l, r), 0, 0
    ensures ThenStep(table, rec, Run(table, rec, s, Flatten(l)), Infix(op)) == match EvalTree(table, rec, l)
      case Ok(a) => Ok(s.(m := PushOp(PushArg(s.m, a), BinaryCell(op)), slots := kept))
      case Abort => Abort
  {
    var left := Run(table, rec, s, Flatten(l));
    kept := RunTree(table, rec, s, l, Priority(op));
    match EvalTree(table, rec, l) {
      case Abort => OperatorAborted(table, rec, left, op);
      case Ok(a) => kept := OperatorPushed(table, rec, s, kept, left, op, a);
    }
  }

  /** A binary operator first reduces its left operand to one value, and nothing below it. */
  lemma OperatorPushed(table: Table, rec: nat, s: Progress, slots: Slots, left: Result<Progress>, op: BinaryOp, a: Arg)
    returns (slots': Slots)
    requires Inv(s.m) && Argi(s.m) < MAXARGS && Opi(s.m) < MAXOPS && (left.Ok? ==> Inv(left.value.m))
    requires s.m.ops != [] ==> CellPriority(Top(s.m)) < Priority(op)
    requires Reduced(left, Priority(op)) == Reduced(OnMach(s.(slots := slots), StackArg(s.m, a)), Priority(op))
    ensures ThenStep(table, rec, left, Infix(op)) == Ok(s.(m := PushOp(PushArg(s.m, a), BinaryCell(op)), slots := slots'))
  {
    var pushed := PushOp(PushArg(s.m, a), BinaryCell(op));
    slots' := slots[Opi(pushed) - 1 := BinaryFn(op)];
    assert StackArg(s.m, a) == Ok(PushArg(s.m, a));
    assert ReduceTo(left.value.m, Priority(op)) == Ok(PushArg(s.m, a)) && left.value.slots == slots;
    assert DoBinary(left.value.m, op) == Ok(pushed);
  }

  lemma OperatorAborted(table: Table, rec: nat, left: Result<Progress>, op: BinaryOp)
    requires left.Ok? ==> Inv(left.value.m)
    requires Reduced(left, Priority(op)) == Abort
    ensures ThenStep(table, rec, left, Infix(op)) == Abort
  {}

  /** With both operands on top, a reduction first applies the operator below them. */
  lemma ReduceOperator(m: Mach, op: BinaryOp, a: Arg, b: Arg, p: nat)
    requires Inv(m) && Argi(m) + 2 <= MAXARGS && Opi(m) < MAXOPS && 0 < p <= Priority(op)
    ensures
      var m2 := PushOp(PushArg(m, a), BinaryCell(op));
      && StackArg(m2, b) == Ok(PushArg(m2, b))
      && ReduceTo(PushArg(m2, b), p) == match ApplyBinary(op, a, b)
           case Ok(v) => ThenReduce(StackArg(m, v), p)
           case Abort => Abort
  {
    var m2 := PushOp(PushArg(m, a), BinaryCell(op));
    var m3 := PushArg(m2, b);
    assert PopArgs(PopOp(m3), 2) == m;
    assert EvalTop(m3) == match ApplyBinary(op, a, b)
      case Ok(v) => StackArg(m, v)
      case Abort => Abort;
  }

  // ----- a whole expression, and a list of them -----

  /** eval on the tokens of a precedence tree: the value of the tree, no syntax error, and
      stacks and bases as they were. */
  lemma {:induction false} EvalTreeTokens(table: Table, rec: nat, m: Mach, slots: Slots, t: Tree) returns (slots': Slots)
    requires EqmsWellFormed(table) && Canonical(t)
    requires Inv(m) && Fits(table, rec, m, t)
    decreases rec, 3
    ensures Eval(table, rec, m, slots, Flatten(t)) == match EvalTree(table, rec, t)
      case Ok(v) => Ok(Progress(m, slots', [v]))
      case Abort => Abort
  {
    var s := Progress(Above(m), slots, []);
    slots' := RunToFlush(table, rec, s, t);
    if EvalTree(table, rec, t).Ok? {
      var v := EvalTree(table, rec, t).value;
      FinishOne(Run(table, rec, s, Flatten(t)).value, s.m, v);
      assert [] + [v] == [v];
    }
  }

  lemma FinishOne(s: Progress, m: Mach, v: Arg)
    requires Inv(s.m) && m.args == [] && m.ops == [] && Flush(s.m) == Ok(PushArg(m, v))
    ensures Finish(s) == Ok(s.(m := m, taken := s.taken + [v]))
  {}

  /** From an empty evaluation, reading t and flushing leaves exactly its value. */
  lemma {:induction false} RunToFlush(table: Table, rec: nat, s: Progress, t: Tree) returns (kept: Slots)
    requires EqmsWellFormed(table) && Canonical(t)
    requires Inv(s.m) && Fits(table, rec, s.m, t) && s.m.args == [] && s.m.ops == []
    decreases rec, 2
    ensures match EvalTree(table, rec, t)
      case Ok(v) =>
        var r := Run(table, rec, s, Flatten(t));
        r.Ok? && r.value.taken == s.taken && r.value.slots == kept && Flush(r.value.m) == Ok(PushArg(s.m, v))
      case Abort =>
        var r := Run(table, rec, s, Flatten(t));
        r.Abort? || (r.Ok? && Flush(r.value.m).Abort?)
  {
    kept := RunTree(table, rec, s, t, 1);
    var r := Run(table, rec, s, Flatten(t));
    if r.Ok? {
      FlushReduced(r.value.m);
    }
  }

  function FlattenList(es: seq<Tree>): seq<Token>
    requires es != []
  {
    if |es| == 1 then Flatten(es[0]) else Flatten(es[0]) + ([Comma] + FlattenList(es[1..]))
  }

  function EvalTrees(table: Table, rec: nat, es: seq<Tree>): (r: Result<seq<Arg>>)
    ensures !r.Corrupt?
  {
    if es == [] then Ok([])
    else
      match EvalTree(table, rec, es[0])
      case Abort => Abort
      case Ok(v) =>
        match EvalTrees(table, rec, es[1..])
        case Abort => Abort
        case Ok(vs) => Ok([v] + vs)
  }

  /** eval on a comma-separated list gives the values of its trees, in order. */
  lemma EvalListTokens(table: Table, rec: nat, m: Mach, slots: Slots, es: seq<Tree>) returns (slots': Slots)
    requires EqmsWellFormed(table) && Inv(m) && es != []
    requires forall e <- es :: Canonical(e) && Fits(table, rec, m, e)
    ensures Eval(table, rec, m, slots, FlattenList(es)) == match EvalTrees(table, rec, es)
      case Ok(vs) => Ok(Progress(m, slots', vs))
      case Abort => Abort
  {
    var s := Progress(Above(m), slots, []);
    slots' := RunList(table, rec, s, es);
    match EvalTrees(table, rec, es) {
      case Abort =>
      case Ok(vs) => assert [] + vs == vs;
    }
  }

  function ThenFinish(r: Result<Progress>): Result<Progress>
    requires r.Ok? ==> Inv(r.value.m)
  {
    match r
    case Ok(s) => Finish(s)
    case e => e
  }

  lemma {:induction false} RunList(table: Table, rec: nat, s: Progress, es: seq<Tree>) returns (kept: Slots)
    requires EqmsWellFormed(table) && Inv(s.m) && s.m.args == [] && s.m.ops == [] && es != []
    requires forall e <- es :: Canonical(e) && Fits(table, rec, s.m, e)
    decreases |es|
    ensures ThenFinish(Run(table, rec, s, FlattenList(es))) == match EvalTrees(table, rec, es)
      case Ok(vs) => Ok(s.(slots := kept, taken := s.taken + vs))
      case Abort => Abort
  {
    assert es[0] in es;
    if |es| == 1 {
      kept := RunToFlush(table, rec, s, es[0]);
      EvalTreesOne(table, rec, es);
      if EvalTree(table, rec, es[0]).Ok? {
        FinishOne(Run(table, rec, s, Flatten(es[0])).value, s.m, EvalTree(table, rec, es[0]).value);
      }
    } else {
      kept := RunFirst(table, rec, s, es);
      if EvalTree(table, rec, es[0]).Ok? {
        var v := EvalTree(table, rec, es[0]).value;
        kept := RunList(table, rec, Progress(s.m, kept, s.taken + [v]), es[1..]);
        if EvalTrees(table, rec, es[1..]).Ok? {
          var vs := EvalTrees(table, rec, es[1..]).value;
          assert (s.taken + [v]) + vs == s.taken + ([v] + vs);
        }
      }
    }
  }

  /** Up to and with the first comma. */
  lemma RunFirst(table: Table, rec: nat, s: Progress, es: seq<Tree>) returns (slots: Slots)
    requires EqmsWellFormed(table) && Inv(s.m) && s.m.args == [] && s.m.ops == [] && 1 < |es|
    requires Canonical(es[0]) && Fits(table, rec, s.m, es[0])
    ensures Run(table, rec, s, FlattenList(es)) == match EvalTree(table, rec, es[0])
      case Ok(v) => Run(table, rec, Progress(s.m, slots, s.taken + [v]), FlattenList(es[1..]))
      case Abort => Abort
  {
    slots := RunToFlush(table, rec, s, es[0]);
    RunAround(table, rec, s, Flatten(es[0]), Comma, FlattenList(es[1..]));
    if EvalTree(table, rec, es[0]).Ok? {
      CommaTakes(Run(table, rec, s, Flatten(es[0])).value, s.m, EvalTree(table, rec, es[0]).value);
    }
  }

  lemma EvalTreesOne(table: Table, rec: nat, es: seq<Tree>)
    requires |es| == 1
    ensures EvalTrees(table, rec, es) == match EvalTree(table, rec, es[0])
      case Ok(v) => Ok([v])
      case Abort => Abort
  {
    assert es[1..] == [];
    assert EvalTrees(table, rec, es[1..]) == Ok([]);
    if EvalTree(table, rec, es[0]).Ok? {
      var v := EvalTree(table, rec, es[0]).value;
      assert [v] + [] == [v];
    }
  }

  lemma CommaTakes(s: Progress, m: Mach, v: Arg)
    requires Inv(s.m) && m.args == [] && m.ops == [] && Flush(s.m) == Ok(PushArg(m, v))
    ensures TakeAtComma(s) == Ok(s.(m := m, taken := s.taken + [v]))
  {
    assert PopArgs(PushArg(m, v), 1) == m;
  }

  /** The machine at rest, as a line of source finds it. */
  const AT_REST := Mach([], [], 0, 0, 0, 0)

  /** Every token list that reads as an expression, and needs no more than the operator
      stack holds, evaluates to its one precedence tree, whatever earlier expressions left in
      Opdis. The argument stack, the bases and the error count need no hypothesis. */
  lemma WellFormedEvaluation(table: Table, slots: Slots, tokens: seq<Token>)
    requires EqmsWellFormed(table) && WellFormed(tokens)
    requires Parse(tokens).Some? ==> OpNeed(table, MAX_RECURSION, Parse(tokens).value) <= MAXOPS
    ensures Parse(tokens).Some? && Flatten(Parse(tokens).value) == tokens
    ensures
      var r := Eval(table, MAX_RECURSION, AT_REST, slots, tokens);
      match EvalTree(table, MAX_RECURSION, Parse(tokens).value)
      case Ok(v) => r.Ok? && r.value.m == AT_REST && r.value.taken == [v]
      case Abort => r.Abort?
  {
    ParseIffWellFormed(tokens);
    var slots' := EvalTreeTokens(table, MAX_RECURSION, AT_REST, slots, Parse(tokens).value);
  }
}
