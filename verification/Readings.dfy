/** What the text of an expression means: its precedences and its arithmetic, read off the
    evaluator. */
module Readings {
  import opened Results
  import opened Operators
  import opened OperatorLaws
  import opened Expressions
  import opened ExpressionMachine
  import opened ExpressionProofs

  // ----- precedence -----

  /** The precedences of the manual (docs/sources/manual.tex, Operator Precedence), tightest
      first; those of C. */
  function Row(op: BinaryOp): nat {
    match op
    case Mult | Div | Mod => 0
    case Add | Sub => 1
    case ShiftRight | ShiftLeft => 2
    case Greater | GreaterEq | Smaller | SmallerEq => 3
    case EqEq | NotEq => 4
    case BitwiseAnd => 5
    case BitwiseXor => 6
    case BitwiseOr => 7
    case AndAnd => 8
    case OrOr => 9
    case Question => 10
  }

  /** p stands in the table no later than q. */
  predicate NoLater(p: BinaryOp, q: BinaryOp) { Row(p) <= Row(q) }

  lemma RowPriority(op: BinaryOp)
    ensures Row(op) + Priority(op) == 20
  {}

  lemma NoLaterIs(p: BinaryOp, q: BinaryOp)
    ensures NoLater(p, q) <==> Priority(q) <= Priority(p)
  {
    RowPriority(p);
    RowPriority(q);
  }

  /** What eval makes of a text, from any stacks: the stacks it leaves and the values. */
  function Taken(table: Table, rec: nat, m: Mach, slots: Slots, ts: seq<Token>): Result<(Mach, seq<Arg>)>
    requires Inv(m)
  {
    match Eval(table, rec, m, slots, ts)
    case Ok(s) => Ok((s.m, s.taken))
    case Abort => Abort
    case Corrupt => Corrupt
  }

  predicate Primary(t: Tree) { Canonical(t) && !t.Binary? }

  function Bracketed(ts: seq<Token>): seq<Token> { [Open] + (ts + [Close]) }

  /** One step of each function on trees. */
  lemma Node(table: Table, rec: nat, op: BinaryOp, l: Tree, r: Tree)
    ensures
      var (t, a, b) := (Binary(op, l, r), OpNeed(table, rec, l), 1 + OpNeed(table, rec, r));
      && OpNeed(table, rec, t) == (if a < b then b else a) && Flatten(t) == Flatten(l) + ([Infix(op)] + Flatten(r))
      && (Canonical(t) <==> Priority(op) <= TreePriority(l) && Priority(op) < TreePriority(r) && Canonical(l) && Canonical(r))
      && (EvalTree(table, rec, l).Ok? && EvalTree(table, rec, r).Ok? ==>
            EvalTree(table, rec, t) == ApplyBinary(op, EvalTree(table, rec, l).value, EvalTree(table, rec, r).value))
  {}

  lemma InBrackets(table: Table, rec: nat, t: Tree)
    ensures Flatten(Group(t)) == Bracketed(Flatten(t)) && Canonical(Group(t)) == Canonical(t)
    ensures OpNeed(table, rec, Group(t)) == 1 + OpNeed(table, rec, t) && EvalTree(table, rec, Group(t)) == EvalTree(table, rec, t)
  {}

  lemma Prefixed(table: Table, rec: nat, op: UnaryOp, t: Tree)
    ensures Flatten(Unary(op, t)) == [Prefix(op)] + Flatten(t)
    ensures OpNeed(table, rec, Unary(op, t)) == 1 + OpNeed(table, rec, t)
    ensures Primary(t) ==> Canonical(Unary(op, t))
    ensures EvalTree(table, rec, t).Ok? ==> EvalTree(table, rec, Unary(op, t)) == Ok(ApplyUnary(op, EvalTree(table, rec, t).value))
  {}

  lemma OneNumber(table: Table, rec: nat, v: int)
    ensures
      var t := Leaf(Number(v));
      && Flatten(t) == Num(v) && Primary(t)
      && OpNeed(table, rec, t) == 0 && EvalTree(table, rec, t) == Ok(Arg(v, false))
  {}

  /** Brackets around the left or right operand change no value. */
  lemma BracketLeft(table: Table, rec: nat, q: BinaryOp, l: Tree, r: Tree)
    ensures EvalTree(table, rec, Binary(q, Group(l), r)) == EvalTree(table, rec, Binary(q, l, r))
  {
    InBrackets(table, rec, l);
  }

  lemma BracketRight(table: Table, rec: nat, p: BinaryOp, l: Tree, r: Tree)
    ensures EvalTree(table, rec, Binary(p, l, Group(r))) == EvalTree(table, rec, Binary(p, l, r))
  {
    InBrackets(table, rec, r);
  }

  lemma SameValue(table: Table, rec: nat, m: Mach, slots: Slots, t: Tree, u: Tree)
    requires EqmsWellFormed(table) && Canonical(t) && Canonical(u) && Inv(m)
    requires Fits(table, rec, m, t) && Fits(table, rec, m, u) && EvalTree(table, rec, t) == EvalTree(table, rec, u)
    ensures Taken(table, rec, m, slots, Flatten(t)) == Taken(table, rec, m, slots, Flatten(u))
  {
    var slots1 := EvalTreeTokens(table, rec, m, slots, t);
    var slots2 := EvalTreeTokens(table, rec, m, slots, u);
  }

  /** Of two operators the first goes first if it stands no later in the table: `x p y q z` is
      `[x p y] q z`, and `x p [y q z]` otherwise. */
  lemma FirstOfTwo(table: Table, rec: nat, m: Mach, slots: Slots, x: Tree, p: BinaryOp, y: Tree, q: BinaryOp, z: Tree)
    requires EqmsWellFormed(table) && Inv(m) && Primary(x) && Primary(y) && Primary(z) && NoLater(p, q)
    requires Fits(table, rec, m, Binary(q, Group(Binary(p, x, y)), z))
    ensures
      var (xpy, qz) := (Flatten(x) + ([Infix(p)] + Flatten(y)), [Infix(q)] + Flatten(z));
      Taken(table, rec, m, slots, xpy + qz) == Taken(table, rec, m, slots, Bracketed(xpy) + qz)
  {
    NoLaterIs(p, q);
    var xpy := Binary(p, x, y);
    Node(table, rec, p, x, y);
    InBrackets(table, rec, xpy);
    Node(table, rec, q, xpy, z);
    Node(table, rec, q, Group(xpy), z);
    BracketLeft(table, rec, q, xpy, z);
    SameValue(table, rec, m, slots, Binary(q, xpy, z), Binary(q, Group(xpy), z));
  }

  lemma Regrouped(a: seq<Token>, b: seq<Token>, c: seq<Token>)
    ensures (a + b) + c == a + (b + c)
  {}

  lemma SecondOfTwo(table: Table, rec: nat, m: Mach, slots: Slots, x: Tree, p: BinaryOp, y: Tree, q: BinaryOp, z: Tree)
    requires EqmsWellFormed(table) && Inv(m) && Primary(x) && Primary(y) && Primary(z) && !NoLater(p, q)
    requires Fits(table, rec, m, Binary(p, x, Group(Binary(q, y, z))))
    ensures
      var (xp, yqz) := (Flatten(x) + [Infix(p)], Flatten(y) + ([Infix(q)] + Flatten(z)));
      Taken(table, rec, m, slots, xp + yqz) == Taken(table, rec, m, slots, xp + Bracketed(yqz))
  {
    NoLaterIs(p, q);
    var tree := Binary(q, y, z);
    Node(table, rec, q, y, z);
    InBrackets(table, rec, tree);
    Node(table, rec, p, x, tree);
    Node(table, rec, p, x, Group(tree));
    BracketRight(table, rec, p, x, tree);
    SameValue(table, rec, m, slots, Binary(p, x, tree), Binary(p, x, Group(tree)));
    Regrouped(Flatten(x), [Infix(p)], Flatten(tree));
    Regrouped(Flatten(x), [Infix(p)], Bracketed(Flatten(tree)));
  }

  /** A unary operator goes before every binary one. */
  lemma UnaryFirst(table: Table, rec: nat, m: Mach, slots: Slots, op: UnaryOp, x: Tree, q: BinaryOp, z: Tree)
    requires EqmsWellFormed(table) && Inv(m) && Primary(x) && Primary(z)
    requires Fits(table, rec, m, Binary(q, Group(Unary(op, x)), z))
    ensures
      var (opx, qz) := ([Prefix(op)] + Flatten(x), [Infix(q)] + Flatten(z));
      Taken(table, rec, m, slots, opx + qz) == Taken(table, rec, m, slots, Bracketed(opx) + qz)
  {
    var opx := Unary(op, x);
    Prefixed(table, rec, op, x);
    InBrackets(table, rec, opx);
    Node(table, rec, q, opx, z);
    Node(table, rec, q, Group(opx), z);
    BracketLeft(table, rec, q, opx, z);
    SameValue(table, rec, m, slots, Binary(q, opx, z), Binary(q, Group(opx), z));
  }

  // ----- arithmetic -----

  /** A sum, difference, product or negation of such, in brackets or not. */
  predicate Arithmetic(t: Tree) {
    match t
    case Leaf(a) => a.Number?
    case Unary(op, e) => op.Negate? && Arithmetic(e)
    case Binary(op, l, r) => (op.Add? || op.Sub? || op.Mult?) && Arithmetic(l) && Arithmetic(r)
    case Group(e) => Arithmetic(e)
  }

  /** Its value in the integers. */
  function Meaning(t: Tree): int
    requires Arithmetic(t)
  {
    match t
    case Leaf(Number(v)) => v
    case Unary(_, e) => 0 - Meaning(e)
    case Binary(op, l, r) =>
      if op.Add? then Meaning(l) + Meaning(r) else if op.Sub? then Meaning(l) - Meaning(r) else Meaning(l) * Meaning(r)
    case Group(e) => Meaning(e)
  }

  lemma SumIs(a: int, b: int)
    ensures Of(Add, a, b) == a + b && Of(Sub, a, b) == a - b && UnaryOf(Negate, a) == -a
  {
    SumAndDifference(a, b);
  }

  lemma {:induction false} ProductIs(a: int, b: int)
    decreases Abs(b)
    ensures Of(Mult, a, b) == a * b
  {
    if 0 < b {
      ProductIs(a, b - 1);
      Product(a, b - 1);
    } else if b < 0 {
      ProductIs(a, b + 1);
      Product(a, b);
    }
  }

  lemma {:induction false} ArithmeticValue(table: Table, rec: nat, t: Tree)
    requires Arithmetic(t)
    ensures EvalTree(table, rec, t) == Ok(Arg(Meaning(t), false))
  {
    match t
    case Leaf(_) =>
    case Group(e) => ArithmeticValue(table, rec, e);
    case Unary(_, e) =>
      ArithmeticValue(table, rec, e);
      SumIs(Meaning(e), 0);
    case Binary(op, l, r) =>
      ArithmeticValue(table, rec, l);
      ArithmeticValue(table, rec, r);
      SumIs(Meaning(l), Meaning(r));
      ProductIs(Meaning(l), Meaning(r));
  }

  /** The text has this one value. */
  predicate Gives(table: Table, slots: Slots, ts: seq<Token>, v: int) {
    Taken(table, MAX_RECURSION, AT_REST, slots, ts) == Ok((AT_REST, [Arg(v, false)]))
  }

  lemma TreeGives(table: Table, slots: Slots, t: Tree, v: int)
    requires EqmsWellFormed(table) && Canonical(t) && OpNeed(table, MAX_RECURSION, t) <= MAXOPS
    requires EvalTree(table, MAX_RECURSION, t) == Ok(Arg(v, false))
    ensures Gives(table, slots, Flatten(t), v)
  {
    var slots' := EvalTreeTokens(table, MAX_RECURSION, AT_REST, slots, t);
  }

  /** Arithmetic text has the value it has in arithmetic, its products before its sums and its
      sums from the left. */
  lemma ArithmeticText(table: Table, slots: Slots, t: Tree)
    requires EqmsWellFormed(table) && Canonical(t) && Arithmetic(t) && OpNeed(table, MAX_RECURSION, t) <= MAXOPS
    ensures Gives(table, slots, Flatten(t), Meaning(t))
  {
    ArithmeticValue(table, MAX_RECURSION, t);
    TreeGives(table, slots, t, Meaning(t));
  }

  function Num(v: int): seq<Token> { [Operand(Number(v))] }

  /** `a op b`, as a tree and as text. */
  lemma Pair(table: Table, op: BinaryOp, a: int, b: int)
    requires Divides(op, b)
    ensures
      var t := Binary(op, Leaf(Number(a)), Leaf(Number(b)));
      && Canonical(t) && TreePriority(t) == Priority(op) && Flatten(t) == Num(a) + ([Infix(op)] + Num(b))
      && OpNeed(table, MAX_RECURSION, t) == 1 && EvalTree(table, MAX_RECURSION, t) == Ok(Arg(Of(op, a, b), false))
  {
    OneNumber(table, MAX_RECURSION, a);
    OneNumber(table, MAX_RECURSION, b);
    Node(table, MAX_RECURSION, op, Leaf(Number(a)), Leaf(Number(b)));
  }

  /** `a p b q c` with p first, or with q first. */
  lemma LeftPair(table: Table, slots: Slots, a: int, p: BinaryOp, b: int, q: BinaryOp, c: int)
    requires EqmsWellFormed(table) && NoLater(p, q) && Divides(p, b) && Divides(q, c)
    ensures Gives(table, slots, (Num(a) + ([Infix(p)] + Num(b))) + ([Infix(q)] + Num(c)), Of(q, Of(p, a, b), c))
  {
    NoLaterIs(p, q);
    var t := Binary(p, Leaf(Number(a)), Leaf(Number(b)));
    Pair(table, p, a, b);
    OneNumber(table, MAX_RECURSION, c);
    Node(table, MAX_RECURSION, q, t, Leaf(Number(c)));
    TreeGives(table, slots, Binary(q, t, Leaf(Number(c))), Of(q, Of(p, a, b), c));
  }

  lemma RightPair(table: Table, slots: Slots, a: int, p: BinaryOp, b: int, q: BinaryOp, c: int)
    requires EqmsWellFormed(table) && !NoLater(p, q) && Divides(q, c) && Divides(p, Of(q, b, c))
    ensures Gives(table, slots, Num(a) + ([Infix(p)] + (Num(b) + ([Infix(q)] + Num(c)))), Of(p, a, Of(q, b, c)))
  {
    NoLaterIs(p, q);
    var t := Binary(q, Leaf(Number(b)), Leaf(Number(c)));
    Pair(table, q, b, c);
    OneNumber(table, MAX_RECURSION, a);
    Node(table, MAX_RECURSION, p, Leaf(Number(a)), t);
    TreeGives(table, slots, Binary(p, Leaf(Number(a)), t), Of(p, a, Of(q, b, c)));
  }

  /** So `a + b * c` is a + b * c, `a * b + c` is a * b + c, and `a - b - c` is (a - b) - c. */
  lemma SumOfProduct(table: Table, slots: Slots, a: int, b: int, c: int)
    requires EqmsWellFormed(table)
    ensures Gives(table, slots, Num(a) + ([Infix(Add)] + (Num(b) + ([Infix(Mult)] + Num(c)))), a + b * c)
  {
    RightPair(table, slots, a, Add, b, Mult, c);
    ProductIs(b, c);
    SumIs(a, b * c);
  }

  lemma ProductThenSum(table: Table, slots: Slots, a: int, b: int, c: int)
    requires EqmsWellFormed(table)
    ensures Gives(table, slots, (Num(a) + ([Infix(Mult)] + Num(b))) + ([Infix(Add)] + Num(c)), a * b + c)
  {
    LeftPair(table, slots, a, Mult, b, Add, c);
    ProductIs(a, b);
    SumIs(a * b, c);
  }

  lemma DifferencesFromTheLeft(table: Table, slots: Slots, a: int, b: int, c: int)
    requires EqmsWellFormed(table)
    ensures Gives(table, slots, (Num(a) + ([Infix(Sub)] + Num(b))) + ([Infix(Sub)] + Num(c)), a - b - c)
  {
    LeftPair(table, slots, a, Sub, b, Sub, c);
    SumIs(a, b);
    SumIs(a - b, c);
  }

  // ----- equivalents of the manual -----

  /** `[a ? b - c] + c` is the conditional of C. */
  lemma Conditional(table: Table, slots: Slots, a: int, b: int, c: int)
    requires EqmsWellFormed(table)
    ensures
      var chosen := Num(a) + ([Infix(Question)] + (Num(b) + ([Infix(Sub)] + Num(c))));
      Gives(table, slots, Bracketed(chosen) + ([Infix(Add)] + Num(c)), if a != 0 then b else c)
  {
    var (x, y) := (Leaf(Number(a)), Binary(Sub, Leaf(Number(b)), Leaf(Number(c))));
    var choice := Binary(Question, x, y);
    Pair(table, Sub, b, c);
    OneNumber(table, MAX_RECURSION, a);
    OneNumber(table, MAX_RECURSION, c);
    Node(table, MAX_RECURSION, Question, x, y);
    InBrackets(table, MAX_RECURSION, choice);
    Node(table, MAX_RECURSION, Add, Group(choice), Leaf(Number(c)));
    Logic(a, Of(Sub, b, c));
    SumIs(b, c);
    SumIs(b - c, c);
    SumIs(0, c);
    TreeGives(table, slots, Binary(Add, Group(choice), Leaf(Number(c))), if a != 0 then b else c);
  }

  /** The binary text the manual gives for a unary operator on a number: `v^-1`, `[v^-1]+1`,
      `v==0`, `v&$FF` and `[v>>8]&$FF`. */
  function Alternate(op: UnaryOp, v: int): seq<Token> {
    var minusOne := [Prefix(Negate)] + Num(1);
    match op
    case Invert => Num(v) + ([Infix(BitwiseXor)] + minusOne)
    case Negate => Bracketed(Num(v) + ([Infix(BitwiseXor)] + minusOne)) + ([Infix(Add)] + Num(1))
    case Not => Num(v) + ([Infix(EqEq)] + Num(0))
    case TakeLsb => Num(v) + ([Infix(BitwiseAnd)] + Num(0xFF))
    case TakeMsb => Bracketed(Num(v) + ([Infix(ShiftRight)] + Num(8))) + ([Infix(BitwiseAnd)] + Num(0xFF))
  }

  lemma Alternates(table: Table, slots: Slots, op: UnaryOp, v: int)
    requires EqmsWellFormed(table)
    ensures Gives(table, slots, [Prefix(op)] + Num(v), UnaryOf(op, v))
    ensures Gives(table, slots, Alternate(op, v), UnaryOf(op, v))
  {
    OneNumber(table, MAX_RECURSION, v);
    Prefixed(table, MAX_RECURSION, op, Leaf(Number(v)));
    TreeGives(table, slots, Unary(op, Leaf(Number(v))), UnaryOf(op, v));
    match op {
      case Invert => InvertedText(table, slots, v);
      case Negate => NegatedText(table, slots, v);
      case Not =>
        Pair(table, EqEq, v, 0);
        TreeGives(table, slots, Binary(EqEq, Leaf(Number(v)), Leaf(Number(0))), UnaryOf(op, v));
      case TakeLsb =>
        Pair(table, BitwiseAnd, v, 0xFF);
        TreeGives(table, slots, Binary(BitwiseAnd, Leaf(Number(v)), Leaf(Number(0xFF))), UnaryOf(op, v));
      case TakeMsb => HighByteText(table, slots, v);
    }
  }

  lemma XorMinusOne(table: Table, v: int)
    ensures
      var t := Binary(BitwiseXor, Leaf(Number(v)), Unary(Negate, Leaf(Number(1))));
      && Canonical(t) && Flatten(t) == Num(v) + ([Infix(BitwiseXor)] + ([Prefix(Negate)] + Num(1)))
      && OpNeed(table, MAX_RECURSION, t) == 2 && EvalTree(table, MAX_RECURSION, t) == Ok(Arg(UnaryOf(Invert, v), false))
  {
    OneNumber(table, MAX_RECURSION, v);
    OneNumber(table, MAX_RECURSION, 1);
    Prefixed(table, MAX_RECURSION, Negate, Leaf(Number(1)));
    Node(table, MAX_RECURSION, BitwiseXor, Leaf(Number(v)), Unary(Negate, Leaf(Number(1))));
    XorOnes(v);
  }

  lemma InvertedText(table: Table, slots: Slots, v: int)
    requires EqmsWellFormed(table)
    ensures Gives(table, slots, Alternate(Invert, v), UnaryOf(Invert, v))
  {
    XorMinusOne(table, v);
    TreeGives(table, slots, Binary(BitwiseXor, Leaf(Number(v)), Unary(Negate, Leaf(Number(1)))), UnaryOf(Invert, v));
  }

  lemma NegatedText(table: Table, slots: Slots, v: int)
    requires EqmsWellFormed(table)
    ensures Gives(table, slots, Alternate(Negate, v), UnaryOf(Negate, v))
  {
    var t := Binary(BitwiseXor, Leaf(Number(v)), Unary(Negate, Leaf(Number(1))));
    XorMinusOne(table, v);
    InBrackets(table, MAX_RECURSION, t);
    OneNumber(table, MAX_RECURSION, 1);
    Node(table, MAX_RECURSION, Add, Group(t), Leaf(Number(1)));
    TreeGives(table, slots, Binary(Add, Group(t), Leaf(Number(1))), UnaryOf(Negate, v));
  }

  lemma HighByteText(table: Table, slots: Slots, v: int)
    requires EqmsWellFormed(table)
    ensures Gives(table, slots, Alternate(TakeMsb, v), UnaryOf(TakeMsb, v))
  {
    var t := Binary(ShiftRight, Leaf(Number(v)), Leaf(Number(8)));
    Pair(table, ShiftRight, v, 8);
    InBrackets(table, MAX_RECURSION, t);
    OneNumber(table, MAX_RECURSION, 0xFF);
    Node(table, MAX_RECURSION, BitwiseAnd, Group(t), Leaf(Number(0xFF)));
    EightBits();
    TreeGives(table, slots, Binary(BitwiseAnd, Group(t), Leaf(Number(0xFF))), UnaryOf(TakeMsb, v));
  }

  lemma EightBits()
    ensures Pow2(8) == 256
  {
    assert Pow2(4) == 16;
  }

  lemma XorOnes(v: int)
    ensures Of(BitwiseXor, v, -1) == UnaryOf(Invert, v)
  {
    if Of(BitwiseXor, v, -1) != UnaryOf(Invert, v) {
      var k := DifferentBit(Of(BitwiseXor, v, -1), UnaryOf(Invert, v));
      BitOperators(v, -1, k);
      AllOnes(k);
    }
  }

  lemma {:induction false} AllOnes(k: nat)
    ensures Bit(-1, k)
  {
    if k != 0 {
      AllOnes(k - 1);
    }
  }
}
