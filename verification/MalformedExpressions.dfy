/** What eval does with token lists that are no expressions. */
module MalformedExpressions {
  import opened Results
  import opened Operators
  import opened Expressions
  import opened ExpressionMachine
  import opened ExpressionProofs

  // ----- what can be read off the tokens -----

  /** Brackets open after one more token; a `]` too many is ignored. */
  function Depth(token: Token, depth: nat): nat {
    match token
    case Open => depth + 1
    case Close => if depth == 0 then 0 else depth - 1
    case _ => depth
  }

  function DepthAfter(ts: seq<Token>, depth: nat): nat {
    if ts == [] then depth else DepthAfter(ts[1..], Depth(ts[0], depth))
  }

  function FirstComma(ts: seq<Token>): (i: nat)
    ensures i <= |ts| && Comma !in ts[..i] && (i < |ts| ==> ts[i] == Comma)
  {
    if ts == [] || ts[0] == Comma then 0
    else
      var i := FirstComma(ts[1..]);
      assert ts[..i + 1] == [ts[0]] + ts[1..][..i];
      i + 1
  }

  /** Every element a comma ends is an expression. The last one may be anything that leaves
      no bracket open. */
  predicate Tidy(ts: seq<Token>) {
    var i := FirstComma(ts);
    if i == |ts| then DepthAfter(ts, 0) == 0 else WellFormed(ts[..i]) && Tidy(ts[i + 1..])
  }

  ghost predicate TidyTable(table: Table) {
    forall x <- table :: table[x].Eqm? ==> Tidy(table[x].tokens)
  }

  lemma WellFormedIsTidy(ts: seq<Token>)
    requires WellFormed(ts)
    ensures Tidy(ts)
  {
    ScanDepth(ts, true, 0);
    assert FirstComma(ts) == |ts|;
  }

  lemma {:induction false} ScanDepth(ts: seq<Token>, operandNext: bool, depth: nat)
    requires Scan(ts, operandNext, depth)
    ensures Comma !in ts && DepthAfter(ts, depth) == 0
  {
    if ts != [] {
      var next := ts[0].Prefix? || ts[0].Infix? || ts[0].Open?;
      ScanDepth(ts[1..], next, if ts[0].Open? then depth + 1 else if ts[0].Close? then depth - 1 else depth);
    }
  }

  // ----- what is counted on the stacks -----

  function Brackets(ops: seq<Cell>): nat {
    if ops == [] then 0
    else Brackets(ops[..|ops| - 1]) + if ops[|ops| - 1].Bracket? then 1 else 0
  }

  function Binaries(ops: seq<Cell>): nat {
    if ops == [] then 0
    else Binaries(ops[..|ops| - 1]) + if ops[|ops| - 1].BinaryCell? then 1 else 0
  }

  lemma PushCounts(m: Mach, c: Cell)
    ensures Brackets(PushOp(m, c).ops) == Brackets(m.ops) + if c.Bracket? then 1 else 0
    ensures Binaries(PushOp(m, c).ops) == Binaries(m.ops) + if c.BinaryCell? then 1 else 0
  {
    var ops := PushOp(m, c).ops;
    assert ops[..|ops| - 1] == m.ops;
  }

  /** Room for the operators below: an argument each, and `extra` more. */
  predicate Supplied(m: Mach, extra: nat) { extra + Binaries(m.ops) <= |m.args| }

  /** Nothing that matters here is lost between m and the outcome r. */
  ghost predicate Quiet(m: Mach, r: Result<Mach>) {
    && !r.Corrupt?
    && (r.Ok? ==> r.value.strayed == m.strayed && Brackets(r.value.ops) == Brackets(m.ops))
    && (r.Ok? && Supplied(m, 1) ==> Supplied(r.value, 1))
  }

  // ----- reductions that stop at a bracket -----

  lemma {:induction false} QuietTop(m: Mach)
    requires Inv(m) && m.ops != [] && !Top(m).Bracket?
    decreases |m.ops|, 0
    ensures Quiet(m, EvalTop(m))
  {
    var (m1, n) := (PopOp(m), |m.args|);
    match Top(m)
    case UnaryCell(op) =>
      if 1 <= n {
        QuietStack(PopArgs(m1, 1), ApplyUnary(op, m.args[n - 1]));
      }
    case BinaryCell(op) =>
      if 2 <= n && ApplyBinary(op, m.args[n - 2], m.args[n - 1]).Ok? {
        QuietStack(PopArgs(m1, 2), ApplyBinary(op, m.args[n - 2], m.args[n - 1]).value);
      }
  }

  lemma {:induction false} QuietStack(m: Mach, v: Arg)
    requires Inv(m)
    decreases |m.ops|, 2
    ensures Quiet(PushArg(m, v), StackArg(m, v))
  {
    if Argi(m) < MAXARGS {
      QuietDrain(PushArg(m, v));
    }
  }

  lemma {:induction false} QuietDrain(m: Mach)
    requires Inv(m)
    decreases |m.ops|, 1
    ensures Quiet(m, DrainUnaries(m))
  {
    if m.ops != [] && Top(m).UnaryCell? {
      QuietTop(m);
      if EvalTop(m).Ok? {
        QuietDrain(EvalTop(m).value);
      }
    }
  }

  lemma {:induction false} QuietReduce(m: Mach, p: nat)
    requires Inv(m) && 0 < p
    decreases |m.ops|
    ensures Quiet(m, ReduceTo(m, p))
  {
    if m.ops != [] && p <= CellPriority(Top(m)) {
      QuietTop(m);
      if EvalTop(m).Ok? {
        QuietReduce(EvalTop(m).value, p);
      }
    }
  }

  /** A reduction to the base is quiet where no bracket is left. */
  lemma {:induction false} QuietFlush(m: Mach)
    requires Inv(m) && Brackets(m.ops) == 0
    decreases |m.ops|
    ensures Quiet(m, Flush(m))
  {
    if m.ops != [] {
      QuietTop(m);
      if EvalTop(m).Ok? {
        QuietFlush(EvalTop(m).value);
      }
    }
  }

  /** Every bracket left is reduced, unless the reduction ends the evaluation. */
  lemma {:induction false} FlushStrays(m: Mach)
    requires Inv(m)
    decreases |m.ops|
    ensures Flush(m).Ok? ==> Flush(m).value.strayed == m.strayed + Brackets(m.ops)
  {
    if m.ops != [] && EvalTop(m).Ok? {
      TopStrays(m);
      FlushStrays(EvalTop(m).value);
    }
  }

  lemma TopStrays(m: Mach)
    requires Inv(m) && m.ops != [] && EvalTop(m).Ok?
    ensures EvalTop(m).value.strayed + Brackets(EvalTop(m).value.ops) == m.strayed + Brackets(m.ops)
  {
    if Top(m).Bracket? {
      var (m1, n) := (PopOp(m).(strayed := m.strayed + 1), |m.args|);
      if 2 <= n {
        QuietStack(PopArgs(m1, 2), ApplyBinary(Top(m).left.bop, m.args[n - 2], m.args[n - 1]).value);
      }
    } else {
      QuietTop(m);
    }
  }

  // ----- one token -----

  predicate Pushes(token: Token) { token.Prefix? || token.Infix? || token.Open? }

  /** A token that is no comma reduces no bracket and changes their number as the text says,
      except that a full operator stack loses some. */
  lemma {:induction false} StepQuiet(table: Table, rec: nat, s: Progress, token: Token)
    requires TidyTable(table) && Inv(s.m) && token != Comma
    decreases rec, 0, 1
    ensures !Step(table, rec, s, token).Corrupt?
    ensures
      Step(table, rec, s, token).Ok? ==>
        var s' := Step(table, rec, s, token).value;
        && s'.taken == s.taken && s'.m.strayed == s.m.strayed
        && Brackets(s'.m.ops) <= Depth(token, Brackets(s.m.ops))
        && (Opi(s.m) < MAXOPS || !Pushes(token) ==> Brackets(s'.m.ops) == Depth(token, Brackets(s.m.ops)))
        && Opi(s'.m) <= Opi(s.m) + if Pushes(token) then 1 else 0
  {
    match token
    case Operand(Number(v)) => QuietStack(s.m, Arg(v, false));
    case Operand(Ref(x)) => SymbolQuiet(table, rec, s, x);
    case Prefix(op) => PushCounts(s.m, UnaryCell(op));
    case Infix(op) => InfixQuiet(s.m, op);
    case Open => if Opi(s.m) < MAXOPS { PushCounts(s.m, Bracket(s.slots[Opi(s.m)])); }
    case Close => CloseQuiet(s.m);
  }

  lemma {:induction false} SymbolQuiet(table: Table, rec: nat, s: Progress, x: string)
    requires TidyTable(table) && Inv(s.m)
    decreases rec, 0, 0
    ensures !PushSymbol(table, rec, s, x).Corrupt?
    ensures
      PushSymbol(table, rec, s, x).Ok? ==>
        var s' := PushSymbol(table, rec, s, x).value;
        && s'.taken == s.taken && s'.m.strayed == s.m.strayed && Opi(s'.m) <= Opi(s.m)
        && Brackets(s'.m.ops) == Brackets(s.m.ops)
        && (Supplied(s.m, 0) ==> Supplied(s'.m, 1))
  {
    if rec != 0 {
      if x !in table {
        QuietStack(s.m, Arg(0, true));
      } else if table[x].Value? {
        QuietStack(s.m, table[x].arg);
      } else {
        TidyNeverCorrupt(table, rec - 1, s.m, s.slots, table[x].tokens);
        var r := Eval(table, rec - 1, s.m, s.slots, table[x].tokens);
        if r.Ok? {
          QuietStack(r.value.m, r.value.taken[0]);
        }
      }
    }
  }

  lemma InfixQuiet(m: Mach, op: BinaryOp)
    requires Inv(m)
    ensures !DoBinary(m, op).Corrupt?
    ensures
      DoBinary(m, op).Ok? ==>
        var m' := DoBinary(m, op).value;
        && m'.strayed == m.strayed && Opi(m') <= Opi(m) + 1 && Brackets(m'.ops) <= Brackets(m.ops)
        && (Opi(m) < MAXOPS ==> Brackets(m'.ops) == Brackets(m.ops))
        && (Supplied(m, 1) ==> Supplied(m', 0))
  {
    PushCounts(m, BinaryCell(op));
    if m.ops != [] {
      QuietReduce(m, Priority(op));
      if ReduceTo(m, Priority(op)).Ok? {
        PushCounts(ReduceTo(m, Priority(op)).value, BinaryCell(op));
      }
    }
  }

  lemma CloseQuiet(m: Mach)
    requires Inv(m)
    ensures !CloseBracket(m).Corrupt?
    ensures
      CloseBracket(m).Ok? ==>
        var m' := CloseBracket(m).value;
        && m'.strayed == m.strayed && Opi(m') <= Opi(m)
        && Brackets(m'.ops) == (if Brackets(m.ops) == 0 then 0 else Brackets(m.ops) - 1)
        && (Supplied(m, 1) ==> Supplied(m', 1))
  {
    QuietReduce(m, 1);
    if ReduceTo(m, 1).Ok? {
      StopsAtBracket(m);
    }
  }

  lemma {:induction false} StopsAtBracket(m: Mach)
    requires Inv(m) && ReduceTo(m, 1).Ok?
    decreases |m.ops|
    ensures ReduceTo(m, 1).value.ops != [] ==> Top(ReduceTo(m, 1).value).Bracket?
  {
    if m.ops != [] && 1 <= CellPriority(Top(m)) {
      StopsAtBracket(EvalTop(m).value);
    }
  }

  /** In an expression every operand lands on an operator that waits for it. */
  lemma {:induction false} StepSupplies(table: Table, rec: nat, s: Progress, token: Token, operandNext: bool)
    requires TidyTable(table) && Inv(s.m) && token != Comma
    requires operandNext == (token.Operand? || token.Prefix? || token.Open?)
    requires Supplied(s.m, if operandNext then 0 else 1) && Step(table, rec, s, token).Ok?
    decreases rec, 0, 1
    ensures Supplied(Step(table, rec, s, token).value.m, if Pushes(token) then 0 else 1)
  {
    match token
    case Operand(Number(v)) => QuietStack(s.m, Arg(v, false));
    case Operand(Ref(x)) => SymbolQuiet(table, rec, s, x);
    case Prefix(op) => PushCounts(s.m, UnaryCell(op));
    case Infix(op) => InfixQuiet(s.m, op);
    case Open => if Opi(s.m) < MAXOPS { PushCounts(s.m, Bracket(s.slots[Opi(s.m)])); }
    case Close => CloseQuiet(s.m);
  }

  // ----- a list without commas -----

  lemma DepthMonotone(ts: seq<Token>, d: nat, e: nat)
    requires d <= e
    ensures DepthAfter(ts, d) <= DepthAfter(ts, e)
  {}

  lemma {:induction false} RunQuiet(table: Table, rec: nat, s: Progress, ts: seq<Token>)
    requires TidyTable(table) && Inv(s.m) && Comma !in ts
    decreases rec, 1, |ts|
    ensures !Run(table, rec, s, ts).Corrupt?
    ensures
      Run(table, rec, s, ts).Ok? ==>
        var s' := Run(table, rec, s, ts).value;
        && s'.taken == s.taken && s'.m.strayed == s.m.strayed
        && Brackets(s'.m.ops) <= DepthAfter(ts, Brackets(s.m.ops))
  {
    if ts != [] {
      StepQuiet(table, rec, s, ts[0]);
      if Step(table, rec, s, ts[0]).Ok? {
        var s1 := Step(table, rec, s, ts[0]).value;
        RunQuiet(table, rec, s1, ts[1..]);
        DepthMonotone(ts[1..], Brackets(s1.m.ops), Depth(ts[0], Brackets(s.m.ops)));
      }
    }
  }

  lemma {:induction false} RunSupplies(table: Table, rec: nat, s: Progress, ts: seq<Token>, operandNext: bool, depth: nat)
    requires TidyTable(table) && Inv(s.m) && Scan(ts, operandNext, depth)
    requires Supplied(s.m, if operandNext then 0 else 1) && Run(table, rec, s, ts).Ok?
    decreases rec, 1, |ts|
    ensures Supplied(Run(table, rec, s, ts).value.m, 1)
  {
    if ts != [] {
      StepSupplies(table, rec, s, ts[0], operandNext);
      var depth' := if ts[0].Open? then depth + 1 else if ts[0].Close? then depth - 1 else depth;
      RunSupplies(table, rec, Step(table, rec, s, ts[0]).value, ts[1..], Pushes(ts[0]), depth');
    }
  }

  // ----- a whole list -----

  /** An expression before a comma leaves an argument for the comma. */
  lemma CommaSupplied(table: Table, rec: nat, s: Progress, ts: seq<Token>)
    requires TidyTable(table) && Inv(s.m) && s.m.ops == [] && WellFormed(ts)
    decreases rec, 2
    ensures !ThenStep(table, rec, Run(table, rec, s, ts), Comma).Corrupt?
    ensures
      ThenStep(table, rec, Run(table, rec, s, ts), Comma).Ok? ==>
        var s' := ThenStep(table, rec, Run(table, rec, s, ts), Comma).value;
        s'.m.ops == [] && s'.m.strayed == s.m.strayed
  {
    ScanDepth(ts, true, 0);
    RunQuiet(table, rec, s, ts);
    var r := Run(table, rec, s, ts);
    if r.Ok? {
      RunSupplies(table, rec, s, ts, true, 0);
      QuietFlush(r.value.m);
    }
  }

  lemma {:induction false} TidyRun(table: Table, rec: nat, s: Progress, ts: seq<Token>)
    requires TidyTable(table) && Inv(s.m) && s.m.ops == [] && Tidy(ts)
    decreases rec, 3, |ts|
    ensures !RunToEnd(table, rec, s, ts).Corrupt?
    ensures RunToEnd(table, rec, s, ts).Ok? ==> RunToEnd(table, rec, s, ts).value.m.strayed == s.m.strayed
  {
    var i := FirstComma(ts);
    if i == |ts| {
      assert ts[..i] == ts;
      RunQuiet(table, rec, s, ts);
      if Run(table, rec, s, ts).Ok? {
        QuietFlush(Run(table, rec, s, ts).value.m);
      }
    } else {
      assert ts == ts[..i] + ([Comma] + ts[i + 1..]);
      RunAround(table, rec, s, ts[..i], Comma, ts[i + 1..]);
      CommaSupplied(table, rec, s, ts[..i]);
      var r := ThenStep(table, rec, Run(table, rec, s, ts[..i]), Comma);
      if r.Ok? {
        TidyRun(table, rec, r.value, ts[i + 1..]);
      }
    }
  }

  /** However malformed a list is otherwise: if every element before a comma is an
      expression and no bracket is left open, no bracket is reduced as an operator, no
      argument is taken that is not there, and the evaluation keeps to its own stacks. */
  lemma {:induction false} TidyNeverCorrupt(table: Table, rec: nat, m: Mach, slots: Slots, tokens: seq<Token>)
    requires TidyTable(table) && Inv(m) && Tidy(tokens)
    decreases rec, 4
    ensures !Eval(table, rec, m, slots, tokens).Corrupt?
    ensures
      Eval(table, rec, m, slots, tokens).Ok? ==> Eval(table, rec, m, slots, tokens).value.m.strayed == m.strayed
  {
    TidyRun(table, rec, Progress(Above(m), slots, []), tokens);
  }

  // ----- exactly which lists reduce a bracket -----

  function PushCount(ts: seq<Token>): nat {
    if ts == [] then 0 else PushCount(ts[1..]) + if Pushes(ts[0]) then 1 else 0
  }

  /** Where the operator stack has room for the text, it holds the open brackets. */
  lemma {:induction false} RunOpens(table: Table, rec: nat, s: Progress, ts: seq<Token>)
    requires TidyTable(table) && Inv(s.m) && Comma !in ts && Opi(s.m) + PushCount(ts) <= MAXOPS
    requires Run(table, rec, s, ts).Ok?
    decreases |ts|
    ensures Brackets(Run(table, rec, s, ts).value.m.ops) == DepthAfter(ts, Brackets(s.m.ops))
  {
    if ts != [] {
      StepQuiet(table, rec, s, ts[0]);
      RunOpens(table, rec, Step(table, rec, s, ts[0]).value, ts[1..]);
    }
  }

  /** Without commas the text decides: eval reduces as many brackets as were left open. */
  lemma StrayedIffUnclosed(table: Table, rec: nat, m: Mach, slots: Slots, tokens: seq<Token>)
    requires TidyTable(table) && Inv(m) && Comma !in tokens && Opi(m) + PushCount(tokens) <= MAXOPS
    ensures
      var r := Eval(table, rec, m, slots, tokens);
      && (r.Ok? ==> r.value.m.strayed == m.strayed + DepthAfter(tokens, 0))
      && (r.Corrupt? ==> 0 < DepthAfter(tokens, 0))
  {
    if DepthAfter(tokens, 0) == 0 {
      assert tokens[..FirstComma(tokens)] + tokens[FirstComma(tokens)..] == tokens;
      TidyNeverCorrupt(table, rec, m, slots, tokens);
    } else {
      var s := Progress(Above(m), slots, []);
      RunQuiet(table, rec, s, tokens);
      if Run(table, rec, s, tokens).Ok? {
        RunOpens(table, rec, s, tokens);
        FlushStrays(Run(table, rec, s, tokens).value.m);
      }
    }
  }

  // ----- what goes wrong otherwise -----

  lemma RunNext(table: Table, rec: nat, s: Progress, token: Token, rest: seq<Token>, s': Progress)
    requires Inv(s.m) && Step(table, rec, s, token) == Ok(s')
    ensures Run(table, rec, s, [token] + rest) == Run(table, rec, s', rest)
  {
    assert ([token] + rest)[1..] == rest;
  }

  lemma NumberLands(table: Table, rec: nat, s: Progress, v: int)
    requires Inv(s.m) && Argi(s.m) < MAXARGS && (s.m.ops != [] ==> !Top(s.m).UnaryCell?)
    ensures Run(table, rec, s, [Operand(Number(v))]) == Ok(s.(m := PushArg(s.m, Arg(v, false))))
    ensures Step(table, rec, s, Operand(Number(v))) == Ok(s.(m := PushArg(s.m, Arg(v, false))))
  {
    RunOne(table, rec, s, Operand(Number(v)));
    var pushed := PushArg(s.m, Arg(v, false));
    assert DrainUnaries(pushed) == Ok(pushed);
  }

  /** What the reduction at the end of the text leaves is the outcome of eval. */
  lemma EvalEnds(table: Table, rec: nat, slots: Slots, ts: seq<Token>, s: Progress, m: Mach)
    requires Run(table, rec, Progress(Above(AT_REST), slots, []), ts) == Ok(s) && Inv(s.m) && s.taken == []
    ensures Flush(s.m).Abort? ==> Eval(table, rec, AT_REST, slots, ts) == Abort
    ensures Flush(s.m).Corrupt? ==> Eval(table, rec, AT_REST, slots, ts) == Corrupt
    ensures Flush(s.m) == Ok(m) && m.args == [] ==>
      Eval(table, rec, AT_REST, slots, ts)
        == Ok(Progress(AT_REST.(errors := m.errors, strayed := m.strayed), s.slots, [Arg(0, false)]))
  {
    assert [] + [Arg(0, false)] == [Arg(0, false)];
  }

  const ONE := Operand(Number(1))
  const TWO := Operand(Number(2))

  /** There is no unary plus, so `+1,` takes at its comma an argument that is not there. */
  lemma CommaCanCorrupt(slots: Slots)
    ensures Eval(map[], MAX_RECURSION, AT_REST, slots, [Infix(Add), ONE, Comma]) == Corrupt
  {
    var table: Table, rec := map[], MAX_RECURSION;
    var s := Progress(Above(AT_REST), slots, []);
    var s1 := s.(m := PushOp(s.m, BinaryCell(Add)), slots := slots[0 := BinaryFn(Add)]);
    var s2 := s1.(m := PushArg(s1.m, Arg(1, false)));
    RunNext(table, rec, s, Infix(Add), [ONE, Comma], s1);
    assert [Infix(Add)] + [ONE, Comma] == [Infix(Add), ONE, Comma];
    RunNext(table, rec, s1, ONE, [Comma], s2);
    assert [ONE] + [Comma] == [ONE, Comma];
    RunOne(table, rec, s2, Comma);
    assert EvalTop(s2.m) == Ok(SyntaxError(PopOp(s2.m)));
    assert TakeAtComma(s2) == Corrupt;
  }

  /** `[2`: the bracket finds one argument where a binary operator needs two. */
  lemma LoneBracket(slots: Slots)
    ensures Eval(map[], MAX_RECURSION, AT_REST, slots, [Open, TWO])
         == if slots[0].NoFunction? then Abort
            else Ok(Progress(AT_REST.(errors := 1, strayed := 1), slots, [Arg(0, false)]))
  {
    var table: Table, rec := map[], MAX_RECURSION;
    var s := Progress(Above(AT_REST), slots, []);
    var s1 := s.(m := PushOp(s.m, Bracket(slots[0])));
    var s2 := s1.(m := PushArg(s1.m, Arg(2, false)));
    RunNext(table, rec, s, Open, [TWO], s1);
    assert [Open] + [TWO] == [Open, TWO];
    NumberLands(table, rec, s1, 2);
    EvalEnds(table, rec, slots, [Open, TWO], s2, AT_REST.(errors := 1, strayed := 1));
    if !slots[0].NoFunction? {
      var m3 := SyntaxError(PopOp(s2.m).(strayed := 1));
      assert EvalTop(s2.m) == Ok(m3);
      assert Flush(s2.m) == Ok(m3);
    }
  }

  /** `1+[2`: the bracket is the second operator, and calls what the second slot of Opdis was
      left with. A unary function is then called as a binary one. */
  lemma LeftoverIsCalled(slots: Slots)
    ensures Eval(map[], MAX_RECURSION, AT_REST, slots, [ONE, Infix(Add), Open, TWO])
         == match slots[1]
            case NoFunction => Abort
            case UnaryFn(_) => Corrupt
            case BinaryFn(_) =>
              Ok(Progress(AT_REST.(errors := 1, strayed := 1), slots[0 := BinaryFn(Add)], [Arg(0, false)]))
  {
    var table: Table, rec := map[], MAX_RECURSION;
    var s := Progress(Above(AT_REST), slots, []);
    var s1 := s.(m := PushArg(s.m, Arg(1, false)));
    var s2 := s1.(m := PushOp(s1.m, BinaryCell(Add)), slots := slots[0 := BinaryFn(Add)]);
    var s3 := s2.(m := PushOp(s2.m, Bracket(slots[1])));
    var s4 := s3.(m := PushArg(s3.m, Arg(2, false)));
    NumberLands(table, rec, s, 1);
    RunNext(table, rec, s, ONE, [Infix(Add), Open, TWO], s1);
    assert [ONE] + [Infix(Add), Open, TWO] == [ONE, Infix(Add), Open, TWO];
    RunNext(table, rec, s1, Infix(Add), [Open, TWO], s2);
    assert [Infix(Add)] + [Open, TWO] == [Infix(Add), Open, TWO];
    RunNext(table, rec, s2, Open, [TWO], s3);
    assert [Open] + [TWO] == [Open, TWO];
    NumberLands(table, rec, s3, 2);
    EvalEnds(table, rec, slots, [ONE, Infix(Add), Open, TWO], s4, AT_REST.(errors := 1, strayed := 1));
    LeftoverReduced(s2.m, slots[1]);
  }

  /** The leftover operator takes both arguments, and the `+` below finds one. */
  lemma LeftoverReduced(m: Mach, left: Slot)
    requires m == Mach([Arg(1, false)], [BinaryCell(Add)], 0, 0, 0, 0)
    ensures Flush(PushArg(PushOp(m, Bracket(left)), Arg(2, false))) == match left
      case NoFunction => Abort
      case UnaryFn(_) => Corrupt
      case BinaryFn(_) => Ok(AT_REST.(errors := 1, strayed := 1))
  {
    var m4 := PushArg(PushOp(m, Bracket(left)), Arg(2, false));
    var bare := PopOp(m4).(strayed := 1);
    assert bare.args == [Arg(1, false), Arg(2, false)] && bare.ops == m.ops;
    assert Top(m4) == Bracket(left);
    assert !left.NoFunction? ==> EvalTop(m4) == TakeTwo(bare, left);
    if left.BinaryFn? {
      var v := ApplyBinary(left.bop, Arg(1, false), Arg(2, false)).value;
      var m5 := m.(args := [v], strayed := 1);
      assert PushArg(PopArgs(bare, 2), v) == m5;
      assert DrainUnaries(m5) == Ok(m5);
      assert StackArg(PopArgs(bare, 2), v) == Ok(m5);
      assert TakeTwo(bare, left) == Ok(m5);
      assert EvalTop(m5) == Ok(AT_REST.(errors := 1, strayed := 1));
    }
  }

  /** `1+-2` leaves its negation in the second slot, so that `1+[2` on a later line calls it. */
  lemma BracketCanCorrupt()
    ensures
      var r := Eval(map[], MAX_RECURSION, AT_REST, UNUSED, [ONE, Infix(Add), Prefix(Negate), TWO]);
      && r.Ok? && r.value.m == AT_REST && r.value.taken == [Arg(-1, false)]
      && Eval(map[], MAX_RECURSION, r.value.m, r.value.slots, [ONE, Infix(Add), Open, TWO]) == Corrupt
  {
    var table: Table, rec := map[], MAX_RECURSION;
    var s := Progress(Above(AT_REST), UNUSED, []);
    var s1 := s.(m := PushArg(s.m, Arg(1, false)));
    var s2 := s1.(m := PushOp(s1.m, BinaryCell(Add)), slots := UNUSED[0 := BinaryFn(Add)]);
    var s3 := s2.(m := PushOp(s2.m, UnaryCell(Negate)), slots := s2.slots[1 := UnaryFn(Negate)]);
    var s4 := s3.(m := PushArg(s2.m, Arg(-2, false)));
    NumberLands(table, rec, s, 1);
    RunNext(table, rec, s, ONE, [Infix(Add), Prefix(Negate), TWO], s1);
    assert [ONE] + [Infix(Add), Prefix(Negate), TWO] == [ONE, Infix(Add), Prefix(Negate), TWO];
    RunNext(table, rec, s1, Infix(Add), [Prefix(Negate), TWO], s2);
    assert [Infix(Add)] + [Prefix(Negate), TWO] == [Infix(Add), Prefix(Negate), TWO];
    RunNext(table, rec, s2, Prefix(Negate), [TWO], s3);
    assert [Prefix(Negate)] + [TWO] == [Prefix(Negate), TWO];
    RunOne(table, rec, s3, TWO);
    var pushed := PushArg(s3.m, Arg(2, false));
    assert PopArgs(PopOp(pushed), 1) == s2.m;
    assert DrainUnaries(s4.m) == Ok(s4.m);
    assert StackArg(s2.m, Arg(-2, false)) == Ok(s4.m);
    assert EvalTop(pushed) == Ok(s4.m);
    assert StackArg(s3.m, Arg(2, false)) == Ok(s4.m);
    assert EvalTop(s4.m) == Ok(PushArg(AT_REST, Arg(-1, false)));
    LeftoverIsCalled(s4.slots);
  }
}
