/** Expressions that need more operator cells than there are. */
module DeepExpressions {
  import opened Results
  import opened Operators
  import opened Expressions
  import opened ExpressionMachine
  import opened ExpressionProofs

  /** t in n brackets. */
  function Nested(n: nat, t: Tree): Tree { if n == 0 then t else Group(Nested(n - 1, t)) }

  function Opens(n: nat): seq<Token> { if n == 0 then [] else [Open] + Opens(n - 1) }

  function Closes(n: nat): seq<Token> { if n == 0 then [] else [Close] + Closes(n - 1) }

  lemma {:induction false} ClosesAtEnd(n: nat)
    ensures Closes(n) + [Close] == Closes(n + 1)
  {
    if n == 0 {
      assert Closes(0) == [] && Closes(1) == [Close] + Closes(0);
    } else {
      ClosesAtEnd(n - 1);
      assert ([Close] + Closes(n - 1)) + [Close] == [Close] + (Closes(n - 1) + [Close]);
    }
  }

  lemma {:induction false} NestedTokens(n: nat, t: Tree)
    ensures Flatten(Nested(n, t)) == Opens(n) + (Flatten(t) + Closes(n))
  {
    if n == 0 {
      assert Opens(0) == [] && Closes(0) == [];
    } else {
      NestedTokens(n - 1, t);
      ClosesAtEnd(n - 1);
      Regrouped([Open], Opens(n - 1), Flatten(t) + Closes(n - 1), [Close]);
      assert (Flatten(t) + Closes(n - 1)) + [Close] == Flatten(t) + (Closes(n - 1) + [Close]);
    }
  }

  lemma Regrouped(a: seq<Token>, b: seq<Token>, c: seq<Token>, d: seq<Token>)
    ensures a + ((b + c) + d) == (a + b) + (c + d)
  {}

  lemma {:induction false} NestedNeed(table: Table, rec: nat, n: nat, t: Tree)
    ensures OpNeed(table, rec, Nested(n, t)) == n + OpNeed(table, rec, t)
    ensures EvalTree(table, rec, Nested(n, t)) == EvalTree(table, rec, t)
  {
    if n != 0 {
      NestedNeed(table, rec, n - 1, t);
    }
  }

  predicate OnlyBrackets(m: Mach) { forall c <- m.ops :: c.Bracket? }

  /** After n brackets, as many as the stack holds wait on it. */
  lemma {:induction false} RunOpens(table: Table, rec: nat, s: Progress, n: nat, rest: seq<Token>) returns (full: Mach)
    requires Inv(s.m) && OnlyBrackets(s.m)
    decreases n
    ensures Inv(full) && OnlyBrackets(full) && full == s.m.(ops := full.ops)
    ensures |full.ops| == if Opi(s.m) + n <= MAXOPS then |s.m.ops| + n else MAXOPS - s.m.opBase
    ensures Run(table, rec, s, Opens(n) + rest) == Run(table, rec, s.(m := full), rest)
  {
    if n == 0 {
      full := s.m;
      assert Opens(0) + rest == rest;
    } else {
      var s1 := s.(m := OpenBracket(s.m, s.slots));
      assert (Opens(n) + rest)[1..] == Opens(n - 1) + rest;
      full := RunOpens(table, rec, s1, n - 1, rest);
    }
  }

  /** A `]` takes one bracket off, as long as there is one. */
  lemma {:induction false} RunCloses(table: Table, rec: nat, s: Progress, n: nat)
    requires Inv(s.m) && OnlyBrackets(s.m) && |s.m.ops| <= n
    decreases n
    ensures Run(table, rec, s, Closes(n)) == Ok(s.(m := s.m.(ops := [])))
  {
    if n == 0 {
      assert Closes(0) == [];
    } else {
      var m := if s.m.ops == [] then s.m else PopOp(s.m);
      assert Closes(n)[1..] == Closes(n - 1);
      assert ReduceTo(s.m, 1) == Ok(s.m);
      RunCloses(table, rec, s.(m := m), n - 1);
    }
  }

  lemma RunNumber(table: Table, rec: nat, s: Progress, v: int, rest: seq<Token>)
    requires Inv(s.m) && OnlyBrackets(s.m) && Argi(s.m) < MAXARGS
    ensures Run(table, rec, s, [Operand(Number(v))] + rest) == Run(table, rec, s.(m := PushArg(s.m, Arg(v, false))), rest)
  {
    assert ([Operand(Number(v))] + rest)[1..] == rest;
    assert DrainUnaries(PushArg(s.m, Arg(v, false))) == Ok(PushArg(s.m, Arg(v, false)));
  }

  /** What eval makes of the arguments that are left. */
  lemma EvalLeaves(table: Table, rec: nat, slots: Slots, ts: seq<Token>, args: seq<Arg>)
    requires args != [] && |args| <= MAXARGS
    requires Run(table, rec, Progress(Above(AT_REST), slots, []), ts) == Ok(Progress(Above(AT_REST).(args := args), slots, []))
    ensures Eval(table, rec, AT_REST, slots, ts)
      == Ok(Progress(AT_REST.(errors := if |args| > 1 then 1 else 0), slots, [args[|args| - 1]]))
  {
    var m := Above(AT_REST).(args := args);
    assert Flush(m) == Ok(m);
    assert [] + [args[|args| - 1]] == [args[|args| - 1]];
  }

  /** OpNeed is not exact: a number in any number of brackets is evaluated right, although the
      brackets the stack has no room for are passed over. */
  lemma DeepBracketsPass(table: Table, rec: nat, slots: Slots, n: nat, v: int)
    ensures OpNeed(table, rec, Nested(n, Leaf(Number(v)))) == n
    ensures Eval(table, rec, AT_REST, slots, Flatten(Nested(n, Leaf(Number(v))))) == Ok(Progress(AT_REST, slots, [Arg(v, false)]))
  {
    var number := [Operand(Number(v))];
    NestedNeed(table, rec, n, Leaf(Number(v)));
    NestedTokens(n, Leaf(Number(v)));
    var m := RunOpens(table, rec, Progress(Above(AT_REST), slots, []), n, number + Closes(n));
    RunNumber(table, rec, Progress(m, slots, []), v, Closes(n));
    RunCloses(table, rec, Progress(PushArg(m, Arg(v, false)), slots, []), n);
    assert PushArg(m, Arg(v, false)).(ops := []) == Above(AT_REST).(args := [Arg(v, false)]);
    EvalLeaves(table, rec, slots, Flatten(Nested(n, Leaf(Number(v)))), [Arg(v, false)]);
  }

  /** A `+` for which there is no room drops every waiting operator with itself. */
  lemma RunLostPlus(table: Table, rec: nat, s: Progress, rest: seq<Token>)
    requires Inv(s.m) && OnlyBrackets(s.m) && s.m.ops != [] && Opi(s.m) == MAXOPS
    ensures Run(table, rec, s, [Infix(Add)] + rest) == Run(table, rec, s.(m := s.m.(ops := [])), rest)
  {
    assert ([Infix(Add)] + rest)[1..] == rest;
    assert Top(s.m).Bracket?;
    assert ReduceTo(s.m, Priority(Add)) == Ok(s.m);
  }

  lemma DeepSumRuns(table: Table, rec: nat, slots: Slots, n: nat, a: int, b: int)
    requires MAXOPS <= n
    ensures
      var (one, plus, two) := ([Operand(Number(a))], [Infix(Add)], [Operand(Number(b))]);
      Run(table, rec, Progress(Above(AT_REST), slots, []), Opens(n) + (one + (plus + (two + Closes(n)))))
        == Ok(Progress(Above(AT_REST).(args := [Arg(a, false), Arg(b, false)]), slots, []))
  {
    var one, plus, two := [Operand(Number(a))], [Infix(Add)], [Operand(Number(b))];
    var m := RunOpens(table, rec, Progress(Above(AT_REST), slots, []), n, one + (plus + (two + Closes(n))));
    RunNumber(table, rec, Progress(m, slots, []), a, plus + (two + Closes(n)));
    var m1 := PushArg(m, Arg(a, false));
    RunLostPlus(table, rec, Progress(m1, slots, []), two + Closes(n));
    var m2 := m1.(ops := []);
    RunNumber(table, rec, Progress(m2, slots, []), b, Closes(n));
    RunCloses(table, rec, Progress(PushArg(m2, Arg(b, false)), slots, []), n);
    assert PushArg(m2, Arg(b, false)).args == [Arg(a, false), Arg(b, false)];
  }

  /** But beyond it a value can be wrong, with no more than a report of two values: in 32
      brackets or more the `+` of a sum finds no room, and the result is the second operand. */
  lemma DeepOperatorIsLost(table: Table, rec: nat, slots: Slots, n: nat, a: int, b: int)
    requires MAXOPS <= n
    ensures
      var t := Nested(n, Binary(Add, Leaf(Number(a)), Leaf(Number(b))));
      && OpNeed(table, rec, t) == n + 1 && EvalTree(table, rec, t) == Ok(Arg(a + b, false))
      && Eval(table, rec, AT_REST, slots, Flatten(t)) == Ok(Progress(AT_REST.(errors := 1), slots, [Arg(b, false)]))
  {
    var sum := Binary(Add, Leaf(Number(a)), Leaf(Number(b)));
    SumNeed(table, rec, a, b);
    NestedNeed(table, rec, n, sum);
    NestedSumText(n, a, b);
    DeepSumRuns(table, rec, slots, n, a, b);
    EvalLeaves(table, rec, slots, Flatten(Nested(n, sum)), [Arg(a, false), Arg(b, false)]);
  }

  lemma SumNeed(table: Table, rec: nat, a: int, b: int)
    ensures
      var sum := Binary(Add, Leaf(Number(a)), Leaf(Number(b)));
      OpNeed(table, rec, sum) == 1 && EvalTree(table, rec, sum) == Ok(Arg(a + b, false))
  {}

  lemma NestedSumText(n: nat, a: int, b: int)
    ensures Flatten(Nested(n, Binary(Add, Leaf(Number(a)), Leaf(Number(b))))) ==
      Opens(n) + ([Operand(Number(a))] + ([Infix(Add)] + ([Operand(Number(b))] + Closes(n))))
  {
    var sum := Binary(Add, Leaf(Number(a)), Leaf(Number(b)));
    NestedTokens(n, sum);
    assert Flatten(sum) + Closes(n) == [Operand(Number(a))] + ([Infix(Add)] + ([Operand(Number(b))] + Closes(n)));
  }
}
