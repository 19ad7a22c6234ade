/** In a pass that asks for no other, a symbol has one value. */
module OneValue {
  import opened Results
  import opened Operators
  import opened Expressions
  import opened DataSpec
  import opened LocalScopes
  import L = LineSpec
  import R = LineRefinement
  import opened PassSpec
  import opened PassFacts

  /** How a symbol is defined: as a label, or by EQU. */
  datatype Definer = ByLabel | ByEqu

  /** Known with value v; and read since, if it is a label. */
  ghost predicate Pinned(s: State, x: string, v: int, def: Definer) {
    && s.Ok? && x in s.value.syms && s.value.syms[x].arg == Arg(v, false)
    && (def.ByLabel? ==> s.value.syms[x].ref)
  }

  /** Holds if the pass is still quiet. */
  ghost predicate StillPinned(s: State, x: string, v: int, def: Definer) {
    s.Ok? && Redo(s.value) == 0 ==> Pinned(s, x, v, def)
  }

  function Scope(s: Asm, t: Statement): Indices { if t.op.Subr? then OpenLocal(s.at) else s.at }

  /** The statement does not define x in the other way. */
  predicate Allows(s: Asm, t: Statement, x: string, def: Definer) {
    match def
    case ByLabel => IsEqu(t) ==> Key(s.at, t.name) != x
    case ByEqu => !IsEqu(t) && t.name != "" && t.name != "." ==> Key(OnLabel(Scope(s, t), t.name), t.name) != x
  }

  lemma LabelPins(s: Asm, name: string, x: string, v: int, def: Definer)
    requires Pinned(Ok(s), x, v, def)
    requires def.ByEqu? && name != "" && name != "." ==> Key(OnLabel(s.at, name), name) != x
    ensures StillPinned(Ok(ProgramLabel(s, name)), x, v, def)
  {}

  lemma EvaluatePins(s: Asm, es: seq<Element>, x: string, v: int, def: Definer)
    requires Pinned(Ok(s), x, v, def)
    ensures Evaluate(s, es).Ok? ==> Pinned(Ok(Evaluate(s, es).value.0), x, v, def)
  {}

  lemma EmitPins(s: Asm, o: Out, r: Result<Out>, x: string, v: int, def: Definer)
    requires Redo(s) <= o.sink.redo && StillPinned(Ok(s), x, v, def) && Grown(o, r)
    ensures StillPinned(WithOut(s, r), x, v, def)
  {}

  lemma DcPins(c: Setup, s: Asm, name: string, es: seq<Element>, w: Width, x: string, v: int, def: Definer)
    requires Pinned(Ok(s), x, v, def)
    requires def.ByEqu? && name != "" && name != "." ==> Key(OnLabel(s.at, name), name) != x
    ensures StillPinned(VDc(c, s, name, es, w), x, v, def)
  {
    var s1 := ProgramLabel(s, name);
    LabelPins(s, name, x, v, def);
    if Redo(s1) == 0 {
      EvaluatePins(s1, es, x, v, def);
    }
    if Evaluate(s1, es).Ok? {
      var (s2, items) := Evaluate(s1, es).value;
      DcGrows(c, s2.out, items, w);
      EmitPins(s2, s2.out, EmitDc(c, s2.out, items, w), x, v, def);
    }
  }

  lemma DsPins(c: Setup, s: Asm, name: string, count: Tree, filler: Option<Tree>, w: Width, x: string, v: int, def: Definer)
    requires Pinned(Ok(s), x, v, def)
    requires def.ByEqu? && name != "" && name != "." ==> Key(OnLabel(s.at, name), name) != x
    ensures StillPinned(VDs(c, s, name, count, filler, w), x, v, def)
  {
    var es := Amounts(count, filler);
    var s1, w1 := ProgramLabel(s, name), if w == Swapped then ByteWidth else w;
    LabelPins(s, name, x, v, def);
    if Redo(s1) == 0 {
      EvaluatePins(s1, es, x, v, def);
    }
    if Evaluate(s1, es).Ok? {
      var (s2, items) := Evaluate(s1, es).value;
      DsGrows(c, s2.out, items, w1);
      EmitPins(s2, s2.out, FillDs(c, s2.out, items, w1), x, v, def);
    }
  }

  lemma MnemonicPins(c: Setup, s: Asm, name: string, i: Insn, x: string, v: int, def: Definer)
    requires Pinned(Ok(s), x, v, def)
    requires def.ByEqu? && name != "" && name != "." ==> Key(OnLabel(s.at, name), name) != x
    ensures StillPinned(VMnemonic(c, s, name, i), x, v, def)
  {
    var s1 := ProgramLabel(s, name);
    LabelPins(s, name, x, v, def);
    if Redo(s1) == 0 {
      EvaluatePins(s1, Elements(i.args), x, v, def);
    }
    if Evaluate(s1, Elements(i.args)).Ok? {
      var (s2, items) := Evaluate(s1, Elements(i.args)).value;
      var o := BumpOut(s2.out, Unknowns(items));
      InsnGrows(c, o, i, Args(items));
      EmitPins(s2, o, EmitInsn(c, o, i, Args(items)), x, v, def);
    }
  }

  lemma OrgPins(s: Asm, name: string, t: Tree, x: string, v: int, def: Definer)
    requires Pinned(Ok(s), x, v, def)
    requires def.ByEqu? && name != "" && name != "." ==> Key(OnLabel(s.at, name), name) != x
    ensures StillPinned(VOrg(s, name, t), x, v, def)
  {
    EvaluatePins(s, [Expr(t)], x, v, def);
    if EvalOne(s, t).Ok? {
      var (s1, a) := EvalOne(s, t).value;
      var o := s1.out.(org := a.value % L.ULONG, unknown := a.unknown);
      LabelPins(s1.(out := o, placed := s1.placed && !a.unknown), name, x, v, def);
    }
  }

  lemma EquPins(s: Asm, name: string, t: Tree, x: string, v: int, def: Definer)
    requires Pinned(Ok(s), x, v, def)
    requires def.ByLabel? && name != "." && name != "*" ==> Key(s.at, name) != x
    ensures StillPinned(VEqu(s, name, t), x, v, def)
  {
    EvaluatePins(s, [Expr(t)], x, v, def);
    if EvalOne(s, t).Ok? {
      OrgPins(EvalOne(s, t).value.0, ".", t, x, v, def);
    }
  }

  lemma ExecutePins(c: Setup, s: Asm, t: Statement, x: string, v: int, def: Definer)
    requires Pinned(Ok(s), x, v, def) && Allows(s, t, x, def)
    ensures StillPinned(Execute(c, s, t), x, v, def)
  {
    match t.op
    case NoOp => LabelPins(s, t.name, x, v, def);
    case Condition(_) => LabelPins(s, t.name, x, v, def);
    case Subr => LabelPins(s.(at := OpenLocal(s.at)), t.name, x, v, def);
    case Org(e) => OrgPins(s, t.name, e, x, v, def);
    case Equ(e) => EquPins(s, t.name, e, x, v, def);
    case Dc(es, w) => DcPins(c, s, t.name, es, w, x, v, def);
    case Ds(count, filler, w) => DsPins(c, s, t.name, count, filler, w, x, v, def);
    case Mnem(i) => MnemonicPins(c, s, t.name, i, x, v, def);
  }

  // ----- lines -----

  /** The line about to be read, if it can be executed. A conditional line defines its name as
      a label, whatever it says else. */
  predicate LineAllows(f: Reader, line: L.Line<Statement>, x: string, def: Definer) {
    f.s.Ok? ==>
      if line.Plain? then Allows(f.s.value, line.t, x, def)
      else
        def.ByEqu? && line.t.name != "" && line.t.name != "." ==>
          Key(OnLabel(f.s.value.at, line.t.name), line.t.name) != x
  }

  lemma DefinePins(s: State, t: Statement, x: string, v: int, def: Definer)
    requires Pinned(s, x, v, def)
    requires def.ByEqu? && t.name != "" && t.name != "." ==> Key(OnLabel(s.value.at, t.name), t.name) != x
    ensures StillPinned(OnDefine(s, t), x, v, def)
  {
    LabelPins(s.value, t.name, x, v, def);
  }

  lemma DecidePins(s: State, t: Statement, x: string, v: int, def: Definer)
    requires Pinned(s, x, v, def)
    requires def.ByEqu? && t.name != "" && t.name != "." ==> Key(OnLabel(s.value.at, t.name), t.name) != x
    ensures StillPinned(Decide(s, t).0, x, v, def)
  {
    DefinePins(s, t, x, v, def);
    var s1 := OnDefine(s, t);
    if Redo(s1.value) == 0 && t.op.Condition? {
      EvaluatePins(s1.value, [Expr(t.op.t)], x, v, def);
    }
  }

  lemma HandlePins(c: Setup, line: L.Line<Statement>, f: Reader, x: string, v: int, def: Definer)
    requires f.ifs != [] && Pinned(f.s, x, v, def) && LineAllows(f, line, x, def)
    ensures StillPinned(L.Handle(Handlers(c), line, f).s, x, v, def)
  {
    match line
    case Plain(t) =>
      ExecutePins(c, f.s.value, t, x, v, def);
      assert Handlers(c).plain(f.s, t) == OnPlain(c, f.s, t);
    case If(t) =>
      DecidePins(f.s, t, x, v, def);
      assert Handlers(c).eval(Handlers(c).define(f.s, t), t) == Decide(f.s, t);
    case Repeat(t) =>
      DecidePins(f.s, t, x, v, def);
      assert Handlers(c).eval(Handlers(c).define(f.s, t), t) == Decide(f.s, t);
    case Else(t) => DefinePins(f.s, t, x, v, def);
    case Endif(t) => DefinePins(f.s, t, x, v, def);
    case Repend(t) => DefinePins(f.s, t, x, v, def);
  }

  /** None of the next n lines defines x in the other way. */
  ghost predicate RunAllows(c: Setup, lines: seq<L.Line<Statement>>, f: Reader, n: nat, x: string, def: Definer) {
    forall k | 0 <= k < n ::
      var g := L.Run(Handlers(c), lines, f, k);
      g.pc < |lines| ==> LineAllows(g, lines[g.pc], x, def)
  }

  lemma RunAllowsNext(c: Setup, lines: seq<L.Line<Statement>>, f: Reader, n: nat, x: string, def: Definer)
    requires RunAllows(c, lines, f, n, x, def) && 0 < n
    ensures f.pc < |lines| ==> LineAllows(f, lines[f.pc], x, def)
    ensures RunAllows(c, lines, L.Stepper(Handlers(c), lines)(f), n - 1, x, def)
  {
    var next := L.Stepper(Handlers(c), lines);
    assert L.Run(Handlers(c), lines, f, 0) == f;
    forall k | 0 <= k < n - 1
      ensures var g := L.Run(Handlers(c), lines, next(f), k); g.pc < |lines| ==> LineAllows(g, lines[g.pc], x, def)
    {
      assert L.Run(Handlers(c), lines, next(f), k) == L.Run(Handlers(c), lines, f, k + 1);
    }
  }

  lemma NextPins(c: Setup, lines: seq<L.Line<Statement>>, f: Reader, x: string, v: int, def: Definer)
    requires f.ifs != [] && Pinned(f.s, x, v, def)
    requires f.pc < |lines| ==> LineAllows(f, lines[f.pc], x, def)
    ensures StillPinned(L.Next(Handlers(c), lines, f).s, x, v, def)
  {
    R.NextHandles(Handlers(c), lines, f);
    if f.pc < |lines| {
      assert LineAllows(f.(pc := f.pc + 1), lines[f.pc], x, def);
      HandlePins(c, lines[f.pc], f.(pc := f.pc + 1), x, v, def);
    }
  }

  lemma OnePinnedLine(c: Setup, lines: seq<L.Line<Statement>>, f: Reader, n: nat, x: string, v: int, def: Definer)
    returns (f1: Reader)
    requires 0 < n && f.ifs != [] && Pinned(f.s, x, v, def) && RunAllows(c, lines, f, n, x, def)
    ensures f1.ifs != [] && StillPinned(f1.s, x, v, def) && RunAllows(c, lines, f1, n - 1, x, def)
    ensures L.Run(Handlers(c), lines, f, n) == L.Run(Handlers(c), lines, f1, n - 1)
  {
    f1 := L.Next(Handlers(c), lines, f);
    R.RunUnfolds(Handlers(c), lines, f, n);
    R.NextHandles(Handlers(c), lines, f);
    RunAllowsNext(c, lines, f, n, x, def);
    NextPins(c, lines, f, x, v, def);
  }

  lemma {:induction false} RunPins(c: Setup, lines: seq<L.Line<Statement>>, f: Reader, n: nat, x: string, v: int, def: Definer)
    requires f.ifs != [] && Pinned(f.s, x, v, def) && RunAllows(c, lines, f, n, x, def)
    decreases n
    ensures StillPinned(L.Run(Handlers(c), lines, f, n).s, x, v, def)
  {
    if n > 0 {
      var f1 := OnePinnedLine(c, lines, f, n, x, v, def);
      RunOrderly(c, lines, f1, n - 1);
      if Pinned(f1.s, x, v, def) {
        RunPins(c, lines, f1, n - 1, x, v, def);
      }
    }
  }

  /** One value for each symbol: in any pass that ends with Redo = 0, over any program, from
      any state, a symbol that is defined only as a label and has been read as known, or is
      defined only by EQU and is known, has the value it ends with. */
  lemma OneValuePerSymbol(
    c: Setup, lines: seq<L.Line<Statement>>, f: Reader, n: nat, s: Asm, k: nat, x: string, v: int, def: Definer)
    requires f.ifs != [] && PassEnds(c, lines, f, n, s) && Redo(s) == 0 && RunAllows(c, lines, f, n, x, def)
    requires k <= n && Pinned(L.Run(Handlers(c), lines, f, k).s, x, v, def)
    ensures Pinned(Ok(s), x, v, def)
  {
    var g := FromThere(c, lines, f, n, k, x, def);
    RunPins(c, lines, g, n - k, x, v, def);
  }

  lemma FromThere(c: Setup, lines: seq<L.Line<Statement>>, f: Reader, n: nat, k: nat, x: string, def: Definer)
    returns (g: Reader)
    requires f.ifs != [] && RunAllows(c, lines, f, n, x, def) && k <= n
    ensures g == L.Run(Handlers(c), lines, f, k) && g.ifs != [] && RunAllows(c, lines, g, n - k, x, def)
    ensures L.Run(Handlers(c), lines, g, n - k) == L.Run(Handlers(c), lines, f, n)
  {
    g := L.Run(Handlers(c), lines, f, k);
    RunAllowsFrom(c, lines, f, n, k, x, def);
    R.RepeatedlyAdds(L.Stepper(Handlers(c), lines), f, k, n - k);
    StacksKept(c, lines, f, k);
  }

  lemma {:induction false} StacksKept(c: Setup, lines: seq<L.Line<Statement>>, f: Reader, n: nat)
    requires f.ifs != []
    decreases n
    ensures L.Run(Handlers(c), lines, f, n).ifs != []
  {
    if n > 0 {
      StacksKept(c, lines, L.Stepper(Handlers(c), lines)(f), n - 1);
    }
  }

  lemma RunAllowsFrom(c: Setup, lines: seq<L.Line<Statement>>, f: Reader, n: nat, k: nat, x: string, def: Definer)
    requires RunAllows(c, lines, f, n, x, def) && k <= n
    ensures RunAllows(c, lines, L.Run(Handlers(c), lines, f, k), n - k, x, def)
  {
    var from := L.Run(Handlers(c), lines, f, k);
    forall j | 0 <= j < n - k
      ensures var g := L.Run(Handlers(c), lines, from, j); g.pc < |lines| ==> LineAllows(g, lines[g.pc], x, def)
    {
      R.RepeatedlyAdds(L.Stepper(Handlers(c), lines), f, k, j);
      assert L.Run(Handlers(c), lines, from, j) == L.Run(Handlers(c), lines, f, k + j);
    }
  }
}
