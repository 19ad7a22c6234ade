/** What the last pass writes: the bytes of its statements at their addresses, all resolved. */
module PassOutput {
  import opened Results
  import opened Operators
  import opened Expressions
  import M = ExpressionMachine
  import opened Files
  import opened GenerationSpec
  import opened DataSpec
  import A = AddressModes
  import I = Instructions
  import L = LineSpec
  import R = LineRefinement
  import H = RasFormat
  import X = IntelHex
  import B = BinaryImage
  import Q = Ftohex
  import D = DefaultFormat
  import opened PassSpec
  import opened Symbols
  import opened PassFacts

  // ----- the emission of a statement -----

  /** The operands of a statement, after its label. */
  function Operands(s: Asm, t: Statement): seq<Item> {
    var es := match t.op
      case Dc(es, _) => es
      case Ds(count, filler, _) => Amounts(count, filler)
      case Mnem(i) => Elements(i.args)
      case _ => [];
    var r := Evaluate(ProgramLabel(s, t.name), es);
    if r.Ok? then r.value.1 else []
  }

  function DsWidth(w: Width): Width { if w == Swapped then ByteWidth else w }

  function InsnCode(c: Setup, o: Out, i: Insn, args: seq<Arg>): Result<I.Code> {
    if args == [] || !Selected(i, args).Selected? then Corrupt
    else I.Encode(i.mne, Selected(i, args).mode, args, I.Site(Pc(o).value, o.unknown, c.msb), [])
  }

  /** The bytes a statement stands for. */
  function BytesOf(c: Setup, s: Asm, t: Statement): seq<byte> {
    var items := Operands(s, t);
    match t.op
    case Dc(_, w) => DcBytes(items, w, c.msb)
    case Ds(_, _, w) =>
      if items == [] || ArgOf(items[0]).value < 0 then []
      else Pattern(if |items| < 2 then 0 else ArgOf(items[1]).value, DsWidth(w), c.msb, ArgOf(items[0]).value)
    case Mnem(i) =>
      var code := InsnCode(c, s.out, i, Args(items));
      if code.Ok? then code.value.bytes else []
    case _ => []
  }

  /** Where they go; DS of nothing does not call generate. */
  function EmissionOf(c: Setup, s: Asm, t: Statement): seq<Emission> {
    if (t.op.Dc? || t.op.Ds? || t.op.Mnem?) && !(t.op.Ds? && BytesOf(c, s, t) == []) then
      [Emission(s.out.org, s.out.unknown, false, BytesOf(c, s, t))]
    else []
  }

  /** Every operand known; an instruction in a mode it has, and a branch in range. */
  ghost predicate Resolved(c: Setup, s: Asm, t: Statement) {
    t.op.Dc? || t.op.Ds? || t.op.Mnem? ==>
      && Unknowns(Operands(s, t)) == 0
      && (t.op.Mnem? ==>
           var code := InsnCode(c, s.out, t.op.insn, Args(Operands(s, t)));
           code.Ok? && !code.value.outOfRange && Selected(t.op.insn, Args(Operands(s, t))).mode in t.op.insn.mne.okmask)
  }

  lemma OneEmission(c: Setup, o: Out, bytes: seq<byte>)
    requires !o.unknown && EmitBytes(c, o, bytes).Ok?
    ensures EmitAll(c.format, c.fill, o.sink, [Emission(o.org, o.unknown, false, bytes)])
         == Ok(EmitBytes(c, o, bytes).value.sink)
  {
    var es := [Emission(o.org, o.unknown, false, bytes)];
    assert Emit(c.format, c.fill, o.sink, es[0]) == Ok(EmitBytes(c, o, bytes).value.sink);
    assert es[1..] == [];
    assert EmitAll(c.format, c.fill, EmitBytes(c, o, bytes).value.sink, []) == Ok(EmitBytes(c, o, bytes).value.sink);
  }

  /** The output was untouched by the label and the operands. */
  lemma OutBefore(s: Asm, name: string, es: seq<Element>)
    requires Evaluate(ProgramLabel(s, name), es).Ok? && Redo(ProgramLabel(s, name)) == 0
    ensures Evaluate(ProgramLabel(s, name), es).value.0.out == s.out
  {}

  lemma DcOutput(c: Setup, s: Asm, t: Statement)
    requires t.op.Dc? && !s.out.unknown && Execute(c, s, t).Ok? && Redo(Execute(c, s, t).value) == 0
    ensures Resolved(c, s, t)
    ensures EmitAll(c.format, c.fill, s.out.sink, EmissionOf(c, s, t)) == Ok(Execute(c, s, t).value.out.sink)
  {
    var Dc(es, w) := t.op;
    var (s1, items) := Evaluate(ProgramLabel(s, t.name), es).value;
    DcGrows(c, s1.out, items, w);
    OutBefore(s, t.name, es);
    ItemsAre(Settings(c, s.out), c.msb, At(s.out), [], items, w);
    assert [] + DcBytes(items, w, c.msb) == DcBytes(items, w, c.msb);
    OneEmission(c, s.out, DcBytes(items, w, c.msb));
  }

  lemma {:induction false} ItemsCount(table: M.Table, es: seq<Element>)
    ensures EvalItems(table, es).Ok? ==> |EvalItems(table, es).value| == |es|
  {
    if es != [] {
      ItemsCount(table, es[1..]);
    }
  }

  /** DS, from its evaluated operands. */
  lemma DsItems(c: Setup, o: Out, items: seq<Item>, w: Width)
    requires !o.unknown && 0 < |items| <= 2 && (forall i <- items :: i.Num?)
    requires FillDs(c, o, items, w).Ok? && FillDs(c, o, items, w).value.sink.redo == 0
    ensures Unknowns(items) == 0 && 0 <= items[0].value
    ensures
      var fill := if |items| < 2 then 0 else items[1].value;
      var bytes := Pattern(fill, w, c.msb, items[0].value);
      FillDs(c, o, items, w) == if bytes == [] then Ok(o) else EmitBytes(c, o, bytes)
  {
    var f := if |items| < 2 then Arg(0, false) else ArgOf(items[1]);
    assert items[0] in items && (1 < |items| ==> items[1] in items);
    var o1 := BumpOut(o, Flag(f.unknown));
    FillGrows(Settings(c, o1), c.msb, At(o1), f.value, items[0].value, w);
    assert !f.unknown && BumpOut(o, 0) == o;
    if 0 < items[0].value {
      FillIsPattern(Settings(c, o), c.msb, At(o), f.value, items[0].value, w);
    }
    if |items| == 2 {
      assert items[1..] == [items[1]] && [items[1]][1..] == [];
      assert Unknowns([items[1]]) == 0;
    } else {
      assert items[1..] == [];
    }
  }

  lemma {:induction false} NumbersOnly(table: M.Table, es: seq<Element>)
    requires forall e <- es :: e.Expr?
    ensures EvalItems(table, es).Ok? ==> forall i <- EvalItems(table, es).value :: i.Num?
  {
    if es != [] {
      assert es[0] in es;
      NumbersOnly(table, es[1..]);
    }
  }

  lemma DsOperands(s: Asm, es: seq<Element>)
    requires 0 < |es| <= 2 && forall e <- es :: e.Expr?
    ensures Evaluate(s, es).Ok? ==>
      0 < |Evaluate(s, es).value.1| <= 2 && forall i <- Evaluate(s, es).value.1 :: i.Num?
  {
    var us := LocalizeAll(s.at, es);
    assert forall i | 0 <= i < |es| :: es[i] in es;
    ItemsCount(Env(s.syms, s.out), us);
    NumbersOnly(Env(s.syms, s.out), us);
  }

  lemma DsOutput(c: Setup, s: Asm, t: Statement)
    requires t.op.Ds? && !s.out.unknown && Execute(c, s, t).Ok? && Redo(Execute(c, s, t).value) == 0
    ensures Resolved(c, s, t)
    ensures EmitAll(c.format, c.fill, s.out.sink, EmissionOf(c, s, t)) == Ok(Execute(c, s, t).value.out.sink)
  {
    var Ds(count, filler, w) := t.op;
    var es := Amounts(count, filler);
    var (s1, items) := Evaluate(ProgramLabel(s, t.name), es).value;
    DsOperands(ProgramLabel(s, t.name), es);
    DsGrows(c, s1.out, items, DsWidth(w));
    OutBefore(s, t.name, es);
    DsItems(c, s.out, items, DsWidth(w));
    var bytes := BytesOf(c, s, t);
    assert items[0] in items && (1 < |items| ==> items[1] in items);
    if bytes != [] {
      OneEmission(c, s.out, bytes);
    }
  }

  /** An instruction, from its evaluated operands. */
  lemma InsnBytes(c: Setup, o: Out, i: Insn, items: seq<Item>)
    requires !o.unknown
    requires
      var r := EmitInsn(c, BumpOut(o, Unknowns(items)), i, Args(items)); r.Ok? && r.value.sink.redo == 0
    ensures
      var code := InsnCode(c, o, i, Args(items));
      && Unknowns(items) == 0 && code.Ok? && !code.value.outOfRange
      && EmitInsn(c, BumpOut(o, Unknowns(items)), i, Args(items)) == EmitBytes(c, o, code.value.bytes)
  {
    InsnGrows(c, BumpOut(o, Unknowns(items)), i, Args(items));
    assert BumpOut(o, 0) == o;
    var code := InsnCode(c, o, i, Args(items));
    if code.Ok? {
      BytesGrow(c, BumpOut(o, Flag(code.value.outOfRange)), code.value.bytes);
    }
  }

  lemma MnemonicOutput(c: Setup, s: Asm, t: Statement)
    requires t.op.Mnem? && !s.out.unknown && Execute(c, s, t).Ok? && Redo(Execute(c, s, t).value) == 0
    ensures Resolved(c, s, t)
    ensures EmitAll(c.format, c.fill, s.out.sink, EmissionOf(c, s, t)) == Ok(Execute(c, s, t).value.out.sink)
  {
    var i := t.op.insn;
    var (s1, items) := Evaluate(ProgramLabel(s, t.name), Elements(i.args)).value;
    InsnGrows(c, BumpOut(s1.out, Unknowns(items)), i, Args(items));
    OutBefore(s, t.name, Elements(i.args));
    InsnBytes(c, s.out, i, items);
    OneEmission(c, s.out, BytesOf(c, s, t));
    SupportedMode(i, Args(items));
  }

  lemma SupportedMode(i: Insn, args: seq<Arg>)
    requires args != []
    ensures Selected(i, args).Selected? ==> Selected(i, args).mode in i.mne.okmask
  {
    A.SelectionSupported(SelectionRequest(i, args));
  }

  lemma StatementOutput(c: Setup, s: Asm, t: Statement)
    requires !s.out.unknown && Execute(c, s, t).Ok? && Redo(Execute(c, s, t).value) == 0
    requires t.op.Dc? || t.op.Ds? || t.op.Mnem?
    ensures Resolved(c, s, t)
    ensures EmitAll(c.format, c.fill, s.out.sink, EmissionOf(c, s, t)) == Ok(Execute(c, s, t).value.out.sink)
  {
    match t.op
    case Dc(_, _) => DcOutput(c, s, t);
    case Ds(_, _, _) => DsOutput(c, s, t);
    case Mnem(_) => MnemonicOutput(c, s, t);
  }

  /** Every other statement leaves the file alone. */
  lemma OtherOutput(c: Setup, s: Asm, t: Statement)
    requires !(t.op.Dc? || t.op.Ds? || t.op.Mnem?) && Execute(c, s, t).Ok? && Redo(Execute(c, s, t).value) == 0
    ensures Execute(c, s, t).value.out.sink == s.out.sink
  {
    match t.op
    case Org(e) => OrgOutput(s, t.name, e);
    case Equ(e) => EquOutput(s, t.name, e);
    case _ =>
  }

  lemma OrgOutput(s: Asm, name: string, t: Tree)
    requires VOrg(s, name, t).Ok? && Redo(VOrg(s, name, t).value) == 0
    ensures VOrg(s, name, t).value.out.sink == s.out.sink
  {}

  lemma EquOutput(s: Asm, name: string, t: Tree)
    requires VEqu(s, name, t).Ok? && Redo(VEqu(s, name, t).value) == 0
    ensures VEqu(s, name, t).value.out.sink == s.out.sink
  {
    if name == "." || name == "*" {
      OrgOutput(EvalOne(s, t).value.0, ".", t);
    }
  }

  // ----- lines -----

  /** What the line about to be read emits. */
  function LineEmits(c: Setup, line: L.Line<Statement>, f: Reader): seq<Emission>
    requires f.ifs != []
  {
    if line.Plain? && L.Active(f.ifs) && f.s.Ok? then EmissionOf(c, f.s.value, line.t) else []
  }

  ghost predicate LineResolved(c: Setup, line: L.Line<Statement>, f: Reader)
    requires f.ifs != []
  {
    line.Plain? && L.Active(f.ifs) && f.s.Ok? ==> Resolved(c, f.s.value, line.t)
  }

  /** The file after is the file before with these emissions, if the pass stays quiet. */
  ghost predicate Writes(c: Setup, s: State, s': State, es: seq<Emission>) {
    s'.Ok? && Redo(s'.value) == 0 ==> s.Ok? && EmitAll(c.format, c.fill, s.value.out.sink, es) == Ok(s'.value.out.sink)
  }

  lemma DefineOut(s: State, t: Statement)
    ensures var s' := OnDefine(s, t); s'.Ok? && Redo(s'.value) == 0 ==> s.Ok? && s'.value.out == s.value.out
  {}

  lemma EvalOut(s: State, t: Statement)
    ensures var s' := OnEval(s, t).0; s'.Ok? ==> s.Ok? && s'.value.out == s.value.out
  {}

  lemma SameOutWrites(c: Setup, s: State, s': State)
    requires s'.Ok? && Redo(s'.value) == 0 ==> s.Ok? && s'.value.out == s.value.out
    ensures Writes(c, s, s', [])
  {}

  lemma DefineWrites(c: Setup, s: State, t: Statement)
    ensures Writes(c, s, OnDefine(s, t), [])
  {
    DefineOut(s, t);
    SameOutWrites(c, s, OnDefine(s, t));
  }

  lemma DecideWrites(c: Setup, s: State, t: Statement)
    ensures Writes(c, s, Decide(s, t).0, [])
  {
    DefineOut(s, t);
    EvalOut(OnDefine(s, t), t);
    SameOutWrites(c, s, Decide(s, t).0);
  }

  /** Statements that write nothing need no origin. */
  predicate Silent(t: Statement) { !(t.op.Dc? || t.op.Ds? || t.op.Mnem?) }

  lemma PlainWrites(c: Setup, s: State, t: Statement)
    requires Known(s) || Silent(t)
    ensures Writes(c, s, OnPlain(c, s, t), if s.Ok? then EmissionOf(c, s.value, t) else [])
    ensures OnPlain(c, s, t).Ok? && Redo(OnPlain(c, s, t).value) == 0 ==> s.Ok? && Resolved(c, s.value, t)
  {
    if s.Ok? && OnPlain(c, s, t).Ok? && Redo(OnPlain(c, s, t).value) == 0 {
      if Silent(t) {
        OtherOutput(c, s.value, t);
      } else {
        StatementOutput(c, s.value, t);
      }
    }
  }

  lemma HandleWrites(c: Setup, line: L.Line<Statement>, f: Reader)
    requires f.ifs != [] && (Known(f.s) || Silent(line.t))
    ensures
      var s' := L.Handle(Handlers(c), line, f).s;
      Writes(c, f.s, s', LineEmits(c, line, f)) && (s'.Ok? && Redo(s'.value) == 0 ==> LineResolved(c, line, f))
  {
    var t := line.t;
    match line
    case Plain(_) =>
      if L.Active(f.ifs) {
        PlainWrites(c, f.s, t);
        assert Handlers(c).plain(f.s, t) == OnPlain(c, f.s, t);
      }
    case If(_) => DecideWrites(c, f.s, t); assert Handlers(c).eval(Handlers(c).define(f.s, t), t) == Decide(f.s, t);
    case Repeat(_) => DecideWrites(c, f.s, t); assert Handlers(c).eval(Handlers(c).define(f.s, t), t) == Decide(f.s, t);
    case Else(_) => DefineWrites(c, f.s, t);
    case Endif(_) => DefineWrites(c, f.s, t);
    case Repend(_) => DefineWrites(c, f.s, t);
  }

  // ----- passes -----

  /** What is found at each of n states, one after the other. */
  function Collected<X, Y>(next: X -> X, each: X -> seq<Y>, x: X, n: nat): seq<Y>
    decreases n
  {
    if n == 0 then [] else each(x) + Collected(next, each, next(x), n - 1)
  }

  function EmittedAt(c: Setup, lines: seq<L.Line<Statement>>): Reader -> seq<Emission> {
    (f: Reader) => if f.ifs != [] && f.pc < |lines| then LineEmits(c, lines[f.pc], f.(pc := f.pc + 1)) else []
  }

  /** The emissions of the next n lines. */
  function Trace(c: Setup, lines: seq<L.Line<Statement>>, f: Reader, n: nat): seq<Emission> {
    Collected(L.Stepper(Handlers(c), lines), EmittedAt(c, lines), f, n)
  }

  ghost predicate ResolvedAt(c: Setup, lines: seq<L.Line<Statement>>, f: Reader) {
    f.ifs != [] && f.pc < |lines| ==> LineResolved(c, lines[f.pc], f.(pc := f.pc + 1))
  }

  /** Every statement that the next n lines execute is resolved. */
  ghost predicate AllResolved(c: Setup, lines: seq<L.Line<Statement>>, f: Reader, n: nat) {
    forall k | 0 <= k < n :: ResolvedAt(c, lines, L.Run(Handlers(c), lines, f, k))
  }

  lemma {:induction false} EmitAppend(format: Format, fill: byte, s: Sink, a: seq<Emission>, b: seq<Emission>)
    decreases |a|
    ensures EmitAll(format, fill, s, a + b) == match EmitAll(format, fill, s, a)
      case Ok(s') => EmitAll(format, fill, s', b)
      case e => e
  {
    if a == [] {
      assert a + b == b;
    } else {
      assert (a + b)[0] == a[0] && (a + b)[1..] == a[1..] + b;
      if Emit(format, fill, s, a[0]).Ok? {
        EmitAppend(format, fill, Emit(format, fill, s, a[0]).value, a[1..], b);
      }
    }
  }

  lemma WritesOn(c: Setup, s0: State, s1: State, es: seq<Emission>, rest: seq<Emission>, s: Asm)
    requires Writes(c, s0, s1, es) && s1.Ok? && Redo(s1.value) == 0
    requires EmitAll(c.format, c.fill, s1.value.out.sink, rest) == Ok(s.out.sink)
    ensures s0.Ok? && EmitAll(c.format, c.fill, s0.value.out.sink, es + rest) == Ok(s.out.sink)
  {
    EmitAppend(c.format, c.fill, s0.value.out.sink, es, rest);
  }

  lemma CollectedUnfolds<X, Y>(next: X -> X, each: X -> seq<Y>, x: X, n: nat)
    requires 0 < n
    ensures Collected(next, each, x, n) == each(x) + Collected(next, each, next(x), n - 1)
  {}

  lemma TraceUnfolds(c: Setup, lines: seq<L.Line<Statement>>, f: Reader, f1: Reader, n: nat)
    requires 0 < n && f1 == L.Next(Handlers(c), lines, f)
    ensures Trace(c, lines, f, n) == EmittedAt(c, lines)(f) + Trace(c, lines, f1, n - 1)
  {
    R.StepperIsNext(Handlers(c), lines, f);
    CollectedUnfolds(L.Stepper(Handlers(c), lines), EmittedAt(c, lines), f, n);
  }

  lemma EmittedIs(c: Setup, lines: seq<L.Line<Statement>>, f: Reader)
    ensures EmittedAt(c, lines)(f) ==
      if f.ifs != [] && f.pc < |lines| then LineEmits(c, lines[f.pc], f.(pc := f.pc + 1)) else []
  {}

  predicate AllKnown(es: seq<Emission>) { forall e <- es :: !e.unknown && !e.bss }

  /** What the next line sends to generate, and that it was resolved. */
  lemma NextWrites(c: Setup, lines: seq<L.Line<Statement>>, f: Reader)
    requires Known(f.s) || (f.pc < |lines| && Silent(lines[f.pc].t))
    ensures AllKnown(EmittedAt(c, lines)(f))
    ensures
      var s' := L.Next(Handlers(c), lines, f).s;
      Writes(c, f.s, s', EmittedAt(c, lines)(f)) && (s'.Ok? && Redo(s'.value) == 0 ==> ResolvedAt(c, lines, f))
  {
    EmittedIs(c, lines, f);
    R.NextHandles(Handlers(c), lines, f);
    if f.ifs != [] && f.pc < |lines| {
      HandleWrites(c, lines[f.pc], f.(pc := f.pc + 1));
    }
  }

  /** The line at f is read into f1 and the pass stays quiet: it wrote what it emits, at a
      known origin and with every operand resolved. */
  ghost predicate LineTold(c: Setup, lines: seq<L.Line<Statement>>, f: Reader, f1: Reader) {
    && f1.s.Ok? && Redo(f1.s.value) == 0 && Writes(c, f.s, f1.s, EmittedAt(c, lines)(f))
    && AllKnown(EmittedAt(c, lines)(f)) && ResolvedAt(c, lines, f)
  }

  ghost function TellingAt(c: Setup, lines: seq<L.Line<Statement>>): Account {
    (f: Reader, f1: Reader) => LineTold(c, lines, f, f1)
  }

  /** So are the next n lines. */
  ghost predicate Told(c: Setup, lines: seq<L.Line<Statement>>, f: Reader, n: nat) {
    Along(L.Stepper(Handlers(c), lines), TellingAt(c, lines), f, n)
  }

  lemma ToldUnfolds(c: Setup, lines: seq<L.Line<Statement>>, f: Reader, f1: Reader, n: nat)
    requires 0 < n && f1 == L.Next(Handlers(c), lines, f)
    ensures Told(c, lines, f, n) <==> LineTold(c, lines, f, f1) && Told(c, lines, f1, n - 1)
  {
    R.StepperIsNext(Handlers(c), lines, f);
    AlongUnfolds(L.Stepper(Handlers(c), lines), TellingAt(c, lines), f, n);
    assert TellingAt(c, lines)(f, f1) == LineTold(c, lines, f, f1);
  }

  lemma FirstTold(c: Setup, lines: seq<L.Line<Statement>>, f: Reader, n: nat) returns (f1: Reader, es: seq<Emission>)
    requires 0 < n && Told(c, lines, f, n)
    ensures Told(c, lines, f1, n - 1) && L.Run(Handlers(c), lines, f, n) == L.Run(Handlers(c), lines, f1, n - 1)
    ensures forall k | 0 < k :: L.Run(Handlers(c), lines, f, k) == L.Run(Handlers(c), lines, f1, k - 1)
    ensures Trace(c, lines, f, n) == es + Trace(c, lines, f1, n - 1) && AllKnown(es) && Writes(c, f.s, f1.s, es)
    ensures f1.s.Ok? && Redo(f1.s.value) == 0 && ResolvedAt(c, lines, f)
  {
    f1, es := L.Next(Handlers(c), lines, f), EmittedAt(c, lines)(f);
    ToldUnfolds(c, lines, f, f1, n);
    TraceUnfolds(c, lines, f, f1, n);
    forall k | 0 < k ensures L.Run(Handlers(c), lines, f, k) == L.Run(Handlers(c), lines, f1, k - 1) {
      R.RunUnfolds(Handlers(c), lines, f, k);
    }
  }

  lemma {:induction false} ToldFile(c: Setup, lines: seq<L.Line<Statement>>, f: Reader, n: nat, s: Asm)
    requires Told(c, lines, f, n) && L.Run(Handlers(c), lines, f, n).s == Ok(s)
    decreases n
    ensures f.s.Ok? && EmitAll(c.format, c.fill, f.s.value.out.sink, Trace(c, lines, f, n)) == Ok(s.out.sink)
  {
    if n == 0 {
      assert Trace(c, lines, f, 0) == [] && L.Run(Handlers(c), lines, f, 0) == f;
    } else {
      var f1, es := FirstTold(c, lines, f, n);
      ToldFile(c, lines, f1, n - 1, s);
      WritesOn(c, f.s, f1.s, es, Trace(c, lines, f1, n - 1), s);
    }
  }

  lemma {:induction false} ToldKnown(c: Setup, lines: seq<L.Line<Statement>>, f: Reader, n: nat)
    requires Told(c, lines, f, n)
    decreases n
    ensures AllKnown(Trace(c, lines, f, n))
  {
    if n == 0 {
      assert Trace(c, lines, f, 0) == [];
    } else {
      var f1, es := FirstTold(c, lines, f, n);
      ToldKnown(c, lines, f1, n - 1);
    }
  }

  lemma {:induction false} ToldResolved(c: Setup, lines: seq<L.Line<Statement>>, f: Reader, n: nat, k: nat)
    requires Told(c, lines, f, n) && k < n
    decreases n
    ensures ResolvedAt(c, lines, L.Run(Handlers(c), lines, f, k))
  {
    var f1, es := FirstTold(c, lines, f, n);
    if k == 0 {
      assert L.Run(Handlers(c), lines, f, 0) == f;
    } else {
      ToldResolved(c, lines, f1, n - 1, k - 1);
      assert L.Run(Handlers(c), lines, f, k) == L.Run(Handlers(c), lines, f1, k - 1);
    }
  }

  lemma Telling(c: Setup, lines: seq<L.Line<Statement>>, f: Reader, f1: Reader)
    requires Known(f.s) || (f.pc < |lines| && Silent(lines[f.pc].t))
    requires f1 == L.Next(Handlers(c), lines, f) && f1.s.Ok? && Redo(f1.s.value) == 0
    ensures TellingAt(c, lines)(f, f1)
  {
    NextWrites(c, lines, f);
  }

  lemma RedoStays(c: Setup, lines: seq<L.Line<Statement>>, s: Asm, f: Reader, n: nat)
    requires RemainsAt(c, lines, s)(f, n) && Redo(s) == 0
    ensures f.s.Ok? && Redo(f.s.value) == 0
  {
    RunOrderly(c, lines, f, n);
  }

  lemma UntoldStep(c: Setup, lines: seq<L.Line<Statement>>, s: Asm, f: Reader, n: nat)
    requires 0 < n && RemainsAt(c, lines, s)(f, n) && Redo(s) == 0 && s.placed
    ensures
      var f1 := L.Stepper(Handlers(c), lines)(f);
      TellingAt(c, lines)(f, f1) && RemainsAt(c, lines, s)(f1, n - 1)
  {
    R.StepperIsNext(Handlers(c), lines, f);
    RemainsAtStep(c, lines, s, f, n);
    RedoStays(c, lines, s, L.Stepper(Handlers(c), lines)(f), n - 1);
    Telling(c, lines, f, L.Stepper(Handlers(c), lines)(f));
  }

  /** Such a run in terms of what a step does, what it is told to have done and what is still to
      be told. */
  lemma UntoldRun(c: Setup, lines: seq<L.Line<Statement>>, s: Asm, f: Reader, n: nat)
    returns (next: Reader -> Reader, ok: Account, good: Prospect)
    requires Remains(c, lines, s, f, n) && Redo(s) == 0 && s.placed
    ensures good(f, n) && forall g: Reader, k: nat :: good(g, k) && 0 < k ==> ok(g, next(g)) && good(next(g), k - 1)
    ensures Along(next, ok, f, n) ==> Told(c, lines, f, n)
  {
    next, ok, good := L.Stepper(Handlers(c), lines), TellingAt(c, lines), RemainsAt(c, lines, s);
    forall g: Reader, k: nat | good(g, k) && 0 < k ensures ok(g, next(g)) && good(next(g), k - 1) {
      UntoldStep(c, lines, s, g, k);
    }
  }

  /** A program that sets its origin first. */
  lemma PrologueTold(c: Setup, lines: seq<L.Line<Statement>>, f: Reader, n: nat, s: Asm)
    requires PlacedFrom(lines, f.pc) && f.ifs == [L.TOP_LEVEL]
    requires PassEnds(c, lines, f, n, s) && Redo(s) == 0 && s.placed
    ensures Told(c, lines, f, n)
  {
    var next, ok, good := UntoldRun(c, lines, s, f, n);
    AlongGood(next, ok, good, f, n);
  }

  /** The output of a pass: over a program that sets its origin first, a pass that ends with
      Redo = 0 (and known ORGs) has called generate with exactly the bytes of the statements it
      executed, in order, each at its origin. */
  lemma PassFile(c: Setup, lines: seq<L.Line<Statement>>, syms: Syms, org: nat, n: nat, s: Asm)
    requires BeginsWithOrg(lines) && PassEnds(c, lines, Begin(syms, org), n, s) && Redo(s) == 0 && s.placed
    ensures EmitAll(c.format, c.fill, FRESH, Trace(c, lines, Begin(syms, org), n)) == Ok(s.out.sink)
  {
    PrologueTold(c, lines, Begin(syms, org), n, s);
    ToldFile(c, lines, Begin(syms, org), n, s);
  }

  /** And none of them was unresolved. */
  lemma PassResolved(c: Setup, lines: seq<L.Line<Statement>>, syms: Syms, org: nat, n: nat, s: Asm)
    requires BeginsWithOrg(lines) && PassEnds(c, lines, Begin(syms, org), n, s) && Redo(s) == 0 && s.placed
    ensures AllResolved(c, lines, Begin(syms, org), n)
  {
    PrologueTold(c, lines, Begin(syms, org), n, s);
    forall k | 0 <= k < n ensures ResolvedAt(c, lines, L.Run(Handlers(c), lines, Begin(syms, org), k)) {
      ToldResolved(c, lines, Begin(syms, org), n, k);
    }
  }

  /** Nor was the origin unknown at any of them, as it is when the pass begins. */
  lemma TraceKnown(c: Setup, lines: seq<L.Line<Statement>>, syms: Syms, org: nat, n: nat, s: Asm)
    requires BeginsWithOrg(lines) && PassEnds(c, lines, Begin(syms, org), n, s) && Redo(s) == 0 && s.placed
    ensures AllKnown(Trace(c, lines, Begin(syms, org), n))
  {
    PrologueTold(c, lines, Begin(syms, org), n, s);
    ToldKnown(c, lines, Begin(syms, org), n);
  }

  /** The output file when closegenerate has been called. */
  function FileOf(c: Setup, s: Asm): seq<byte> { GenerationSpec.Close(c.format, s.out.sink).data }

  /** From source to hex and back: the RAS file of the last pass reads back as every byte of
      every executed statement at its address, and its Intel HEX text loads as the same bytes
      at their addresses modulo 65536. */
  lemma SourceToHexAndBack(c: Setup, lines: seq<L.Line<Statement>>, syms: Syms, org: nat, n: nat, s: Asm)
    requires BeginsWithOrg(lines) && PassEnds(c, lines, Begin(syms, org), n, s) && Redo(s) == 0 && s.placed
    requires c.format == Ras && Trace(c, lines, Begin(syms, org), n) != []
    requires forall h <- H.HunksOf([], Trace(c, lines, Begin(syms, org), n)) :: H.Fits(h)
    ensures
      var es := Trace(c, lines, Begin(syms, org), n);
      var hunks := H.Parse(FileOf(c, s));
      && hunks.Some? && H.PlacedHunks(hunks.value) == H.PlacedRun(es)
      && X.Load(X.HunkLines(hunks.value) + X.END_RECORD) == Some(X.Wrapped(H.PlacedRun(es)))
  {
    var es := Trace(c, lines, Begin(syms, org), n);
    PassFile(c, lines, syms, org, n, s);
    TraceKnown(c, lines, syms, org, n, s);
    assert es[0] in es;
    H.RasRoundTrip(c.fill, es);
    X.RunToHexAndBack(c.fill, es);
  }

  lemma {:induction false} FirstOfKnown(es: seq<Emission>)
    requires AllKnown(es) && es != []
    ensures H.StartsKnown(es) && B.FirstOrg(es) == Some(es[0].org)
  {
    assert es[0] in es;
  }

  /** The same in the default format, which is the one used unless another is asked for: the file
      of the last pass begins with the origin of its first statement that wrote, and its Intel HEX
      text loads as every byte at its address modulo 65536, with the fill between them. */
  lemma DefaultToHexAndBack(c: Setup, lines: seq<L.Line<Statement>>, syms: Syms, org: nat, n: nat, s: Asm)
    requires BeginsWithOrg(lines) && PassEnds(c, lines, Begin(syms, org), n, s) && Redo(s) == 0 && s.placed
    requires c.format == Default && Trace(c, lines, Begin(syms, org), n) != []
    requires Trace(c, lines, Begin(syms, org), n)[0].org < 0x1_0000
    ensures
      var es := Trace(c, lines, Begin(syms, org), n);
      var file := FileOf(c, s);
      var loaded := X.Load(Q.PlainText(1, file));
      && 2 <= |file| && Word(file[0], file[1]) == es[0].org
      && loaded.Some? && D.Holds(loaded.value, es[0].org, H.PlacedRun(es), c.fill)
  {
    var es := Trace(c, lines, Begin(syms, org), n);
    PassFile(c, lines, syms, org, n, s);
    TraceKnown(c, lines, syms, org, n, s);
    FirstOfKnown(es);
    D.DefaultReadsBack(c.fill, es);
    D.DefaultToHexAndBack(c.fill, es);
  }
}
