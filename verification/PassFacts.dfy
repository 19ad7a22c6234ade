/** What holds over any pass: an operand depends only on the symbols in it, Redo never goes
    down, and a known origin stays known. */
module PassFacts {
  import opened Results
  import opened Operators
  import opened Expressions
  import M = ExpressionMachine
  import opened ExpressionProofs
  import opened Files
  import opened DataSpec
  import opened LocalScopes
  import L = LineSpec
  import R = LineRefinement
  import opened PassSpec
  import opened Symbols

  // ----- evaluation looks only at the names in it -----

  function Look(table: M.Table, x: string): M.Def { if x in table then table[x] else M.Value(UNDEFINED) }

  ghost predicate Plain(table: M.Table) { forall x <- table :: table[x].Value? }

  ghost predicate Agree(a: M.Table, b: M.Table, names: set<string>) {
    forall x <- names :: Look(a, x) == Look(b, x)
  }

  lemma {:induction false} TreeAgrees(a: M.Table, b: M.Table, t: Tree)
    requires Plain(a) && Plain(b) && Agree(a, b, Refs(t))
    ensures EvalTree(a, M.MAX_RECURSION, t) == EvalTree(b, M.MAX_RECURSION, t)
  {
    match t
    case Leaf(Number(_)) =>
    case Leaf(Ref(x)) =>
      assert Look(a, x) == Look(b, x);
    case Unary(_, e) => TreeAgrees(a, b, e);
    case Group(e) => TreeAgrees(a, b, e);
    case Binary(_, l, r) =>
      TreeAgrees(a, b, l);
      TreeAgrees(a, b, r);
  }

  lemma {:induction false} ItemsAgree(a: M.Table, b: M.Table, es: seq<Element>)
    requires Plain(a) && Plain(b) && Agree(a, b, NamesOf(es))
    ensures EvalItems(a, es) == EvalItems(b, es)
  {
    if es != [] {
      ItemsAgree(a, b, es[1..]);
      if es[0].Expr? {
        TreeAgrees(a, b, es[0].t);
      }
    }
  }

  type Reader = L.Flat<State>

  type Lines = seq<L.Line<Statement>>

  /** The operand of an IF or REPEAT line, after its label. */
  function Decide(s: State, t: Statement): (State, Arg) { OnEval(OnDefine(s, t), t) }

  ghost predicate Known(s: State) { s.Ok? ==> !s.value.out.unknown }

  // ----- emitting -----

  /** Redo does not go down, and the origin stays as known as it was. */
  predicate Grown(o: Out, r: Result<Out>) {
    r.Ok? ==> o.sink.redo <= r.value.sink.redo && r.value.unknown == o.unknown
  }

  lemma BytesGrow(c: Setup, o: Out, bytes: seq<byte>)
    ensures Grown(o, EmitBytes(c, o, bytes))
  {}

  lemma DcGrows(c: Setup, o: Out, items: seq<Item>, w: Width)
    ensures Grown(o, EmitDc(c, o, items, w))
    ensures EmitDc(c, o, items, w).Ok? ==> o.sink.redo + Unknowns(items) <= EmitDc(c, o, items, w).value.sink.redo
  {
    ItemsGrow(Settings(c, o), c.msb, At(o), [], items, w);
  }

  lemma DsGrows(c: Setup, o: Out, items: seq<Item>, w: Width)
    ensures Grown(o, FillDs(c, o, items, w))
  {
    if items != [] {
      var n, f := ArgOf(items[0]), if |items| < 2 then Arg(0, false) else ArgOf(items[1]);
      var o1 := BumpOut(o, Flag(f.unknown));
      FillGrows(Settings(c, o1), c.msb, At(o1), f.value, n.value, w);
    }
  }

  lemma InsnGrows(c: Setup, o: Out, i: Insn, args: seq<Arg>)
    ensures Grown(o, EmitInsn(c, o, i, args))
  {}

  // ----- the origin stays known -----

  /** Redo never goes down; a pass whose ORGs were known later was so before, and its origin
      stays known. */
  ghost predicate Orderly(s: State, s': State) {
    s'.Ok? ==>
      && s.Ok? && Redo(s.value) <= Redo(s'.value)
      && (s'.value.placed ==> s.value.placed && (!s.value.out.unknown ==> !s'.value.out.unknown))
  }

  lemma EvaluateOrderly(s: Asm, name: string, es: seq<Element>)
    ensures var r := Evaluate(ProgramLabel(s, name), es); r.Ok? ==> Orderly(Ok(s), Ok(r.value.0))
  {}

  lemma EmitOrderly(s: Asm, s1: Asm, o: Out, r: Result<Out>)
    requires Orderly(Ok(s), Ok(s1)) && Grown(o, r) && o.unknown == s1.out.unknown && Redo(s1) <= o.sink.redo
    ensures Orderly(Ok(s), WithOut(s1, r))
  {}

  lemma DcOrderly(c: Setup, s: Asm, name: string, es: seq<Element>, w: Width)
    ensures Orderly(Ok(s), VDc(c, s, name, es, w))
  {
    var r := Evaluate(ProgramLabel(s, name), es);
    if r.Ok? {
      var (s1, items) := r.value;
      EvaluateOrderly(s, name, es);
      DcGrows(c, s1.out, items, w);
      EmitOrderly(s, s1, s1.out, EmitDc(c, s1.out, items, w));
    }
  }

  lemma DsOrderly(c: Setup, s: Asm, name: string, count: Tree, filler: Option<Tree>, w: Width)
    ensures Orderly(Ok(s), VDs(c, s, name, count, filler, w))
  {
    var es := Amounts(count, filler);
    var r, w1 := Evaluate(ProgramLabel(s, name), es), if w == Swapped then ByteWidth else w;
    if r.Ok? {
      var (s1, items) := r.value;
      EvaluateOrderly(s, name, es);
      DsGrows(c, s1.out, items, w1);
      EmitOrderly(s, s1, s1.out, FillDs(c, s1.out, items, w1));
    }
  }

  lemma MnemonicOrderly(c: Setup, s: Asm, name: string, i: Insn)
    ensures Orderly(Ok(s), VMnemonic(c, s, name, i))
  {
    var r := Evaluate(ProgramLabel(s, name), Elements(i.args));
    if r.Ok? {
      var (s1, items) := r.value;
      var o := BumpOut(s1.out, Unknowns(items));
      EvaluateOrderly(s, name, Elements(i.args));
      InsnGrows(c, o, i, Args(items));
      EmitOrderly(s, s1, o, EmitInsn(c, o, i, Args(items)));
    }
  }

  lemma OrgOrderly(s: Asm, name: string, t: Tree)
    ensures Orderly(Ok(s), VOrg(s, name, t))
  {}

  lemma EquOrderly(s: Asm, name: string, t: Tree)
    ensures Orderly(Ok(s), VEqu(s, name, t))
  {
    if EvalOne(s, t).Ok? {
      OrgOrderly(EvalOne(s, t).value.0, ".", t);
    }
  }

  lemma ExecuteOrderly(c: Setup, s: Asm, t: Statement)
    ensures Orderly(Ok(s), Execute(c, s, t))
  {
    match t.op
    case NoOp =>
    case Condition(_) =>
    case Subr =>
    case Org(e) => OrgOrderly(s, t.name, e);
    case Equ(e) => EquOrderly(s, t.name, e);
    case Dc(es, w) => DcOrderly(c, s, t.name, es, w);
    case Ds(count, filler, w) => DsOrderly(c, s, t.name, count, filler, w);
    case Mnem(i) => MnemonicOrderly(c, s, t.name, i);
  }

  lemma DefineOrderly(s: State, t: Statement)
    ensures Orderly(s, OnDefine(s, t))
  {}

  lemma DecideOrderly(s: State, t: Statement)
    ensures Orderly(s, Decide(s, t).0)
  {}

  lemma HandleOrderly(c: Setup, line: L.Line<Statement>, f: Reader)
    requires f.ifs != []
    ensures Orderly(f.s, L.Handle(Handlers(c), line, f).s)
  {
    DefineOrderly(f.s, line.t);
    match line
    case Plain(t) =>
      if f.s.Ok? {
        ExecuteOrderly(c, f.s.value, t);
      }
      assert Handlers(c).plain(f.s, t) == OnPlain(c, f.s, t);
    case If(t) => DecideOrderly(f.s, t); assert Handlers(c).eval(Handlers(c).define(f.s, t), t) == Decide(f.s, t);
    case Repeat(t) => DecideOrderly(f.s, t); assert Handlers(c).eval(Handlers(c).define(f.s, t), t) == Decide(f.s, t);
    case Else(_) =>
    case Endif(_) =>
    case Repend(_) =>
  }

  lemma ReadNothing(syms: Syms)
    ensures Read(syms, {}) == syms
  {
    var none: set<string> := {};
    assert syms.Keys + (none - {"."}) == syms.Keys;
  }

  // ----- runs -----

  lemma NextOrderly(c: Setup, lines: seq<L.Line<Statement>>, f: Reader)
    ensures Orderly(f.s, L.Next(Handlers(c), lines, f).s)
  {
    R.NextHandles(Handlers(c), lines, f);
    if f.ifs != [] && f.pc < |lines| {
      HandleOrderly(c, lines[f.pc], f.(pc := f.pc + 1));
    }
  }

  lemma OneLine(c: Setup, lines: seq<L.Line<Statement>>, f: Reader, n: nat) returns (f1: Reader)
    requires 0 < n
    ensures L.Run(Handlers(c), lines, f, n) == L.Run(Handlers(c), lines, f1, n - 1) && Orderly(f.s, f1.s)
  {
    f1 := L.Next(Handlers(c), lines, f);
    R.RunUnfolds(Handlers(c), lines, f, n);
    NextOrderly(c, lines, f);
  }

  lemma {:induction false} RunOrderly(c: Setup, lines: seq<L.Line<Statement>>, f: Reader, n: nat)
    decreases n
    ensures Orderly(f.s, L.Run(Handlers(c), lines, f, n).s)
  {
    if n > 0 {
      var f1 := OneLine(c, lines, f, n);
      RunOrderly(c, lines, f1, n - 1);
    }
  }

  /** What is claimed of a step, and of a state with so many lines to go. */
  type Account = (Reader, Reader) -> bool
  type Prospect = (Reader, nat) -> bool
  type Mark = Reader -> bool

  /** A property of each step of n. */
  ghost predicate Along(next: Reader -> Reader, ok: Account, f: Reader, n: nat)
    decreases n
  {
    n == 0 || (ok(f, next(f)) && Along(next, ok, next(f), n - 1))
  }

  lemma AlongUnfolds(next: Reader -> Reader, ok: Account, f: Reader, n: nat)
    requires 0 < n
    ensures Along(next, ok, f, n) <==> ok(f, next(f)) && Along(next, ok, next(f), n - 1)
  {}

  lemma {:induction false} AlongGood(next: Reader -> Reader, ok: Account, good: Prospect, f: Reader, n: nat)
    requires good(f, n)
    requires forall g: Reader, k: nat :: good(g, k) && 0 < k ==> ok(g, next(g)) && good(next(g), k - 1)
    decreases n
    ensures Along(next, ok, f, n)
  {
    if n > 0 {
      AlongGood(next, ok, good, next(f), n - 1);
    }
  }

  // ----- before the first ORG -----

  /** Lines that may stand before the first ORG: empty ones, and EQUs that do not read the
      origin. */
  predicate Unplaced(t: Statement) {
    || (t.op.NoOp? && t.name == "")
    || (t.op.Equ? && t.name != "." && t.name != "*" && "." !in Refs(t.op.t))
  }

  predicate Placing(t: Statement) { t.op.Org? && "." !in Refs(t.op.t) }

  /** From line i on, an ORG comes before anything that depends on the origin. */
  predicate PlacedFrom(lines: seq<L.Line<Statement>>, i: nat)
    decreases |lines| - i
  {
    i < |lines| && lines[i].Plain? &&
    (Placing(lines[i].t) || (Unplaced(lines[i].t) && PlacedFrom(lines, i + 1)))
  }

  /** The program sets the origin before anything depends on it. */
  predicate BeginsWithOrg(lines: seq<L.Line<Statement>>) { PlacedFrom(lines, 0) }

  function AtOrg(s: Asm, org: nat): Asm { s.(out := s.out.(org := org)) }

  lemma {:induction false} DotUnread(at: Indices, t: Tree)
    requires "." !in Refs(t)
    ensures "." !in Refs(Localize(at, t))
  {
    match t
    case Leaf(Ref(x)) => KeyIsNotDot(at, x);
    case Leaf(Number(_)) =>
    case Unary(_, e) => DotUnread(at, e);
    case Group(e) => DotUnread(at, e);
    case Binary(_, l, r) => DotUnread(at, l); DotUnread(at, r);
  }

  lemma KeyIsNotDot(at: Indices, x: string)
    requires x != "."
    ensures Key(at, x) != "."
  {
    if x != "" && KindOf(Truncated(x)).Dot? {
      assert Key(at, x)[0] == Decimal(at.local)[0];
    }
    if x != "" && KindOf(Truncated(x)).Dollar? {
      assert Key(at, x)[0] == Decimal(at.dollar)[0];
    }
  }

  /** An operand that does not name the origin is the same at every origin. */
  lemma OneElsewhere(s: Asm, org: nat, t: Tree)
    requires "." !in Refs(t)
    ensures EvalOne(AtOrg(s, org), t) == match EvalOne(s, t)
      case Ok(p) => Ok((AtOrg(p.0, org), p.1))
      case Abort => Abort
      case Corrupt => Corrupt
  {
    var us := LocalizeAll(s.at, [Expr(t)]);
    DotUnread(s.at, t);
    assert us[0] == Expr(Localize(s.at, t)) && us[1..] == [] && NamesOf(us[1..]) == {};
    var here, there := Env(s.syms, s.out), Env(s.syms, AtOrg(s, org).out);
    forall x | x in NamesOf(us) ensures Look(here, x) == Look(there, x) {
      assert x != ".";
    }
    ItemsAgree(here, there, us);
  }

  lemma EquElsewhere(s: Asm, org: nat, name: string, e: Tree)
    requires "." !in Refs(e) && name != "." && name != "*"
    ensures VEqu(AtOrg(s, org), name, e) == match VEqu(s, name, e)
      case Ok(s') => Ok(AtOrg(s', org))
      case e => e
  {
    OneElsewhere(s, org, e);
    if EvalOne(s, e).Ok? {
      var (s1, v) := EvalOne(s, e).value;
      EquSymElsewhere(s1, org, Key(s1.at, name), v);
    }
  }

  lemma EquSymElsewhere(s: Asm, org: nat, key: string, v: Arg)
    ensures EquSym(AtOrg(s, org), key, v) == AtOrg(EquSym(s, key, v), org)
  {}

  lemma UnplacedElsewhere(c: Setup, s: Asm, org: nat, t: Statement)
    requires Unplaced(t)
    ensures Execute(c, AtOrg(s, org), t) == match Execute(c, s, t)
      case Ok(s') => Ok(AtOrg(s', org))
      case e => e
  {
    if t.op.Equ? {
      EquElsewhere(s, org, t.name, t.op.t);
    }
  }

  lemma PlacingElsewhere(c: Setup, s: Asm, org: nat, t: Statement)
    requires Placing(t)
    ensures Execute(c, AtOrg(s, org), t) == Execute(c, s, t)
  {
    OneElsewhere(s, org, t.op.t);
    if EvalOne(s, t.op.t).Ok? {
      var (s1, v) := EvalOne(s, t.op.t).value;
      assert AtOrg(s1, org).out.(org := v.value % L.ULONG, unknown := v.unknown)
        == s1.out.(org := v.value % L.ULONG, unknown := v.unknown);
    }
  }

  lemma PlacingKnown(c: Setup, s: Asm, t: Statement)
    requires Placing(t)
    ensures Execute(c, s, t).Ok? && Execute(c, s, t).value.placed ==> Known(Execute(c, s, t))
  {}

  lemma PlainNext(c: Setup, lines: seq<L.Line<Statement>>, f: Reader)
    requires f.ifs == [L.TOP_LEVEL] && f.pc < |lines| && lines[f.pc].Plain?
    ensures L.Next(Handlers(c), lines, f) == f.(pc := f.pc + 1, s := OnPlain(c, f.s, lines[f.pc].t))
  {
    R.NextHandles(Handlers(c), lines, f);
    assert Handlers(c).plain(f.s, lines[f.pc].t) == OnPlain(c, f.s, lines[f.pc].t);
  }

  lemma StillReading(c: Setup, lines: seq<L.Line<Statement>>, f: Reader, n: nat)
    requires f.pc < |lines| <= L.Run(Handlers(c), lines, f, n).pc
    ensures 0 < n
  {
    assert L.Run(Handlers(c), lines, f, 0) == f;
  }

  /** At a known origin, or before the first ORG. */
  ghost predicate Placeable(lines: seq<L.Line<Statement>>, f: Reader) {
    Known(f.s) || (PlacedFrom(lines, f.pc) && f.ifs == [L.TOP_LEVEL])
  }

  /** n lines remain of a pass that ends in s. */
  ghost predicate Remains(c: Setup, lines: seq<L.Line<Statement>>, s: Asm, f: Reader, n: nat) {
    PassEnds(c, lines, f, n, s) && Placeable(lines, f)
  }

  lemma RemainsStep(c: Setup, lines: seq<L.Line<Statement>>, s: Asm, f: Reader, f1: Reader, n: nat)
    requires 0 < n && Remains(c, lines, s, f, n) && s.placed && f1 == L.Next(Handlers(c), lines, f)
    ensures Remains(c, lines, s, f1, n - 1) && f1.s.Ok?
  {
    R.RunUnfolds(Handlers(c), lines, f, n);
    NextOrderly(c, lines, f);
    RunOrderly(c, lines, f1, n - 1);
    if !Known(f.s) {
      PlainNext(c, lines, f);
      if Placing(lines[f.pc].t) {
        PlacingKnown(c, f.s.value, lines[f.pc].t);
      }
    }
  }

  ghost function RemainsAt(c: Setup, lines: Lines, s: Asm): Prospect {
    (f: Reader, n: nat) => Remains(c, lines, s, f, n)
  }

  lemma RemainsAtStep(c: Setup, lines: Lines, s: Asm, f: Reader, n: nat)
    requires 0 < n && RemainsAt(c, lines, s)(f, n) && s.placed
    ensures RemainsAt(c, lines, s)(L.Stepper(Handlers(c), lines)(f), n - 1)
  {
    R.StepperIsNext(Handlers(c), lines, f);
    RemainsStep(c, lines, s, f, L.Next(Handlers(c), lines, f), n);
  }
}
