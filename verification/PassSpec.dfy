/** One pass of the assembler over a source file with a single segment: what each statement
    does to the symbol table, the origin, the output file and Redo. The lines are read by the
    machine of LineSpec. */
module PassSpec {
  import opened Results
  import opened Operators
  import opened Expressions
  import M = ExpressionMachine
  import opened ExpressionProofs
  import opened Files
  import opened GenerationSpec
  import opened DataSpec
  import A = AddressModes
  import I = Instructions
  import opened LocalScopes
  import opened Symbols
  import L = LineSpec

  // ----- the state -----

  /** What generate reads and writes: the output file, Redo, and the origin of Csegment. */
  datatype Out = Out(sink: Sink, org: nat, unknown: bool)

  /** `placed` only records what happened in the pass so far: every ORG operand was known. */
  datatype Asm = Asm(syms: Syms, at: Indices, out: Out, placed: bool)

  /** What does not change during a run. */
  datatype Setup = Setup(format: Format, fill: byte, maxFileSize: nat, msb: bool)

  function Redo(s: Asm): nat { s.out.sink.redo }

  function BumpOut(o: Out, n: nat): Out { o.(sink := o.sink.(redo := o.sink.redo + n)) }

  function Bump(s: Asm, n: nat): Asm { s.(out := BumpOut(s.out, n)) }

  // ----- source lines -----

  datatype Element = Chars(chars: seq<byte>) | Expr(t: Tree)

  datatype Insn = Insn(mne: I.Mnemonic, start: A.Mode, forced: Option<A.Mode>, is65C02: bool, strict: bool, args: seq<Tree>)

  datatype Op =
    | NoOp
    | Dc(elements: seq<Element>, w: Width)
    | Ds(count: Tree, filler: Option<Tree>, w: Width)
    | Org(t: Tree)
    | Equ(t: Tree)
    | Mnem(insn: Insn)
    | Subr
    | Condition(t: Tree)    // the operand of an IF or REPEAT line

  /** `name` is the label of the line, empty if it has none; without the colon that programlabel
      drops. */
  datatype Statement = Statement(name: string, op: Op)

  /** The expressions in a statement. */
  function ElementsOf(t: Statement): seq<Element> {
    match t.op
    case Dc(es, _) => es
    case Ds(count, filler, _) => Amounts(count, filler)
    case Org(e) => [Expr(e)]
    case Equ(e) => [Expr(e)]
    case Mnem(i) => Elements(i.args)
    case Condition(e) => [Expr(e)]
    case _ => []
  }

  /** An EQU that defines a symbol; `. EQU e` and `* EQU e` do not. */
  predicate IsEqu(t: Statement) { t.op.Equ? && t.name != "." && t.name != "*" }

  // ----- reading symbols -----

  /** The name looked for in the hash table. */
  function Key(at: Indices, name: string): string {
    if name == "" || name == "." then name else Mangled(at, name)
  }

  function Localize(at: Indices, t: Tree): Tree {
    match t
    case Leaf(Ref(x)) => Leaf(Ref(Key(at, x)))
    case Leaf(Number(_)) => t
    case Unary(op, e) => Unary(op, Localize(at, e))
    case Binary(op, l, r) => Binary(op, Localize(at, l), Localize(at, r))
    case Group(e) => Group(Localize(at, e))
  }

  function Refs(t: Tree): set<string> {
    match t
    case Leaf(Ref(x)) => {x}
    case Leaf(Number(_)) => {}
    case Unary(_, e) => Refs(e)
    case Binary(_, l, r) => Refs(l) + Refs(r)
    case Group(e) => Refs(e)
  }

  function Pc(o: Out): Arg { Arg(ToLong(o.org), o.unknown) }

  /** What eval finds: the symbols, and the origin under the name ".". */
  function Env(syms: Syms, o: Out): M.Table {
    (map x | x in syms :: M.Value(syms[x].arg))["." := M.Value(Pc(o))]
  }

  const UNDEFINED := Arg(0, true)

  /** Reading a symbol sets SYM_REF, and creates it unknown if it is not there. */
  function Read(syms: Syms, names: set<string>): Syms {
    map x | x in syms.Keys + (names - {"."}) ::
      if x in names && x != "." then Sym(if x in syms then syms[x].arg else UNDEFINED, true) else syms[x]
  }

  function ElementNames(e: Element): set<string> { if e.Expr? then Refs(e.t) else {} }

  function NamesOf(es: seq<Element>): set<string> {
    if es == [] then {} else ElementNames(es[0]) + NamesOf(es[1..])
  }

  function LocalizeAll(at: Indices, es: seq<Element>): seq<Element> {
    seq(|es|, i requires 0 <= i < |es| => if es[i].Expr? then Expr(Localize(at, es[i].t)) else es[i])
  }

  function EvalItems(table: M.Table, es: seq<Element>): Result<seq<Item>> {
    if es == [] then Ok([])
    else if es[0].Chars? then
      match EvalItems(table, es[1..])
      case Ok(vs) => Ok([Str(es[0].chars)] + vs)
      case e => e
    else
      match EvalTree(table, M.MAX_RECURSION, es[0].t)
      case Abort => Abort
      case Ok(v) =>
        match EvalItems(table, es[1..])
        case Ok(vs) => Ok([Num(v.value, v.unknown)] + vs)
        case e => e
  }

  /** eval on a list; an empty one is a single 0. */
  function Evaluate(s: Asm, es: seq<Element>): Result<(Asm, seq<Item>)> {
    var us := LocalizeAll(s.at, es);
    match EvalItems(Env(s.syms, s.out), us)
    case Ok(vs) => Ok((s.(syms := Read(s.syms, NamesOf(us))), if vs == [] then [Num(0, false)] else vs))
    case Abort => Abort
    case Corrupt => Corrupt
  }

  function ArgOf(i: Item): Arg { if i.Num? then Arg(i.value, i.unknown) else Arg(0, false) }

  function EvalOne(s: Asm, t: Tree): Result<(Asm, Arg)> {
    match Evaluate(s, [Expr(t)])
    case Ok(p) => Ok((p.0, if p.1 == [] then UNDEFINED else ArgOf(p.1[0])))
    case Abort => Abort
    case Corrupt => Corrupt
  }

  // ----- defining labels -----

  /** programlabel asks for another pass if the symbol was read before it was known, or is
      read and not known now, or is not where it was. */
  predicate Moved(y: Sym, o: Out) {
    || (y.arg.unknown && y.ref)
    || (o.unknown && y.ref)
    || (!o.unknown && !y.arg.unknown && y.arg.value != Pc(o).value)
  }

  function DefineSym(s: Asm, key: string): Asm {
    if key in s.syms then
      Bump(s, Flag(Moved(s.syms[key], s.out))).(syms := s.syms[key := Sym(Pc(s.out), s.syms[key].ref)])
    else s.(syms := s.syms[key := Sym(Pc(s.out), false)])
  }

  /** programlabel. Defining "." changes nothing: it is the origin already. */
  function ProgramLabel(s: Asm, name: string): Asm {
    if name == "" then s
    else
      var s1 := s.(at := OnLabel(s.at, name));
      if name == "." then s1 else DefineSym(s1, Key(s1.at, name))
  }

  // ----- emitting -----

  function Settings(c: Setup, o: Out): Setting { Setting(c.format, c.fill, c.maxFileSize, o.unknown, false, false) }

  function At(o: Out): Counters { Counters(o.sink, o.org, 0) }

  function Emitted(o: Out, r: Result<Counters>): Result<Out> {
    match r
    case Ok(k) => Ok(Out(k.sink, k.org, o.unknown))
    case Abort => Abort
    case Corrupt => Corrupt
  }

  function EmitBytes(c: Setup, o: Out, bytes: seq<byte>): Result<Out> {
    Emitted(o, Generate(Settings(c, o), At(o), bytes))
  }

  // ----- the statements -----

  function WithOut(s: Asm, r: Result<Out>): Result<Asm> {
    match r
    case Ok(o) => Ok(s.(out := o))
    case Abort => Abort
    case Corrupt => Corrupt
  }

  function VDc(c: Setup, s: Asm, name: string, es: seq<Element>, w: Width): Result<Asm> {
    match Evaluate(ProgramLabel(s, name), es)
    case Ok(p) => WithOut(p.0, EmitDc(c, p.0.out, p.1, w))
    case Abort => Abort
    case Corrupt => Corrupt
  }

  function EmitDc(c: Setup, o: Out, items: seq<Item>, w: Width): Result<Out> {
    Emitted(o, EmitItems(Settings(c, o), c.msb, At(o), [], items, w))
  }

  function Amounts(count: Tree, filler: Option<Tree>): seq<Element> {
    [Expr(count)] + if filler.Some? then [Expr(filler.value)] else []
  }

  function VDs(c: Setup, s: Asm, name: string, count: Tree, filler: Option<Tree>, w: Width): Result<Asm> {
    match Evaluate(ProgramLabel(s, name), Amounts(count, filler))
    case Ok(p) => WithOut(p.0, FillDs(c, p.0.out, p.1, if w == Swapped then ByteWidth else w))
    case Abort => Abort
    case Corrupt => Corrupt
  }

  function FillDs(c: Setup, o: Out, items: seq<Item>, w: Width): Result<Out> {
    if items == [] then Ok(o)
    else
      var n := ArgOf(items[0]);
      var f := if |items| < 2 then Arg(0, false) else ArgOf(items[1]);
      if n.unknown then Ok(BumpOut(o, 1)) else FillOut(c, BumpOut(o, Flag(f.unknown)), f.value, n.value, w)
  }

  function FillOut(c: Setup, o: Out, fill: int, entries: int, w: Width): Result<Out> {
    Emitted(o, Fill(Settings(c, o), c.msb, At(o), fill, entries, w))
  }

  function VOrg(s: Asm, name: string, t: Tree): Result<Asm> {
    match EvalOne(s, t)
    case Ok((s1, v)) =>
      var o := s1.out.(org := v.value % L.ULONG, unknown := v.unknown);
      Ok(ProgramLabel(s1.(out := o, placed := s1.placed && !v.unknown), name))
    case Abort => Abort
    case Corrupt => Corrupt
  }

  function Before(syms: Syms, key: string): Sym { if key in syms then syms[key] else Sym(UNDEFINED, false) }

  function EquSym(s: Asm, key: string, v: Arg): Asm {
    var y := Before(s.syms, key);
    Bump(s, Flag(!y.arg.unknown && (v.unknown || y.arg.value != v.value))).(
      syms := s.syms[key := Sym(v, false)])
  }

  /** `. EQU e` and `* EQU e` are ORG. */
  function VEqu(s: Asm, name: string, t: Tree): Result<Asm> {
    match EvalOne(s, t)
    case Ok((s1, v)) =>
      if name == "." || name == "*" then VOrg(s1, ".", t) else Ok(EquSym(s1, Key(s1.at, name), v))
    case Abort => Abort
    case Corrupt => Corrupt
  }

  function Args(items: seq<Item>): seq<Arg> { seq(|items|, i requires 0 <= i < |items| => ArgOf(items[i])) }

  function Elements(ts: seq<Tree>): seq<Element> { seq(|ts|, i requires 0 <= i < |ts| => Expr(ts[i])) }

  function StartMode(i: Insn, n: nat): A.Mode {
    if i.mne.imod && 1 < n then (if i.mne.rel then A.BitBraMod else A.BitMod) else i.start
  }

  function VMnemonic(c: Setup, s: Asm, name: string, i: Insn): Result<Asm> {
    match Evaluate(ProgramLabel(s, name), Elements(i.args))
    case Ok(p) => WithOut(p.0, EmitInsn(c, BumpOut(p.0.out, Unknowns(p.1)), i, Args(p.1)))
    case Abort => Abort
    case Corrupt => Corrupt
  }

  function SelectionRequest(i: Insn, args: seq<Arg>): A.Request
    requires args != []
  {
    var no42 := I.No42(i.mne, i.is65C02);
    A.Request(i.mne.okmask, StartMode(i, |args|), args[0].value, args[0].unknown, i.forced, no42, i.strict)
  }

  function Selected(i: Insn, args: seq<Arg>): A.Selection
    requires args != []
  {
    A.Select(SelectionRequest(i, args))
  }

  function EmitInsn(c: Setup, o: Out, i: Insn, args: seq<Arg>): Result<Out> {
    if args == [] then Corrupt else EmitSelected(c, o, i, args, Selected(i, args))
  }

  function EmitSelected(c: Setup, o: Out, i: Insn, args: seq<Arg>, mode: A.Selection): Result<Out> {
    if !mode.Selected? then Ok(BumpOut(o, 1)) else EmitCode(c, o, i, args, mode.mode)
  }

  /** What Gen held before shows only in the branch byte of an unknown target, and Redo is
      not 0 then, so that it is never written. */
  function EmitCode(c: Setup, o: Out, i: Insn, args: seq<Arg>, m: A.Mode): Result<Out> {
    EmitEncoded(c, o, I.Encode(i.mne, m, args, I.Site(Pc(o).value, o.unknown, c.msb), []))
  }

  function EmitEncoded(c: Setup, o: Out, r: Result<I.Code>): Result<Out> {
    match r
    case Ok(code) => EmitBytes(c, BumpOut(o, Flag(code.outOfRange)), code.bytes)
    case Abort => Abort
    case Corrupt => Corrupt
  }

  // ----- one pass -----

  function Execute(c: Setup, s: Asm, t: Statement): Result<Asm> {
    match t.op
    case NoOp => Ok(ProgramLabel(s, t.name))
    case Dc(es, w) => VDc(c, s, t.name, es, w)
    case Ds(count, filler, w) => VDs(c, s, t.name, count, filler, w)
    case Org(e) => VOrg(s, t.name, e)
    case Equ(e) => VEqu(s, t.name, e)
    case Mnem(i) => VMnemonic(c, s, t.name, i)
    case Subr => Ok(ProgramLabel(s.(at := OpenLocal(s.at)), t.name))
    case Condition(_) => Ok(ProgramLabel(s, t.name))
  }

  function Operand(s: Asm, t: Statement): Result<(Asm, Arg)> {
    match t.op
    case Condition(e) => EvalOne(s, e)
    case _ => Ok((s, Arg(0, false)))
  }

  type State = Result<Asm>

  function OnDefine(s: State, t: Statement): State { if s.Ok? then Ok(ProgramLabel(s.value, t.name)) else s }

  function OnPlain(c: Setup, s: State, t: Statement): State { if s.Ok? then Execute(c, s.value, t) else s }

  /** Once the run is over, nothing is evaluated any more. */
  function OnEval(s: State, t: Statement): (State, Arg) {
    match s
    case Ok(a) =>
      (match Operand(a, t)
       case Ok(p) => (Ok(p.0), p.1)
       case Abort => (Abort, UNDEFINED)
       case Corrupt => (Corrupt, UNDEFINED))
    case e => (e, UNDEFINED)
  }

  function OnRedo(s: State): State { if s.Ok? then Ok(Bump(s.value, 1)) else s }

  function Handlers(c: Setup): L.Effects<State, Statement> {
    L.Effects(OnDefine, (s, t) => OnPlain(c, s, t), OnEval, OnRedo)
  }

  /** The beginning of a pass. The origin is that of the end of the pass before, but unknown. */
  function Begin(syms: Syms, org: nat): L.Flat<State> {
    L.Flat(0, [L.TOP_LEVEL], [], Ok(Asm(syms, FIRST, Out(FRESH, org, true), true)))
  }

  /** clearrefs */
  function ClearRefs(syms: Syms): Syms { map x | x in syms :: syms[x].(ref := false) }

  function Values(syms: Syms): map<string, Arg> { map x | x in syms :: syms[x].arg }

  /** A pass from f that reads the whole file in n lines (lines repeated by REPEAT counted as
      often as they are read), ending in state s. */
  ghost predicate PassEnds(c: Setup, lines: seq<L.Line<Statement>>, f: L.Flat<State>, n: nat, s: Asm) {
    var g := L.Run(Handlers(c), lines, f, n);
    |lines| <= g.pc && g.s == Ok(s)
  }
}
