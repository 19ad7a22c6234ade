/** The handlers of src/ops.c and programlabel of src/symbols.c, on the hash table, the local
    scopes, the expression stacks and the generator that they share. */
module StatementHandlers {
  import opened Results
  import opened Operators
  import opened Expressions
  import M = ExpressionMachine
  import E = Evaluator
  import opened Files
  import opened GenerationSpec
  import opened DataSpec
  import G = Generation
  import B = BufferedData
  import A = AddressModes
  import I = Instructions
  import T = SymbolTable
  import opened LocalScopes
  import opened Symbols
  import L = LineSpec
  import opened PassSpec
  import opened PassFacts
  import opened ListEvaluation

  // ----- which statements can be evaluated here -----

  /** Every operand of the statement has room on the operator stack. */
  ghost predicate FittingStatement(t: Statement) { AllFitting(ElementsOf(t)) }

  // ----- reading names -----

  lemma ReadOne(syms: Syms, name: string)
    ensures Read(syms, {name}) == if name == "." then syms
      else syms[name := Sym(if name in syms then syms[name].arg else UNDEFINED, true)]
  {
    assert syms.Keys + ({name} - {"."}) == if name == "." then syms.Keys else syms.Keys + {name};
  }

  lemma ReadMore(syms: Syms, a: set<string>, b: set<string>)
    ensures Read(Read(syms, a), b) == Read(syms, a + b)
  {
    assert (syms.Keys + (a - {"."})) + (b - {"."}) == syms.Keys + ((a + b) - {"."});
  }

  /** `env` says of each of its names what the pass says of it. */
  ghost predicate EnvOf(env: M.Table, syms: Syms, o: Out) {
    forall x <- env :: env[x] == Look(Env(syms, o), x)
  }

  /** A label gets the origin as its value; `moved` if that asks for another pass. */
  method DefineIn(table: T.Table, key: string, org: nat, unknown: bool) returns (moved: bool)
    requires table.Whole(1)
    modifies table, table.SHash, table.nodes
    ensures table.Whole(1) && fresh(table.nodes - old(table.nodes))
    ensures moved == (key in old(table.entries) && Moved(old(table.entries)[key], Out(FRESH, org, unknown)))
    ensures table.entries ==
      old(table.entries)[key := Sym(Arg(ToLong(org), unknown), key in old(table.entries) && old(table.entries)[key].ref)]
  {
    assert Opened(OfTable, 0);
    var pc := ToLong(org);
    moved := false;
    var sym := table.Get(key);
    if sym.None? {
    } else if sym.value.arg.unknown && sym.value.ref {
      moved := true;
    } else if unknown && sym.value.ref {
      moved := true;
    } else if !unknown && !sym.value.arg.unknown {
      moved := pc != sym.value.arg.value;
    }
    table.Put(key, Sym(Arg(pc, unknown), sym.Some? && sym.value.ref), 0);
  }

  function WithLabel(s: Asm, key: string): Syms {
    s.syms[key := Sym(Arg(ToLong(s.out.org), s.out.unknown), key in s.syms && s.syms[key].ref)]
  }

  /** An EQU but for its Redo. */
  function WithEqu(s: Asm, key: string, v: Arg): Asm {
    s.(syms := s.syms[key := Sym(v, false)])
  }

  lemma EquDefined(s: Asm, key: string, v: Arg)
    ensures
      var y := Before(s.syms, key);
      EquSym(s, key, v) == Bump(WithEqu(s, key, v), Flag(!y.arg.unknown && (v.unknown || y.arg.value != v.value)))
  {}

  lemma LabelDefined(s: Asm, key: string, moved: bool)
    requires moved == (key in s.syms && Moved(s.syms[key], Out(FRESH, s.out.org, s.out.unknown)))
    ensures DefineSym(s, key) == Bump(s.(syms := WithLabel(s, key)), Flag(moved))
  {}

  method NewGenerator(c: Setup, org: nat) returns (g: G.Generator, seg: G.Segment)
    ensures fresh(g) && fresh(g.FI_temp) && fresh(g.Gen) && fresh(seg) && g.Csegment == seg && g.Valid()
    ensures g.F_format == c.format && g.OrgFill == c.fill && g.maxFileSize == c.maxFileSize
    ensures g.State() == Counters(FRESH, org, 0) && seg.unknown && !seg.bss && !seg.rorgActive
  {
    seg := new G.Segment();
    g := new G.Generator(c.format, c.maxFileSize, seg);
    g.OrgFill := c.fill;
    seg.org := org;
  }

  /** A name is read: its value is found, or it becomes an unknown symbol. */
  method ReadIn(table: T.Table, name: string) returns (a: Arg)
    requires table.Whole(1) && name != "."
    modifies table, table.SHash, table.nodes
    ensures table.Whole(1) && fresh(table.nodes - old(table.nodes))
    ensures a == (if name in old(table.entries) then old(table.entries)[name].arg else UNDEFINED)
    ensures table.entries == Read(old(table.entries), {name})
  {
    assert Opened(OfTable, 0);
    ReadOne(table.entries, name);
    var y := table.Get(name);
    a := if y.Some? then y.value.arg else UNDEFINED;
    table.Put(name, Sym(a, true), 0);
  }

  method BeforeIn(table: T.Table, key: string) returns (y: Sym)
    requires table.Whole(1)
    ensures y == Before(table.entries, key)
  {
    assert Opened(OfTable, 0);
    var before := table.Get(key);
    y := if before.Some? then before.value else Sym(UNDEFINED, false);
  }

  method SetIn(table: T.Table, key: string, e: Sym)
    requires table.Whole(1)
    modifies table, table.SHash, table.nodes
    ensures table.Whole(1)
    ensures table.entries == old(table.entries)[key := e]
    ensures fresh(table.nodes - old(table.nodes))
  {
    assert Opened(OfTable, 0);
    table.Put(key, e, 0);
  }

  lemma LookKept(syms: Syms, names: set<string>, o: Out, env: M.Table)
    requires EnvOf(env, syms, o)
    ensures EnvOf(env, Read(syms, names), o)
  {
    forall x | x in env ensures Look(Env(Read(syms, names), o), x) == Look(Env(syms, o), x) {
    }
  }

  method ReadName(table: T.Table, name: string, pc: Arg, env: M.Table, ghost o: Out) returns (env': M.Table)
    requires table.Whole(1) && EnvOf(env, table.entries, o) && pc == Pc(o)
    modifies table, table.SHash, table.nodes
    ensures table.Whole(1) && table.entries == Read(old(table.entries), {name}) && fresh(table.nodes - old(table.nodes))
    ensures EnvOf(env', table.entries, o) && env'.Keys == env.Keys + {name}
  {
    ghost var syms := table.entries;
    if name == "." {
      env' := env["." := M.Value(pc)];
      DotRead(syms, o, env);
    } else {
      var a := ReadIn(table, name);
      env' := env[name := M.Value(a)];
      NameRead(syms, name, o, env, a);
    }
  }

  lemma DotRead(syms: Syms, o: Out, env: M.Table)
    requires EnvOf(env, syms, o)
    ensures Read(syms, {"."}) == syms && EnvOf(env["." := M.Value(Pc(o))], syms, o)
  {
    ReadOne(syms, ".");
  }

  lemma NameRead(syms: Syms, name: string, o: Out, env: M.Table, a: Arg)
    requires EnvOf(env, syms, o) && name != "." && a == if name in syms then syms[name].arg else UNDEFINED
    ensures EnvOf(env[name := M.Value(a)], Read(syms, {name}), o)
  {
    ReadOne(syms, name);
    LookKept(syms, {name}, o, env);
  }

  method ReadElement(table: T.Table, e: Element, pc: Arg, env: M.Table, ghost o: Out) returns (env': M.Table)
    requires table.Whole(1) && EnvOf(env, table.entries, o) && pc == Pc(o)
    modifies table, table.SHash, table.nodes
    ensures table.Whole(1) && table.entries == Read(old(table.entries), ElementNames(e)) && fresh(table.nodes - old(table.nodes))
    ensures EnvOf(env', table.entries, o) && env'.Keys == env.Keys + ElementNames(e)
  {
    match e {
      case Chars(_) => env' := env; ReadNothing(table.entries);
      case Expr(t) => env' := ReadTree(table, t, pc, env, o);
    }
  }

  lemma NamesSplit(us: seq<Element>, i: nat)
    requires i < |us|
    ensures NamesOf(us[i..]) == ElementNames(us[i]) + NamesOf(us[i + 1..])
  {
    assert us[i..][1..] == us[i + 1..];
  }

  /** pushsymbol on every name of an expression. */
  method ReadTree(table: T.Table, t: Tree, pc: Arg, env: M.Table, ghost o: Out) returns (env': M.Table)
    requires table.Whole(1) && EnvOf(env, table.entries, o) && pc == Pc(o)
    modifies table, table.SHash, table.nodes
    ensures table.Whole(1) && table.entries == Read(old(table.entries), Refs(t)) && fresh(table.nodes - old(table.nodes))
    ensures EnvOf(env', table.entries, o) && env'.Keys == env.Keys + Refs(t)
    decreases t
  {
    match t {
      case Leaf(Number(_)) => env' := env; ReadNothing(table.entries);
      case Leaf(Ref(x)) => env' := ReadName(table, x, pc, env, o);
      case Unary(_, e) => env' := ReadTree(table, e, pc, env, o);
      case Group(e) => env' := ReadTree(table, e, pc, env, o);
      case Binary(_, l, r) =>
        ReadMore(table.entries, Refs(l), Refs(r));
        env' := ReadTree(table, l, pc, env, o);
        env' := ReadTree(table, r, pc, env', o);
    }
  }

  lemma ReadFirst(syms: Syms, us: seq<Element>, i: nat)
    requires i < |us|
    ensures Read(syms, NamesOf(us[i..])) == Read(Read(syms, ElementNames(us[i])), NamesOf(us[i + 1..]))
    ensures NamesOf(us[i..]) == ElementNames(us[i]) + NamesOf(us[i + 1..])
  {
    NamesSplit(us, i);
    ReadMore(syms, ElementNames(us[i]), NamesOf(us[i + 1..]));
  }

  method ReadElements(table: T.Table, us: seq<Element>, pc: Arg, ghost o: Out) returns (env: M.Table)
    requires table.Whole(1) && pc == Pc(o)
    modifies table, table.SHash, table.nodes
    ensures table.Whole(1) && table.entries == Read(old(table.entries), NamesOf(us)) && fresh(table.nodes - old(table.nodes))
    ensures EnvOf(env, table.entries, o) && NamesOf(us) <= env.Keys
  {
    env := map[];
    ghost var goal := Read(table.entries, NamesOf(us));
    var i := 0;
    assert us[0..] == us;
    while i < |us|
      invariant 0 <= i <= |us| && table.Whole(1) && fresh(table.nodes - old(table.nodes)) && EnvOf(env, table.entries, o)
      invariant Read(table.entries, NamesOf(us[i..])) == goal
      invariant NamesOf(us) <= env.Keys + NamesOf(us[i..])
    {
      ReadFirst(table.entries, us, i);
      env := ReadElement(table, us[i], pc, env, o);
      i := i + 1;
    }
    assert us[i..] == [];
    ReadNothing(table.entries);
  }

  lemma EnvsAgreeOn(env: M.Table, syms: Syms, o: Out, us: seq<Element>)
    requires EnvOf(env, syms, o) && NamesOf(us) <= env.Keys
    ensures Plain(env) && EvalItems(env, us) == EvalItems(Env(syms, o), us)
  {
    forall x | x in NamesOf(us) ensures Look(env, x) == Look(Env(syms, o), x) {
      assert x in env;
    }
    ItemsAgree(env, Env(syms, o), us);
  }

  ghost predicate Settled(args: seq<Arg>) { forall a <- args :: !a.unknown }

  lemma NoneUnknown(items: seq<Item>)
    ensures Unknowns(items) == 0 ==> Settled(Args(items))
  {
    forall k | 0 <= k < |items| && Args(items)[k].unknown ensures 0 < Unknowns(items) {
      UnknownCounted(items, k);
    }
  }

  lemma {:induction false} UnknownCounted(items: seq<Item>, k: nat)
    requires k < |items| && ArgOf(items[k]).unknown
    ensures 0 < Unknowns(items)
  {
    if k != 0 {
      UnknownCounted(items[1..], k - 1);
    }
  }

  /** What Gen held before shows at most where an operand is unknown. */
  lemma StaleOnly(mne: I.Mnemonic, m: A.Mode, args: seq<Arg>, site: I.Site, gen: seq<byte>)
    ensures
      var (code, clean) := (I.Encode(mne, m, args, site, gen), I.Encode(mne, m, args, site, []));
      && OutcomeOf(code) == OutcomeOf(clean)
      && (code.Ok? ==> |code.value.bytes| == |clean.value.bytes| && code.value.outOfRange == clean.value.outOfRange)
      && (code.Ok? && Settled(args) ==> code == clean)
  {
    if Settled(args) {
      I.NothingStale(mne, m, args, site, gen, []);
    }
  }

  /** Once another pass is due, only the length of what is emitted matters. */
  lemma OnlyLength(k: Setting, c: Counters, a: seq<byte>, b: seq<byte>)
    requires c.sink.redo != 0 && |a| == |b|
    ensures Generate(k, c, a) == Generate(k, c, b)
  {}

  method SelectFor(i: Insn, args: seq<Arg>) returns (mode: A.Selection)
    requires args != []
    ensures mode == Selected(i, args)
  {
    var start := if i.mne.imod && 1 < |args| then (if i.mne.rel then A.BitBraMod else A.BitMod) else i.start;
    var no42 := I.No42(i.mne, i.is65C02);
    mode := A.SelectMode(A.Request(i.mne.okmask, start, args[0].value, args[0].unknown, i.forced, no42, i.strict));
  }

  /** The objects that outlive a pass. */
  ghost function Lasting(table: T.Table, stacks: E.ExpressionStacks): set<object>
    reads table
  {
    {table, table.SHash, stacks, stacks.Argstack, stacks.Opdis, stacks.Oppri} + table.nodes
  }

  class Handler {
    const c: Setup
    const table: T.Table
    const scopes: Locals
    const stacks: E.ExpressionStacks
    const gen: G.Generator
    const segment: G.Segment
    /** What the assembler has come to. */
    ghost var now: Asm

    /** All the objects the handlers may change. */
    ghost var Repr: set<object>

    ghost predicate Valid()
      reads this, Repr
    {
      && Owns() && table.nodes <= Repr
      && table.Whole(1) && now.syms == table.entries && Around(now.at, now.out)
    }

    ghost predicate Owns()
      reads this`Repr
    {
      && {this, table, table.SHash, scopes, stacks, stacks.Argstack, stacks.Opdis, stacks.Oppri} <= Repr
      && {gen, gen.FI_temp, gen.Gen, segment} <= Repr
    }

    /** All but the table. */
    ghost predicate Around(at: Indices, o: Out)
      reads scopes, stacks, stacks.Argstack, stacks.Opdis, stacks.Oppri, gen, gen.FI_temp, gen.Gen, segment
    {
      scopes.Current() == at && stacks.Idle(1) && Emits(o, 1)
    }

    /** Validity as the handlers carry it from one call to the next, folded up. */
    ghost predicate Whole(n: nat)
      reads this, Repr
      decreases n
    {
      n == 0 || ((forall key: nat :: Opened(OfHandler, key) ==> Valid()) && Whole(n - 1))
    }

    /** The generator is set up as c says, and o is where it has come to. */
    ghost predicate Emits(o: Out, n: nat)
      reads gen, gen.FI_temp, gen.Gen, segment
      decreases n
    {
      n == 0 ||
      (&& gen.Valid() && gen.Csegment == segment
       && gen.F_format == c.format && gen.OrgFill == c.fill && gen.maxFileSize == c.maxFileSize
       && !segment.bss && !segment.rorgActive && segment.rorg == 0
       && o == Output() && Emits(o, n - 1))
    }

    ghost function Output(): Out
      reads gen, gen.FI_temp, segment
    {
      Out(Sink(gen.Redo, gen.Fisclear, gen.org, gen.Seekback, gen.Seglen, gen.FI_temp.data), segment.org, segment.unknown)
    }

    ghost predicate Shows(r: Outcome, spec: State)
      reads this, Repr
    {
      && r == OutcomeOf(spec)
      && (r.Fine? ==> Whole(1) && now == spec.value)
    }

    /** The beginning of a pass: the symbols and the expression stacks are those of the pass
        before, and the origin is known no more. */
    constructor (c: Setup, table: T.Table, stacks: E.ExpressionStacks, org: nat)
      requires table.Whole(1) && stacks.Idle(1)
      ensures Whole(1) && this.c == c && this.table == table && this.stacks == stacks
      ensures Ok(now) == Begin(table.entries, org).s
      ensures fresh(Repr - Lasting(table, stacks))
    {
      var g, seg := NewGenerator(c, org);
      this.c, this.table, this.stacks, gen, segment := c, table, stacks, g, seg;
      scopes := new Locals();
      now := Begin(table.entries, org).s.value;
      Repr := {this, table, table.SHash, scopes, stacks, stacks.Argstack, stacks.Opdis, stacks.Oppri}
              + {g, g.FI_temp, g.Gen, seg} + table.nodes;
      new;
      assert Emits(now.out, 1) && Opened(OfHandler, 0);
    }

    /** The scopes in effect, and the origin. */
    method Here() returns (at: Indices)
      requires Whole(1)
      ensures at == now.at
    {
      assert Opened(OfHandler, 0);
      at := scopes.Current();
    }

    method Origin() returns (org: nat, unknown: bool)
      requires Whole(1)
      ensures org == now.out.org && unknown == now.out.unknown
    {
      assert Opened(OfHandler, 0);
      assert Emits(now.out, 1);
      org, unknown := segment.org, segment.unknown;
    }

    method CountRedo(why: bool)
      requires Whole(1)
      modifies Repr
      ensures now == Bump(old(now), Flag(why))
      ensures Whole(1)
      ensures Repr == old(Repr)
      ensures gen.Gen[..] == old(gen.Gen[..])
    {
      assert Opened(OfHandler, 0);
      now := Bump(now, Flag(why));
      if why {
        gen.Redo := gen.Redo + 1;
      }
      assert Emits(now.out, 1);
    }

    /** The end of a pass: closegenerate, and what the loop over the passes looks at. */
    method Finish() returns (redo: nat, file: seq<byte>, org: nat)
      requires Whole(1)
      modifies Repr
      ensures redo == old(now.out.sink.redo) && org == old(now.out.org)
      ensures file == GenerationSpec.Close(c.format, old(now.out.sink)).data
      ensures table.Whole(1) && stacks.Idle(1) && table.entries == old(now.syms)
      ensures table.nodes <= Repr == old(Repr)
    {
      assert Opened(OfHandler, 0);
      assert Emits(now.out, 1);
      redo, org := gen.Redo, segment.org;
      gen.CloseGenerate();
      file := gen.FI_temp.data;
    }

    /** After a call that changed the table, `s` is what the assembler has come to. */
    ghost method Arrive(s: Asm)
      requires Owns() && table.Whole(1) && s.syms == table.entries && Around(s.at, s.out)
      modifies this`now, this`Repr
      ensures now == s && Repr == old(Repr) + table.nodes
      ensures Whole(1)
    {
      now, Repr := s, Repr + table.nodes;
      assert Opened(OfHandler, 0);
      assert Valid();
    }

    // ----- labels -----

    method Programlabel(name: string)
      requires Whole(1)
      modifies Repr
      ensures now == ProgramLabel(old(now), name)
      ensures Whole(1)
      ensures fresh(Repr - old(Repr))
    {
      assert Opened(OfHandler, 0);
      scopes.OnLabel(name);
      now := now.(at := scopes.Current());
      DefineLabel(name);
    }

    /** programlabel once the scope of the label is open. */
    method DefineLabel(name: string)
      requires Whole(1)
      modifies Repr
      ensures now == if name == "" || name == "." then old(now) else DefineSym(old(now), Key(old(now).at, name))
      ensures Whole(1)
      ensures fresh(Repr - old(Repr))
    {
      if name != "" && name != "." {
        var at := Here();
        DefineKey(Mangled(at, name));
      }
    }

    method DefineKey(key: string)
      requires Whole(1)
      modifies Repr
      ensures now == DefineSym(old(now), key)
      ensures Whole(1)
      ensures fresh(Repr - old(Repr))
    {
      var org, unknown := Origin();
      var moved := EnterLabel(key, org, unknown);
      CountRedo(moved);
      LabelDefined(old(now), key, moved);
    }

    method LabelInTable(key: string, org: nat, unknown: bool, ghost at: Indices, ghost o: Out) returns (moved: bool)
      requires table.Whole(1) && Around(at, o)
      modifies table, table.SHash, table.nodes
      ensures table.Whole(1) && Around(at, o)
      ensures moved == (key in old(table.entries) && Moved(old(table.entries)[key], Out(FRESH, org, unknown)))
      ensures table.entries ==
        old(table.entries)[key := Sym(Arg(ToLong(org), unknown), key in old(table.entries) && old(table.entries)[key].ref)]
      ensures fresh(table.nodes - old(table.nodes))
    {
      moved := DefineIn(table, key, org, unknown);
    }

    method EnterLabel(key: string, org: nat, unknown: bool) returns (moved: bool)
      requires Whole(1) && org == now.out.org && unknown == now.out.unknown
      modifies Repr
      ensures moved == (key in old(now.syms) && Moved(old(now.syms)[key], Out(FRESH, old(now.out.org), old(now.out.unknown))))
      ensures now == old(now).(syms := WithLabel(old(now), key))
      ensures Whole(1)
      ensures fresh(Repr - old(Repr))
    {
      assert Opened(OfHandler, 0);
      ghost var s := now;
      moved := LabelInTable(key, org, unknown, s.at, s.out);
      Arrive(s.(syms := WithLabel(s, key)));
    }

    // ----- expressions -----

    ghost predicate ShowsList(r: Result<seq<Item>>, spec: Result<(Asm, seq<Item>)>)
      reads this, Repr
    {
      && OutcomeOf(r) == OutcomeOf(spec)
      && (r.Ok? ==> Whole(1) && now == spec.value.0 && r.value == spec.value.1)
    }

    method NamesInTable(us: seq<Element>, pc: Arg, ghost at: Indices, ghost o: Out) returns (env: M.Table)
      requires table.Whole(1) && Around(at, o) && pc == Pc(o)
      modifies table, table.SHash, table.nodes
      ensures table.Whole(1) && Around(at, o)
      ensures table.entries == Read(old(table.entries), NamesOf(us))
      ensures EnvOf(env, table.entries, o) && NamesOf(us) <= env.Keys
      ensures fresh(table.nodes - old(table.nodes))
    {
      env := ReadElements(table, us, pc, o);
    }

    method ReadNames(us: seq<Element>, pc: Arg) returns (env: M.Table)
      requires Whole(1) && pc == Pc(now.out)
      modifies Repr
      ensures now == old(now).(syms := Read(old(now.syms), NamesOf(us)))
      ensures EnvOf(env, now.syms, now.out) && NamesOf(us) <= env.Keys
      ensures Whole(1)
      ensures fresh(Repr - old(Repr))
    {
      assert Opened(OfHandler, 0);
      ghost var s := now;
      env := NamesInTable(us, pc, s.at, s.out);
      Arrive(s.(syms := Read(s.syms, NamesOf(us))));
    }

    /** The text of a list on the expression stacks, its names found in env. */
    method EvalText(env: M.Table, us: seq<Element>) returns (r: Result<seq<Item>>)
      requires Whole(1) && Plain(env) && AllFitting(us)
      modifies Repr
      ensures match EvalItems(env, us)
        case Ok(vs) => r == Ok(if vs == [] then [Num(0, false)] else vs) && Whole(1) && now == old(now)
        case Abort => r == Abort
        case Corrupt => r == Corrupt
      ensures Repr == old(Repr)
    {
      assert Opened(OfHandler, 0);
      r := EvalList(stacks, env, us);
    }

    /** eval */
    method Eval(es: seq<Element>) returns (r: Result<seq<Item>>)
      requires Whole(1) && AllFitting(es)
      modifies Repr
      ensures ShowsList(r, Evaluate(old(now), es))
      ensures fresh(Repr - old(Repr))
    {
      ghost var before := now;
      var at := Here();
      var org, unknown := Origin();
      var us := LocalizeAll(at, es);
      LocalizedFitting(at, es);
      var env := ReadNames(us, Arg(ToLong(org), unknown));
      EvaluateBy(before, now, env, us, es);
      r := EvalText(env, us);
    }

    method EvalSingle(t: Tree) returns (r: Result<Arg>)
      requires Whole(1) && Fitting(Expr(t))
      modifies Repr
      ensures match EvalOne(old(now), t)
        case Ok(p) => r == Ok(p.1) && Whole(1) && now == p.0
        case Abort => r == Abort
        case Corrupt => r == Corrupt
      ensures fresh(Repr - old(Repr))
    {
      var v := Eval([Expr(t)]);
      match v
      case Ok(items) => r := Ok(if items == [] then UNDEFINED else ArgOf(items[0]));
      case Abort => r := Abort;
      case Corrupt => r := Corrupt;
    }

    // ----- ORG and EQU -----

    method SetOrigin(v: Arg)
      requires Whole(1)
      modifies Repr
      ensures now == old(now).(out := old(now.out).(org := v.value % L.ULONG, unknown := v.unknown),
                               placed := old(now.placed) && !v.unknown)
      ensures Whole(1)
      ensures Repr == old(Repr)
    {
      assert Opened(OfHandler, 0);
      now := now.(out := now.out.(org := v.value % L.ULONG, unknown := v.unknown), placed := now.placed && !v.unknown);
      segment.org := v.value % L.ULONG;
      segment.unknown := v.unknown;
      assert Emits(now.out, 1);
    }

    method VOrg(name: string, t: Tree) returns (r: Outcome)
      requires Whole(1) && Fitting(Expr(t))
      modifies Repr
      ensures Shows(r, PassSpec.VOrg(old(now), name, t))
      ensures fresh(Repr - old(Repr))
    {
      var sym := EvalSingle(t);
      if sym.Ok? {
        SetOrigin(sym.value);
        Programlabel(name);
      }
      r := OutcomeOf(sym);
    }

    method SetInTable(key: string, e: Sym, ghost at: Indices, ghost o: Out)
      requires table.Whole(1) && Around(at, o)
      modifies table, table.SHash, table.nodes
      ensures table.entries == old(table.entries)[key := e]
      ensures table.Whole(1) && Around(at, o)
      ensures fresh(table.nodes - old(table.nodes))
    {
      SetIn(table, key, e);
    }

    /** What is known of a symbol. */
    method SymbolHere(key: string) returns (y: Sym)
      requires Whole(1)
      ensures y == Before(now.syms, key)
    {
      assert Opened(OfHandler, 0);
      y := BeforeIn(table, key);
    }

    method EnterEqu(key: string, v: Arg)
      requires Whole(1)
      modifies Repr
      ensures now == WithEqu(old(now), key, v)
      ensures Whole(1)
      ensures fresh(Repr - old(Repr))
    {
      assert Opened(OfHandler, 0);
      ghost var s := now;
      SetInTable(key, Sym(v, false), s.at, s.out);
      Arrive(WithEqu(s, key, v));
    }

    method SetEqu(key: string, v: Arg)
      requires Whole(1)
      modifies Repr
      ensures now == EquSym(old(now), key, v)
      ensures Whole(1)
      ensures fresh(Repr - old(Repr))
    {
      var y := SymbolHere(key);
      EnterEqu(key, v);
      CountRedo(!y.arg.unknown && (v.unknown || y.arg.value != v.value));
      EquDefined(old(now), key, v);
    }

    method VEqu(name: string, t: Tree) returns (r: Outcome)
      requires Whole(1) && Fitting(Expr(t))
      modifies Repr
      ensures Shows(r, PassSpec.VEqu(old(now), name, t))
      ensures fresh(Repr - old(Repr))
    {
      var sym := EvalSingle(t);
      if !sym.Ok? {
        return OutcomeOf(sym);
      }
      if name == "." || name == "*" {
        r := VOrg(".", t);
      } else {
        var at := Here();
        SetEqu(Key(at, name), sym.value);
        r := Fine;
      }
    }

    // ----- data and instructions -----

    method ListThroughGen(items: seq<Item>, w: Width, ghost o: Out) returns (r: Outcome)
      requires Emits(o, 1)
      modifies gen, gen.FI_temp, gen.Gen, segment`org, segment`rorg
      ensures
        var spec := EmitDc(c, o, items, w);
        r == OutcomeOf(spec) && (r.Fine? ==> Emits(spec.value, 1))
    {
      ItemsGrow(Settings(c, o), c.msb, At(o), [], items, w);
      r := B.Dc(gen, items, w, c.msb);
    }

    method EmitList(items: seq<Item>, w: Width) returns (r: Outcome)
      requires Whole(1)
      modifies Repr
      ensures Shows(r, WithOut(old(now), EmitDc(c, old(now.out), items, w)))
      ensures Repr == old(Repr)
    {
      assert Opened(OfHandler, 0);
      ghost var (o, spec) := (now.out, EmitDc(c, now.out, items, w));
      now := if spec.Ok? then now.(out := spec.value) else now;
      r := ListThroughGen(items, w, o);
    }

    method FillThroughGen(fill: int, entries: int, w: Width, ghost o: Out) returns (r: Outcome)
      requires Emits(o, 1)
      modifies gen, gen.FI_temp, gen.Gen, segment`org, segment`rorg
      ensures
        var spec := FillOut(c, o, fill, entries, w);
        r == OutcomeOf(spec) && (r.Fine? ==> Emits(spec.value, 1))
    {
      FillGrows(Settings(c, o), c.msb, At(o), fill, entries, w);
      r := B.GenFill(gen, fill, entries, w, c.msb);
    }

    method EmitFill(fill: int, entries: int, w: Width) returns (r: Outcome)
      requires Whole(1)
      modifies Repr
      ensures Shows(r, WithOut(old(now), FillOut(c, old(now.out), fill, entries, w)))
      ensures Repr == old(Repr)
    {
      assert Opened(OfHandler, 0);
      ghost var (o, spec) := (now.out, FillOut(c, now.out, fill, entries, w));
      now := if spec.Ok? then now.(out := spec.value) else now;
      r := FillThroughGen(fill, entries, w, o);
    }

    /** The beginning of most handlers. */
    method LabelAndEval(name: string, es: seq<Element>) returns (r: Result<seq<Item>>)
      requires Whole(1) && AllFitting(es)
      modifies Repr
      ensures ShowsList(r, Evaluate(ProgramLabel(old(now), name), es))
      ensures fresh(Repr - old(Repr))
    {
      Programlabel(name);
      r := Eval(es);
    }

    method VDc(name: string, es: seq<Element>, w: Width) returns (r: Outcome)
      requires Whole(1) && AllFitting(es)
      modifies Repr
      ensures Shows(r, PassSpec.VDc(c, old(now), name, es, w))
      ensures fresh(Repr - old(Repr))
    {
      var v := LabelAndEval(name, es);
      if !v.Ok? {
        return OutcomeOf(v);
      }
      r := EmitList(v.value, w);
    }

    method FillItems(items: seq<Item>, w: Width) returns (r: Outcome)
      requires Whole(1)
      modifies Repr
      ensures Shows(r, WithOut(old(now), FillDs(c, old(now.out), items, w)))
      ensures Repr == old(Repr)
    {
      if items == [] {
        return Fine;
      }
      var n := ArgOf(items[0]);
      var fill := if |items| < 2 then Arg(0, false) else ArgOf(items[1]);
      if n.unknown {
        CountRedo(true);
        return Fine;
      }
      CountRedo(fill.unknown);
      r := EmitFill(fill.value, n.value, w);
    }

    method VDs(name: string, count: Tree, filler: Option<Tree>, w: Width) returns (r: Outcome)
      requires Whole(1) && AllFitting(Amounts(count, filler))
      modifies Repr
      ensures Shows(r, PassSpec.VDs(c, old(now), name, count, filler, w))
      ensures fresh(Repr - old(Repr))
    {
      var v := LabelAndEval(name, Amounts(count, filler));
      if !v.Ok? {
        return OutcomeOf(v);
      }
      r := FillItems(v.value, if w == Swapped then ByteWidth else w);
    }

    /** The first loop of v_mnemonic. */
    method CountUnknowns(items: seq<Item>)
      requires Whole(1)
      modifies Repr
      ensures now == Bump(old(now), Unknowns(items))
      ensures Whole(1)
      ensures Repr == old(Repr)
    {
      var k := 0;
      while k < |items|
        invariant Repr == old(Repr)
        invariant 0 <= k <= |items| && Whole(1)
        invariant Redo(old(now)) <= Redo(now) && now == Bump(old(now), Redo(now) - Redo(old(now)))
        invariant Redo(now) + Unknowns(items[k..]) == Redo(old(now)) + Unknowns(items)
      {
        assert items[k..][1..] == items[k + 1..];
        CountRedo(items[k].Num? && items[k].unknown);
        k := k + 1;
      }
    }

    method VMnemonic(name: string, i: Insn) returns (r: Outcome)
      requires Whole(1) && AllFitting(Elements(i.args))
      modifies Repr
      ensures Shows(r, PassSpec.VMnemonic(c, old(now), name, i))
      ensures fresh(Repr - old(Repr))
    {
      var v := LabelAndEval(name, Elements(i.args));
      if !v.Ok? {
        return OutcomeOf(v);
      }
      r := InstructionOn(i, v.value);
    }

    method InstructionOn(i: Insn, items: seq<Item>) returns (r: Outcome)
      requires Whole(1)
      modifies Repr
      ensures Shows(r, WithOut(old(now), EmitInsn(c, BumpOut(old(now.out), Unknowns(items)), i, Args(items))))
      ensures Repr == old(Repr)
    {
      CountUnknowns(items);
      NoneUnknown(items);
      r := Instruction(i, Args(items), Unknowns(items) == 0);
    }

    /** The second half of v_mnemonic. An unknown operand has been counted by now. */
    method Instruction(i: Insn, args: seq<Arg>, ghost known: bool) returns (r: Outcome)
      requires Whole(1) && (if known then Settled(args) else Redo(now) != 0)
      modifies Repr
      ensures Shows(r, WithOut(old(now), EmitInsn(c, old(now.out), i, args)))
      ensures Repr == old(Repr)
    {
      if args == [] {
        return Broken;
      }
      var mode := SelectFor(i, args);
      if mode.Selected? {
        r := InMode(i, args, mode.mode, known);
      } else {
        CountRedo(true);
        r := Fine;
      }
    }

    /** The instruction written into Gen. */
    method PutCode(i: Insn, args: seq<Arg>, m: A.Mode, site: I.Site, ghost known: bool, ghost clean: Result<I.Code>)
      returns (code: Result<(nat, bool)>)
      requires Whole(1) && (known ==> Settled(args)) && clean == I.Encode(i.mne, m, args, site, [])
      modifies Repr
      ensures now == old(now) && OutcomeOf(code) == OutcomeOf(clean)
      ensures code.Ok? ==> code.value.0 == |clean.value.bytes| <= gen.Gen.Length && code.value.1 == clean.value.outOfRange
      ensures code.Ok? && known ==> gen.Gen[..code.value.0] == clean.value.bytes
      ensures Whole(1)
      ensures Repr == old(Repr)
    {
      assert Opened(OfHandler, 0);
      assert Emits(now.out, 1);
      StaleOnly(i.mne, m, args, site, gen.Gen[..]);
      code := I.PutInstruction(gen.Gen, i.mne, m, args, site);
      assert Emits(now.out, 1);
    }

    /** The instruction in the mode it was given. */
    method InMode(i: Insn, args: seq<Arg>, m: A.Mode, ghost known: bool) returns (r: Outcome)
      requires Whole(1) && args != [] && (if known then Settled(args) else Redo(now) != 0)
      modifies Repr
      ensures Shows(r, WithOut(old(now), EmitCode(c, old(now.out), i, args, m)))
      ensures Repr == old(Repr)
    {
      var org, unknown := Origin();
      var site := I.Site(ToLong(org), unknown, c.msb);
      ghost var clean := I.Encode(i.mne, m, args, site, []);
      var code := PutCode(i, args, m, site, known, clean);
      r := EmitWritten(code, clean);
    }

    /** `clean` is the instruction; what is in Gen may differ from it if another pass is due. */
    method EmitWritten(code: Result<(nat, bool)>, ghost clean: Result<I.Code>) returns (r: Outcome)
      requires Whole(1) && OutcomeOf(code) == OutcomeOf(clean)
      requires code.Ok? ==>
        && code.value.0 == |clean.value.bytes| <= gen.Gen.Length && code.value.1 == clean.value.outOfRange
        && (gen.Gen[..code.value.0] == clean.value.bytes || Redo(now) != 0)
      modifies Repr
      ensures Shows(r, WithOut(old(now), EmitEncoded(c, old(now.out), clean)))
      ensures Repr == old(Repr)
    {
      if !code.Ok? {
        return OutcomeOf(code);
      }
      CountRedo(code.value.1);
      r := EmitGen(code.value.0, clean.value.bytes);
    }

    method BytesThroughGen(len: nat, ghost bytes: seq<byte>, ghost o: Out) returns (r: Outcome)
      requires Emits(o, 1) && len == |bytes| <= gen.Gen.Length && (gen.Gen[..len] == bytes || o.sink.redo != 0)
      modifies gen, gen.FI_temp, segment`org, segment`rorg
      ensures
        var spec := EmitBytes(c, o, bytes);
        r == OutcomeOf(spec) && (r.Fine? ==> Emits(spec.value, 1))
    {
      if gen.Gen[..len] != bytes {
        OnlyLength(Settings(c, o), At(o), gen.Gen[..len], bytes);
      }
      gen.Glen := len;
      r := gen.Generate();
    }

    /** generate on the first bytes of Gen; `bytes` is what they are, if they are known. */
    method EmitGen(len: nat, ghost bytes: seq<byte>) returns (r: Outcome)
      requires Whole(1) && len == |bytes| <= gen.Gen.Length && (gen.Gen[..len] == bytes || Redo(now) != 0)
      modifies Repr
      ensures Shows(r, WithOut(old(now), EmitBytes(c, old(now.out), bytes)))
      ensures Repr == old(Repr)
    {
      assert Opened(OfHandler, 0);
      ghost var (o, spec) := (now.out, EmitBytes(c, now.out, bytes));
      now := if spec.Ok? then now.(out := spec.value) else now;
      r := BytesThroughGen(len, bytes, o);
    }

    // ----- a line -----

    /** A line that is executed. */
    method ExecuteLine(t: Statement) returns (r: Outcome)
      requires Whole(1) && FittingStatement(t)
      modifies Repr
      ensures Shows(r, Execute(c, old(now), t))
      ensures fresh(Repr - old(Repr))
    {
      match t.op
      case NoOp => Programlabel(t.name); r := Fine;
      case Condition(_) => Programlabel(t.name); r := Fine;
      case Dc(es, w) => r := VDc(t.name, es, w);
      case Ds(count, filler, w) => r := VDs(t.name, count, filler, w);
      case Org(e) => r := VOrg(t.name, e);
      case Equ(e) => r := VEqu(t.name, e);
      case Mnem(i) => r := VMnemonic(t.name, i);
      case Subr =>
        assert Opened(OfHandler, 0);
        scopes.VSubroutine(t.name);
        now := now.(at := scopes.Current());
        DefineLabel(t.name);
        r := Fine;
    }

    /** The operand of an IF or REPEAT. */
    method EvalCondition(t: Statement) returns (r: Result<Arg>)
      requires Whole(1) && FittingStatement(t)
      modifies Repr
      ensures match PassSpec.Operand(old(now), t)
        case Ok(p) => r == Ok(p.1) && Whole(1) && now == p.0
        case Abort => r == Abort
        case Corrupt => r == Corrupt
      ensures fresh(Repr - old(Repr))
    {
      match t.op
      case Condition(e) => r := EvalSingle(e);
      case _ => r := Ok(Arg(0, false));
    }
  }

  /** The names of `us` have been read, and `env` holds them. */
  lemma EvaluateBy(s: Asm, s': Asm, env: M.Table, us: seq<Element>, es: seq<Element>)
    requires us == LocalizeAll(s.at, es) && s' == s.(syms := Read(s.syms, NamesOf(us)))
    requires EnvOf(env, s'.syms, s'.out) && NamesOf(us) <= env.Keys
    ensures Plain(env)
    ensures Evaluate(s, es) == match EvalItems(env, us)
      case Ok(vs) => Ok((s', if vs == [] then [Num(0, false)] else vs))
      case Abort => Abort
      case Corrupt => Corrupt
  {
    EnvsAgreeOn(env, s'.syms, s'.out, us);
    forall x | x in NamesOf(us) ensures Look(Env(s'.syms, s'.out), x) == Look(Env(s.syms, s.out), x) {
    }
    ItemsAgree(Env(s'.syms, s'.out), Env(s.syms, s.out), us);
  }
}
