/** What becomes of the next pass at a line of this one. It can be told from this pass and the
    symbols it leaves: from what the operands give when they are read with those symbols. */
module NextPass {
  import opened Results
  import opened Operators
  import opened Expressions
  import M = ExpressionMachine
  import opened DataSpec
  import opened LocalScopes
  import L = LineSpec
  import R = LineRefinement
  import opened PassSpec
  import opened PassFacts
  import opened Symbols
  import U = UnknownSoundness

  // ----- what a quiet pass leaves alone -----

  /** So far the pass has not asked for another one, and every ORG operand was known. */
  predicate Quiet(s: Asm) { Redo(s) == 0 && s.placed }

  /** Known; or read, in a pass where no EQU comes after a use of its symbol. */
  predicate Firm(y: Sym, early: bool) { !y.arg.unknown || (early && y.ref) }

  /** What is firm stays as it is. */
  ghost predicate Leads(a: Syms, b: Syms, early: bool) {
    forall x <- a :: x in b && (Firm(a[x], early) ==> Firm(b[x], early) && b[x].arg == a[x].arg)
  }

  lemma LeadsOn(a: Syms, b: Syms, c: Syms, early: bool)
    requires Leads(a, b, early) && Leads(b, c, early)
    ensures Leads(a, c, early)
  {}

  ghost predicate Ahead(s: State, last: Syms, early: bool) {
    s.Ok? && Quiet(s.value) && Leads(s.value.syms, last, early)
  }

  /** An EQU that defines a symbol already read while it was unknown. */
  predicate Late(s: Asm, t: Statement) {
    IsEqu(t) && match EvalOne(s, t.op.t)
      case Ok(p) =>
        var y := Before(p.0.syms, Key(s.at, t.name));
        y.arg.unknown && y.ref
      case _ => false
  }

  lemma LabelAhead(s: Asm, name: string, last: Syms, early: bool)
    requires !s.out.unknown && Ahead(Ok(ProgramLabel(s, name)), last, early)
    ensures Ahead(Ok(s), last, early) && ProgramLabel(s, name).out == s.out
  {
    LeadsOn(s.syms, ProgramLabel(s, name).syms, last, early);
  }

  lemma ReadLeads(syms: Syms, names: set<string>, early: bool)
    ensures Leads(syms, Read(syms, names), early)
  {}

  lemma EvaluateAhead(s: Asm, es: seq<Element>, last: Syms, early: bool)
    requires Evaluate(s, es).Ok? && Ahead(Ok(Evaluate(s, es).value.0), last, early)
    ensures Ahead(Ok(s), last, early) && Evaluate(s, es).value.0.out == s.out
  {
    var names := NamesOf(LocalizeAll(s.at, es));
    ReadLeads(s.syms, names, early);
    LeadsOn(s.syms, Read(s.syms, names), last, early);
  }

  lemma OneAhead(s: Asm, t: Tree, last: Syms, early: bool)
    requires EvalOne(s, t).Ok? && Ahead(Ok(EvalOne(s, t).value.0), last, early)
    ensures Ahead(Ok(s), last, early) && EvalOne(s, t).value.0.out == s.out
  {
    EvaluateAhead(s, [Expr(t)], last, early);
  }

  /** The operands of a DC, DS or instruction that asked for nothing. */
  ghost predicate Operated(s: Asm, es: seq<Element>, last: Syms, early: bool) {
    var r := Evaluate(s, es);
    r.Ok? && Ahead(Ok(r.value.0), last, early) && Unknowns(r.value.1) == 0
  }

  lemma OperatedAhead(s: Asm, name: string, es: seq<Element>, last: Syms, early: bool)
    requires !s.out.unknown && Operated(ProgramLabel(s, name), es, last, early)
    ensures Ahead(Ok(s), last, early)
  {
    EvaluateAhead(ProgramLabel(s, name), es, last, early);
    LabelAhead(s, name, last, early);
  }

  lemma DcAhead(c: Setup, s: Asm, name: string, es: seq<Element>, w: Width, last: Syms, early: bool)
    requires Ahead(VDc(c, s, name, es, w), last, early)
    ensures Operated(ProgramLabel(s, name), es, last, early)
  {
    var (s2, items) := Evaluate(ProgramLabel(s, name), es).value;
    DcGrows(c, s2.out, items, w);
  }

  lemma {:induction false} AsMany(table: M.Table, es: seq<Element>)
    requires EvalItems(table, es).Ok?
    ensures |EvalItems(table, es).value| == |es|
  {
    if es != [] {
      AsMany(table, es[1..]);
    }
  }

  lemma DsResolved(c: Setup, o: Out, items: seq<Item>, w: Width)
    requires 1 <= |items| <= 2 && FillDs(c, o, items, w).Ok? && FillDs(c, o, items, w).value.sink.redo == 0
    ensures Unknowns(items) == 0 && o.sink.redo == 0
  {
    var n, f := ArgOf(items[0]), if |items| < 2 then Arg(0, false) else ArgOf(items[1]);
    if !n.unknown {
      var o1 := BumpOut(o, Flag(f.unknown));
      FillGrows(Settings(c, o1), c.msb, At(o1), f.value, n.value, w);
    }
    UnknownsOfFew(items);
  }

  lemma UnknownsOfFew(items: seq<Item>)
    requires 1 <= |items| <= 2
    ensures Unknowns(items) == Flag(ArgOf(items[0]).unknown) + if |items| < 2 then 0 else Flag(ArgOf(items[1]).unknown)
  {
    if |items| == 2 {
      assert items[1..] == [items[1]] && [items[1]][1..] == [];
      assert Unknowns([items[1]]) == Flag(ArgOf(items[1]).unknown) + Unknowns([]);
    }
  }

  lemma DsAhead(c: Setup, s: Asm, name: string, count: Tree, filler: Option<Tree>, w: Width, last: Syms, early: bool)
    requires Ahead(VDs(c, s, name, count, filler, w), last, early)
    ensures Operated(ProgramLabel(s, name), Amounts(count, filler), last, early)
  {
    var s1 := ProgramLabel(s, name);
    var (s2, items) := Evaluate(s1, Amounts(count, filler)).value;
    AsMany(Env(s1.syms, s1.out), LocalizeAll(s1.at, Amounts(count, filler)));
    DsResolved(c, s2.out, items, if w == Swapped then ByteWidth else w);
  }

  lemma MnemonicAhead(c: Setup, s: Asm, name: string, i: Insn, last: Syms, early: bool)
    requires Ahead(VMnemonic(c, s, name, i), last, early)
    ensures Operated(ProgramLabel(s, name), Elements(i.args), last, early)
  {
    var (s2, items) := Evaluate(ProgramLabel(s, name), Elements(i.args)).value;
    InsnGrows(c, BumpOut(s2.out, Unknowns(items)), i, Args(items));
  }

  /** The state of an ORG before its label is defined. */
  function AtPlace(s: Asm, v: Arg): Asm {
    s.(out := s.out.(org := v.value % L.ULONG, unknown := v.unknown), placed := s.placed && !v.unknown)
  }

  lemma OrgAhead(s: Asm, name: string, t: Tree, last: Syms, early: bool)
    requires Ahead(VOrg(s, name, t), last, early)
    ensures Ahead(Ok(s), last, early) && Ahead(Ok(EvalOne(s, t).value.0), last, early)
    ensures !EvalOne(s, t).value.1.unknown && Ahead(Ok(AtPlace(EvalOne(s, t).value.0, EvalOne(s, t).value.1)), last, early)
  {
    var (s1, v) := EvalOne(s, t).value;
    assert VOrg(s, name, t) == Ok(ProgramLabel(AtPlace(s1, v), name));
    assert ProgramLabel(AtPlace(s1, v), name).placed == AtPlace(s1, v).placed;
    LabelAhead(AtPlace(s1, v), name, last, early);
    OneAhead(s, t, last, early);
  }

  lemma EquSymAhead(s: Asm, key: string, v: Arg, last: Syms, early: bool)
    requires Ahead(Ok(EquSym(s, key, v)), last, early)
    requires early ==> !(Before(s.syms, key).arg.unknown && Before(s.syms, key).ref)
    ensures Ahead(Ok(s), last, early)
  {
    LeadsOn(s.syms, EquSym(s, key, v).syms, last, early);
  }

  lemma EquAhead(s: Asm, name: string, t: Tree, last: Syms, early: bool)
    requires Ahead(VEqu(s, name, t), last, early) && (early ==> !Late(s, Statement(name, PassSpec.Equ(t))))
    ensures Ahead(Ok(s), last, early) && Ahead(Ok(EvalOne(s, t).value.0), last, early)
  {
    var (s1, v) := EvalOne(s, t).value;
    if name == "." || name == "*" {
      OrgAhead(s1, ".", t, last, early);
    } else {
      EquSymAhead(s1, Key(s1.at, name), v, last, early);
    }
    OneAhead(s, t, last, early);
  }

  lemma ExecuteAhead(c: Setup, s: Asm, t: Statement, last: Syms, early: bool)
    requires Ahead(Execute(c, s, t), last, early) && (!s.out.unknown || Placing(t) || Unplaced(t))
    requires early ==> !Late(s, t)
    ensures Ahead(Ok(s), last, early)
  {
    match t.op
    case NoOp => if t.name != "" { LabelAhead(s, t.name, last, early); }
    case Condition(_) => LabelAhead(s, t.name, last, early);
    case Dc(es, w) =>
      DcAhead(c, s, t.name, es, w, last, early);
      OperatedAhead(s, t.name, es, last, early);
    case Ds(count, filler, w) =>
      DsAhead(c, s, t.name, count, filler, w, last, early);
      OperatedAhead(s, t.name, Amounts(count, filler), last, early);
    case Org(e) => OrgAhead(s, t.name, e, last, early);
    case Equ(e) => EquAhead(s, t.name, e, last, early);
    case Mnem(i) =>
      MnemonicAhead(c, s, t.name, i, last, early);
      OperatedAhead(s, t.name, Elements(i.args), last, early);
    case Subr => LabelAhead(s.(at := OpenLocal(s.at)), t.name, last, early);
  }

  // ----- reading with the symbols the pass leaves -----

  function AtEnd(s: Asm, last: Syms): Asm { s.(syms := last) }

  /** What was known when it was read is the same when it is read with the last symbols, unless
      that divides by zero; and so is everything if no EQU was late. */
  lemma ReadAgain(s: Asm, es: seq<Element>, last: Syms, early: bool)
    requires Evaluate(s, es).Ok? && Ahead(Ok(Evaluate(s, es).value.0), last, early)
    ensures
      var (now, later) := (Evaluate(s, es), Evaluate(AtEnd(s, last), es));
      && (later.Ok? && Unknowns(now.value.1) == 0 ==> later.value.1 == now.value.1)
      && (early ==> later.Ok? && later.value.1 == now.value.1)
  {
    var us := LocalizeAll(s.at, es);
    var a, b := Env(s.syms, s.out), Env(last, s.out);
    EvaluateAhead(s, es, last, early);
    if early {
      forall x | x in NamesOf(us) ensures Look(a, x) == Look(b, x) {
        assert x != "." ==> x in Read(s.syms, NamesOf(us)) && Read(s.syms, NamesOf(us))[x].ref;
      }
      ItemsAgree(a, b, us);
    } else if EvalItems(b, us).Ok? {
      ItemsSound(a, b, us);
    }
  }

  lemma {:induction false} ItemsSound(a: M.Table, b: M.Table, es: seq<Element>)
    requires U.Settles(a, b) && EvalItems(a, es).Ok? && EvalItems(b, es).Ok?
    ensures Unknowns(EvalItems(a, es).value) == 0 ==> EvalItems(b, es).value == EvalItems(a, es).value
  {
    if es != [] {
      ItemsSound(a, b, es[1..]);
      if es[0].Expr? {
        U.TreeSound(a, b, M.MAX_RECURSION, es[0].t);
      }
    }
  }

  lemma OneAgain(s: Asm, t: Tree, last: Syms, early: bool)
    requires EvalOne(s, t).Ok? && Ahead(Ok(EvalOne(s, t).value.0), last, early)
    ensures
      var (now, later) := (EvalOne(s, t), EvalOne(AtEnd(s, last), t));
      && (later.Ok? ==> Resolves(now.value.1, later.value.1))
      && (early ==> later.Ok? && later.value.1 == now.value.1)
  {
    ReadAgain(s, [Expr(t)], last, early);
    OneItem(s, t);
    OneItem(AtEnd(s, last), t);
  }

  lemma OneItem(s: Asm, t: Tree)
    ensures Evaluate(s, [Expr(t)]).Ok? <==> EvalOne(s, t).Ok?
    ensures EvalOne(s, t).Ok? ==>
      var v := EvalOne(s, t).value.1;
      Evaluate(s, [Expr(t)]).value.1 == [Num(v.value, v.unknown)] && Unknowns([Num(v.value, v.unknown)]) == Flag(v.unknown)
  {
    var us := LocalizeAll(s.at, [Expr(t)]);
    assert us == [Expr(Localize(s.at, t))] && us[1..] == [];
    assert EvalItems(Env(s.syms, s.out), us[1..]) == Ok([]);
    if EvalOne(s, t).Ok? {
      var v := EvalOne(s, t).value.1;
      assert [Num(v.value, v.unknown)][1..] == [];
    }
  }

  // ----- the condition -----

  /** The operands of a statement, as it reads them, can be read with the last symbols. */
  predicate StatementReadable(s: Asm, t: Statement, last: Syms) {
    t.op.Condition? ||
    Evaluate(AtEnd(if t.op.Org? || t.op.Equ? then s else ProgramLabel(s, t.name), last), ElementsOf(t)).Ok?
  }

  /** And an EQU gives its symbol, so read, what the symbol has at the end. */
  predicate StatementHolds(s: Asm, t: Statement, last: Syms) {
    && StatementReadable(s, t, last)
    && (IsEqu(t) ==> OneItemIs(EvalOne(AtEnd(s, last), t.op.t), Before(last, Key(s.at, t.name)).arg))
  }

  predicate OneItemIs(r: Result<(Asm, Arg)>, v: Arg) { r.Ok? && r.value.1 == v }

  /** The operand of an IF or REPEAT line, with the last symbols. */
  function OperandAgain(s: Asm, t: Statement, last: Syms): Result<(Asm, Arg)> {
    PassSpec.Operand(AtEnd(ProgramLabel(s, t.name), last), t)
  }

  predicate Zero(r: Result<(Asm, Arg)>) { r.Ok? && r.value.1.value == 0 }

  predicate Executed(f: Reader, line: L.Line<Statement>) {
    f.ifs != [] && L.Active(f.ifs) && f.s.Ok? && (line.Plain? || line.If? || line.Repeat?)
  }

  /** No operand of the line divides by zero when it is read with the last symbols. */
  predicate LineReadable(f: Reader, line: L.Line<Statement>, last: Syms) {
    Executed(f, line) ==>
      if line.Plain? then StatementReadable(f.s.value, line.t, last) else OperandAgain(f.s.value, line.t, last).Ok?
  }

  /** The line, read again with the symbols the pass leaves: its operands can be read, an EQU
      gives what its symbol has, and a REPEAT that was passed over is passed over. */
  predicate LineHolds(f: Reader, line: L.Line<Statement>, last: Syms) {
    && LineReadable(f, line, last)
    && (Executed(f, line) && line.Plain? ==> StatementHolds(f.s.value, line.t, last))
    && (Executed(f, line) && line.Repeat? ==>
        (Zero(OperandAgain(f.s.value, line.t, last)) <==> Zero(PassSpec.Operand(ProgramLabel(f.s.value, line.t.name), line.t))))
  }

  /** The symbol of an EQU is known at the end. */
  predicate EquDecided(f: Reader, line: L.Line<Statement>, last: Syms) {
    Executed(f, line) && line.Plain? && IsEqu(line.t) ==> !Before(last, Key(f.s.value.at, line.t.name)).arg.unknown
  }

  /** The operand of an EQU is known. */
  predicate EquKnown(f: Reader, line: L.Line<Statement>) {
    Executed(f, line) && line.Plain? && IsEqu(line.t) && EvalOne(f.s.value, line.t.op.t).Ok? ==>
      !EvalOne(f.s.value, line.t.op.t).value.1.unknown
  }

  /** The operand of a REPEAT is known. */
  predicate CountKnown(f: Reader, line: L.Line<Statement>) {
    Executed(f, line) && line.Repeat? && PassSpec.Operand(ProgramLabel(f.s.value, line.t.name), line.t).Ok? ==>
      !PassSpec.Operand(ProgramLabel(f.s.value, line.t.name), line.t).value.1.unknown
  }

  /** No EQU of the line is late. */
  predicate Early(f: Reader, line: L.Line<Statement>) {
    Executed(f, line) && line.Plain? ==> !Late(f.s.value, line.t)
  }

  // ----- the next pass -----

  /** r is where the next pass is when this one is at s: it differs only in its symbols, which
      have the values they have at the end of this pass, and in an origin that is not known. */
  ghost predicate Mirrors(s: Asm, r: Asm, last: Syms) {
    && r == s.(syms := r.syms, out := s.out.(org := r.out.org)) && (s.out.unknown || r.out.org == s.out.org)
    && Values(r.syms) == Values(last)
  }

  /** The next pass has ended, or asked for another one. */
  predicate Doomed(r: State) { r.Ok? ==> Redo(r.value) != 0 }

  ghost predicate Mirrored(s: State, r: State, last: Syms) { s.Ok? && r.Ok? && Mirrors(s.value, r.value, last) }

  lemma ValueIn(a: Syms, b: Syms, x: string)
    requires Values(a) == Values(b)
    ensures x in a <==> x in b
    ensures x in a ==> a[x].arg == b[x].arg
  {
    assert x in Values(a) <==> x in Values(b);
    if x in a {
      assert Values(a)[x] == Values(b)[x];
    }
  }

  lemma LabelMirrors(s: Asm, r: Asm, name: string, last: Syms)
    requires !s.out.unknown && Ahead(Ok(ProgramLabel(s, name)), last, false) && Mirrors(s, r, last)
    ensures Mirrors(ProgramLabel(s, name), ProgramLabel(r, name), last)
  {
    if name != "" && name != "." {
      var at := OnLabel(s.at, name);
      var key := Key(at, name);
      var s', r' := ProgramLabel(s, name), ProgramLabel(r, name);
      assert s'.syms[key].arg == Pc(s.out);
      ValueIn(r.syms, last, key);
      assert Values(r'.syms) == Values(r.syms);
    }
  }

  /** Only values and the origin are read. */
  lemma SameEnv(a: Syms, b: Syms, o: Out)
    requires Values(a) == Values(b)
    ensures Env(a, o) == Env(b, o)
  {
    forall x ensures x in a <==> x in b ensures x in a ==> a[x].arg == b[x].arg {
      ValueIn(a, b, x);
    }
  }

  lemma ReadKeeps(a: Syms, b: Syms, names: set<string>, last: Syms)
    requires Leads(Read(a, names), last, false) && Values(b) == Values(last)
    ensures Values(Read(b, names)) == Values(b)
  {
    forall x | x in names && x != "." ensures x in b {
      assert x in Read(a, names);
      ValueIn(b, last, x);
    }
    assert Read(b, names).Keys == b.Keys;
  }

  /** The next pass reads what is read with the last symbols. */
  lemma EvaluateMirrors(s: Asm, r: Asm, es: seq<Element>, last: Syms)
    requires Evaluate(s, es).Ok? && Ahead(Ok(Evaluate(s, es).value.0), last, false)
    requires Mirrors(s, r, last) && r.out.org == s.out.org
    ensures Evaluate(r, es).Ok? <==> Evaluate(AtEnd(s, last), es).Ok?
    ensures Evaluate(r, es).Ok? ==>
      && Evaluate(r, es).value.1 == Evaluate(AtEnd(s, last), es).value.1
      && Mirrors(Evaluate(s, es).value.0, Evaluate(r, es).value.0, last)
      && Evaluate(r, es).value.0.out == Evaluate(s, es).value.0.out
  {
    SameEnv(r.syms, last, s.out);
    ReadKeeps(s.syms, r.syms, NamesOf(LocalizeAll(s.at, es)), last);
  }

  lemma OneMirrors(s: Asm, r: Asm, t: Tree, last: Syms)
    requires EvalOne(s, t).Ok? && Ahead(Ok(EvalOne(s, t).value.0), last, false)
    requires Mirrors(s, r, last) && r.out.org == s.out.org
    ensures EvalOne(r, t).Ok? <==> EvalOne(AtEnd(s, last), t).Ok?
    ensures EvalOne(r, t).Ok? ==>
      && EvalOne(r, t).value.1 == EvalOne(AtEnd(s, last), t).value.1
      && Mirrors(EvalOne(s, t).value.0, EvalOne(r, t).value.0, last)
      && EvalOne(r, t).value.0.out == EvalOne(s, t).value.0.out
  {
    EvaluateMirrors(s, r, [Expr(t)], last);
  }

  /** A label and operands that asked for nothing: the next pass comes to the same items, or
      ends where they cannot be read. */
  lemma OperandsMirror(s: Asm, r: Asm, name: string, es: seq<Element>, last: Syms)
    requires !s.out.unknown && Operated(ProgramLabel(s, name), es, last, false) && Mirrors(s, r, last)
    ensures
      var now := Evaluate(ProgramLabel(s, name), es);
      var next := Evaluate(ProgramLabel(r, name), es);
      && (next.Ok? <==> Evaluate(AtEnd(ProgramLabel(s, name), last), es).Ok?)
      && (next.Ok? ==> next.value.1 == now.value.1 && Mirrors(now.value.0, next.value.0, last) && next.value.0.out == now.value.0.out)
  {
    EvaluateAhead(ProgramLabel(s, name), es, last, false);
    LabelMirrors(s, r, name, last);
    EvaluateMirrors(ProgramLabel(s, name), ProgramLabel(r, name), es, last);
    ReadAgain(ProgramLabel(s, name), es, last, false);
  }

  lemma OutMirrors(s: Asm, r: Asm, o: Result<Out>, last: Syms)
    requires Mirrors(s, r, last) && r.out == s.out && WithOut(s, o).Ok?
    ensures Mirrored(WithOut(s, o), WithOut(r, o), last)
  {}

  lemma DcMirrors(c: Setup, s: Asm, r: Asm, name: string, es: seq<Element>, w: Width, last: Syms)
    requires !s.out.unknown && Ahead(VDc(c, s, name, es, w), last, false) && Mirrors(s, r, last)
    ensures if Evaluate(AtEnd(ProgramLabel(s, name), last), es).Ok?
      then Mirrored(VDc(c, s, name, es, w), VDc(c, r, name, es, w), last) else !VDc(c, r, name, es, w).Ok?
  {
    DcAhead(c, s, name, es, w, last, false);
    OperandsMirror(s, r, name, es, last);
    var now, next := Evaluate(ProgramLabel(s, name), es), Evaluate(ProgramLabel(r, name), es);
    if next.Ok? {
      OutMirrors(now.value.0, next.value.0, EmitDc(c, now.value.0.out, now.value.1, w), last);
    }
  }

  lemma DsMirrors(c: Setup, s: Asm, r: Asm, name: string, count: Tree, filler: Option<Tree>, w: Width, last: Syms)
    requires !s.out.unknown && Ahead(VDs(c, s, name, count, filler, w), last, false) && Mirrors(s, r, last)
    ensures if Evaluate(AtEnd(ProgramLabel(s, name), last), Amounts(count, filler)).Ok?
      then Mirrored(VDs(c, s, name, count, filler, w), VDs(c, r, name, count, filler, w), last)
      else !VDs(c, r, name, count, filler, w).Ok?
  {
    DsAhead(c, s, name, count, filler, w, last, false);
    OperandsMirror(s, r, name, Amounts(count, filler), last);
    var now, next := Evaluate(ProgramLabel(s, name), Amounts(count, filler)), Evaluate(ProgramLabel(r, name), Amounts(count, filler));
    if next.Ok? {
      OutMirrors(now.value.0, next.value.0, FillDs(c, now.value.0.out, now.value.1, if w == Swapped then ByteWidth else w), last);
    }
  }

  lemma MnemonicMirrors(c: Setup, s: Asm, r: Asm, name: string, i: Insn, last: Syms)
    requires !s.out.unknown && Ahead(VMnemonic(c, s, name, i), last, false) && Mirrors(s, r, last)
    ensures if Evaluate(AtEnd(ProgramLabel(s, name), last), Elements(i.args)).Ok?
      then Mirrored(VMnemonic(c, s, name, i), VMnemonic(c, r, name, i), last) else !VMnemonic(c, r, name, i).Ok?
  {
    MnemonicAhead(c, s, name, i, last, false);
    OperandsMirror(s, r, name, Elements(i.args), last);
    var now, next := Evaluate(ProgramLabel(s, name), Elements(i.args)), Evaluate(ProgramLabel(r, name), Elements(i.args));
    if next.Ok? {
      OutMirrors(now.value.0, next.value.0, EmitInsn(c, BumpOut(now.value.0.out, Unknowns(now.value.1)), i, Args(now.value.1)), last);
    }
  }

  lemma DataMirrors(c: Setup, s: Asm, r: Asm, t: Statement, last: Syms)
    requires !s.out.unknown && Ahead(Execute(c, s, t), last, false) && Mirrors(s, r, last)
    requires t.op.Dc? || t.op.Ds? || t.op.Mnem?
    ensures if StatementReadable(s, t, last) then Mirrored(Execute(c, s, t), Execute(c, r, t), last) else !Execute(c, r, t).Ok?
  {
    match t.op
    case Dc(es, w) => DcMirrors(c, s, r, t.name, es, w, last);
    case Ds(count, filler, w) => DsMirrors(c, s, r, t.name, count, filler, w, last);
    case Mnem(i) => MnemonicMirrors(c, s, r, t.name, i, last);
  }

  lemma OrgMirrors(s: Asm, r: Asm, name: string, t: Tree, last: Syms)
    requires Ahead(VOrg(s, name, t), last, false) && Mirrors(s, r, last) && r.out.org == s.out.org
    ensures if EvalOne(AtEnd(s, last), t).Ok? then Mirrored(VOrg(s, name, t), VOrg(r, name, t), last) else !VOrg(r, name, t).Ok?
  {
    OrgAhead(s, name, t, last, false);
    OneMirrors(s, r, t, last);
    OneAgain(s, t, last, false);
    if EvalOne(r, t).Ok? {
      var (s1, v) := EvalOne(s, t).value;
      var r1 := EvalOne(r, t).value.0;
      LabelMirrors(AtPlace(s1, v), AtPlace(r1, v), name, last);
    }
  }

  /** An EQU in the next pass finds what its symbol has at the end of this one. */
  lemma EquSymMirrors(s: Asm, r: Asm, key: string, v: Arg, v': Arg, last: Syms)
    requires Ahead(Ok(EquSym(s, key, v)), last, false) && Mirrors(s, r, last)
    ensures v' == Before(last, key).arg ==> Mirrors(EquSym(s, key, v), EquSym(r, key, v'), last)
    ensures v' != Before(last, key).arg && !Before(last, key).arg.unknown ==> Redo(EquSym(r, key, v')) != 0
  {
    assert key in EquSym(s, key, v).syms;
    ValueIn(r.syms, last, key);
    if v' == Before(last, key).arg {
      assert Values(EquSym(r, key, v').syms) == Values(r.syms);
    }
  }

  lemma EquMirrors(s: Asm, r: Asm, name: string, t: Tree, last: Syms)
    requires Ahead(VEqu(s, name, t), last, false) && Mirrors(s, r, last) && r.out.org == s.out.org
    requires name != "." && name != "*"
    ensures
      var (later, v) := (EvalOne(AtEnd(s, last), t), Before(last, Key(s.at, name)).arg);
      && (OneItemIs(later, v) ==> Mirrored(VEqu(s, name, t), VEqu(r, name, t), last))
      && (!OneItemIs(later, v) && !v.unknown ==> Doomed(VEqu(r, name, t)))
      && (!later.Ok? ==> !VEqu(r, name, t).Ok?)
  {
    var (s1, v) := EvalOne(s, t).value;
    EquAhead(s, name, t, last, false);
    OneMirrors(s, r, t, last);
    if EvalOne(r, t).Ok? {
      var (r1, v') := EvalOne(r, t).value;
      EquSymMirrors(s1, r1, Key(s1.at, name), v, v', last);
    }
  }

  lemma OriginEquMirrors(s: Asm, r: Asm, name: string, t: Tree, last: Syms)
    requires Ahead(VEqu(s, name, t), last, false) && Mirrors(s, r, last) && r.out.org == s.out.org
    requires name == "." || name == "*"
    ensures if EvalOne(AtEnd(s, last), t).Ok? then Mirrored(VEqu(s, name, t), VEqu(r, name, t), last) else !VEqu(r, name, t).Ok?
  {
    var s1 := EvalOne(s, t).value.0;
    EquAhead(s, name, t, last, false);
    OneMirrors(s, r, t, last);
    if EvalOne(r, t).Ok? {
      OrgMirrors(s1, EvalOne(r, t).value.0, ".", t, last);
    }
  }

  /** What becomes of the next pass at a statement. */
  ghost predicate Follows(c: Setup, s: Asm, r: Asm, t: Statement, last: Syms) {
    && (StatementHolds(s, t, last) ==> Mirrored(Execute(c, s, t), Execute(c, r, t), last))
    && (!StatementHolds(s, t, last) && (IsEqu(t) ==> !Before(last, Key(s.at, t.name)).arg.unknown) ==> Doomed(Execute(c, r, t)))
    && (!StatementReadable(s, t, last) ==> !Execute(c, r, t).Ok?)
  }

  lemma EquFollows(c: Setup, s: Asm, r: Asm, t: Statement, last: Syms)
    requires t.op.Equ? && Ahead(Execute(c, s, t), last, false) && Mirrors(s, r, last) && r.out.org == s.out.org
    ensures Follows(c, s, r, t, last)
  {
    OneItem(AtEnd(s, last), t.op.t);
    if IsEqu(t) {
      EquMirrors(s, r, t.name, t.op.t, last);
    } else {
      OriginEquMirrors(s, r, t.name, t.op.t, last);
    }
  }

  lemma OrgFollows(c: Setup, s: Asm, r: Asm, t: Statement, last: Syms)
    requires t.op.Org? && Ahead(Execute(c, s, t), last, false) && Mirrors(s, r, last) && r.out.org == s.out.org
    ensures Follows(c, s, r, t, last)
  {
    OneItem(AtEnd(s, last), t.op.t);
    OrgMirrors(s, r, t.name, t.op.t, last);
  }

  lemma LabelFollows(c: Setup, s: Asm, r: Asm, t: Statement, last: Syms)
    requires !s.out.unknown && Ahead(Execute(c, s, t), last, false) && Mirrors(s, r, last)
    requires t.op.NoOp? || t.op.Condition? || t.op.Subr?
    ensures Follows(c, s, r, t, last)
  {
    if t.op.Subr? {
      LabelMirrors(s.(at := OpenLocal(s.at)), r.(at := OpenLocal(r.at)), t.name, last);
    } else {
      LabelMirrors(s, r, t.name, last);
    }
    assert LocalizeAll(ProgramLabel(s, t.name).at, []) == [];
  }

  lemma ExecuteFollows(c: Setup, s: Asm, r: Asm, t: Statement, last: Syms)
    requires Ahead(Execute(c, s, t), last, false) && Mirrors(s, r, last) && r.out.org == s.out.org
    requires !s.out.unknown || t.op.Org? || t.op.Equ?
    ensures Follows(c, s, r, t, last)
  {
    match t.op
    case Org(_) => OrgFollows(c, s, r, t, last);
    case Equ(_) => EquFollows(c, s, r, t, last);
    case Dc(_, _) => DataMirrors(c, s, r, t, last);
    case Ds(_, _, _) => DataMirrors(c, s, r, t, last);
    case Mnem(_) => DataMirrors(c, s, r, t, last);
    case _ => LabelFollows(c, s, r, t, last);
  }

  /** Before the first ORG the next pass has an origin of its own. */
  lemma PrologueFollows(c: Setup, s: Asm, r: Asm, t: Statement, last: Syms)
    requires s.out.unknown && Ahead(Execute(c, s, t), last, false) && Mirrors(s, r, last) && (Placing(t) || Unplaced(t))
    ensures Follows(c, s, r, t, last)
  {
    var r0 := AtOrg(r, s.out.org);
    assert AtOrg(r0, r.out.org) == r;
    if t.op.NoOp? {
      assert LocalizeAll(ProgramLabel(s, t.name).at, []) == [];
    } else {
      ExecuteFollows(c, s, r0, t, last);
      if Placing(t) {
        PlacingElsewhere(c, r0, r.out.org, t);
      } else {
        EquFollowsElsewhere(c, s, r0, r.out.org, t, last);
      }
    }
  }

  lemma EquFollowsElsewhere(c: Setup, s: Asm, r: Asm, org: nat, t: Statement, last: Syms)
    requires s.out.unknown && Unplaced(t) && t.op.Equ? && Execute(c, s, t).Ok? && Follows(c, s, r, t, last)
    ensures Follows(c, s, AtOrg(r, org), t, last)
  {
    UnplacedElsewhere(c, r, org, t);
    EquUnplaced(s, t.name, t.op.t);
  }

  lemma EquUnplaced(s: Asm, name: string, t: Tree)
    requires name != "." && name != "*" && VEqu(s, name, t).Ok?
    ensures VEqu(s, name, t).value.out.unknown == s.out.unknown
  {}

  // ----- lines -----

  /** The two passes read the same line with the same stacks. */
  ghost predicate Same(f: Reader, g: Reader, last: Syms) { g == f.(s := g.s) && Mirrored(f.s, g.s, last) }

  /** What becomes of the next pass at a line that leads from f to f1, and there to g1. */
  ghost predicate Verdict(f: Reader, line: L.Line<Statement>, f1: Reader, g1: Reader, last: Syms) {
    && (LineHolds(f, line, last) ==> Same(f1, g1, last))
    && (!LineReadable(f, line, last) ==> !g1.s.Ok?)
    && (!LineHolds(f, line, last) && EquDecided(f, line, last) ==> Doomed(g1.s) || (!CountKnown(f, line) && g1.ifs != f1.ifs))
  }

  lemma DefineAhead(s: State, t: Statement, last: Syms, early: bool)
    requires Known(s) && Ahead(OnDefine(s, t), last, early)
    ensures Ahead(s, last, early)
  {
    LabelAhead(s.value, t.name, last, early);
  }

  lemma DecideAhead(s: State, t: Statement, last: Syms, early: bool)
    requires Known(s) && Ahead(Decide(s, t).0, last, early)
    ensures Ahead(s, last, early) && Ahead(OnDefine(s, t), last, early)
  {
    if t.op.Condition? {
      OneAhead(OnDefine(s, t).value, t.op.t, last, early);
    }
    DefineAhead(s, t, last, early);
  }

  lemma HandleAhead(c: Setup, line: L.Line<Statement>, f: Reader, last: Syms, early: bool)
    requires f.ifs != [] && Known(f.s) && Ahead(L.Handle(Handlers(c), line, f).s, last, early)
    requires early ==> Early(f, line)
    ensures Ahead(f.s, last, early)
  {
    var t := line.t;
    assert Handlers(c).plain(f.s, t) == OnPlain(c, f.s, t);
    assert Handlers(c).eval(Handlers(c).define(f.s, t), t) == Decide(f.s, t);
    assert Handlers(c).define(f.s, t) == OnDefine(f.s, t);
    match line
    case Plain(_) => if L.Active(f.ifs) { ExecuteAhead(c, f.s.value, t, last, early); }
    case If(_) => if L.Active(f.ifs) { DecideAhead(f.s, t, last, early); }
    case Repeat(_) => if L.Active(f.ifs) { DecideAhead(f.s, t, last, early); }
    case _ =>
      if !Ahead(f.s, last, early) {
        DefineAhead(f.s, t, last, early);
      }
  }

  lemma DefineMirrors(s: State, r: State, t: Statement, last: Syms)
    requires Known(s) && Ahead(OnDefine(s, t), last, false) && Mirrored(s, r, last)
    ensures Mirrored(OnDefine(s, t), OnDefine(r, t), last)
  {
    LabelMirrors(s.value, r.value, t.name, last);
  }

  lemma DecideMirrors(s: State, r: State, t: Statement, last: Syms)
    requires Known(s) && Ahead(Decide(s, t).0, last, false) && Mirrored(s, r, last)
    ensures
      var later := OperandAgain(s.value, t, last);
      if later.Ok? then
        && Mirrored(Decide(s, t).0, Decide(r, t).0, last)
        && Decide(r, t).1 == later.value.1 && Resolves(Decide(s, t).1, later.value.1)
      else !Decide(r, t).0.Ok?
  {
    DecideAhead(s, t, last, false);
    DefineMirrors(s, r, t, last);
    if t.op.Condition? {
      var s1, r1 := OnDefine(s, t).value, OnDefine(r, t).value;
      OneAhead(s1, t.op.t, last, false);
      OneMirrors(s1, r1, t.op.t, last);
      OneAgain(s1, t.op.t, last, false);
    }
  }

  lemma IfFollows(c: Setup, f: Reader, g: Reader, t: Statement, last: Syms)
    requires f.ifs != [] && Known(f.s) && Ahead(L.DoIf(Handlers(c), f, t).s, last, false) && Same(f, g, last)
    ensures Verdict(f, L.If(t), L.DoIf(Handlers(c), f, t), L.DoIf(Handlers(c), g, t), last)
  {
    assert Handlers(c).eval(Handlers(c).define(f.s, t), t) == Decide(f.s, t);
    assert Handlers(c).eval(Handlers(c).define(g.s, t), t) == Decide(g.s, t);
    if L.Active(f.ifs) {
      DecideMirrors(f.s, g.s, t, last);
    }
  }

  /** A REPEAT whose label and operand come to d. */
  function Entered(f: Reader, d: (State, Arg)): Reader
    requires f.ifs != []
  {
    if d.1.value == 0 then f.(ifs := L.PushIf(f.ifs, false), s := d.0)
    else
      f.(ifs := L.PushIf(f.ifs, true), loops := f.loops + [L.Loop(d.1.value % L.ULONG, f.pc, d.1.unknown)],
         s := if d.1.unknown then OnRedo(d.0) else d.0)
  }

  lemma RepeatEnters(c: Setup, f: Reader, t: Statement)
    requires f.ifs != [] && L.Active(f.ifs)
    ensures L.DoRepeat(Handlers(c), f, t) == Entered(f, Decide(f.s, t))
  {
    assert Handlers(c).eval(Handlers(c).define(f.s, t), t) == Decide(f.s, t);
  }

  lemma EnteredSame(f: Reader, g: Reader, d: (State, Arg), e: (State, Arg), last: Syms)
    requires f.ifs != [] && Same(f, g, last) && Ahead(Entered(f, d).s, last, false)
    requires Mirrored(d.0, e.0, last) && Resolves(d.1, e.1)
    ensures (d.1.value == 0 <==> e.1.value == 0) ==> Same(Entered(f, d), Entered(g, e), last)
    ensures (d.1.value == 0 <==> e.1.value == 0) || (d.1.unknown && Entered(g, e).ifs != Entered(f, d).ifs)
  {
    assert d.1.value == 0 || !d.1.unknown;
    var none, some := L.IfFrame(false, L.Active(f.ifs)), L.IfFrame(true, L.Active(f.ifs));
    assert (f.ifs + [none])[|f.ifs|] != (f.ifs + [some])[|f.ifs|];
  }

  lemma RepeatFollows(c: Setup, f: Reader, g: Reader, t: Statement, last: Syms)
    requires f.ifs != [] && Known(f.s) && Ahead(L.DoRepeat(Handlers(c), f, t).s, last, false) && Same(f, g, last)
    ensures Verdict(f, L.Repeat(t), L.DoRepeat(Handlers(c), f, t), L.DoRepeat(Handlers(c), g, t), last)
  {
    if L.Active(f.ifs) {
      RepeatEnters(c, f, t);
      RepeatEnters(c, g, t);
      ActiveRepeatFollows(f, g, t, last);
    }
  }

  lemma ActiveRepeatFollows(f: Reader, g: Reader, t: Statement, last: Syms)
    requires f.ifs != [] && L.Active(f.ifs) && Known(f.s) && Same(f, g, last)
    requires Ahead(Entered(f, Decide(f.s, t)).s, last, false)
    ensures Verdict(f, L.Repeat(t), Entered(f, Decide(f.s, t)), Entered(g, Decide(g.s, t)), last)
  {
    var d, e := Decide(f.s, t), Decide(g.s, t);
    DecideMirrors(f.s, g.s, t, last);
    if OperandAgain(f.s.value, t, last).Ok? {
      EnteredSame(f, g, d, e, last);
    }
  }

  lemma EndifFollows(c: Setup, f: Reader, g: Reader, t: Statement, last: Syms)
    requires f.ifs != [] && Known(f.s) && Ahead(L.DoEndif(Handlers(c), f, t).s, last, false) && Same(f, g, last)
    ensures Same(L.DoEndif(Handlers(c), f, t), L.DoEndif(Handlers(c), g, t), last)
  {
    if |f.ifs| != 1 && L.Top(f.ifs).acctrue {
      DefineMirrors(f.s, g.s, t, last);
    }
  }

  lemma ElseFollows(c: Setup, f: Reader, g: Reader, t: Statement, last: Syms)
    requires f.ifs != [] && Known(f.s) && Ahead(L.DoElse(Handlers(c), f, t).s, last, false) && Same(f, g, last)
    ensures Same(L.DoElse(Handlers(c), f, t), L.DoElse(Handlers(c), g, t), last)
  {
    if |f.ifs| != 1 && L.Top(f.ifs).acctrue {
      DefineMirrors(f.s, g.s, t, last);
    }
  }

  /** The REPEND of a loop with turns left. */
  predicate TurnsLeft(f: Reader) {
    f.loops != [] && var loop := f.loops[|f.loops| - 1]; !loop.unknown && (loop.count - 1) % L.ULONG != 0
  }

  function Turned(f: Reader): Reader
    requires f.loops != []
  {
    var loop := f.loops[|f.loops| - 1];
    f.(loops := L.Pop(f.loops) + [loop.(count := (loop.count - 1) % L.ULONG)], pc := loop.seek)
  }

  lemma RependCases(c: Setup, f: Reader, t: Statement)
    requires f.ifs != []
    ensures L.DoRepend(Handlers(c), f, t) ==
      if !L.Active(f.ifs) then L.DoEndif(Handlers(c), f, t)
      else if f.loops == [] then f
      else if TurnsLeft(f) then Turned(f)
      else L.DoEndif(Handlers(c), f.(loops := L.Pop(f.loops)), t)
  {}

  lemma RependFollows(c: Setup, f: Reader, g: Reader, t: Statement, last: Syms)
    requires f.ifs != [] && Known(f.s) && Ahead(L.DoRepend(Handlers(c), f, t).s, last, false) && Same(f, g, last)
    ensures Same(L.DoRepend(Handlers(c), f, t), L.DoRepend(Handlers(c), g, t), last)
  {
    RependCases(c, f, t);
    RependCases(c, g, t);
    if !L.Active(f.ifs) {
      EndifFollows(c, f, g, t, last);
    } else if f.loops != [] && !TurnsLeft(f) {
      var f1, g1 := f.(loops := L.Pop(f.loops)), g.(loops := L.Pop(g.loops));
      assert Same(f1, g1, last);
      EndifFollows(c, f1, g1, t, last);
    }
  }

  lemma PlainFollows(c: Setup, f: Reader, g: Reader, t: Statement, last: Syms)
    requires f.ifs != [] && Ahead(L.Handle(Handlers(c), L.Plain(t), f).s, last, false) && Same(f, g, last)
    requires Known(f.s) || ((Placing(t) || Unplaced(t)) && f.ifs == [L.TOP_LEVEL])
    ensures Verdict(f, L.Plain(t), L.Handle(Handlers(c), L.Plain(t), f), L.Handle(Handlers(c), L.Plain(t), g), last)
  {
    assert Handlers(c).plain(f.s, t) == OnPlain(c, f.s, t);
    assert Handlers(c).plain(g.s, t) == OnPlain(c, g.s, t);
    if L.Active(f.ifs) {
      if f.s.value.out.unknown {
        PrologueFollows(c, f.s.value, g.s.value, t, last);
      } else {
        ExecuteFollows(c, f.s.value, g.s.value, t, last);
      }
    }
  }

  lemma HandleFollows(c: Setup, line: L.Line<Statement>, f: Reader, g: Reader, last: Syms)
    requires f.ifs != [] && Known(f.s) && Ahead(L.Handle(Handlers(c), line, f).s, last, false) && Same(f, g, last)
    ensures Verdict(f, line, L.Handle(Handlers(c), line, f), L.Handle(Handlers(c), line, g), last)
  {
    match line
    case Plain(t) => PlainFollows(c, f, g, t, last);
    case If(t) => IfFollows(c, f, g, t, last);
    case Else(t) => ElseFollows(c, f, g, t, last);
    case Endif(t) => EndifFollows(c, f, g, t, last);
    case Repeat(t) => RepeatFollows(c, f, g, t, last);
    case Repend(t) => RependFollows(c, f, g, t, last);
  }

  // ----- runs -----

  predicate Reading(lines: seq<L.Line<Statement>>, f: Reader) { f.ifs != [] && f.pc < |lines| }

  lemma NextAhead(c: Setup, lines: seq<L.Line<Statement>>, f: Reader, last: Syms, early: bool)
    requires Placeable(lines, f) && Ahead(L.Next(Handlers(c), lines, f).s, last, early)
    requires early && Reading(lines, f) ==> Early(f, lines[f.pc])
    ensures Ahead(f.s, last, early)
  {
    R.NextHandles(Handlers(c), lines, f);
    if Reading(lines, f) {
      if Known(f.s) {
        HandleAhead(c, lines[f.pc], f.(pc := f.pc + 1), last, early);
      } else {
        PlainNext(c, lines, f);
        ExecuteAhead(c, f.s.value, lines[f.pc].t, last, early);
      }
    }
  }

  lemma NextFollows(c: Setup, lines: seq<L.Line<Statement>>, f: Reader, f1: Reader, g: Reader, g1: Reader, last: Syms)
    requires f1 == L.Next(Handlers(c), lines, f) && g1 == L.Next(Handlers(c), lines, g)
    requires Placeable(lines, f) && Ahead(f1.s, last, false) && Same(f, g, last)
    ensures if Reading(lines, f) then Verdict(f, lines[f.pc], f1, g1, last) else Same(f1, g1, last)
  {
    R.NextHandles(Handlers(c), lines, f);
    R.NextHandles(Handlers(c), lines, g);
    if Reading(lines, f) {
      var f0, g0 := f.(pc := f.pc + 1), g.(pc := g.pc + 1);
      assert Same(f0, g0, last);
      if Known(f.s) {
        HandleFollows(c, lines[f.pc], f0, g0, last);
      } else {
        PlainFollows(c, f0, g0, lines[f.pc].t, last);
      }
      SameVerdict(f0, f, lines[f.pc], f1, g1, last);
    }
  }

  lemma SameVerdict(f0: Reader, f: Reader, line: L.Line<Statement>, f1: Reader, g1: Reader, last: Syms)
    requires f0.s == f.s && f0.ifs == f.ifs && Verdict(f0, line, f1, g1, last)
    ensures Verdict(f, line, f1, g1, last)
  {}

  lemma EquKnownHolds(s: Asm, t: Statement, last: Syms)
    requires IsEqu(t) && Ahead(VEqu(s, t.name, t.op.t), last, false) && !EvalOne(s, t.op.t).value.1.unknown
    ensures Before(last, Key(s.at, t.name)).arg == EvalOne(s, t.op.t).value.1
    ensures StatementReadable(s, t, last) ==> StatementHolds(s, t, last)
  {
    EquAhead(s, t.name, t.op.t, last, false);
    OneAgain(s, t.op.t, last, false);
    OneItem(AtEnd(s, last), t.op.t);
    assert Key(s.at, t.name) in VEqu(s, t.name, t.op.t).value.syms;
  }

  lemma CountKnownHolds(f: Reader, t: Statement, last: Syms)
    requires f.s.Ok? && Known(f.s) && Ahead(Decide(f.s, t).0, last, false) && !Decide(f.s, t).1.unknown
    ensures OperandAgain(f.s.value, t, last).Ok? ==>
      (Zero(OperandAgain(f.s.value, t, last)) <==> Zero(PassSpec.Operand(ProgramLabel(f.s.value, t.name), t)))
  {
    if t.op.Condition? {
      DecideAhead(f.s, t, last, false);
      OneAgain(ProgramLabel(f.s.value, t.name), t.op.t, last, false);
    }
  }

  lemma EnteredAhead(f: Reader, d: (State, Arg), last: Syms, early: bool)
    requires f.ifs != [] && Ahead(Entered(f, d).s, last, early)
    ensures Ahead(d.0, last, early)
  {}

  lemma RepeatKnownHolds(c: Setup, f: Reader, t: Statement, last: Syms)
    requires f.ifs != [] && L.Active(f.ifs) && Known(f.s) && Ahead(L.DoRepeat(Handlers(c), f, t).s, last, false)
    ensures CountKnown(f, L.Repeat(t)) && LineReadable(f, L.Repeat(t), last) ==> LineHolds(f, L.Repeat(t), last)
  {
    RepeatEnters(c, f, t);
    EnteredAhead(f, Decide(f.s, t), last, false);
    if CountKnown(f, L.Repeat(t)) && f.s.Ok? {
      CountKnownHolds(f, t, last);
    }
  }

  /** Where the operands of EQU and REPEAT are known, a line holds if it can be read. */
  lemma NextSettled(c: Setup, lines: seq<L.Line<Statement>>, f: Reader, last: Syms)
    requires Placeable(lines, f) && Reading(lines, f) && Ahead(L.Next(Handlers(c), lines, f).s, last, false)
    requires EquKnown(f, lines[f.pc])
    ensures EquDecided(f, lines[f.pc], last)
    ensures CountKnown(f, lines[f.pc]) && LineReadable(f, lines[f.pc], last) ==> LineHolds(f, lines[f.pc], last)
  {
    R.NextHandles(Handlers(c), lines, f);
    var line, f0 := lines[f.pc], f.(pc := f.pc + 1);
    if Executed(f, line) {
      match line
      case Plain(t) =>
        assert Handlers(c).plain(f.s, t) == OnPlain(c, f.s, t);
        if IsEqu(t) {
          EquKnownHolds(f.s.value, t, last);
        }
      case Repeat(t) => RepeatKnownHolds(c, f0, t, last);
      case _ =>
    }
  }

  lemma StatementEarlyHolds(c: Setup, s: Asm, t: Statement, last: Syms)
    requires Ahead(Execute(c, s, t), last, true) && (!s.out.unknown || Placing(t) || Unplaced(t)) && !Late(s, t)
    requires IsEqu(t) ==> !EvalOne(s, t.op.t).value.1.unknown
    ensures StatementHolds(s, t, last)
  {
    match t.op
    case Dc(es, w) =>
      DcAhead(c, s, t.name, es, w, last, true);
      ReadAgain(ProgramLabel(s, t.name), es, last, true);
    case Ds(count, filler, w) =>
      DsAhead(c, s, t.name, count, filler, w, last, true);
      ReadAgain(ProgramLabel(s, t.name), Amounts(count, filler), last, true);
    case Mnem(i) =>
      MnemonicAhead(c, s, t.name, i, last, true);
      ReadAgain(ProgramLabel(s, t.name), Elements(i.args), last, true);
    case Org(e) =>
      OrgAhead(s, t.name, e, last, true);
      ReadAgain(s, [Expr(e)], last, true);
    case Equ(e) =>
      EquAhead(s, t.name, e, last, true);
      ReadAgain(s, [Expr(e)], last, true);
      if IsEqu(t) {
        EquKnownHolds(s, t, last);
      }
    case _ =>
  }

  lemma OperandEarlyHolds(f: Reader, t: Statement, last: Syms)
    requires f.s.Ok? && Known(f.s) && Ahead(Decide(f.s, t).0, last, true)
    ensures OperandAgain(f.s.value, t, last).Ok?
    ensures Zero(OperandAgain(f.s.value, t, last)) <==> Zero(PassSpec.Operand(ProgramLabel(f.s.value, t.name), t))
  {
    if t.op.Condition? {
      DecideAhead(f.s, t, last, true);
      OneAgain(ProgramLabel(f.s.value, t.name), t.op.t, last, true);
    }
  }

  lemma IfAhead(c: Setup, f: Reader, t: Statement, last: Syms, early: bool)
    requires f.ifs != [] && L.Active(f.ifs) && Ahead(L.DoIf(Handlers(c), f, t).s, last, early)
    ensures Ahead(Decide(f.s, t).0, last, early)
  {
    assert Handlers(c).eval(Handlers(c).define(f.s, t), t) == Decide(f.s, t);
  }

  /** Where no EQU is late and the operands of EQUs are known, every line holds. */
  lemma NextEarly(c: Setup, lines: seq<L.Line<Statement>>, f: Reader, last: Syms)
    requires Placeable(lines, f) && Reading(lines, f) && Ahead(L.Next(Handlers(c), lines, f).s, last, true)
    requires EquKnown(f, lines[f.pc]) && Early(f, lines[f.pc])
    ensures LineHolds(f, lines[f.pc], last)
  {
    R.NextHandles(Handlers(c), lines, f);
    var line, f0 := lines[f.pc], f.(pc := f.pc + 1);
    if Executed(f, line) {
      match line
      case Plain(t) =>
        assert Handlers(c).plain(f.s, t) == OnPlain(c, f.s, t);
        StatementEarlyHolds(c, f.s.value, t, last);
      case If(t) =>
        IfAhead(c, f0, t, last, true);
        OperandEarlyHolds(f, t, last);
      case Repeat(t) =>
        RepeatEnters(c, f0, t);
        EnteredAhead(f0, Decide(f.s, t), last, true);
        OperandEarlyHolds(f, t, last);
    }
  }
}
