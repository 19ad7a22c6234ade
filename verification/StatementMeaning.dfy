/** What a statement of a last pass writes, in terms of the values of its operands. */
module StatementMeaning {
  import opened Results
  import opened Operators
  import opened Expressions
  import M = ExpressionMachine
  import opened ExpressionProofs
  import opened Files
  import opened DataSpec
  import A = AddressModes
  import I = Instructions
  import opened Symbols
  import opened PassSpec
  import P = PassFacts
  import opened PassOutput

  // ----- operands -----

  /** The value of an operand where it is read. */
  function ValueOf(s: Asm, t: Tree): Result<Arg> { EvalTree(Env(s.syms, s.out), M.MAX_RECURSION, Localize(s.at, t)) }

  function NumberOf(s: Asm, t: Tree): int {
    match ValueOf(s, t)
    case Ok(v) => v.value
    case _ => 0
  }

  predicate IsKnown(s: Asm, t: Tree) { ValueOf(s, t).Ok? && !ValueOf(s, t).value.unknown }

  /** The numbers of a list of operands; a string is one for each character. */
  function Numbers(s: Asm, es: seq<Element>): seq<int> {
    if es == [] then []
    else
      (match es[0]
       case Chars(chars) => CharValues(chars)
       case Expr(t) => [NumberOf(s, t)])
      + Numbers(s, es[1..])
  }

  lemma {:induction false} ItemsAreNumbers(s: Asm, es: seq<Element>)
    requires EvalItems(Env(s.syms, s.out), LocalizeAll(s.at, es)).Ok?
    ensures
      var items := EvalItems(Env(s.syms, s.out), LocalizeAll(s.at, es)).value;
      && ItemValues(items) == Numbers(s, es)
      && (Unknowns(items) == 0 ==> forall e <- es :: e.Expr? ==> IsKnown(s, e.t))
      && |items| == |es| && forall i | 0 <= i < |es| :: es[i].Expr? ==> ValueOf(s, es[i].t) == Ok(ArgOf(items[i]))
  {
    if es != [] {
      assert LocalizeAll(s.at, es)[1..] == LocalizeAll(s.at, es[1..]);
      ItemsAreNumbers(s, es[1..]);
      var items := EvalItems(Env(s.syms, s.out), LocalizeAll(s.at, es)).value;
      assert items[1..] == EvalItems(Env(s.syms, s.out), LocalizeAll(s.at, es[1..])).value;
      assert items[0] == match es[0] case Chars(chars) => Str(chars) case Expr(t) => Num(ValueOf(s, t).value.value, ValueOf(s, t).value.unknown);
    }
  }

  /** The operands of a statement, after its label, are the numbers of its expressions. */
  lemma OperandsAreNumbers(s: Asm, name: string, es: seq<Element>)
    requires es != [] && Evaluate(ProgramLabel(s, name), es).Ok?
    ensures
      var (s1, items) := (ProgramLabel(s, name), Evaluate(ProgramLabel(s, name), es).value.1);
      && ItemValues(items) == Numbers(s1, es)
      && (Unknowns(items) == 0 ==> forall e <- es :: e.Expr? ==> IsKnown(s1, e.t))
      && |items| == |es| && forall i | 0 <= i < |es| :: es[i].Expr? ==> ValueOf(s1, es[i].t) == Ok(ArgOf(items[i]))
  {
    ItemsAreNumbers(ProgramLabel(s, name), es);
  }

  // ----- data -----

  /** DC in a last pass: its bytes read back as the numbers of its list modulo the field. */
  lemma DcWrites(c: Setup, s: Asm, t: Statement)
    requires t.op.Dc? && t.op.elements != [] && !s.out.unknown && Execute(c, s, t).Ok? && Redo(Execute(c, s, t).value) == 0
    ensures
      var s1 := ProgramLabel(s, t.name);
      && (forall e <- t.op.elements :: e.Expr? ==> IsKnown(s1, e.t))
      && ReadFields(BytesOf(c, s, t), t.op.w, c.msb) == Some(InFields(Numbers(s1, t.op.elements), t.op.w))
  {
    DcOutput(c, s, t);
    OperandsAreNumbers(s, t.name, t.op.elements);
    DcReadsBack(Operands(s, t), t.op.w, c.msb);
  }

  /** DS: as many copies of the second number, or of 0, as the first says. */
  lemma DsWrites(c: Setup, s: Asm, t: Statement)
    requires t.op.Ds? && !s.out.unknown && Execute(c, s, t).Ok? && Redo(Execute(c, s, t).value) == 0
    ensures
      var s1 := ProgramLabel(s, t.name);
      var (n, fill) := (NumberOf(s1, t.op.count), if t.op.filler.Some? then NumberOf(s1, t.op.filler.value) else 0);
      && 0 <= n
      && ReadFields(BytesOf(c, s, t), DsWidth(t.op.w), c.msb) == Some(InFields(seq(n, _ => fill), DsWidth(t.op.w)))
  {
    var es := Amounts(t.op.count, t.op.filler);
    DsOutput(c, s, t);
    OperandsAreNumbers(s, t.name, es);
    DsCount(c, s, t);
    var items := Operands(s, t);
    assert es[0] == Expr(t.op.count) && (t.op.filler.Some? ==> es[1] == Expr(t.op.filler.value));
    PatternReadsBack(if |items| < 2 then 0 else ArgOf(items[1]).value, DsWidth(t.op.w), c.msb, ArgOf(items[0]).value);
  }

  lemma DsCount(c: Setup, s: Asm, t: Statement)
    requires t.op.Ds? && !s.out.unknown && Execute(c, s, t).Ok? && Redo(Execute(c, s, t).value) == 0
    ensures Operands(s, t) != [] && 0 <= ArgOf(Operands(s, t)[0]).value
  {
    var es := Amounts(t.op.count, t.op.filler);
    DsOperands(ProgramLabel(s, t.name), es);
    FillQuiet(c, s, t);
    DsItems(c, s.out, Operands(s, t), DsWidth(t.op.w));
  }

  lemma FillQuiet(c: Setup, s: Asm, t: Statement)
    requires t.op.Ds? && !s.out.unknown && Execute(c, s, t).Ok? && Redo(Execute(c, s, t).value) == 0
    ensures
      var r := FillDs(c, s.out, Operands(s, t), DsWidth(t.op.w));
      r.Ok? && r.value.sink.redo == 0
  {
    var es := Amounts(t.op.count, t.op.filler);
    var (s1, items) := Evaluate(ProgramLabel(s, t.name), es).value;
    P.DsGrows(c, s1.out, items, DsWidth(t.op.w));
    OutBefore(s, t.name, es);
  }

  // ----- instructions -----

  /** The mode an instruction is given. */
  function ModeOf(i: Insn, args: seq<Arg>): Option<A.Mode> {
    if args != [] && Selected(i, args).Selected? then Some(Selected(i, args).mode) else None
  }

  predicate IsBranch(i: Insn, args: seq<Arg>) { ModeOf(i, args).Some? && I.Branches(i.mne, ModeOf(i, args).value) }

  /** The operand a branch takes as its target: the first, if it is nothing but a branch; the one
      behind bit number and address, if it tests a bit; else the one behind its operand. A mask
      comes before the target. */
  function Target(i: Insn, args: seq<Arg>): nat
    requires ModeOf(i, args).Some?
  {
    var mode := ModeOf(i, args).value;
    (if mode == A.Rel then 0 else if mode == A.BitBraMod then 2 else 1) + (if i.mne.mask then 1 else 0)
  }

  /** A branch in a last pass lands on the number of its operand: that is the address behind the
      instruction plus its sign-extended last byte. */
  lemma BranchLands(c: Setup, s: Asm, t: Statement)
    requires t.op.Mnem? && t.op.insn.args != [] && !s.out.unknown && s.out.org <= LONG_MAX
    requires Execute(c, s, t).Ok? && Redo(Execute(c, s, t).value) == 0 && IsBranch(t.op.insn, Args(Operands(s, t)))
    ensures
      var (s1, i, bytes) := (ProgramLabel(s, t.name), t.op.insn, BytesOf(c, s, t));
      var j := Target(i, Args(Operands(s, t)));
      && j < |i.args| && bytes != [] && IsKnown(s1, i.args[j])
      && s.out.org + |bytes| + I.SignExtended(bytes[|bytes| - 1]) == NumberOf(s1, i.args[j])
  {
    var i, es := t.op.insn, Elements(t.op.insn.args);
    MnemonicOutput(c, s, t);
    OperandsAreNumbers(s, t.name, es);
    var j := Target(i, Args(Operands(s, t)));
    var items := Operands(s, t);
    InsnLands(c, s.out, i, Args(items));
    assert Args(items)[j] == ArgOf(items[j]);
    assert es[j] == Expr(i.args[j]) && es[j] in es;
  }

  lemma InsnLands(c: Setup, o: Out, i: Insn, args: seq<Arg>)
    requires InsnCode(c, o, i, args).Ok? && !InsnCode(c, o, i, args).value.outOfRange
    requires IsBranch(i, args) && !o.unknown && o.org <= LONG_MAX
    ensures Target(i, args) < |args|
    ensures
      var (bytes, target) := (InsnCode(c, o, i, args).value.bytes, args[Target(i, args)]);
      !target.unknown ==> bytes != [] && o.org + |bytes| + I.SignExtended(bytes[|bytes| - 1]) == target.value
  {
    SiteLands(i.mne, ModeOf(i, args).value, args, I.Site(Pc(o).value, o.unknown, c.msb));
    assert Pc(o).value == o.org;
  }

  lemma SiteLands(mne: I.Mnemonic, m: A.Mode, args: seq<Arg>, site: I.Site)
    requires I.Branches(mne, m) && !site.pcUnknown
    requires I.Encode(mne, m, args, site, []).Ok? && !I.Encode(mne, m, args, site, []).value.outOfRange
    ensures I.NextArg(m) + (if mne.mask then 1 else 0) < |args|
    ensures
      var (bytes, target) := (I.Encode(mne, m, args, site, []).value.bytes, args[I.NextArg(m) + if mne.mask then 1 else 0]);
      !target.unknown ==> bytes != [] && site.pc + |bytes| + I.SignExtended(bytes[|bytes| - 1]) == target.value
  {
    I.BranchReachesTarget(mne, m, args, site, []);
  }

  /** Any other instruction has the number of its operand behind its opcode, in the processor's
      order and modulo its size; in a mode that the instruction has. */
  lemma InstructionReads(c: Setup, s: Asm, t: Statement)
    requires t.op.Mnem? && t.op.insn.args != [] && !s.out.unknown
    requires Execute(c, s, t).Ok? && Redo(Execute(c, s, t).value) == 0
    ensures
      var (s1, i, bytes, mode) := (ProgramLabel(s, t.name), t.op.insn, BytesOf(c, s, t), ModeOf(t.op.insn, Args(Operands(s, t))));
      && mode.Some? && mode.value in i.mne.okmask && (forall e <- i.args :: IsKnown(s1, e))
      && (!I.TakesBit(mode.value) && I.OpcodeOf(i.mne, mode.value) < 0x1_0000 ==>
            I.ReadsBack(I.OpcodeOf(i.mne, mode.value), mode.value, NumberOf(s1, i.args[0]), c.msb, bytes))
  {
    var i, es := t.op.insn, Elements(t.op.insn.args);
    MnemonicOutput(c, s, t);
    OperandsAreNumbers(s, t.name, es);
    var items := Operands(s, t);
    InsnReads(c, s.out, i, Args(items));
    assert Args(items)[0] == ArgOf(items[0]) && es[0] == Expr(i.args[0]);
    forall e | e in i.args ensures IsKnown(ProgramLabel(s, t.name), e) {
      var k :| 0 <= k < |i.args| && i.args[k] == e;
      assert es[k] == Expr(e) && es[k] in es;
    }
  }

  lemma InsnReads(c: Setup, o: Out, i: Insn, args: seq<Arg>)
    requires InsnCode(c, o, i, args).Ok? && ModeOf(i, args).Some?
    ensures
      var mode := ModeOf(i, args).value;
      !I.TakesBit(mode) && I.OpcodeOf(i.mne, mode) < 0x1_0000 ==>
        I.ReadsBack(I.OpcodeOf(i.mne, mode), mode, args[0].value, c.msb, InsnCode(c, o, i, args).value.bytes)
  {
    var mode := ModeOf(i, args).value;
    if I.OpcodeOf(i.mne, mode) < 0x1_0000 {
      I.OperandReadsBack(i.mne, mode, args, I.Site(Pc(o).value, o.unknown, c.msb), []);
    }
  }

  /** A bit instruction with two operands or more is given its bit mode, whatever mode its first
      operand was written in and whatever its value: the first operand is the bit number, and the
      second the address. */
  lemma BitInstruction(i: Insn, args: seq<Arg>)
    requires i.mne.imod && 2 <= |args| && i.forced == None
    requires (if i.mne.rel then A.BitBraMod else A.BitMod) in i.mne.okmask
    ensures ModeOf(i, args) == Some(if i.mne.rel then A.BitBraMod else A.BitMod)
  {}

  /** An operand written indirect, with index x or without, on an address below 256: a 65C02 whose
      table has the placeholder $42 for it is given the word form, and every other instruction
      the form it was written in. */
  lemma PlaceholderOpcode(i: Insn, args: seq<Arg>, byteForm: A.Mode, wordForm: A.Mode)
    requires (byteForm == A.IndByteX && wordForm == A.IndWordX) || (byteForm == A.IndByte && wordForm == A.IndWord)
    requires args != [] && !args[0].unknown && -0x100 < args[0].value < 0x100
    requires i.start == byteForm && i.forced == None && !i.mne.imod && byteForm in i.mne.okmask && wordForm in i.mne.okmask
    ensures ModeOf(i, args) == Some(if i.is65C02 && I.OpcodeOf(i.mne, byteForm) == 0x42 then wordForm else byteForm)
  {
    assert A.FirstOk(i.mne.okmask, byteForm) == byteForm;
  }
}
