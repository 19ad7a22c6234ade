/** How v_mnemonic (src/ops.c) picks the addressing mode of an instruction. */
module AddressModes {
  import opened Results

  const NUMOC := 27

  /** The modes of src/asm.h by their numbers, and the size extensions that share their
      numbering. */
  type Mode = m: int | 0 <= m < NUMOC

  const Imp: Mode := 0
  const Imm8: Mode := 1
  const Imm16: Mode := 2
  const ByteAdr: Mode := 3
  const ByteAdrX: Mode := 4
  const ByteAdrY: Mode := 5
  const WordAdr: Mode := 6
  const WordAdrX: Mode := 7
  const WordAdrY: Mode := 8
  const Rel: Mode := 9
  const ByteRel: Mode := 10
  const IndByteX: Mode := 11
  const IndByteY: Mode := 12
  const IndWord: Mode := 13
  const IndWordX: Mode := 14
  const IndByte: Mode := 15
  const ZeroX: Mode := 16
  const ZeroY: Mode := 17
  const BitMod: Mode := 18
  const BitBraMod: Mode := 19
  const ByteAdrSp: Mode := 20
  const WordAdrSp: Mode := 21
  const SymbolExt: Mode := 22
  const ExpListExt: Mode := 23
  const LongExt: Mode := 24
  const BssExt: Mode := 25
  const OtherEndianExt: Mode := 26

  /** The wider mode each mode may be converted to; Imp (number 0) says there is none. */
  function Cvt(m: Mode): Mode {
    if m == Imm8 || m == IndWordX then Imm16
    else if m == ByteAdr then WordAdr
    else if m == ByteAdrX then WordAdrX
    else if m == ByteAdrY then WordAdrY
    else if m == WordAdr then Rel
    else if m == ZeroX then ByteAdrX
    else if m == ZeroY then ByteAdrY
    else Imp
  }

  /** Operand bytes of each mode. */
  function Opsize(m: Mode): nat {
    if m == Imm16 || m == WordAdr || m == WordAdrX || m == WordAdrY || m == Rel || m == IndWord || m == IndWordX || m == WordAdrSp then 2
    else if m == Imp || m == ZeroX || m == ZeroY || m == SymbolExt || m == ExpListExt || m == LongExt || m == BssExt
            || m == OtherEndianExt then 0
    else 1
  }

  /** The conversion graph has no cycles: each conversion lowers this rank. */
  function Rank(m: Mode): nat {
    if m == ZeroX || m == ZeroY || m == ByteAdr then 2
    else if m == Imm8 || m == ByteAdrSp || m == ByteAdrX || m == ByteAdrY || m == WordAdr || m == IndWordX then 1
    else 0
  }

  lemma ConversionsDescend(m: Mode)
    requires Cvt(m) != Imp
    ensures Rank(Cvt(m)) < Rank(m) && Opsize(m) <= Opsize(Cvt(m))
  {}

  /** What is selected for: the instruction, the processor, and the operand. */
  datatype Request = Request(
    okmask: set<Mode>,          // modes the instruction has
    start: Mode,                // mode the operand was written in
    value: int,
    unknown: bool,
    forced: Option<Mode>,       // Mnext, the extension of the mnemonic
    no42: set<Mode>,            // 65C02 modes whose table entry is the placeholder 0x42
    strict: bool)

  /** `reported` says that an operand-size error was reported. */
  datatype Selection = Illegal | IllegalForced | Selected(mode: Mode, reported: bool)

  function OperandSize(value: int, unknown: bool): nat {
    if unknown || 0x100 <= value then 2 else if value != 0 then 1 else 0
  }

  // ----- the first loop: a mode the instruction has -----

  function FirstOk(okmask: set<Mode>, m: Mode): Mode
    decreases Rank(m)
  {
    if m !in okmask && Cvt(m) != Imp then FirstOk(okmask, Cvt(m)) else m
  }

  function Replace42(no42: set<Mode>, m: Mode): Mode {
    if m == IndByteX && m in no42 then IndWordX
    else if m == IndByte && m in no42 then IndWord
    else m
  }

  /** A forced mode, adapted to the index register the operand was written with. */
  function Forced(start: Mode, next: Mode): Mode {
    if start == ByteAdrSp then (if next == WordAdr || next == WordAdrSp then WordAdrSp else ByteAdrSp)
    else if start == ZeroY then
      (if next == ByteAdr || next == ByteAdrY then ByteAdrY
       else if next == WordAdr || next == WordAdrY then WordAdrY else ZeroY)
    else if start == ZeroX then
      (if next == ByteAdr || next == ByteAdrX then ByteAdrX
       else if next == WordAdr || next == WordAdrX then WordAdrX else ZeroX)
    else next
  }

  // ----- the second loop: wide enough for the operand -----

  predicate IsByteMode(m: Mode) { m == Imm8 || m == ByteAdr || m == ByteAdrX || m == ByteAdrY || m == ByteAdrSp }

  predicate IsWordMode(m: Mode) {
    m == Imm16 || m == WordAdr || m == WordAdrX || m == WordAdrY || m == IndWord || m == WordAdrSp
  }

  /** Where no conversion is left: an unknown operand stays, an indexed byte mode may still
      become its word mode, anything else is reported. */
  function LastResort(q: Request, byteRequested: bool, m: Mode): (Mode, bool) {
    if q.unknown then (m, false)
    else if m == Imm8 && q.value < 0 then (m, false)
    else if 255 < q.value && !byteRequested && m == ByteAdrX && WordAdrX in q.okmask then (WordAdrX, false)
    else if 255 < q.value && !byteRequested && m == ByteAdrY && WordAdrY in q.okmask then (WordAdrY, false)
    else if 255 < q.value && !byteRequested && m == ByteAdrSp && WordAdrSp in q.okmask then (WordAdrSp, false)
    else (m, true)
  }

  function Widen(q: Request, byteRequested: bool, m: Mode): (Mode, bool)
    decreases Rank(m)
  {
    if OperandSize(q.value, q.unknown) <= Opsize(m) then (m, false)
    else if Cvt(m) == Imp || Cvt(m) !in q.okmask then LastResort(q, byteRequested, m)
    else Widen(q, byteRequested, Cvt(m))
  }

  predicate ByteRequested(q: Request) { q.forced.Some? && IsByteMode(q.forced.value) }

  /** The range checks made before the second loop. */
  predicate RangeReported(q: Request, m: Mode) {
    || (ByteRequested(q) && 1 < OperandSize(q.value, q.unknown))
    || (IsWordMode(m) && q.strict && (0xFFFF < q.value || q.value < -0xFFFF))
    || (IsByteMode(m) && q.value < -0xFF)
  }

  function Select(q: Request): Selection {
    var m := Replace42(q.no42, FirstOk(q.okmask, q.start));
    if m !in q.okmask then Illegal
    else if q.forced == None then Fitted(q, m)
    else if q.start == IndByteX || q.start == IndByteY then IllegalForced
    else
      var f := Forced(q.start, q.forced.value);
      if f !in q.okmask then IllegalForced else Fitted(q, f)
  }

  function Fitted(q: Request, m: Mode): Selection {
    var (mode, reported) := Widen(q, ByteRequested(q), m);
    Selected(mode, reported || RangeReported(q, m))
  }

  // ----- properties -----

  lemma {:induction false} WidenSupported(q: Request, byteRequested: bool, m: Mode)
    requires m in q.okmask
    decreases Rank(m)
    ensures Widen(q, byteRequested, m).0 in q.okmask
    ensures !q.unknown && !Widen(q, byteRequested, m).1 ==>
      OperandSize(q.value, q.unknown) <= Opsize(Widen(q, byteRequested, m).0)
    ensures Opsize(m) <= Opsize(Widen(q, byteRequested, m).0)
  {
    if Opsize(m) < OperandSize(q.value, q.unknown) && Cvt(m) != Imp && Cvt(m) in q.okmask {
      ConversionsDescend(m);
      WidenSupported(q, byteRequested, Cvt(m));
    }
  }

  /** Whatever the instruction, the operand and the extension: a selected mode is one the
      instruction has, and a known operand selected without a report is 0 where the mode has no
      operand byte, and below 256 where it has one. */
  lemma SelectionSupported(q: Request)
    ensures var s := Select(q); s.Selected? ==>
      && s.mode in q.okmask
      && (!q.unknown && !s.reported && Opsize(s.mode) == 0 ==> q.value == 0)
      && (!q.unknown && !s.reported && Opsize(s.mode) == 1 ==> q.value < 0x100)
  {
    var m := Replace42(q.no42, FirstOk(q.okmask, q.start));
    if m in q.okmask {
      WidenSupported(q, ByteRequested(q), m);
    }
    if q.forced.Some? && Forced(q.start, q.forced.value) in q.okmask {
      WidenSupported(q, ByteRequested(q), Forced(q.start, q.forced.value));
    }
  }

  // ----- the smallest mode -----

  /** The values for which n operand bytes are meant: -$FF to $FF for one. */
  predicate Room(n: nat, v: int) {
    match n
    case 0 => v == 0
    case 1 => -0x100 < v < 0x100
    case _ => -0x1_0000 < v < 0x1_0000
  }

  /** The next wider mode, for stack-pointer-indexed operands too. */
  function Wider(m: Mode): Mode { if m == ByteAdrSp then WordAdrSp else Cvt(m) }

  /** x is m, or one of the modes m may be widened to. */
  predicate Leads(m: Mode, x: Mode)
    decreases Rank(m)
  {
    x == m || (Wider(m) != Imp && Leads(Wider(m), x))
  }

  /** How an operand was written. Widening keeps it, but for an indirect word operand with an
      index, which the table sends to an immediate one. */
  datatype Form = Immediate | Direct | Indexed(register: char) | Indirect | IndirectIndexed(register: char) | Other

  function FormOf(m: Mode): Form {
    if m == Imm8 || m == Imm16 then Immediate
    else if m == ZeroX || m == ByteAdrX || m == WordAdrX then Indexed('x')
    else if m == ZeroY || m == ByteAdrY || m == WordAdrY then Indexed('y')
    else if m == ByteAdrSp || m == WordAdrSp then Indexed('s')
    else if m == ByteAdr || m == WordAdr || m == Rel then Direct
    else if m == IndByte || m == IndWord then Indirect
    else if m == IndByteX || m == IndWordX then IndirectIndexed('x')
    else if m == IndByteY then IndirectIndexed('y')
    else Other
  }

  lemma OneStep(m: Mode)
    requires Wider(m) != Imp
    ensures Opsize(m) <= Opsize(Wider(m)) && Rank(Wider(m)) < Rank(m) && Wider(m) != IndWordX
    ensures m != IndWordX ==> FormOf(Wider(m)) == FormOf(m)
  {}

  lemma {:induction false} FormKept(m: Mode, x: Mode)
    requires Leads(m, x)
    decreases Rank(m)
    ensures Opsize(m) <= Opsize(x) && (m != IndWordX ==> FormOf(x) == FormOf(m))
    ensures m != x ==> Rank(x) < Rank(m)
  {
    if m != x {
      OneStep(m);
      FormKept(Wider(m), x);
    }
  }

  lemma ThereAndBack(m: Mode, x: Mode)
    requires Leads(m, x) && Leads(x, m)
    ensures x == m
  {
    FormKept(m, x);
    FormKept(x, m);
  }

  /** Between a mode and the next there is none. */
  lemma NoneBetween(m: Mode, x: Mode)
    requires Leads(m, x) && Leads(x, Wider(m)) && Wider(m) != Imp
    ensures x == m || x == Wider(m)
  {
    if x != m {
      OneStep(m);
      ThereAndBack(Wider(m), x);
    }
  }

  lemma LastResortLeads(q: Request, byteRequested: bool, m: Mode)
    requires !q.unknown && (Cvt(m) == Imp || Cvt(m) !in q.okmask)
    ensures LastResort(q, byteRequested, m).0 == m || (LastResort(q, byteRequested, m).0 == Wider(m) && Wider(m) != Imp)
  {}

  lemma {:induction false} WidenLeads(q: Request, byteRequested: bool, m: Mode)
    requires m in q.okmask && !q.unknown
    decreases Rank(m)
    ensures
      var mode := Widen(q, byteRequested, m).0;
      && Leads(m, mode)
      && forall x <- q.okmask :: Leads(m, x) && Leads(x, mode) && x != mode ==> !Room(Opsize(x), q.value)
  {
    var mode := Widen(q, byteRequested, m).0;
    if OperandSize(q.value, q.unknown) <= Opsize(m) {
      forall x <- q.okmask | Leads(m, x) && Leads(x, mode) ensures x == mode {
        ThereAndBack(m, x);
      }
    } else if Cvt(m) == Imp || Cvt(m) !in q.okmask {
      LastResortLeads(q, byteRequested, m);
      forall x <- q.okmask | Leads(m, x) && Leads(x, mode) && x != mode ensures x == m {
        if mode == m {
          ThereAndBack(m, x);
        } else {
          NoneBetween(m, x);
        }
      }
    } else {
      assert Wider(m) == Cvt(m);
      WidenLeads(q, byteRequested, Cvt(m));
    }
  }

  /** The first mode of the instruction comes before its others. */
  lemma {:induction false} FirstLeads(okmask: set<Mode>, m: Mode, x: Mode)
    requires x in okmask && FirstOk(okmask, m) in okmask
    decreases Rank(m)
    ensures Leads(m, FirstOk(okmask, m))
    ensures Leads(m, x) ==> Leads(FirstOk(okmask, m), x)
  {
    if m !in okmask && Cvt(m) != Imp {
      FirstLeads(okmask, Cvt(m), x);
    }
  }

  /** The mode found is one that is exchanged for its word form. */
  predicate Substituted(q: Request) {
    var m := FirstOk(q.okmask, q.start);
    (m == IndByteX || m == IndByte) && m in q.no42
  }

  /** Without an extension the mode is one the operand may be widened to, and no mode of the
      instruction on the way there has room for the value. */
  lemma SmallestSelected(q: Request)
    requires !q.unknown && q.forced == None && !Substituted(q) && Select(q).Selected?
    ensures
      var mode := Select(q).mode;
      && Leads(q.start, mode) && (q.start != IndWordX ==> FormOf(mode) == FormOf(q.start))
      && forall x <- q.okmask :: Leads(q.start, x) && Leads(x, mode) && x != mode ==> !Room(Opsize(x), q.value)
  {
    var m, mode := FirstOk(q.okmask, q.start), Select(q).mode;
    FirstLeads(q.okmask, q.start, m);
    WidenLeads(q, false, m);
    LeadsOn(q.start, m, mode);
    FormKept(q.start, mode);
    forall x <- q.okmask | Leads(q.start, x) && Leads(x, mode) && x != mode ensures !Room(Opsize(x), q.value) {
      FirstLeads(q.okmask, q.start, x);
    }
  }

  lemma {:induction false} LeadsOn(a: Mode, b: Mode, c: Mode)
    requires Leads(a, b) && Leads(b, c)
    decreases Rank(a)
    ensures Leads(a, c)
  {
    if a != b {
      LeadsOn(Wider(a), b, c);
    }
  }

  /** And the mode is found: the first of the instruction's modes that has room for a value from
      -$FF to $FFFF is selected, and nothing is reported, if the instruction has every mode
      between its first one and that. (The word mode of a stack-pointer-indexed operand is not
      looked for alone.) */
  lemma RoomyModeSelected(q: Request, x: Mode)
    requires !q.unknown && q.forced == None && !Substituted(q) && -0x100 < q.value < 0x1_0000
    requires x in q.okmask && Leads(q.start, x) && Room(Opsize(x), q.value)
    requires forall y <- q.okmask :: Leads(q.start, y) && Leads(y, x) && y != x ==> !Room(Opsize(y), q.value)
    requires forall y <- q.okmask, z :: Leads(q.start, y) && Leads(y, z) && Leads(z, x) ==> z in q.okmask
    requires q.start == ByteAdrSp ==> q.start in q.okmask
    ensures Select(q) == Selected(x, false)
  {
    FirstFound(q.okmask, q.start, x);
    var m := FirstOk(q.okmask, q.start);
    FirstLeads(q.okmask, q.start, x);
    forall y <- q.okmask | Leads(m, y) && Leads(y, x) && y != x ensures !Room(Opsize(y), q.value) {
      LeadsOn(q.start, m, y);
    }
    WidenFinds(q, m, x);
    FirstIsFitted(q);
  }

  lemma FirstIsFitted(q: Request)
    requires q.forced == None && !Substituted(q) && FirstOk(q.okmask, q.start) in q.okmask
    requires !q.unknown && -0x100 < q.value < 0x1_0000
    ensures
      var (mode, reported) := Widen(q, false, FirstOk(q.okmask, q.start));
      Select(q) == Selected(mode, reported)
  {
    assert !RangeReported(q, FirstOk(q.okmask, q.start));
  }

  lemma {:induction false} FirstFound(okmask: set<Mode>, m: Mode, x: Mode)
    requires x in okmask && Leads(m, x) && (m == ByteAdrSp ==> m in okmask)
    decreases Rank(m)
    ensures FirstOk(okmask, m) in okmask
  {
    if m !in okmask {
      FirstFound(okmask, Cvt(m), x);
    }
  }

  lemma {:induction false} WidenFinds(q: Request, m: Mode, x: Mode)
    requires !q.unknown && -0x100 < q.value < 0x1_0000
    requires m in q.okmask && x in q.okmask && Leads(m, x) && Room(Opsize(x), q.value)
    requires forall y <- q.okmask :: Leads(m, y) && Leads(y, x) && y != x ==> !Room(Opsize(y), q.value)
    requires forall z :: Leads(m, z) && Leads(z, x) ==> z in q.okmask
    decreases Rank(m)
    ensures Widen(q, false, m) == (x, false)
  {
    if m != x {
      assert Leads(m, m) && !Room(Opsize(m), q.value);
      assert Leads(Wider(m), Wider(m)) && Leads(m, Wider(m)) && Wider(m) in q.okmask;
      if m == ByteAdrSp {
        assert x == WordAdrSp;
      } else {
        WidenFinds(q, Cvt(m), x);
      }
    }
  }

  /** In particular an operand written in a one-byte mode of the instruction keeps it, if its
      value is from -$FF to $FF; below that the mode is kept but reported. */
  lemma ByteOperandKept(q: Request)
    requires !q.unknown && q.forced == None && q.start in q.okmask && q.start !in q.no42 && Opsize(q.start) == 1
    ensures -0x100 < q.value < 0x100 ==> Select(q) == Selected(q.start, false)
    ensures q.value <= -0x100 && IsByteMode(q.start) ==> Select(q) == Selected(q.start, true)
  {}

  /** An operand written in a word mode keeps it whatever its value; one of more than sixteen bits
      is reported in strict mode. */
  lemma WordOperandKept(q: Request)
    requires q.forced == None && q.start in q.okmask && IsWordMode(q.start) && q.start !in q.no42
    ensures Select(q) == Selected(q.start, q.strict && !Room(2, q.value))
  {}

  /** An indirect operand whose mode is exchanged is selected with two operand bytes, and
      indirect and indexed as it was written. */
  lemma ExchangedForWords(q: Request)
    requires q.forced == None && Substituted(q) && Select(q).Selected?
    ensures Opsize(Select(q).mode) == 2 && FormOf(Select(q).mode) == FormOf(q.start)
  {
    assert q.start == FirstOk(q.okmask, q.start);
  }

  // ----- extensions -----

  /** An extension that names no index register, or the operand's own. */
  predicate Suits(next: Mode, start: Mode) { FormOf(next).Direct? || FormOf(next) == FormOf(start) }

  /** An extension sets the size, in bytes or in words, and keeps the index register. */
  lemma ExtensionSetsSize(q: Request)
    requires q.forced.Some? && Suits(q.forced.value, q.start)
    requires q.start in {ZeroX, ZeroY, ByteAdrSp, ByteAdr, WordAdr}
    ensures
      var (s, next) := (Select(q), q.forced.value);
      s.Selected? && !s.reported && (IsByteMode(next) || IsWordMode(next)) ==>
        FormOf(s.mode) == FormOf(q.start) && Opsize(s.mode) == if IsByteMode(next) then 1 else 2
  {
    var f := Forced(q.start, q.forced.value);
    if f in q.okmask && Select(q).Selected? {
      assert Select(q) == Fitted(q, f);
    }
  }

  // ----- while the operand is unresolved -----

  /** The request as it is while its operand is unresolved. */
  function Unresolved(q: Request): Request { q.(unknown := true) }

  /** The size while the operand is unknown is at least the size once it is known. */
  predicate Pessimistic(q: Request, m: Mode) {
    Opsize(Widen(q, false, m).0) <= Opsize(Widen(Unresolved(q), false, m).0)
  }

  lemma PessimisticEnd(q: Request, m: Mode)
    requires !q.unknown && m in q.okmask && (Cvt(m) == Imp || Cvt(m) !in q.okmask)
    ensures Pessimistic(q, m) <==> !(m == ByteAdrSp && WordAdrSp in q.okmask && 255 < q.value)
  {
    assert Widen(Unresolved(q), false, m).0 == m;
  }

  lemma PessimisticStep(q: Request, m: Mode)
    requires !q.unknown && Cvt(m) != Imp && Cvt(m) in q.okmask && Pessimistic(q, Cvt(m))
    requires Opsize(Cvt(m)) <= Opsize(Widen(Unresolved(q), false, Cvt(m)).0)
    ensures Pessimistic(q, m)
  {
    ConversionsDescend(m);
  }

  lemma {:induction false} WidenPessimistic(q: Request, m: Mode)
    requires !q.unknown && m in q.okmask
    decreases Rank(m)
    ensures Pessimistic(q, m) <==> !(m == ByteAdrSp && WordAdrSp in q.okmask && 255 < q.value)
  {
    if Cvt(m) == Imp || Cvt(m) !in q.okmask {
      PessimisticEnd(q, m);
    } else {
      ConversionsDescend(m);
      WidenPessimistic(q, Cvt(m));
      WidenSupported(Unresolved(q), false, Cvt(m));
      PessimisticStep(q, m);
    }
  }

  /** No conversion leads to the stack-pointer mode. */
  lemma {:induction false} OnlyFromStack(q: Request, m: Mode)
    decreases Rank(m)
    ensures Replace42(q.no42, FirstOk(q.okmask, m)) == ByteAdrSp <==> m == ByteAdrSp
  {
    if m !in q.okmask && Cvt(m) != Imp {
      ConversionsDescend(m);
      OnlyFromStack(q, Cvt(m));
    }
  }

  /** While its operand is unknown an unforced instruction is given at least the size it
      has once the operand is resolved, so resolving can only shrink it; with the one
      exception of a stack-pointer-indexed operand that turns out to need a word. */
  lemma UnknownIsPessimistic(q: Request)
    requires q.forced == None && !q.unknown
    ensures Select(q).Selected? <==> Select(Unresolved(q)).Selected?
    ensures Select(q).Selected? ==>
      (Opsize(Select(q).mode) <= Opsize(Select(Unresolved(q)).mode) <==>
       !(q.start == ByteAdrSp && ByteAdrSp in q.okmask && WordAdrSp in q.okmask && 255 < q.value))
  {
    var m := Replace42(q.no42, FirstOk(q.okmask, q.start));
    OnlyFromStack(q, q.start);
    if m in q.okmask {
      WidenPessimistic(q, m);
    }
  }

  /** Such a one: `[SP+300]` is a byte operand while its value is unknown, and a word operand
      once it is found. */
  lemma StackOperandGrows()
    ensures
      var q := Request({ByteAdrSp, WordAdrSp}, ByteAdrSp, 300, false, None, {}, false);
      Select(Unresolved(q)) == Selected(ByteAdrSp, false) && Select(q) == Selected(WordAdrSp, false)
  {}

  // ----- the loops themselves -----

  method FindMode(q: Request) returns (addrmode: Mode)
    ensures addrmode == FirstOk(q.okmask, q.start)
  {
    addrmode := q.start;
    while addrmode !in q.okmask && Cvt(addrmode) != Imp
      invariant FirstOk(q.okmask, addrmode) == FirstOk(q.okmask, q.start)
      decreases Rank(addrmode)
    {
      addrmode := Cvt(addrmode);
    }
  }

  method WidenMode(q: Request, start: Mode, byteRequested: bool) returns (addrmode: Mode, reported: bool)
    ensures (addrmode, reported) == Widen(q, byteRequested, start)
  {
    var opsize := if q.unknown || 0x100 <= q.value then 2 else if q.value != 0 then 1 else 0;
    addrmode, reported := start, false;
    while opsize > Opsize(addrmode)
      invariant !reported && Widen(q, byteRequested, addrmode) == Widen(q, byteRequested, start)
      decreases Rank(addrmode)
    {
      if Cvt(addrmode) == Imp || Cvt(addrmode) !in q.okmask {
        var (mode, bad) := LastResort(q, byteRequested, addrmode);
        return mode, bad;
      }
      ConversionsDescend(addrmode);
      addrmode := Cvt(addrmode);
    }
  }

  method SelectMode(q: Request) returns (s: Selection)
    ensures s == Select(q)
  {
    var addrmode := FindMode(q);
    if addrmode == IndByteX && addrmode in q.no42 {
      addrmode := IndWordX;
    } else if addrmode == IndByte && addrmode in q.no42 {
      addrmode := IndWord;
    }
    if addrmode !in q.okmask {
      return Illegal;
    }
    if q.forced.Some? {
      if q.start == IndByteX || q.start == IndByteY {
        return IllegalForced;
      }
      addrmode := Forced(q.start, q.forced.value);
      if addrmode !in q.okmask {
        return IllegalForced;
      }
    }
    var byteRequested := q.forced.Some? && IsByteMode(q.forced.value);
    var outOfRange := RangeReported(q, addrmode);
    var mode, reported := WidenMode(q, addrmode, byteRequested);
    return Selected(mode, reported || outOfRange);
  }
}
