/** The bytes of an instruction: the end of v_mnemonic (src/ops.c) and the opcode tables
    it reads (addhashtable, src/main.c). */
module Instructions {
  import opened Results
  import opened Operators
  import opened Files
  import opened AddressModes

  // ----- opcode tables -----

  /** The opcodes of an instruction, one for each mode; packed, they are those of the modes
      it has, in order, from the front. */
  type OpcodeTable = s: seq<nat> | |s| == NUMOC witness seq(NUMOC, _ => 0)

  /** How many of the first n modes the instruction has. */
  function Below(okmask: set<Mode>, n: nat): (k: nat)
    requires n <= NUMOC
    ensures k <= n
  {
    if n == 0 then 0 else Below(okmask, n - 1) + if n - 1 in okmask then 1 else 0
  }

  function Unpacked(okmask: set<Mode>, packed: OpcodeTable): (opcode: OpcodeTable)
    ensures forall i | 0 <= i < NUMOC :: opcode[i] == if i in okmask then packed[Below(okmask, i)] else 0
  {
    seq(NUMOC, i requires 0 <= i < NUMOC => if i in okmask then packed[Below(okmask, i)] else 0)
  }

  /** addhashtable on one instruction: each packed opcode is moved in place to the index of
      its mode. */
  method Unpack(okmask: set<Mode>, opcode: array<nat>)
    requires opcode.Length == NUMOC
    modifies opcode
    ensures opcode[..] == Unpacked(okmask, old(opcode[..]))
  {
    var packed := opcode[..];
    var i, j := 0, 0;
    while i < NUMOC
      invariant 0 <= i <= NUMOC && j == Below(okmask, i)
      invariant forall x | 0 <= x < i :: opcode[x] == if x in okmask then packed[Below(okmask, x)] else 0
    {
      opcode[i] := 0;
      if i in okmask {
        opcode[i] := packed[j];
        j := j + 1;
      }
      i := i + 1;
    }
  }

  // ----- the bytes -----

  datatype Mnemonic = Mnemonic(okmask: set<Mode>, opcode: OpcodeTable, imod: bool, mask: bool, rel: bool)

  function OpcodeOf(mne: Mnemonic, m: Mode): nat { mne.opcode[m] }

  /** The modes whose opcode is the placeholder $42, where the processor is a 65C02. */
  function No42(mne: Mnemonic, is65C02: bool): set<Mode> {
    set m | m in {IndByteX, IndByte} && is65C02 && OpcodeOf(mne, m) == 0x42
  }

  /** Where an instruction stands: the origin in effect, whether it is unknown, and MsbOrder. */
  datatype Site = Site(pc: int, pcUnknown: bool, msb: bool)

  /** The instruction and whether its branch was out of range (which asks for another pass). */
  datatype Code = Code(bytes: seq<byte>, outOfRange: bool)

  function OpcodeBytes(opcode: nat): (s: seq<byte>)
    ensures |s| == if opcode > 0xFF then 2 else 1
  {
    if opcode > 0xFF then [Hi(opcode), Lo(opcode)] else [Lo(opcode)]
  }

  /** What the first byte of a bit instruction is: a known bit number up to 7 is added at
      bit 1, any other leaves the opcode alone. */
  function FirstByte(opcode: byte, bit: Arg): byte {
    if bit.unknown || 7 < bit.value then opcode else (opcode + 2 * bit.value) % 0x100
  }

  function WithBit(head: seq<byte>, a: Arg): (s: seq<byte>)
    requires head != []
    ensures |s| == |head|
  {
    head[0 := FirstByte(head[0], a)]
  }

  predicate TakesBit(m: Mode) { m == BitMod || m == BitBraMod }

  function OperandBytes(m: Mode, v: int, msb: bool): (s: seq<byte>)
    ensures |s| == Opsize(m)
  {
    match Opsize(m)
    case 0 => []
    case 1 => [Lo(v)]
    case 2 => if msb then [Hi(v), Lo(v)] else [Lo(v), Hi(v)]
  }

  /** Opcode and operand. */
  function Front(opcode: nat, m: Mode, args: seq<Arg>, msb: bool): (s: seq<byte>)
    requires args != [] && (TakesBit(m) ==> 2 <= |args|)
    ensures |s| == |OpcodeBytes(opcode)| + if m == Rel then 0 else Opsize(m)
  {
    var head := OpcodeBytes(opcode);
    if TakesBit(m) then WithBit(head, args[0]) + [Lo(args[1].value)]
    else if m == Rel then head
    else head + OperandBytes(m, args[0].value, msb)
  }

  /** The argument that comes after the operand. */
  function NextArg(m: Mode): nat {
    if m == BitMod then 1 else if m == BitBraMod then 2 else if m == Rel then 0 else 1
  }

  predicate Branches(mne: Mnemonic, m: Mode) { mne.rel || m == Rel || m == ByteRel }

  function Displacement(target: int, pc: int, len: nat): int { target - pc - len }

  predicate InRange(d: int) { -128 <= d < 128 }

  /** The byte of a branch of `len` bytes in all. `stale` is what Gen held there. */
  function BranchByte(a: Arg, site: Site, len: nat, stale: byte): byte {
    if a.unknown then stale
    else if site.pcUnknown then 0
    else if InRange(Displacement(a.value, site.pc, len)) then Displacement(a.value, site.pc, len) % 256
    else 0
  }

  function StaleAt(gen: seq<byte>, i: nat): byte { if i < |gen| then gen[i] else 0 }

  /** The branch byte, if the instruction has one. */
  function EncodeTail(mne: Mnemonic, m: Mode, args: seq<Arg>, site: Site, masked: seq<byte>, j: nat, stale: byte): Result<Code> {
    if !Branches(mne, m) then Ok(Code(masked, false))
    else if |args| <= j then Abort
    else
      var len := |masked| + 1;
      var away := !args[j].unknown && !site.pcUnknown && !InRange(Displacement(args[j].value, site.pc, len));
      Ok(Code(masked + [BranchByte(args[j], site, len, stale)], away))
  }

  /** The instruction for a selected mode. `Abort`: fewer arguments than it takes. `Corrupt`:
      a bit operand without the address after it. */
  function Encode(mne: Mnemonic, m: Mode, args: seq<Arg>, site: Site, gen: seq<byte>): Result<Code> {
    if args == [] || (TakesBit(m) && |args| < 2) then Corrupt
    else
      var front := Front(OpcodeOf(mne, m), m, args, site.msb);
      var i := NextArg(m);
      if mne.mask && |args| <= i then Abort
      else
        var masked := if mne.mask then front + [Lo(args[i].value)] else front;
        EncodeTail(mne, m, args, site, masked, if mne.mask then i + 1 else i, StaleAt(gen, |masked|))
  }

  // ----- reading it back -----

  function SignExtended(b: byte): int { if b < 128 then b else b - 256 }

  /** The length depends on the mode and the instruction, not on the operand's value. */
  lemma EncodedLength(mne: Mnemonic, m: Mode, args: seq<Arg>, site: Site, gen: seq<byte>)
    ensures var c := Encode(mne, m, args, site, gen); c.Ok? ==>
      |c.value.bytes| == |OpcodeBytes(OpcodeOf(mne, m))| + (if m == Rel then 0 else Opsize(m))
        + (if mne.mask then 1 else 0) + (if Branches(mne, m) then 1 else 0)
  {}

  lemma OpcodeReadsBack(opcode: nat)
    requires opcode < 0x1_0000
    ensures var s := OpcodeBytes(opcode); opcode == if |s| == 2 then Word(s[1], s[0]) else s[0]
  {
    WordOfBytes(opcode);
  }

  lemma ValueReadsBack(m: Mode, v: int, msb: bool)
    ensures var s := OperandBytes(m, v, msb);
      && (Opsize(m) == 1 ==> s[0] == v % 0x100)
      && (Opsize(m) == 2 ==> v % 0x1_0000 == if msb then Word(s[1], s[0]) else Word(s[0], s[1]))
  {
    WordOfBytes(v);
  }

  /** The encoding begins with opcode and operand, and then the mask. */
  lemma EncodedFront(mne: Mnemonic, m: Mode, args: seq<Arg>, site: Site, gen: seq<byte>)
    requires Encode(mne, m, args, site, gen).Ok?
    ensures Front(OpcodeOf(mne, m), m, args, site.msb) <= Encode(mne, m, args, site, gen).value.bytes
    ensures mne.mask ==> NextArg(m) < |args|
    ensures mne.mask ==>
      Front(OpcodeOf(mne, m), m, args, site.msb) + [Lo(args[NextArg(m)].value)]
        <= Encode(mne, m, args, site, gen).value.bytes
  {}

  /** Twice the bit number is added to the first byte of the opcode, which is left alone by an
      unknown bit number and one over 7. */
  predicate BitReadsBack(opcode: nat, args: seq<Arg>, bytes: seq<byte>)
    requires 2 <= |args|
  {
    var n := if opcode > 0xFF then 2 else 1;
    && n < |bytes|
    && (bytes[0] - (if n == 2 then opcode / 0x100 else opcode)) % 0x100
      == (if args[0].unknown || 7 < args[0].value then 0 else 2 * args[0].value % 0x100)
    && (n == 2 ==> bytes[1] == opcode % 0x100)
    && bytes[n] == args[1].value % 0x100
  }

  predicate ReadsBack(opcode: nat, m: Mode, v: int, msb: bool, bytes: seq<byte>) {
    var (n, size) := (if opcode > 0xFF then 2 else 1, if m == Rel then 0 else Opsize(m));
    && n + size <= |bytes|
    && opcode == (if n == 2 then Word(bytes[1], bytes[0]) else bytes[0])
    && (size == 1 ==> bytes[n] == v % 0x100)
    && (size == 2 ==> v % 0x1_0000 == if msb then Word(bytes[n + 1], bytes[n]) else Word(bytes[n], bytes[n + 1]))
  }

  lemma AddedBit(opcode: byte, bit: Arg)
    ensures (FirstByte(opcode, bit) - opcode) % 0x100 == if bit.unknown || 7 < bit.value then 0 else 2 * bit.value % 0x100
  {
    if !bit.unknown && bit.value <= 7 {
      Difference(opcode, 2 * bit.value);
    }
  }

  lemma Difference(a: int, b: int)
    ensures ((a + b) % 0x100 - a) % 0x100 == b % 0x100
  {
    var q := (a + b) / 0x100;
    assert (a + b) % 0x100 - a == 0x100 * (b / 0x100 - q) + b % 0x100;
    UniqueRemainder((a + b) % 0x100 - a, 0x100, b / 0x100 - q, b % 0x100);
  }

  /** A number up to 7 in the empty bits 1 to 3 of a byte. */
  lemma InTheMiddle(b: byte, opcode: byte, bit: int)
    requires opcode / 2 % 8 == 0 && 0 <= bit <= 7 && (b - opcode) % 0x100 == 2 * bit
    ensures b == opcode + 2 * bit && b / 2 % 8 == bit && b % 2 == opcode % 2 && b / 16 == opcode / 16
  {
    var h, l := opcode / 16, opcode % 2;
    assert opcode == 16 * h + l;
    assert b == opcode + 2 * bit;
    UniqueRemainder(b, 16, h, 2 * bit + l);
    UniqueRemainder(b, 2, 8 * h + bit, l);
    UniqueRemainder(8 * h + bit, 8, h, bit);
  }

  lemma BitFront(opcode: nat, m: Mode, args: seq<Arg>, msb: bool)
    requires opcode < 0x1_0000 && TakesBit(m) && 2 <= |args|
    ensures BitReadsBack(opcode, args, Front(opcode, m, args, msb))
  {
    var head := OpcodeBytes(opcode);
    AddedBit(head[0], args[0]);
    assert Front(opcode, m, args, msb) == WithBit(head, args[0]) + [Lo(args[1].value)];
  }

  lemma PlainFront(opcode: nat, m: Mode, args: seq<Arg>, msb: bool)
    requires opcode < 0x1_0000 && !TakesBit(m) && args != []
    ensures ReadsBack(opcode, m, args[0].value, msb, Front(opcode, m, args, msb))
  {
    OpcodeReadsBack(opcode);
    ValueReadsBack(m, args[0].value, msb);
    var head := OpcodeBytes(opcode);
    if m != Rel {
      assert Front(opcode, m, args, msb) == head + OperandBytes(m, args[0].value, msb);
    }
  }

  /** What follows does not matter. */
  lemma ReadsBackInFront(opcode: nat, m: Mode, v: int, msb: bool, front: seq<byte>, bytes: seq<byte>)
    requires front <= bytes && ReadsBack(opcode, m, v, msb, front)
    ensures ReadsBack(opcode, m, v, msb, bytes)
  {}

  lemma BitReadsBackInFront(opcode: nat, args: seq<Arg>, front: seq<byte>, bytes: seq<byte>)
    requires front <= bytes && 2 <= |args| && BitReadsBack(opcode, args, front)
    ensures BitReadsBack(opcode, args, bytes)
  {}

  /** Opcode and operand read back: the opcode big-endian (with the bit number in it), the
      operand in the processor's order, modulo its size, and then the mask. */
  lemma OperandReadsBack(mne: Mnemonic, m: Mode, args: seq<Arg>, site: Site, gen: seq<byte>)
    requires Encode(mne, m, args, site, gen).Ok? && OpcodeOf(mne, m) < 0x1_0000
    ensures
      var (bytes, opcode) := (Encode(mne, m, args, site, gen).value.bytes, OpcodeOf(mne, m));
      var end := (if opcode > 0xFF then 2 else 1) + (if m == Rel then 0 else Opsize(m));
      && (if TakesBit(m) then BitReadsBack(opcode, args, bytes) else ReadsBack(opcode, m, args[0].value, site.msb, bytes))
      && (mne.mask ==> end < |bytes| && bytes[end] == args[NextArg(m)].value % 0x100)
  {
    EncodedFront(mne, m, args, site, gen);
    var opcode := OpcodeOf(mne, m);
    var (front, bytes) := (Front(opcode, m, args, site.msb), Encode(mne, m, args, site, gen).value.bytes);
    if TakesBit(m) {
      BitFront(opcode, m, args, site.msb);
      BitReadsBackInFront(opcode, args, front, bytes);
    } else {
      PlainFront(opcode, m, args, site.msb);
      ReadsBackInFront(opcode, m, args[0].value, site.msb, front, bytes);
    }
  }

  /** From the table as it was written down to the bytes: with `packed` the opcodes before
      addhashtable, the opcode emitted is the one numbered by the modes before m. */
  lemma PackedOpcodeEmitted(packed: OpcodeTable, mne: Mnemonic, m: Mode, args: seq<Arg>, site: Site, gen: seq<byte>)
    requires mne.opcode == Unpacked(mne.okmask, packed) && m in mne.okmask
    requires Encode(mne, m, args, site, gen).Ok? && packed[Below(mne.okmask, m)] < 0x1_0000
    ensures
      var bytes := Encode(mne, m, args, site, gen).value.bytes;
      var opcode := packed[Below(mne.okmask, m)];
      var n := |OpcodeBytes(opcode)|;
      && n <= |bytes|
      && (!TakesBit(m) ==> opcode == if n == 2 then Word(bytes[1], bytes[0]) else bytes[0])
      && (TakesBit(m) ==> BitReadsBack(opcode, args, bytes))
  {
    EncodedFront(mne, m, args, site, gen);
    OpcodeReadsBack(OpcodeOf(mne, m));
    if TakesBit(m) {
      BitFront(OpcodeOf(mne, m), m, args, site.msb);
    }
  }

  /** Where the opcode has room for it, the bit number stands in bits 1 to 3 of the first byte,
      and the rest of it is the opcode. */
  lemma BitNumberReadsBack(mne: Mnemonic, m: Mode, args: seq<Arg>, site: Site, gen: seq<byte>)
    requires Encode(mne, m, args, site, gen).Ok? && OpcodeOf(mne, m) <= 0xFF && TakesBit(m)
    requires !args[0].unknown && 0 <= args[0].value <= 7 && OpcodeOf(mne, m) / 2 % 8 == 0
    ensures
      var (bytes, opcode) := (Encode(mne, m, args, site, gen).value.bytes, OpcodeOf(mne, m));
      bytes != [] && bytes[0] / 2 % 8 == args[0].value && bytes[0] % 2 == opcode % 2 && bytes[0] / 16 == opcode / 16
  {
    EncodedFront(mne, m, args, site, gen);
    BitFront(OpcodeOf(mne, m), m, args, site.msb);
    InTheMiddle(Front(OpcodeOf(mne, m), m, args, site.msb)[0], OpcodeOf(mne, m), args[0].value);
  }

  /** The address after an instruction plus this byte, sign-extended, is the target. */
  predicate Lands(site: Site, bytes: seq<byte>, b: byte, target: int) { site.pc + |bytes| + SignExtended(b) == target }

  /** The displacement is that of the only byte that can. */
  lemma LandsIff(site: Site, bytes: seq<byte>, b: byte, target: int)
    ensures Lands(site, bytes, b, target) <==>
      var d := Displacement(target, site.pc, |bytes|); InRange(d) && b == d % 256
  {}

  lemma TailLands(mne: Mnemonic, m: Mode, args: seq<Arg>, site: Site, masked: seq<byte>, j: nat, stale: byte)
    requires Branches(mne, m) && j < |args| && !args[j].unknown && !site.pcUnknown
    ensures
      var code := EncodeTail(mne, m, args, site, masked, j, stale).value;
      && code.bytes != []
      && (code.outOfRange <==> !exists b: byte :: Lands(site, code.bytes, b, args[j].value))
      && (code.outOfRange || Lands(site, code.bytes, code.bytes[|code.bytes| - 1], args[j].value))
  {
    var code := EncodeTail(mne, m, args, site, masked, j, stale).value;
    var last := code.bytes[|code.bytes| - 1];
    LandsIff(site, code.bytes, last, args[j].value);
    if code.outOfRange {
      forall b: byte ensures !Lands(site, code.bytes, b, args[j].value) {
        LandsIff(site, code.bytes, b, args[j].value);
      }
    }
  }

  lemma EncodeEnds(mne: Mnemonic, m: Mode, args: seq<Arg>, site: Site, gen: seq<byte>) returns (masked: seq<byte>, stale: byte)
    requires Encode(mne, m, args, site, gen).Ok?
    ensures Encode(mne, m, args, site, gen)
      == EncodeTail(mne, m, args, site, masked, NextArg(m) + if mne.mask then 1 else 0, stale)
  {
    var front := Front(OpcodeOf(mne, m), m, args, site.msb);
    masked := if mne.mask then front + [Lo(args[NextArg(m)].value)] else front;
    stale := StaleAt(gen, |masked|);
  }

  /** A branch is reported as out of range if and only if no last byte would reach its target,
      and otherwise its last byte does: with target and origin known. Before they are, nothing is
      reported. */
  lemma BranchReachesTarget(mne: Mnemonic, m: Mode, args: seq<Arg>, site: Site, gen: seq<byte>)
    requires Encode(mne, m, args, site, gen).Ok?
    ensures
      var code := Encode(mne, m, args, site, gen).value;
      if !Branches(mne, m) then !code.outOfRange
      else
        var target := args[NextArg(m) + if mne.mask then 1 else 0];
        if target.unknown || site.pcUnknown then !code.outOfRange
        else
          && code.bytes != []
          && (code.outOfRange <==> !exists b: byte :: Lands(site, code.bytes, b, target.value))
          && (code.outOfRange || Lands(site, code.bytes, code.bytes[|code.bytes| - 1], target.value))
  {
    var masked, stale := EncodeEnds(mne, m, args, site, gen);
    var j := NextArg(m) + if mne.mask then 1 else 0;
    if Branches(mne, m) && !args[j].unknown && !site.pcUnknown {
      TailLands(mne, m, args, site, masked, j, stale);
    }
  }

  /** With everything known, the old contents of Gen do not show. */
  lemma NothingStale(mne: Mnemonic, m: Mode, args: seq<Arg>, site: Site, gen: seq<byte>, gen': seq<byte>)
    requires forall a <- args :: !a.unknown
    ensures Encode(mne, m, args, site, gen) == Encode(mne, m, args, site, gen')
  {}

  // ----- writing into Gen -----

  method PutOpcode(Gen: array<byte>, opcode: nat) returns (opidx: nat)
    requires 2 <= Gen.Length
    modifies Gen
    ensures opidx == |OpcodeBytes(opcode)| && Gen[..opidx] == OpcodeBytes(opcode)
    ensures forall i | opidx <= i < Gen.Length :: Gen[i] == old(Gen[i])
  {
    if opcode > 0xFF {
      Gen[0], Gen[1] := Hi(opcode), Lo(opcode);
      opidx := 2;
    } else {
      Gen[0] := Lo(opcode);
      opidx := 1;
    }
  }

  method PutByte(Gen: array<byte>, opidx: nat, b: byte) returns (next: nat)
    requires opidx < Gen.Length
    modifies Gen
    ensures next == opidx + 1 && Gen[..next] == old(Gen[..opidx]) + [b]
    ensures forall i | next <= i < Gen.Length :: Gen[i] == old(Gen[i])
  {
    Gen[opidx] := b;
    next := opidx + 1;
  }

  method PutOperand(Gen: array<byte>, start: nat, m: Mode, v: int, msb: bool) returns (opidx: nat)
    requires start + 2 <= Gen.Length
    modifies Gen
    ensures opidx == start + Opsize(m) && Gen[..opidx] == old(Gen[..start]) + OperandBytes(m, v, msb)
    ensures forall i | opidx <= i < Gen.Length :: Gen[i] == old(Gen[i])
  {
    opidx := start;
    ghost var before := Gen[..start];
    if Opsize(m) == 1 {
      opidx := PutByte(Gen, opidx, Lo(v));
    } else if Opsize(m) == 2 {
      var (first, second) := if msb then (Hi(v), Lo(v)) else (Lo(v), Hi(v));
      opidx := PutByte(Gen, opidx, first);
      opidx := PutByte(Gen, opidx, second);
      assert before + [first] + [second] == before + [first, second];
    } else {
      assert Opsize(m) == 0 && before + [] == before;
    }
  }

  method PutBit(Gen: array<byte>, start: nat, bit: Arg, v: int) returns (opidx: nat)
    requires 0 < start < Gen.Length
    modifies Gen
    ensures opidx == start + 1 && Gen[..opidx] == WithBit(old(Gen[..start]), bit) + [Lo(v)]
    ensures forall i | opidx <= i < Gen.Length :: Gen[i] == old(Gen[i])
  {
    opidx := PutByte(Gen, start, Lo(v));
    if !bit.unknown && bit.value <= 7 {
      Gen[0] := (Gen[0] + 2 * bit.value) % 256;
    }
  }

  /** The opcode and operand switch; opidx counts the bytes written. */
  method PutFront(Gen: array<byte>, opcode: nat, m: Mode, args: seq<Arg>, msb: bool) returns (opidx: nat)
    requires 8 <= Gen.Length && args != [] && (TakesBit(m) ==> 2 <= |args|)
    modifies Gen
    ensures opidx <= 4 && Gen[..opidx] == Front(opcode, m, args, msb)
    ensures forall i | opidx <= i < Gen.Length :: Gen[i] == old(Gen[i])
  {
    opidx := PutOpcode(Gen, opcode);
    if TakesBit(m) {
      opidx := PutBit(Gen, opidx, args[0], args[1].value);
    } else if m != Rel {
      opidx := PutOperand(Gen, opidx, m, args[0].value, msb);
    }
  }

  /** The displacement of a branch; an unknown target leaves the byte as it was. */
  method PutBranch(Gen: array<byte>, opidx: nat, a: Arg, site: Site) returns (away: bool)
    requires opidx < Gen.Length
    modifies Gen
    ensures Gen[..opidx + 1] == old(Gen[..opidx]) + [BranchByte(a, site, opidx + 1, old(Gen[opidx]))]
    ensures away == (!a.unknown && !site.pcUnknown && !InRange(Displacement(a.value, site.pc, opidx + 1)))
  {
    away := false;
    if !a.unknown {
      var dest := 0;
      if !site.pcUnknown {
        dest := a.value - site.pc - (opidx + 1);
        if 128 <= dest || dest < -128 {
          away := true;
          dest := 0;
        }
      }
      Gen[opidx] := dest % 256;
    }
  }

  predicate Written(Gen: array<byte>, r: Result<(nat, bool)>, spec: Result<Code>)
    reads Gen
  {
    match spec
    case Ok(c) => r == Ok((|c.bytes|, c.outOfRange)) && |c.bytes| <= Gen.Length && Gen[..|c.bytes|] == c.bytes
    case Abort => r == Abort
    case Corrupt => r == Corrupt
  }

  method PutTail(Gen: array<byte>, mne: Mnemonic, m: Mode, args: seq<Arg>, site: Site, opidx: nat, j: nat)
    returns (r: Result<(nat, bool)>)
    requires opidx < Gen.Length
    modifies Gen
    ensures Written(Gen, r, EncodeTail(mne, m, args, site, old(Gen[..opidx]), j, old(Gen[opidx])))
  {
    if mne.rel || m == Rel || m == ByteRel {
      if |args| <= j {
        return Abort;
      }
      var away := PutBranch(Gen, opidx, args[j], site);
      return Ok((opidx + 1, away));
    }
    return Ok((opidx, false));
  }

  /** The end of v_mnemonic, from the opcode to Glen. */
  method PutInstruction(Gen: array<byte>, mne: Mnemonic, m: Mode, args: seq<Arg>, site: Site)
    returns (r: Result<(nat, bool)>)
    requires 8 <= Gen.Length
    modifies Gen
    ensures Written(Gen, r, Encode(mne, m, args, site, old(Gen[..])))
  {
    if args == [] || (TakesBit(m) && |args| < 2) {
      return Corrupt;
    }
    var opidx := PutFront(Gen, OpcodeOf(mne, m), m, args, site.msb);
    var i := NextArg(m);
    if mne.mask {
      if |args| <= i {
        return Abort;
      }
      opidx := PutByte(Gen, opidx, Lo(args[i].value));
      i := i + 1;
    }
    r := PutTail(Gen, mne, m, args, site, opidx, i);
  }
}
