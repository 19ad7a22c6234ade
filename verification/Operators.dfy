/** The operators of src/exp.c on a value and its "unknown" flag.

    Values are C longs, kept here as mathematical integers; only the left
    shift is reduced to 64 bits, as the source itself does. */
module Operators {
  import opened Results

  /** One cell of Argstack together with its cell of Argflags. */
  datatype Arg = Arg(value: int, unknown: bool)

  datatype UnaryOp = TakeLsb | TakeMsb | Negate | Invert | Not

  datatype BinaryOp =
    | Mult | Div | Mod | Add | Sub | ShiftRight | ShiftLeft
    | Greater | GreaterEq | Smaller | SmallerEq | EqEq | NotEq
    | BitwiseAnd | BitwiseXor | BitwiseOr | AndAnd | OrOr | Question

  const UNARY_PRIORITY := 128
  const LONG_BITS := 64
  const LONG_MODULUS := 0x1_0000_0000_0000_0000

  function Priority(op: BinaryOp): (p: nat)
    ensures 10 <= p <= 20
  {
    match op
    case Mult => 20
    case Div => 20
    case Mod => 20
    case Add => 19
    case Sub => 19
    case ShiftRight => 18
    case ShiftLeft => 18
    case Greater => 17
    case GreaterEq => 17
    case Smaller => 17
    case SmallerEq => 17
    case EqEq => 16
    case NotEq => 16
    case BitwiseAnd => 15
    case BitwiseXor => 14
    case BitwiseOr => 13
    case AndAnd => 12
    case OrOr => 11
    case Question => 10
  }

  // ----- C arithmetic -----

  function Abs(a: int): nat { if a < 0 then -a else a }

  /** Quotient truncated toward zero and its remainder (ISO/IEC 9899:2011, section 6.5.5). */
  function CDiv(a: int, b: int): int
    requires b != 0
  {
    if 0 <= a then a / b else -((-a) / b)
  }

  function CMod(a: int, b: int): int
    requires b != 0
  {
    a - b * CDiv(a, b)
  }

  lemma TruncatingDivision(a: int, b: int)
    requires b != 0
    ensures a == b * CDiv(a, b) + CMod(a, b)
    ensures Abs(CMod(a, b)) < Abs(b)
    ensures CMod(a, b) == 0 || (CMod(a, b) < 0 <==> a < 0)
  {
    if 0 <= a {
      assert a == b * (a / b) + a % b;
    } else {
      assert -a == b * ((-a) / b) + (-a) % b;
      assert b * -((-a) / b) == -(b * ((-a) / b));
    }
  }

  function Pow2(n: nat): (p: nat)
    ensures 0 < p
  {
    if n == 0 then 1 else 2 * Pow2(n - 1)
  }

  /** The long whose 64 low bits are those of x. */
  function ToLong(x: int): int {
    var r := x % LONG_MODULUS;
    if r < LONG_MODULUS / 2 then r else r - LONG_MODULUS
  }

  /** An out-of-range shift count shifts by nothing. */
  function ShiftCount(v: int): nat { if v < 0 || LONG_BITS <= v then 0 else v }

  /** Bitwise and of two's complement integers of any width. */
  function BitAnd(a: int, b: int): int
    decreases Abs(a)
  {
    if a == 0 || b == 0 then 0
    else if a == -1 then b
    else if b == -1 then a
    else 2 * BitAnd(a / 2, b / 2) + if a % 2 == 1 && b % 2 == 1 then 1 else 0
  }

  function BitNot(a: int): int { -1 - a }

  function BitOr(a: int, b: int): int { BitNot(BitAnd(BitNot(a), BitNot(b))) }

  function BitXor(a: int, b: int): int { BitOr(a, b) - BitAnd(a, b) }

  /** Masking with k one-bits keeps the value modulo 2^k: `& 0xFF` is a byte truncation,
      for negative values too. */
  lemma {:induction false} LowMask(v: int, k: nat)
    ensures BitAnd(v, Pow2(k) - 1) == v % Pow2(k)
    decreases k
  {
    if k == 0 {
    } else {
      LowMask(v / 2, k - 1);
      var h := Pow2(k - 1);
      assert (2 * h - 1) / 2 == h - 1;
      HalfModulo(v, h);
    }
  }

  lemma HalfModulo(v: int, h: nat)
    requires 0 < h
    ensures v % (2 * h) == 2 * ((v / 2) % h) + v % 2
  {
    var q, r := (v / 2) / h, (v / 2) % h;
    assert v == 2 * (h * q + r) + v % 2;
    assert v == (2 * h) * q + (2 * r + v % 2);
    UniqueRemainder(v, 2 * h, q, 2 * r + v % 2);
  }

  lemma UniqueRemainder(v: int, m: nat, q: int, r: int)
    requires 0 <= r < m && v == m * q + r
    ensures v % m == r && v / m == q
  {
    var q' := v / m;
    assert m * (q - q') == v % m - r;
    MultipleBounds(m, q - q');
  }

  lemma MultipleBounds(m: int, d: int)
    requires 0 < m
    ensures 1 <= d ==> m <= m * d
    ensures d <= -1 ==> m * d <= -m
  {}

  // ----- the op_ functions -----

  function Truth(b: bool): int { if b then 1 else 0 }

  function ApplyUnary(op: UnaryOp, a: Arg): Arg {
    var v := match op
      case TakeLsb => BitAnd(a.value, 0xFF)
      case TakeMsb => BitAnd(a.value / 256, 0xFF)
      case Negate => -a.value
      case Invert => BitNot(a.value)
      case Not => Truth(a.value == 0);
    Arg(v, a.unknown)
  }

  /** `Abort` is the fatal "division by 0" error. */
  function ApplyBinary(op: BinaryOp, a: Arg, b: Arg): (r: Result<Arg>)
    ensures !r.Corrupt?
    ensures r.Abort? <==> (op.Div? || op.Mod?) && !a.unknown && !b.unknown && b.value == 0
  {
    var u := a.unknown || b.unknown;
    match op
    case Mult => Ok(Arg(a.value * b.value, u))
    case Div => if u then Ok(Arg(0, true)) else if b.value == 0 then Abort else Ok(Arg(CDiv(a.value, b.value), false))
    case Mod => if u then Ok(Arg(0, true)) else if b.value == 0 then Abort else Ok(Arg(CMod(a.value, b.value), false))
    case Add => Ok(Arg(a.value + b.value, u))
    case Sub => Ok(Arg(a.value - b.value, u))
    case ShiftRight => Ok(if u then Arg(0, true) else Arg(a.value / Pow2(ShiftCount(b.value)), false))
    case ShiftLeft => Ok(if u then Arg(0, true) else Arg(ToLong(a.value * Pow2(ShiftCount(b.value))), false))
    case Greater => Ok(Arg(Truth(a.value > b.value), u))
    case GreaterEq => Ok(Arg(Truth(a.value >= b.value), u))
    case Smaller => Ok(Arg(Truth(a.value < b.value), u))
    case SmallerEq => Ok(Arg(Truth(a.value <= b.value), u))
    case EqEq => Ok(Arg(Truth(a.value == b.value), u))
    case NotEq => Ok(Arg(Truth(a.value != b.value), u))
    case BitwiseAnd => Ok(Arg(BitAnd(a.value, b.value), u))
    case BitwiseXor => Ok(Arg(BitXor(a.value, b.value), u))
    case BitwiseOr => Ok(Arg(BitOr(a.value, b.value), u))
    case AndAnd =>
      Ok(if (!a.unknown && a.value == 0) || (!b.unknown && b.value == 0) then Arg(0, false) else Arg(1, u))
    case OrOr =>
      Ok(if (!a.unknown && a.value != 0) || (!b.unknown && b.value != 0) then Arg(1, false) else Arg(0, u))
    case Question =>
      Ok(if a.unknown then Arg(0, true) else if a.value != 0 then b else Arg(0, false))
  }

  /** b is what a may become once more symbols are resolved. */
  predicate Resolves(a: Arg, b: Arg) { !a.unknown ==> b == a }

  lemma BinaryResolves(op: BinaryOp, a: Arg, b: Arg, a': Arg, b': Arg)
    requires Resolves(a, a') && Resolves(b, b')
    requires ApplyBinary(op, a, b).Ok? && ApplyBinary(op, a', b').Ok?
    ensures Resolves(ApplyBinary(op, a, b).value, ApplyBinary(op, a', b').value)
  {}
}
