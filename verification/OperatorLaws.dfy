/** What each operator of src/exp.c gives, by laws that do not look at its definition. */
module OperatorLaws {
  import opened Results
  import opened Operators
  import opened Files

  /** A division by a known zero has no value. */
  predicate Divides(op: BinaryOp, b: int) { (op.Div? || op.Mod?) ==> b != 0 }

  /** The operator on known operands. */
  function Of(op: BinaryOp, a: int, b: int): int
    requires Divides(op, b)
  {
    ApplyBinary(op, Arg(a, false), Arg(b, false)).value.value
  }

  function UnaryOf(op: UnaryOp, a: int): int { ApplyUnary(op, Arg(a, false)).value }

  // ----- arithmetic -----

  /** Sum and difference undo each other, and the difference is what the second operand lacks
      of the first. */
  lemma SumAndDifference(a: int, b: int)
    ensures Of(Sub, a, b) + b == a
    ensures Of(Sub, Of(Add, a, b), b) == a && Of(Add, Of(Sub, a, b), b) == a
    ensures UnaryOf(Negate, a) + a == 0
  {}

  /** A product is a repeated sum. */
  lemma Product(a: int, b: int)
    ensures Of(Mult, a, 0) == 0
    ensures Of(Mult, a, b + 1) == Of(Add, Of(Mult, a, b), a)
  {}

  /** Quotient and remainder make up the dividend again, and no others do, that are as small
      and of the dividend's sign. */
  lemma QuotientAndRemainder(a: int, b: int, q: int, r: int)
    requires b != 0
    ensures
      q == Of(Div, a, b) && r == Of(Mod, a, b) <==>
      b * q + r == a && Abs(r) < Abs(b) && (0 <= a ==> 0 <= r) && (a <= 0 ==> r <= 0)
  {
    TruncatingDivision(a, b);
    if b * q + r == a && Abs(r) < Abs(b) && (0 <= a ==> 0 <= r) && (a <= 0 ==> r <= 0) {
      OneQuotient(a, b, q, r, CDiv(a, b), CMod(a, b));
    }
  }

  lemma OneQuotient(a: int, b: int, q: int, r: int, q': int, r': int)
    requires b * q + r == a == b * q' + r' && Abs(r) < Abs(b) && Abs(r') < Abs(b)
    requires if 0 <= a then 0 <= r && 0 <= r' else r <= 0 && r' <= 0
    ensures q == q' && r == r'
  {
    assert b * (q - q') == r' - r;
    SmallMultiple(b, q - q');
  }

  lemma SmallMultiple(b: int, d: int)
    requires b != 0
    ensures d != 0 ==> Abs(b) <= Abs(b * d)
  {
    if 0 < b {
      MultipleBounds(b, d);
    } else {
      MultipleBounds(-b, d);
      assert (-b) * d == -(b * d);
    }
  }

  /** A shift to the right by k, if the machine has that many bits, is the quotient rounded
      down; by any other count it is none. */
  lemma RightShift(a: int, k: int)
    ensures
      var r := Of(ShiftRight, a, k);
      if 0 <= k < LONG_BITS then r * Pow2(k) <= a < (r + 1) * Pow2(k) else r == a
  {
    if 0 <= k < LONG_BITS {
      RoundedDown(a, Pow2(k));
    } else {
      assert Pow2(0) == 1;
    }
  }

  lemma RoundedDown(a: int, p: nat)
    requires 0 < p
    ensures (a / p) * p <= a < (a / p + 1) * p
  {
    assert a == p * (a / p) + a % p;
  }

  /** A shift to the left by k is the long that differs from the product by whole turns. */
  lemma LeftShift(a: int, k: int)
    ensures
      var r := Of(ShiftLeft, a, k);
      var exact := if 0 <= k < LONG_BITS then a * Pow2(k) else a;
      -0x8000_0000_0000_0000 <= r < 0x8000_0000_0000_0000 && (r - exact) % LONG_MODULUS == 0
  {
    LongRange(a * Pow2(ShiftCount(k)));
    if !(0 <= k < LONG_BITS) {
      assert Pow2(0) == 1;
    }
  }

  lemma LongRange(x: int)
    ensures -0x8000_0000_0000_0000 <= ToLong(x) < 0x8000_0000_0000_0000 && (ToLong(x) - x) % LONG_MODULUS == 0
  {
    var q := x / LONG_MODULUS;
    assert x == LONG_MODULUS * q + x % LONG_MODULUS;
  }

  // ----- comparisons -----

  /** a lies above b. */
  ghost predicate Above(a: int, b: int) { exists n: nat :: 0 < n && Raised(b, n) == a }

  function Raised(b: int, n: nat): int { b + n }

  lemma AboveIsGreater(a: int, b: int)
    ensures Above(a, b) <==> a > b
  {
    assert a > b ==> Raised(b, a - b) == a;
  }

  /** Each comparison is 1 where it holds and 0 elsewhere. */
  lemma Comparisons(a: int, b: int)
    ensures Of(Greater, a, b) == (if Above(a, b) then 1 else 0)
    ensures Of(Smaller, a, b) == (if Above(b, a) then 1 else 0)
    ensures Of(GreaterEq, a, b) == (if Above(b, a) then 0 else 1)
    ensures Of(SmallerEq, a, b) == (if Above(a, b) then 0 else 1)
    ensures Of(EqEq, a, b) == (if Above(a, b) || Above(b, a) then 0 else 1)
    ensures Of(NotEq, a, b) == (if Above(a, b) || Above(b, a) then 1 else 0)
    ensures UnaryOf(Not, a) == Of(EqEq, a, 0)
  {
    AboveIsGreater(a, b);
    AboveIsGreater(b, a);
  }

  // ----- bits -----

  /** Bit k of an integer in two's complement. */
  predicate Bit(v: int, k: nat)
    decreases k
  {
    if k == 0 then v % 2 == 1 else Bit(v / 2, k - 1)
  }

  /** Two integers with the same bits are equal. */
  lemma {:induction false} DifferentBit(a: int, b: int) returns (k: nat)
    requires a != b
    decreases Abs(a) + Abs(b)
    ensures Bit(a, k) != Bit(b, k)
  {
    if a % 2 != b % 2 {
      k := 0;
    } else {
      k := DifferentBit(a / 2, b / 2);
      k := k + 1;
    }
  }

  lemma AndHalves(a: int, b: int)
    ensures BitAnd(a, b) % 2 == (if a % 2 == 1 && b % 2 == 1 then 1 else 0) && BitAnd(a, b) / 2 == BitAnd(a / 2, b / 2)
  {}

  lemma NotHalves(a: int)
    ensures BitNot(a) % 2 == 1 - a % 2 && BitNot(a) / 2 == BitNot(a / 2)
  {}

  lemma OrHalves(a: int, b: int)
    ensures BitOr(a, b) % 2 == (if a % 2 == 1 || b % 2 == 1 then 1 else 0) && BitOr(a, b) / 2 == BitOr(a / 2, b / 2)
  {
    NotHalves(a);
    NotHalves(b);
    AndHalves(BitNot(a), BitNot(b));
    NotHalves(BitAnd(BitNot(a), BitNot(b)));
  }

  lemma XorHalves(a: int, b: int)
    ensures BitXor(a, b) % 2 == (if a % 2 == b % 2 then 0 else 1) && BitXor(a, b) / 2 == BitXor(a / 2, b / 2)
  {
    AndHalves(a, b);
    OrHalves(a, b);
    HalfDifference(BitOr(a, b), BitAnd(a, b));
  }

  lemma HalfDifference(x: int, y: int)
    requires y % 2 <= x % 2
    ensures (x - y) % 2 == x % 2 - y % 2 && (x - y) / 2 == x / 2 - y / 2
  {
    assert x - y == 2 * (x / 2 - y / 2) + (x % 2 - y % 2);
  }

  lemma {:induction false} BitsOf(a: int, b: int, k: nat)
    decreases k
    ensures Bit(BitNot(a), k) == !Bit(a, k)
    ensures Bit(BitAnd(a, b), k) == (Bit(a, k) && Bit(b, k))
    ensures Bit(BitOr(a, b), k) == (Bit(a, k) || Bit(b, k))
    ensures Bit(BitXor(a, b), k) == (Bit(a, k) != Bit(b, k))
  {
    NotHalves(a);
    AndHalves(a, b);
    OrHalves(a, b);
    XorHalves(a, b);
    if k != 0 {
      BitsOf(a / 2, b / 2, k - 1);
    }
  }

  /** `~`, `&`, `|` and `^` are those of the bits, each bit by itself; with DifferentBit this is
      all of the result. */
  lemma BitOperators(a: int, b: int, k: nat)
    ensures Bit(UnaryOf(Invert, a), k) == !Bit(a, k)
    ensures Bit(Of(BitwiseAnd, a, b), k) == (Bit(a, k) && Bit(b, k))
    ensures Bit(Of(BitwiseOr, a, b), k) == (Bit(a, k) || Bit(b, k))
    ensures Bit(Of(BitwiseXor, a, b), k) == (Bit(a, k) != Bit(b, k))
  {
    BitsOf(a, b, k);
  }

  /** `<` and `>` are the two bytes of the low word. */
  lemma LowWord(a: int)
    ensures 0 <= UnaryOf(TakeLsb, a) < 256 && 0 <= UnaryOf(TakeMsb, a) < 256
    ensures UnaryOf(TakeMsb, a) * 256 + UnaryOf(TakeLsb, a) == a % 0x1_0000
  {
    assert Pow2(8) == 256 by {
      assert Pow2(4) == 16;
    }
    LowMask(a, 8);
    LowMask(a / 256, 8);
    WordOfBytes(a);
  }

  // ----- logic -----

  /** `&&` and `||` are 0 or 1; `a ? b` is b or 0. */
  lemma Logic(a: int, b: int)
    ensures Of(AndAnd, a, b) == (if a == 0 || b == 0 then 0 else 1)
    ensures Of(OrOr, a, b) == (if a == 0 && b == 0 then 0 else 1)
    ensures Of(Question, a, b) == (if a == 0 then 0 else b)
  {}

  // ----- unknown operands -----

  /** The operators that can tell their value from one operand. */
  predicate Lazy(op: BinaryOp) { op.AndAnd? || op.OrOr? || op.Question? }

  /** An unknown operand makes any other result unknown. */
  lemma UnknownSpreads(op: BinaryOp, a: Arg, b: Arg)
    requires !Lazy(op) && ApplyBinary(op, a, b).Ok?
    ensures ApplyBinary(op, a, b).value.unknown <==> a.unknown || b.unknown
  {}

  /** Whatever the unknown operands turn out to be, the value is the same. */
  ghost predicate Decided(op: BinaryOp, a: Arg, b: Arg)
    requires !op.Div? && !op.Mod?
  {
    forall x: int, y: int, x': int, y': int ::
      Becomes(a, x) && Becomes(b, y) && Becomes(a, x') && Becomes(b, y') ==> Of(op, x, y) == Of(op, x', y')
  }

  predicate Becomes(a: Arg, v: int) { Resolves(a, Arg(v, false)) }

  /** `&&` and `||` are known exactly where the known operands decide them, and then are what
      they will be. */
  lemma DecidedIsKnown(op: BinaryOp, a: Arg, b: Arg)
    requires op.AndAnd? || op.OrOr?
    ensures !ApplyBinary(op, a, b).value.unknown <==> Decided(op, a, b)
    ensures forall x: int, y: int :: Decided(op, a, b) && Becomes(a, x) && Becomes(b, y) ==> ApplyBinary(op, a, b).value.value == Of(op, x, y)
  {
    if ApplyBinary(op, a, b).value.unknown {
      var x, x' := if a.unknown then 0 else a.value, if a.unknown then 1 else a.value;
      var y, y' := if b.unknown then 0 else b.value, if b.unknown then 1 else b.value;
      assert Becomes(a, x) && Becomes(b, y) && Becomes(a, x') && Becomes(b, y') && Of(op, x, y) != Of(op, x', y');
    }
  }

  /** The second operand of `?` counts only where the condition is known not to be 0. */
  lemma Choice(a: Arg, b: Arg)
    ensures a.unknown ==> ApplyBinary(Question, a, b).value.unknown
    ensures !a.unknown && a.value != 0 ==> ApplyBinary(Question, a, b) == Ok(b)
    ensures !a.unknown && a.value == 0 ==> ApplyBinary(Question, a, b) == Ok(Arg(0, false))
  {}

  /** The operators that compute with the numbers of unknown operands too; the others give 0
      for them, or, `&&` and `||`, what would be neutral. */
  predicate Eager(op: BinaryOp) { !(Lazy(op) || op.Div? || op.Mod? || op.ShiftRight? || op.ShiftLeft?) }

  lemma NumbersOfUnknowns(op: BinaryOp, a: Arg, b: Arg)
    requires ApplyBinary(op, a, b).Ok?
    ensures Eager(op) ==> ApplyBinary(op, a, b).value.value == Of(op, a.value, b.value)
    ensures !Eager(op) && ApplyBinary(op, a, b).value.unknown && !(op.Question? && !a.unknown) ==>
      ApplyBinary(op, a, b).value.value == if op.AndAnd? then 1 else 0
  {}

  lemma UnaryOnUnknown(op: UnaryOp, a: Arg)
    ensures ApplyUnary(op, a) == Arg(UnaryOf(op, a.value), a.unknown)
  {}
}
