/**
 What the operations compute on 256-bit words, and why the repair stored with
 each one makes the result Rust's wrapping arithmetic at every width.
 */
module WidthRepair {
  import opened Powers
  import opened Immediates
  import opened Types
  import opened Instructions
  import W = Words

  type Word = W.Word

  function Literal(imm: Immediate): Word {
    BigEndianBound(imm);
    BigEndian(imm)
  }

  // ----- raw results -----

  /** A comparison on words, synthesised from `LT`/`SLT`, `EQ` and `ISZERO`. */
  function Compare(cmp: Cmp, operand: Type, a: Word, b: Word): Word {
    var less := if operand.IsSigned() then W.SLt(a, b) else W.Lt(a, b);
    var greater := if operand.IsSigned() then W.SLt(b, a) else W.Lt(b, a);
    match cmp
    case Eq => W.Eq(a, b)
    case Ne => W.IsZero(W.Eq(a, b))
    case Lt => less
    case Le => W.IsZero(greater)
    case Gt => greater
    case Ge => W.IsZero(less)
  }

  /** The branch-free selection: a mask of all ones or none, and its complement. */
  function SelectWord(cond: Word, t: Word, e: Word): Word {
    var m := W.Sub(0, cond);
    W.Or(W.And(t, m), W.And(e, W.Not(m)))
  }

  predicate IsBinary(op: Op) {
    || op.Add? || op.Sub? || op.Mul? || op.Div? || op.Rem? || op.Exp? || op.And? || op.Or? || op.Xor?
    || op.Shl? || op.Shr? || op.Sar? || op.ExtractByte?
  }

  /** A two-operand operation before its repair. */
  function RawBinary(op: Op, ty: Type, a: Word, b: Word): Word
    requires IsBinary(op)
  {
    match op
    case Add => W.Add(a, b)
    case Sub => W.Sub(a, b)
    case Mul => W.Mul(a, b)
    case Div => if ty.IsSigned() then W.SDiv(a, b) else W.Div(a, b)
    case Rem => if ty.IsSigned() then W.SMod(a, b) else W.Mod(a, b)
    case Exp => W.Exp(a, b)
    case And => W.And(a, b)
    case Or => W.Or(a, b)
    case Xor => W.Bitwise(W.XorOp, a, b)
    case Shl => W.Shl(b, a)
    case Shr => W.Shr(b, a)
    case Sar => W.Sar(b, a)
    case ExtractByte => W.Byte(a, b)
  }

  /** The operation followed by the repair the builder stores for it. */
  function Repaired(op: Op, ty: Type, raw: Word): Word
    requires ty.IsWellFormed()
  {
    op.DefaultRepair(ty).Apply(raw)
  }

  // ----- arithmetic that wraps -----

  /** A raw word congruent to an exact integer repairs to that integer wrapped. */
  lemma RepairedWraps(ty: Type, raw: Word, z: int)
    requires ty.IsWellFormed() && raw % Pow2(W.WORD_BITS) == z % Pow2(W.WORD_BITS)
    ensures WellFormed(ty, RepairTo(ty.AsInt()).Apply(raw))
    ensures IntValue(ty, RepairTo(ty.AsInt()).Apply(raw)) == Wrap(ty, z)
  {
    RepairWraps(ty, raw);
    CongruentNarrow(raw, z, ty.Bits(), W.WORD_BITS);
    WrapCongruent(ty, raw, z);
  }

  /** A well-formed word is congruent to its value modulo the whole word. */
  lemma ValueCongruent(ty: Type, x: Word)
    requires ty.IsWellFormed() && WellFormed(ty, x)
    ensures x % Pow2(W.WORD_BITS) == IntValue(ty, x) % Pow2(W.WORD_BITS)
    ensures Reading(ty, x) == IntValue(ty, x)
  {
    WellFormedIffInRange(ty, x);
    W.SignedCongruent(x);
  }

  lemma SumCongruent(a: Word, x: int, b: Word, y: int)
    requires a % Pow2(W.WORD_BITS) == x % Pow2(W.WORD_BITS) && b % Pow2(W.WORD_BITS) == y % Pow2(W.WORD_BITS)
    ensures W.Add(a, b) % Pow2(W.WORD_BITS) == (x + y) % Pow2(W.WORD_BITS)
    ensures W.Sub(a, b) % Pow2(W.WORD_BITS) == (x - y) % Pow2(W.WORD_BITS)
  {
    hide W.Encode;
    CongruentAdd(a, x, b, y, Pow2(W.WORD_BITS));
    W.EncodeCongruent(a + b);
    W.EncodeCongruent(a - b);
  }

  /** `Add` wraps at the width, for both signs. */
  lemma AddWraps(ty: Type, a: Word, b: Word)
    requires ty.IsWellFormed() && WellFormed(ty, a) && WellFormed(ty, b)
    ensures WellFormed(ty, Repaired(Add, ty, RawBinary(Add, ty, a, b)))
    ensures IntValue(ty, Repaired(Add, ty, RawBinary(Add, ty, a, b))) == Wrap(ty, IntValue(ty, a) + IntValue(ty, b))
  {
    var x, y := IntValue(ty, a), IntValue(ty, b);
    ValueCongruent(ty, a);
    ValueCongruent(ty, b);
    hide IntValue, Wrap, WellFormed, Repaired, W.Add;
    SumCongruent(a, x, b, y);
    RepairedWraps(ty, W.Add(a, b), x + y);
  }

  /** `Sub` wraps at the width, for both signs. */
  lemma SubWraps(ty: Type, a: Word, b: Word)
    requires ty.IsWellFormed() && WellFormed(ty, a) && WellFormed(ty, b)
    ensures WellFormed(ty, Repaired(Sub, ty, RawBinary(Sub, ty, a, b)))
    ensures IntValue(ty, Repaired(Sub, ty, RawBinary(Sub, ty, a, b))) == Wrap(ty, IntValue(ty, a) - IntValue(ty, b))
  {
    var x, y := IntValue(ty, a), IntValue(ty, b);
    ValueCongruent(ty, a);
    ValueCongruent(ty, b);
    hide IntValue, Wrap, WellFormed, Repaired, W.Sub;
    SumCongruent(a, x, b, y);
    RepairedWraps(ty, W.Sub(a, b), x - y);
  }

  /** `Mul` wraps at the width, for both signs. */
  lemma MulWraps(ty: Type, a: Word, b: Word)
    requires ty.IsWellFormed() && WellFormed(ty, a) && WellFormed(ty, b)
    ensures WellFormed(ty, Repaired(Mul, ty, RawBinary(Mul, ty, a, b)))
    ensures IntValue(ty, Repaired(Mul, ty, RawBinary(Mul, ty, a, b))) == Wrap(ty, IntValue(ty, a) * IntValue(ty, b))
  {
    var x, y := IntValue(ty, a), IntValue(ty, b);
    ValueCongruent(ty, a);
    ValueCongruent(ty, b);
    CongruentMul(a, x, b, y, Pow2(W.WORD_BITS));
    W.EncodeCongruent(a * b);
    RepairedWraps(ty, W.Mul(a, b), x * y);
  }

  /** Exponentiation wraps, by any exponent word. */
  lemma ExpWraps(ty: Type, a: Word, e: Word)
    requires ty.IsWellFormed() && WellFormed(ty, a)
    ensures WellFormed(ty, Repaired(Exp, ty, RawBinary(Exp, ty, a, e)))
    ensures IntValue(ty, Repaired(Exp, ty, RawBinary(Exp, ty, a, e))) == Wrap(ty, Power(IntValue(ty, a), e))
  {
    ValueCongruent(ty, a);
    CongruentPower(a, IntValue(ty, a), e, Pow2(W.WORD_BITS));
    W.EncodeCongruent(Power(a, e));
    RepairedWraps(ty, W.Exp(a, e), Power(IntValue(ty, a), e));
  }

  /** Left shift multiplies by the power of two and wraps, for any shift amount. */
  lemma ShlWraps(ty: Type, a: Word, shift: Word)
    requires ty.IsWellFormed() && WellFormed(ty, a)
    ensures WellFormed(ty, Repaired(Shl, ty, RawBinary(Shl, ty, a, shift)))
    ensures IntValue(ty, Repaired(Shl, ty, RawBinary(Shl, ty, a, shift))) == Wrap(ty, IntValue(ty, a) * Pow2(shift))
  {
    ValueCongruent(ty, a);
    ShiftCongruent(a, IntValue(ty, a), shift);
    RepairedWraps(ty, W.Shl(shift, a), IntValue(ty, a) * Pow2(shift));
  }

  lemma ShiftCongruent(a: Word, x: int, shift: Word)
    requires a % Pow2(W.WORD_BITS) == x % Pow2(W.WORD_BITS)
    ensures W.Shl(shift, a) % Pow2(W.WORD_BITS) == x * Pow2(shift) % Pow2(W.WORD_BITS)
  {
    var m := Pow2(W.WORD_BITS);
    if shift >= W.WORD_BITS {
      Pow2Split(W.WORD_BITS, shift);
      MultipleIsZero(x, m, Pow2(shift - W.WORD_BITS));
    } else {
      CongruentScale(a, x, Pow2(shift), m);
      W.EncodeCongruent(a * Pow2(shift));
    }
  }

  lemma MultipleIsZero(x: int, m: nat, k: nat)
    requires m > 0
    ensures x * (m * k) % m == 0 % m
  {
    assert x * (m * k) == 0 + (x * k) * m;
    ModShift(0, x * k, m);
  }

  // ----- division -----

  lemma TruncDivBound(x: int, y: int)
    requires y != 0
    ensures W.Abs(W.TruncDiv(x, y)) <= W.Abs(x)
    ensures W.TruncDiv(x, y) == W.Abs(x) ==> x >= 0 || y == -1
    ensures W.Abs(W.TruncRem(x, y)) <= W.Abs(x) && (x < 0 ==> W.TruncRem(x, y) <= 0)
    ensures (x >= 0 ==> W.TruncRem(x, y) >= 0)
  {
    var p, q := W.Abs(x), W.Abs(y);
    DivAtMost(p, q);
    ModAtMost(p, q);
    if q >= 2 && p > 0 {
      HalfAtMost(p, q);
    }
  }

  lemma ModAtMost(p: nat, q: nat)
    requires q > 0
    ensures 0 <= p % q <= p
  {
    DivAtMost(p, q);
    assert p == q * (p / q) + p % q;
  }

  /** Truncated division and remainder put the dividend back together. */
  lemma TruncDivides(x: int, y: int)
    requires y != 0
    ensures x == y * W.TruncDiv(x, y) + W.TruncRem(x, y)
    ensures W.Abs(W.TruncRem(x, y)) < W.Abs(y)
  {
    var p, q := W.Abs(x), W.Abs(y);
    var k: int := p / q;
    assert p == q * k + p % q;
    SignsOfProduct(q, k);
  }

  lemma SignsOfProduct(q: int, k: int)
    ensures q * -k == -(q * k) && -q * k == -(q * k) && -q * -k == q * k
  {
  }

  lemma HalfAtMost(p: nat, q: nat)
    requires q >= 2 && p > 0
    ensures p / q < p
  {
    if p / q >= p {
      MulMono(2, q, p);
      MulMono(p, p / q, q);
    }
  }

  /** Signed division wraps only at the minimum over -1; a zero divisor gives zero. */
  lemma SignedDivWraps(ty: Type, a: Word, b: Word)
    requires ty.IsWellFormed() && ty.IsSigned() && WellFormed(ty, a) && WellFormed(ty, b)
    ensures var r := Repaired(Div, ty, RawBinary(Div, ty, a, b));
            var x, y := IntValue(ty, a), IntValue(ty, b);
            && WellFormed(ty, r)
            && IntValue(ty, r) == (if y == 0 then 0 else Wrap(ty, W.TruncDiv(x, y)))
            && (y != 0 && !(x == MinValue(ty) && y == -1) ==> IntValue(ty, r) == W.TruncDiv(x, y))
            && (x == MinValue(ty) && y == -1 ==> IntValue(ty, r) == MinValue(ty))
  {
    var x, y := IntValue(ty, a), IntValue(ty, b);
    ValueCongruent(ty, a);
    ValueCongruent(ty, b);
    var z := if b == 0 then 0 else W.TruncDiv(x, y);
    SignedZero(ty, b);
    W.EncodeCongruent(z);
    W.EncodeCongruent(0);
    RepairedWraps(ty, W.SDiv(a, b), z);
    QuotientInRange(ty, x, y);
  }

  lemma SignedZero(ty: Type, b: Word)
    requires ty.IsWellFormed() && WellFormed(ty, b)
    ensures b == 0 <==> IntValue(ty, b) == 0
  {
    ValueCongruent(ty, b);
  }

  lemma QuotientInRange(ty: Type, x: int, y: int)
    requires ty.IsWellFormed() && ty.IsSigned() && InRange(ty, x) && InRange(ty, y)
    ensures Wrap(ty, 0) == 0
    ensures y != 0 && !(x == MinValue(ty) && y == -1) ==> Wrap(ty, W.TruncDiv(x, y)) == W.TruncDiv(x, y)
    ensures x == MinValue(ty) && y == -1 ==> Wrap(ty, W.TruncDiv(x, y)) == MinValue(ty)
  {
    WrapUnique(ty, 0, 0);
    if y != 0 {
      TruncDivBound(x, y);
      var q := W.TruncDiv(x, y);
      if x == MinValue(ty) && y == -1 {
        assert W.Abs(x) / 1 == W.Abs(x);
        ModLap(q, Pow2(ty.Bits()));
        WrapUnique(ty, MinValue(ty), q);
      } else {
        WrapUnique(ty, q, q);
      }
    }
  }

  /** Unsigned division and remainder are exact and need no repair, zero divisors included. */
  lemma UnsignedDivExact(ty: Type, a: Word, b: Word)
    requires ty.IsWellFormed() && !ty.IsSigned() && WellFormed(ty, a) && WellFormed(ty, b)
    ensures var x, y := IntValue(ty, a), IntValue(ty, b);
            var (q, r) := (Repaired(Div, ty, RawBinary(Div, ty, a, b)), Repaired(Rem, ty, RawBinary(Rem, ty, a, b)));
            && WellFormed(ty, q) && WellFormed(ty, r)
            && (y == 0 ==> IntValue(ty, q) == 0 && IntValue(ty, r) == 0)
            && (y != 0 ==> x == y * IntValue(ty, q) + IntValue(ty, r) && 0 <= IntValue(ty, r) < y)
  {
    ValueCongruent(ty, a);
    ValueCongruent(ty, b);
    var q, r := RawBinary(Div, ty, a, b), RawBinary(Rem, ty, a, b);
    UnsignedBelow(ty, a, q);
    if b > 0 {
      ModAtMost(a, b);
      DivMod(a, b);
    }
    UnsignedBelow(ty, a, r);
  }

  lemma DivMod(a: nat, b: nat)
    requires b > 0
    ensures a == b * (a / b) + a % b && 0 <= a % b < b
  {
  }

  /** A word no larger than a well-formed unsigned word is well-formed. */
  lemma UnsignedBelow(ty: Type, a: Word, r: Word)
    requires ty.IsWellFormed() && !ty.IsSigned() && WellFormed(ty, a) && r <= a
    ensures WellFormed(ty, r) && IntValue(ty, r) == r
  {
    WellFormedIffInRange(ty, a);
    WellFormedIffInRange(ty, r);
  }

  /** Signed remainder is exact: its sign follows the dividend. */
  lemma SignedRemExact(ty: Type, a: Word, b: Word)
    requires ty.IsWellFormed() && ty.IsSigned() && WellFormed(ty, a) && WellFormed(ty, b)
    ensures var r := Repaired(Rem, ty, RawBinary(Rem, ty, a, b));
            var x, y := IntValue(ty, a), IntValue(ty, b);
            && WellFormed(ty, r)
            && IntValue(ty, r) == (if y == 0 then 0 else W.TruncRem(x, y))
  {
    var x, y := IntValue(ty, a), IntValue(ty, b);
    ValueCongruent(ty, a);
    ValueCongruent(ty, b);
    SignedZero(ty, b);
    WrapInRange(ty, a);
    WrapInRange(ty, b);
    var z := if b == 0 then 0 else W.TruncRem(x, y);
    W.EncodeCongruent(z);
    RepairedWraps(ty, W.SMod(a, b), z);
    if b != 0 {
      TruncDivBound(x, y);
    }
    WrapUnique(ty, z, z);
  }

  // ----- right shifts -----

  /** Unsigned right shift is exact and needs no repair, shifts of 256 or more included. */
  lemma ShrExact(ty: Type, a: Word, shift: Word)
    requires ty.IsWellFormed() && !ty.IsSigned() && WellFormed(ty, a)
    ensures WellFormed(ty, Repaired(Shr, ty, RawBinary(Shr, ty, a, shift)))
    ensures IntValue(ty, Repaired(Shr, ty, RawBinary(Shr, ty, a, shift))) == IntValue(ty, a) / Pow2(shift)
  {
    ValueCongruent(ty, a);
    if shift >= W.WORD_BITS {
      Pow2Split(W.WORD_BITS, shift);
      ModSmall(a, Pow2(shift));
    }
    UnsignedBelow(ty, a, W.Shr(shift, a));
  }

  lemma FloorDiv(x: int, m: nat)
    requires m > 0
    ensures x >= 0 ==> 0 <= x / m <= x
    ensures x < 0 ==> x <= x / m <= -1
    ensures 0 - m <= x < 0 ==> x / m == -1
  {
    if x >= 0 {
      DivAtMost(x, m);
    } else {
      var k := -1 - x;
      DivAtMost(k, m);
      NegativeQuotient(k, m);
      if k < m {
        ModSmall(k, m);
      }
    }
  }

  lemma NegativeQuotient(k: nat, m: nat)
    requires m > 0
    ensures (-1 - k) / m == -1 - k / m
  {
    var q: int, r := k / m, k % m;
    assert k == m * q + r;
    assert m * (-1 - q) == 0 - m - m * q;
    DivModUnique(-1 - k, m, -1 - q, m - 1 - r);
  }

  /** Signed right shift rounds down, for any shift amount. */
  lemma SarExact(ty: Type, a: Word, shift: Word)
    requires ty.IsWellFormed() && ty.IsSigned() && WellFormed(ty, a)
    ensures WellFormed(ty, Repaired(Sar, ty, RawBinary(Sar, ty, a, shift)))
    ensures IntValue(ty, Repaired(Sar, ty, RawBinary(Sar, ty, a, shift))) == IntValue(ty, a) / Pow2(shift)
  {
    var x := IntValue(ty, a);
    var z := x / Pow2(shift);
    ValueCongruent(ty, a);
    WrapInRange(ty, a);
    FloorDiv(x, Pow2(shift));
    if shift >= W.WORD_BITS {
      Pow2Split(W.WORD_BITS, shift);
      W.SignedCongruent(a);
      if x >= 0 {
        ModSmall(x, Pow2(shift));
      }
    }
    W.EncodeCongruent(z);
    RepairedWraps(ty, W.Sar(shift, a), z);
    WrapUnique(ty, z, z);
  }

  // ----- bitwise operations and selection -----

  /** Combining well-formed words bit by bit stays well-formed, for either sign. */
  lemma BitwiseStaysWellFormed(op: W.BoolOp, ty: Type, a: Word, b: Word)
    requires ty.IsWellFormed() && WellFormed(ty, a) && WellFormed(ty, b)
    ensures WellFormed(ty, W.Bitwise(op, a, b))
  {
    var r := W.Bitwise(op, a, b);
    forall i | ty.Bits() <= i < W.WORD_BITS
      ensures W.Bit(r, i) == (ty.IsSigned() && W.Bit(r, ty.Bits() - 1))
    {
      W.BitwiseBit(op, a, b, i);
      W.BitwiseBit(op, a, b, ty.Bits() - 1);
    }
  }

  /** Complement gives `-1 - x` for signed types and `max - x` for unsigned ones. */
  lemma NotComplements(ty: Type, a: Word)
    requires ty.IsWellFormed() && WellFormed(ty, a)
    ensures WellFormed(ty, Repaired(Not, ty, W.Not(a)))
    ensures IntValue(ty, Repaired(Not, ty, W.Not(a)))
         == (if ty.IsSigned() then -1 - IntValue(ty, a) else Limit(ty) - 1 - IntValue(ty, a))
  {
    var x, m := IntValue(ty, a), Pow2(W.WORD_BITS);
    ValueCongruent(ty, a);
    WrapInRange(ty, a);
    if ty.IsSigned() {
      var r := W.Not(a);
      assert W.Signed(r) == -1 - W.Signed(a) by {
        assert m == 2 * Pow2(W.WORD_BITS - 1);
      }
      WellFormedIffInRange(ty, r);
    } else {
      var z := -1 - x;
      CongruentAdd(-1, m - 1, a, x, m) by {
        ModLap(-1, m);
      }
      assert W.Not(a) % m == (-1 - x) % m;
      RepairedWraps(ty, W.Not(a), z);
      ModLap(z, Pow2(ty.Bits()));
      WrapUnique(ty, Limit(ty) - 1 - x, z);
    }
  }

  lemma OrBit(t: Word, e: Word, m: Word, i: nat)
    requires i < W.WORD_BITS
    ensures W.Bit(W.Or(W.And(t, m), W.And(e, W.Not(m))), i) == if W.Bit(m, i) then W.Bit(t, i) else W.Bit(e, i)
  {
    W.BitwiseBit(W.OrOp, W.And(t, m), W.And(e, W.Not(m)), i);
    W.BitwiseBit(W.AndOp, t, m, i);
    W.BitwiseBit(W.AndOp, e, W.Not(m), i);
    W.NotBit(m, i);
  }

  /** On a boolean condition the branch-free selection is a choice. */
  lemma SelectPicks(cond: Word, t: Word, e: Word)
    requires cond == 0 || cond == 1
    ensures SelectWord(cond, t, e) == if cond == 1 then t else e
  {
    var m := W.Sub(0, cond);
    var r := SelectWord(cond, t, e);
    SelectMask(cond);
    forall i | 0 <= i < W.WORD_BITS
      ensures W.Bit(r, i) == W.Bit(if cond == 1 then t else e, i)
    {
      OrBit(t, e, m, i);
      if cond == 1 {
        OnesBit(W.WORD_BITS, i);
      } else {
        ZeroBit(i);
      }
    }
    W.BitsDetermine(r, if cond == 1 then t else e, W.WORD_BITS);
  }

  lemma SelectMask(cond: Word)
    requires cond == 0 || cond == 1
    ensures W.Sub(0, cond) == if cond == 1 then Pow2(W.WORD_BITS) - 1 else 0
  {
    var m := Pow2(W.WORD_BITS);
    Pow2Strict(0, W.WORD_BITS);
    if cond == 1 {
      DivModUnique(-1, m, -1, m - 1);
    } else {
      ModSmall(0, m);
    }
  }

  // ----- comparisons and literals -----

  /** A well-formed `BOOL` is exactly 0 or 1. */
  lemma BoolIsBit(x: Word)
    ensures WellFormed(BOOL, x) <==> x == 0 || x == 1
  {
    WellFormedIffInRange(BOOL, x);
    assert Pow2(1) == 2;
  }

  predicate CmpHolds(cmp: Cmp, x: int, y: int) {
    match cmp
    case Eq => x == y
    case Ne => x != y
    case Lt => x < y
    case Le => x <= y
    case Gt => x > y
    case Ge => x >= y
  }

  /** Every comparison decides its Rust meaning on well-formed operands, as a well-formed `BOOL`. */
  lemma CompareDecides(cmp: Cmp, ty: Type, a: Word, b: Word)
    requires ty.IsWellFormed() && WellFormed(ty, a) && WellFormed(ty, b)
    ensures Compare(cmp, ty, a, b) == W.FromBool(CmpHolds(cmp, IntValue(ty, a), IntValue(ty, b)))
    ensures WellFormed(BOOL, Repaired(Icmp(cmp), BOOL, Compare(cmp, ty, a, b)))
  {
    hide IntValue, WellFormed;
    ComparisonIsFree(ty, a, b);
    ComparisonIsFree(ty, b, a);
    BoolIsBit(Compare(cmp, ty, a, b));
  }

  /**
   The `bit_width` check on a literal: for unsigned types it is the invariant
   itself; for signed types it accepts an ill-formed literal exactly when the
   width is met with the sign bit set, and rejects every negative well-formed one
   narrower than a word.
   */
  lemma BitWidthCheck(ty: Type, imm: Immediate)
    requires ty.IsWellFormed()
    ensures !ty.IsSigned() ==> (BitWidth(imm) <= ty.Bits() <==> WellFormed(ty, Literal(imm)))
    ensures ty.IsSigned() && BitWidth(imm) <= ty.Bits() ==>
              (WellFormed(ty, Literal(imm)) <==> BitWidth(imm) < ty.Bits() || ty.Bits() == W.WORD_BITS)
    ensures ty.IsSigned() && BitWidth(imm) > ty.Bits() ==>
              (WellFormed(ty, Literal(imm)) <==> MinValue(ty) <= W.Signed(Literal(imm)) < 0)
  {
    var x := Literal(imm);
    WellFormedIffInRange(ty, x);
    BitWidthIsLeast(imm, ty.Bits());
    BitWidthIsLeast(imm, ty.Bits() - 1);
    W.SignedCongruent(x);
    assert Pow2(W.WORD_BITS) == 2 * Pow2(W.WORD_BITS - 1);
    if ty.Bits() < W.WORD_BITS {
      Pow2Split(ty.Bits(), W.WORD_BITS - 1);
    }
    Pow2Split(ty.Bits() - 1, W.WORD_BITS - 1);
  }

  /** The literal `2^(w-1)` passes the width check at `i<w>` and is not a well-formed `i<w>`. */
  lemma SignBitLiteralSlipsThrough(ty: Type, imm: Immediate)
    requires ty.IsWellFormed() && ty.IsSigned() && ty.Bits() < W.WORD_BITS
    requires BigEndian(imm) == Pow2(ty.Bits() - 1)
    ensures BitWidth(imm) <= ty.Bits() && !WellFormed(ty, Literal(imm))
  {
    BitWidthIsLeast(imm, ty.Bits());
    BitWidthIsLeast(imm, ty.Bits() - 1);
    BitWidthCheck(ty, imm);
  }

  /** An integer wraps to itself exactly when it is in range. */
  lemma WrapExactIff(ty: Type, z: int)
    requires ty.IsWellFormed()
    ensures Wrap(ty, z) == z <==> InRange(ty, z)
  {
    WrapInRange(ty, z);
    if InRange(ty, z) {
      WrapUnique(ty, z, z);
    }
  }

  /** A comparison result is well-formed at every type but `i1`. */
  lemma ComparisonFitsIff(ty: Type)
    requires ty.IsWellFormed()
    ensures (forall b: bool :: WellFormed(ty, W.FromBool(b))) <==> !(ty.IsSigned() && ty.Bits() == 1)
  {
    WellFormedIffInRange(ty, W.FromBool(false));
    WellFormedIffInRange(ty, W.FromBool(true));
    Pow2Strict(0, W.WORD_BITS - 1);
    assert Pow2(0) == 1;
    if ty.IsSigned() && ty.Bits() > 1 {
      Pow2Strict(0, ty.Bits() - 1);
    } else if !ty.IsSigned() {
      Pow2Strict(0, ty.Bits());
    }
    if !(ty.IsSigned() && ty.Bits() == 1) {
      forall b: bool
        ensures WellFormed(ty, W.FromBool(b))
      {
      }
    } else {
      assert !WellFormed(ty, W.FromBool(true));
    }
  }

  /** Leaving raw opcode results unrepaired is safe exactly at the full width. */
  lemma RawResultsFitIff(ty: Type)
    requires ty.IsWellFormed()
    ensures (forall raw: Word :: WellFormed(ty, raw)) <==> ty.Bits() == W.WORD_BITS
  {
    if ty.Bits() == W.WORD_BITS {
      forall raw: Word
        ensures WellFormed(ty, raw)
      {
        ReadingAtWordWidth(ty, raw);
      }
    } else {
      var x := UnrepresentableWitness(U256, ty);
    }
  }
}
