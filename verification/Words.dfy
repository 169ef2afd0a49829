/**
 256-bit EVM words as naturals, their bit view, and the word operations of the
 Ethereum Yellow Paper, Appendix H.2.
 */
module Words {
  import opened Powers

  /** The EVM word, in bytes and in bits. */
  const WORD_BYTES: nat := 32
  const WORD_BITS: nat := 8 * WORD_BYTES

  type Word = x: int | 0 <= x < Pow2(WORD_BITS) witness 0

  /** The word congruent to `z`. */
  function Encode(z: int): Word {
    z % Pow2(WORD_BITS)
  }

  /** The two's-complement reading of a word. */
  function Signed(x: Word): int {
    if x < Pow2(WORD_BITS - 1) then x else x - Pow2(WORD_BITS)
  }

  // ----- the bit view -----

  function ShiftDown(x: nat, i: nat): nat
    decreases i
  {
    if i == 0 then x else ShiftDown(x / 2, i - 1)
  }

  /** Bit `i` of `x`, counted from the least significant. */
  predicate Bit(x: nat, i: nat) {
    ShiftDown(x, i) % 2 == 1
  }

  datatype BoolOp = AndOp | OrOp | XorOp {
    predicate Apply(a: bool, b: bool) {
      match this
      case AndOp => a && b
      case OrOp => a || b
      case XorOp => a != b
    }
  }

  /** Combines the low `n` bits of `x` and `y` position by position. */
  function BitOp(op: BoolOp, n: nat, x: nat, y: nat): (r: nat)
    ensures r < Pow2(n)
    decreases n
  {
    if n == 0 then 0
    else (if op.Apply(x % 2 == 1, y % 2 == 1) then 1 else 0) + 2 * BitOp(op, n - 1, x / 2, y / 2)
  }

  lemma {:induction false} ShiftDownDivides(x: nat, i: nat)
    ensures ShiftDown(x, i) == x / Pow2(i)
    decreases i
  {
    if i == 0 {
    } else {
      ShiftDownDivides(x / 2, i - 1);
      DivDiv(x, 2, Pow2(i - 1));
    }
  }

  lemma {:induction false} BitBeyond(x: nat, n: nat, i: nat)
    requires x < Pow2(n) && n <= i
    ensures !Bit(x, i)
    decreases i
  {
    if i == 0 {
    } else {
      BitBeyond(x / 2, if n == 0 then 0 else n - 1, i - 1);
    }
  }

  lemma {:induction false} TopBit(x: nat, n: nat)
    requires n > 0 && x < Pow2(n)
    ensures Bit(x, n - 1) == (x >= Pow2(n - 1))
    decreases n
  {
    if n <= 1 {
    } else {
      TopBit(x / 2, n - 1);
    }
  }

  /** Numbers below `2^n` with the same low bits are equal. */
  lemma {:induction false} BitsDetermine(x: nat, y: nat, n: nat)
    requires x < Pow2(n) && y < Pow2(n)
    requires forall i :: 0 <= i < n ==> Bit(x, i) == Bit(y, i)
    ensures x == y
    decreases n
  {
    if n == 0 {
    } else {
      forall i | 0 <= i < n - 1
        ensures Bit(x / 2, i) == Bit(y / 2, i)
      {
        assert Bit(x, i + 1) == Bit(y, i + 1);
      }
      BitsDetermine(x / 2, y / 2, n - 1);
      assert Bit(x, 0) == Bit(y, 0);
    }
  }

  lemma {:induction false} BitOpBit(op: BoolOp, n: nat, x: nat, y: nat, i: nat)
    requires i < n
    ensures Bit(BitOp(op, n, x, y), i) == op.Apply(Bit(x, i), Bit(y, i))
    decreases n
  {
    var r := BitOp(op, n, x, y);
    if i == 0 {
    } else {
      BitOpBit(op, n - 1, x / 2, y / 2, i - 1);
    }
  }

  lemma {:induction false} ComplementBit(x: nat, n: nat, i: nat)
    requires x < Pow2(n) && i < n
    ensures Bit(Pow2(n) - 1 - x, i) == !Bit(x, i)
    decreases n
  {
    var c := Pow2(n) - 1 - x;
    if i == 0 {
    } else {
      assert c / 2 == Pow2(n - 1) - 1 - x / 2;
      ComplementBit(x / 2, n - 1, i - 1);
    }
  }

  /** Reducing modulo `2^w` keeps exactly the low `w` bits. */
  lemma {:induction false} LowBits(x: nat, w: nat, i: nat)
    ensures Bit(x % Pow2(w), i) == (i < w && Bit(x, i))
    decreases w
  {
    var m := x % Pow2(w);
    if i >= w {
      BitBeyond(m, w, i);
    } else {
      HalveMod(x, w);
      if i > 0 {
        LowBits(x / 2, w - 1, i - 1);
      }
    }
  }

  lemma HalveMod(x: nat, w: nat)
    requires w > 0
    ensures x % Pow2(w) % 2 == x % 2
    ensures x % Pow2(w) / 2 == x / 2 % Pow2(w - 1)
  {
    HalveRemainder(x, Pow2(w - 1));
  }

  lemma HalveRemainder(x: nat, h: nat)
    requires h > 0
    ensures x % (2 * h) % 2 == x % 2
    ensures x % (2 * h) / 2 == x / 2 % h
  {
    var q, r, b := x / 2 / h, x / 2 % h, x % 2;
    assert x / 2 == h * q + r;
    assert (2 * h) * q == 2 * (h * q);
    DivModUnique(x, 2 * h, q, 2 * r + b);
  }

  // ----- Yellow Paper operations -----

  function Add(x: Word, y: Word): Word { Encode(x + y) }

  function Sub(x: Word, y: Word): Word { Encode(x - y) }

  function Mul(x: Word, y: Word): Word { Encode(x * y) }

  function Exp(x: Word, y: Word): Word { Encode(Power(x, y)) }

  function Quotient(x: nat, m: nat): (q: nat)
    requires m > 0
    ensures q <= x
  {
    DivAtMost(x, m);
    x / m
  }

  function Div(x: Word, y: Word): Word {
    if y == 0 then 0 else
      Quotient(x, y)
  }

  function Mod(x: Word, y: Word): Word {
    if y == 0 then 0 else x % y
  }

  function Abs(z: int): nat { if z < 0 then -z else z }

  /** Division rounding toward zero. */
  function TruncDiv(a: int, b: int): int
    requires b != 0
  {
    if (a < 0) == (b < 0) then Abs(a) / Abs(b) else -(Abs(a) / Abs(b))
  }

  /** The remainder of `TruncDiv`; its sign follows the dividend. */
  function TruncRem(a: int, b: int): int
    requires b != 0
  {
    if a < 0 then -(Abs(a) % Abs(b)) else Abs(a) % Abs(b)
  }

  function SDiv(x: Word, y: Word): Word {
    if y == 0 then 0 else Encode(TruncDiv(Signed(x), Signed(y)))
  }

  function SMod(x: Word, y: Word): Word {
    if y == 0 then 0 else Encode(TruncRem(Signed(x), Signed(y)))
  }

  function AddMod(x: Word, y: Word, n: Word): Word {
    if n == 0 then 0 else (x + y) % n
  }

  function MulMod(x: Word, y: Word, n: Word): Word {
    if n == 0 then 0 else (x * y) % n
  }

  function FromBool(b: bool): Word {
    Pow2Strict(0, WORD_BITS);
    if b then 1 else 0
  }

  function Lt(x: Word, y: Word): Word { FromBool(x < y) }

  function SLt(x: Word, y: Word): Word { FromBool(Signed(x) < Signed(y)) }

  function Eq(x: Word, y: Word): Word { FromBool(x == y) }

  function IsZero(x: Word): Word { FromBool(x == 0) }

  function Bitwise(op: BoolOp, x: Word, y: Word): Word { BitOp(op, WORD_BITS, x, y) }

  function And(x: Word, y: Word): Word { Bitwise(AndOp, x, y) }

  function Or(x: Word, y: Word): Word { Bitwise(OrOp, x, y) }

  function Not(x: Word): Word { Pow2(WORD_BITS) - 1 - x }

  /** `BYTE`: byte `i` counted from the most significant end. */
  function Byte(i: Word, x: Word): Word {
    if i >= 32 then 0 else
      ModBelowWord(Quotient(x, Pow2(8 * (31 - i))), 8);
      Quotient(x, Pow2(8 * (31 - i))) % Pow2(8)
  }

  function Shl(shift: Word, x: Word): Word {
    if shift >= WORD_BITS then 0 else Encode(x * Pow2(shift))
  }

  function Shr(shift: Word, x: Word): Word {
    if shift >= WORD_BITS then 0 else
      Quotient(x, Pow2(shift))
  }

  /** Shifts right rounding down; a shift of 256 or more leaves only the sign. */
  function Sar(shift: Word, x: Word): Word {
    if shift >= WORD_BITS then (if Signed(x) < 0 then Encode(-1) else 0)
    else Encode(Signed(x) / Pow2(shift))
  }

  /** `SIGNEXTEND`: replicates bit `8k + 7` of `x` upwards, unless that is past the word. */
  function SignExtend(k: Word, x: Word): Word {
    if k >= 31 then x else
      var w := 8 * (k + 1);
      ModBelowWord(x, w);
      Pow2Split(w, WORD_BITS);
      var low := x % Pow2(w);
      if Bit(x, w - 1) then low + (Pow2(WORD_BITS) - Pow2(w)) else low
  }

  lemma ModBelowWord(x: nat, w: nat)
    requires w <= WORD_BITS
    ensures x % Pow2(w) < Pow2(WORD_BITS)
  {
    Pow2Split(w, WORD_BITS);
  }

  lemma BitwiseBit(op: BoolOp, x: Word, y: Word, i: nat)
    requires i < WORD_BITS
    ensures Bit(Bitwise(op, x, y), i) == op.Apply(Bit(x, i), Bit(y, i))
  {
    BitOpBit(op, WORD_BITS, x, y, i);
  }

  lemma NotBit(x: Word, i: nat)
    requires i < WORD_BITS
    ensures Bit(Not(x), i) == !Bit(x, i)
  {
    ComplementBit(x, WORD_BITS, i);
  }

  /** Encoding is the identity on words and congruent to its argument. */
  lemma EncodeCongruent(z: int)
    ensures Encode(z) % Pow2(WORD_BITS) == z % Pow2(WORD_BITS)
    ensures 0 <= z < Pow2(WORD_BITS) ==> Encode(z) == z
  {
    ModTwice(z, Pow2(WORD_BITS));
    if 0 <= z < Pow2(WORD_BITS) {
      ModSmall(z, Pow2(WORD_BITS));
    }
  }

  lemma SignedCongruent(x: Word)
    ensures Signed(x) % Pow2(WORD_BITS) == x % Pow2(WORD_BITS)
    ensures 0 - Pow2(WORD_BITS - 1) <= Signed(x) < Pow2(WORD_BITS - 1)
  {
    ModLap(x, Pow2(WORD_BITS));
  }

  /** Signed reading and encoding are inverse on the signed 256-bit range. */
  lemma SignedEncode(z: int)
    requires 0 - Pow2(WORD_BITS - 1) <= z < Pow2(WORD_BITS - 1)
    ensures Signed(Encode(z)) == z
  {
    assert Pow2(WORD_BITS) == 2 * Pow2(WORD_BITS - 1);
    if z < 0 {
      DivModUnique(z, Pow2(WORD_BITS), -1, z + Pow2(WORD_BITS));
    } else {
      ModSmall(z, Pow2(WORD_BITS));
    }
  }
}
