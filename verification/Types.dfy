/**
 Value types, the representation invariant, and the width repairs that restore it.

 A well-formed `u<w>` word is zero from bit `w` up; a well-formed `i<w>` word
 repeats bit `w-1` all the way up.
 */
module Types {
  import opened Powers
  import opened Words

  datatype IntTy = IntTy(bits: nat, signed: bool)

  datatype Type = Int(ty: IntTy) | Ptr {
    /** A pointer behaves as a `u32`. */
    function AsInt(): IntTy {
      match this
      case Int(ty) => ty
      case Ptr => IntTy(32, false)
    }

    function Bits(): nat { AsInt().bits }

    predicate IsSigned() { AsInt().signed }

    predicate IsWellFormed() { 1 <= Bits() <= WORD_BITS }
  }

  function Uint(bits: nat): Type { Int(IntTy(bits, false)) }

  function Sint(bits: nat): Type { Int(IntTy(bits, true)) }

  const BOOL: Type := Uint(1)
  const U256: Type := Uint(WORD_BITS)

  /** The representation invariant, as a statement about bits. */
  ghost predicate WellFormed(t: Type, x: Word)
    requires t.IsWellFormed()
  {
    forall i :: t.Bits() <= i < WORD_BITS ==> Bit(x, i) == (t.IsSigned() && Bit(x, t.Bits() - 1))
  }

  // ----- integers of a type -----

  function MinValue(t: Type): int
    requires t.IsWellFormed()
  {
    if t.IsSigned() then 0 - Pow2(t.Bits() - 1) else 0
  }

  /** One past the greatest value. */
  function Limit(t: Type): int
    requires t.IsWellFormed()
  {
    if t.IsSigned() then Pow2(t.Bits() - 1) else Pow2(t.Bits())
  }

  predicate InRange(t: Type, z: int)
    requires t.IsWellFormed()
  {
    MinValue(t) <= z < Limit(t)
  }

  /** Rust's wrapping reduction of an exact integer to the type. */
  function Wrap(t: Type, z: int): int
    requires t.IsWellFormed()
  {
    var m := z % Pow2(t.Bits());
    if m < Limit(t) then m else m - Pow2(t.Bits())
  }

  /** The Rust integer held in the low bits of a word. */
  function IntValue(t: Type, x: Word): int
    requires t.IsWellFormed()
  {
    Wrap(t, x)
  }

  /** The whole word read at the type's signedness. */
  function Reading(t: Type, x: Word): int {
    if t.IsSigned() then Signed(x) else x
  }

  lemma WrapInRange(t: Type, z: int)
    requires t.IsWellFormed()
    ensures InRange(t, Wrap(t, z))
    ensures Wrap(t, z) % Pow2(t.Bits()) == z % Pow2(t.Bits())
  {
    assert Pow2(t.Bits()) == 2 * Pow2(t.Bits() - 1);
    Window(z, Pow2(t.Bits()), Limit(t));
  }

  /** Wrapping is the only in-range integer congruent to its argument. */
  lemma WrapUnique(t: Type, y: int, z: int)
    requires t.IsWellFormed() && InRange(t, y) && y % Pow2(t.Bits()) == z % Pow2(t.Bits())
    ensures y == Wrap(t, z)
  {
    assert Pow2(t.Bits()) == 2 * Pow2(t.Bits() - 1);
    WindowUnique(y, z, Pow2(t.Bits()), Limit(t));
  }

  lemma WrapCongruent(t: Type, y: int, z: int)
    requires t.IsWellFormed() && y % Pow2(t.Bits()) == z % Pow2(t.Bits())
    ensures Wrap(t, y) == Wrap(t, z)
  {
  }

  lemma ReadingCongruent(t: Type, x: Word)
    requires t.IsWellFormed()
    ensures Reading(t, x) % Pow2(t.Bits()) == x % Pow2(t.Bits())
  {
    SignedCongruent(x);
    CongruentNarrow(Signed(x), x, t.Bits(), WORD_BITS);
  }

  /** The bits from `w` up are clear exactly when the word is below `2^w`. */
  lemma ClearAbove(x: Word, w: nat)
    requires w <= WORD_BITS
    ensures (forall i :: w <= i < WORD_BITS ==> !Bit(x, i)) <==> x < Pow2(w)
  {
    if x < Pow2(w) {
      forall i | w <= i < WORD_BITS
        ensures !Bit(x, i)
      {
        BitBeyond(x, w, i);
      }
    }
    if forall i :: w <= i < WORD_BITS ==> !Bit(x, i) {
      ModBelowWord(x, w);
      forall i | 0 <= i < WORD_BITS
        ensures Bit(x, i) == Bit(x % Pow2(w), i)
      {
        LowBits(x, w, i);
      }
      BitsDetermine(x, x % Pow2(w), WORD_BITS);
    }
  }

  /**
   The bit invariant, the range of the whole word, and agreement of the whole
   word with its low bits are one and the same condition.
   */
  lemma WellFormedIffInRange(t: Type, x: Word)
    requires t.IsWellFormed()
    ensures WellFormed(t, x) <==> InRange(t, Reading(t, x))
    ensures WellFormed(t, x) <==> Reading(t, x) == IntValue(t, x)
  {
    ReadingCongruent(t, x);
    WrapInRange(t, x);
    if InRange(t, Reading(t, x)) {
      WrapUnique(t, Reading(t, x), x);
    }
    if t.IsSigned() {
      var w := t.Bits();
      var y := Not(x);
      forall i | 0 <= i < WORD_BITS
        ensures Bit(y, i) == !Bit(x, i)
      {
        NotBit(x, i);
      }
      ClearAbove(x, w - 1);
      ClearAbove(y, w - 1);
      Pow2Split(w - 1, WORD_BITS - 1);
      assert Pow2(WORD_BITS) == 2 * Pow2(WORD_BITS - 1);
      SignedSpansTop(t, x);
    } else {
      ClearAbove(x, t.Bits());
    }
  }

  /** For signed types the invariant says the bits from `w-1` up are all clear or all set. */
  lemma SignedSpansTop(t: Type, x: Word)
    requires t.IsWellFormed() && t.IsSigned()
    ensures WellFormed(t, x) <==>
            || (forall i :: t.Bits() - 1 <= i < WORD_BITS ==> !Bit(x, i))
            || (forall i :: t.Bits() - 1 <= i < WORD_BITS ==> !Bit(Not(x), i))
  {
    forall i | 0 <= i < WORD_BITS
      ensures Bit(Not(x), i) == !Bit(x, i)
    {
      NotBit(x, i);
    }
    assert Bit(x, t.Bits() - 1) || Bit(Not(x), t.Bits() - 1);
  }

  /** A well-formed word is determined by the value it carries. */
  lemma ValueDetermines(t: Type, x: Word, y: Word)
    requires t.IsWellFormed() && WellFormed(t, x) && WellFormed(t, y)
    requires IntValue(t, x) == IntValue(t, y)
    ensures x == y
  {
    WellFormedIffInRange(t, x);
    WellFormedIffInRange(t, y);
  }

  // ----- repairs -----

  datatype Repair = NoRepair | Mask(bits: nat) | Sext(bits: nat) {
    /** A repair the EVM can carry out. */
    predicate Fits() {
      NoRepair? || 1 <= bits < WORD_BITS
    }

    /** What the repair does to a raw word: `AND` with a mask, or a sign extension. */
    function Apply(x: Word): Word
      requires Fits()
    {
      match this
      case NoRepair => x
      case Mask(w) =>
        ModBelowWord(x, w);
        x % Pow2(w)
      case Sext(w) =>
        Pow2Split(w, WORD_BITS);
        var low := x % Pow2(w);
        if low < Pow2(w - 1) then low else low + (Pow2(WORD_BITS) - Pow2(w))
    }
  }

  function MaskTo(bits: nat): Repair {
    if bits >= WORD_BITS then NoRepair else Mask(bits)
  }

  function SextTo(bits: nat): Repair {
    if bits >= WORD_BITS then NoRepair else Sext(bits)
  }

  /** The unconditional repair for a type. */
  function RepairTo(ty: IntTy): Repair {
    if ty.signed then SextTo(ty.bits) else MaskTo(ty.bits)
  }

  /** The repair a conversion needs, from the two types alone. */
  function ForConvert(from: Type, to: Type): Repair {
    var (src, dst) := (from.AsInt(), to.AsInt());
    if dst.signed then
      var already := if src.signed then src.bits <= dst.bits else src.bits < dst.bits;
      if already then NoRepair else SextTo(dst.bits)
    else if !src.signed && src.bits <= dst.bits then NoRepair
    else MaskTo(dst.bits)
  }

  lemma RepairFits(from: Type, to: Type)
    requires to.IsWellFormed()
    ensures RepairTo(to.AsInt()).Fits() && ForConvert(from, to).Fits()
  {
  }

  /** A repair keeps the bits below its width. */
  lemma RepairKeepsLowBits(t: Type, x: Word)
    requires t.IsWellFormed()
    ensures RepairTo(t.AsInt()).Fits()
    ensures RepairTo(t.AsInt()).Apply(x) % Pow2(t.Bits()) == x % Pow2(t.Bits())
  {
    var w := t.Bits();
    var low := x % Pow2(w);
    ModTwice(x, Pow2(w));
    if w < WORD_BITS && t.IsSigned() && low >= Pow2(w - 1) {
      Pow2Split(w, WORD_BITS);
      var k := Pow2(WORD_BITS - w) - 1;
      assert Pow2(WORD_BITS) - Pow2(w) == k * Pow2(w) by {
        MulMinusOne(Pow2(w), Pow2(WORD_BITS - w));
      }
      ModShift(low, k, Pow2(w));
    }
  }

  /** A sign-extended word reads as its low bits in two's complement. */
  lemma SextReads(w: nat, x: Word)
    requires 1 <= w < WORD_BITS
    ensures var low := x % Pow2(w);
            Signed(Sext(w).Apply(x)) == if low < Pow2(w - 1) then low else low - Pow2(w)
  {
    Pow2Split(w, WORD_BITS - 1);
    Pow2Split(w - 1, WORD_BITS - 1);
  }

  lemma RepairReadsInRange(t: Type, x: Word)
    requires t.IsWellFormed()
    ensures RepairTo(t.AsInt()).Fits()
    ensures InRange(t, Reading(t, RepairTo(t.AsInt()).Apply(x)))
  {
    if t.Bits() == WORD_BITS {
      SignedCongruent(x);
    } else if t.IsSigned() {
      SextReads(t.Bits(), x);
    }
  }

  /** Repairing any word to a type yields the well-formed word of its wrapped value. */
  lemma RepairWraps(t: Type, x: Word)
    requires t.IsWellFormed()
    ensures RepairTo(t.AsInt()).Fits()
    ensures WellFormed(t, RepairTo(t.AsInt()).Apply(x))
    ensures IntValue(t, RepairTo(t.AsInt()).Apply(x)) == IntValue(t, x)
  {
    RepairKeepsLowBits(t, x);
    RepairReadsInRange(t, x);
    WellFormedIffInRange(t, RepairTo(t.AsInt()).Apply(x));
  }

  // ----- what the repairs do to the bits -----

  lemma MaskIsAnd(bits: nat, x: Word, mask: Word)
    requires 1 <= bits < WORD_BITS && mask == Pow2(bits) - 1
    ensures Mask(bits).Apply(x) == And(x, mask)
  {
    var y, z := Mask(bits).Apply(x), And(x, mask);
    forall i | 0 <= i < WORD_BITS
      ensures Bit(y, i) == Bit(z, i)
    {
      MaskedBit(bits, x, mask, i);
    }
    BitsDetermine(y, z, WORD_BITS);
  }

  lemma MaskedBit(bits: nat, x: Word, mask: Word, i: nat)
    requires 1 <= bits < WORD_BITS && mask == Pow2(bits) - 1 && i < WORD_BITS
    ensures Bit(x % Pow2(bits), i) == Bit(And(x, mask), i)
  {
    BitwiseBit(AndOp, x, mask, i);
    LowBits(x, bits, i);
    OnesBit(bits, i);
  }

  lemma ZeroBit(i: nat)
    ensures !Bit(0, i)
  {
    BitBeyond(0, 0, i);
  }

  lemma OnesBit(n: nat, i: nat)
    ensures Bit(Pow2(n) - 1, i) == (i < n)
  {
    if i < n {
      ComplementBit(0, n, i);
      ZeroBit(i);
    } else {
      BitBeyond(Pow2(n) - 1, n, i);
    }
  }

  /** Sign extension keeps the low bits and replicates bit `bits-1` above them. */
  lemma SextReplicates(bits: nat, x: Word, i: nat)
    requires 1 <= bits < WORD_BITS && i < WORD_BITS
    ensures Bit(Sext(bits).Apply(x), i) == Bit(x, if i < bits then i else bits - 1)
  {
    var t := Sint(bits);
    var y := Sext(bits).Apply(x);
    assert RepairTo(t.AsInt()) == Sext(bits);
    RepairWraps(t, x);
    SextLow(bits, x);
    var j := if i < bits then i else bits - 1;
    LowBits(y, bits, j);
    LowBits(x, bits, j);
  }

  lemma SextLow(bits: nat, x: Word)
    requires 1 <= bits < WORD_BITS
    ensures Sext(bits).Apply(x) % Pow2(bits) == x % Pow2(bits)
  {
    var t := Sint(bits);
    RepairWraps(t, x);
    WrapInRange(t, x);
    WrapInRange(t, Sext(bits).Apply(x));
  }

  /** At a byte-aligned width the sign extension is one `SIGNEXTEND`. */
  lemma SextIsSignExtend(k: nat, x: Word)
    requires k < 31 && k < Pow2(WORD_BITS)
    ensures Sext(8 * (k + 1)).Apply(x) == SignExtend(k, x)
  {
    var w := 8 * (k + 1);
    LowBits(x, w, w - 1);
    TopBit(x % Pow2(w), w);
  }

  /** At any other width it is the `SHL`/`SAR` pair. */
  lemma SextIsShiftPair(bits: nat, x: Word)
    requires 1 <= bits < WORD_BITS
    requires WORD_BITS - bits < Pow2(WORD_BITS)
    ensures Sext(bits).Apply(x) == Sar(WORD_BITS - bits, Shl(WORD_BITS - bits, x))
  {
    var s := WORD_BITS - bits;
    var low := x % Pow2(bits);
    ShiftedUp(bits, x);
    ShiftedSign(bits, low, Pow2(s), Shl(s, x));
    var signed := if low < Pow2(bits - 1) then low else low - Pow2(bits);
    ExactQuotient(signed, Pow2(s));
    EncodeSignedLow(bits, low);
  }

  lemma ShiftedUp(bits: nat, x: Word)
    requires 1 <= bits < WORD_BITS && WORD_BITS - bits < Pow2(WORD_BITS)
    ensures Shl(WORD_BITS - bits, x) == x % Pow2(bits) * Pow2(WORD_BITS - bits)
  {
    Pow2Split(bits, WORD_BITS);
    ScaledMod(x, Pow2(bits), Pow2(WORD_BITS - bits));
  }

  lemma EncodeSignedLow(bits: nat, low: nat)
    requires 1 <= bits < WORD_BITS && low < Pow2(bits)
    ensures Encode(low - Pow2(bits)) == low + (Pow2(WORD_BITS) - Pow2(bits))
    ensures Encode(low) == low
  {
    Pow2Strict(bits, WORD_BITS);
    EncodeCongruent(low);
    DivModUnique(low - Pow2(bits), Pow2(WORD_BITS), -1, low - Pow2(bits) + Pow2(WORD_BITS));
  }

  /** The sign of a value shifted to the top of the word is the sign of its top bit. */
  lemma ShiftedSign(bits: nat, low: nat, p: nat, shifted: Word)
    requires 1 <= bits < WORD_BITS && low < Pow2(bits)
    requires p == Pow2(WORD_BITS - bits) && shifted == low * p
    ensures Signed(shifted) == (if low < Pow2(bits - 1) then low else low - Pow2(bits)) * p
  {
    Pow2Split(bits - 1, WORD_BITS - 1);
    ScaledSide(low, Pow2(bits - 1), p);
  }

  // ----- conversions -----

  function Convert(from: Type, to: Type, x: Word): Word
    requires to.IsWellFormed()
  {
    RepairFits(from, to);
    ForConvert(from, to).Apply(x)
  }

  /** `for_convert` implements Rust's `as` on every pair of types. */
  lemma ConvertIsRustAs(from: Type, to: Type, x: Word)
    requires from.IsWellFormed() && to.IsWellFormed() && WellFormed(from, x)
    ensures WellFormed(to, Convert(from, to, x))
    ensures IntValue(to, Convert(from, to, x)) == Wrap(to, IntValue(from, x))
  {
    WellFormedIffInRange(from, x);
    WellFormedIffInRange(to, x);
    ReadingCongruent(from, x);
    ReadingAgrees(from, to, x);
    if ForConvert(from, to) == NoRepair {
      if to.Bits() == WORD_BITS {
        ReadingAtWordWidth(to, x);
      } else {
        RangeIncluded(from, to, IntValue(from, x));
      }
    } else {
      assert ForConvert(from, to) == RepairTo(to.AsInt());
      RepairWraps(to, x);
    }
  }

  /** Every word is well-formed at the full width. */
  lemma ReadingAtWordWidth(t: Type, x: Word)
    requires t.Bits() == WORD_BITS
    ensures WellFormed(t, x)
  {
  }

  /** The source value and the raw word wrap to the same destination value. */
  lemma ReadingAgrees(from: Type, to: Type, x: Word)
    requires from.IsWellFormed() && to.IsWellFormed() && WellFormed(from, x)
    ensures Wrap(to, IntValue(from, x)) == IntValue(to, x)
  {
    WellFormedIffInRange(from, x);
    SignedCongruent(x);
    CongruentNarrow(Signed(x), x, to.Bits(), WORD_BITS);
    WrapCongruent(to, Reading(from, x), x);
  }

  lemma RangeIncluded(from: Type, to: Type, z: int)
    requires from.IsWellFormed() && to.IsWellFormed() && to.Bits() < WORD_BITS
    requires ForConvert(from, to) == NoRepair && InRange(from, z)
    ensures InRange(to, z)
    ensures from.IsSigned() ==> to.IsSigned()
  {
    if from.IsSigned() == to.IsSigned() {
      Pow2Split(from.Bits(), to.Bits());
      Pow2Split(from.Bits() - 1, to.Bits() - 1);
    } else {
      Pow2Split(from.Bits(), to.Bits() - 1);
    }
  }

  /** A well-formed source value that the destination cannot represent, `2^bits` away from its wrap. */
  lemma UnrepresentableWitness(from: Type, to: Type) returns (x: Word)
    requires from.IsWellFormed() && to.IsWellFormed() && ForConvert(from, to) != NoRepair
    ensures WellFormed(from, x) && !WellFormed(to, x)
    ensures Abs(IntValue(from, x) - Wrap(to, IntValue(from, x))) == Pow2(to.Bits())
  {
    var z := UnrepresentableValue(from, to);
    Pow2Strict(0, WORD_BITS);
    x := Encode(z);
    ReadingOfValue(from, z);
    WellFormedIffInRange(from, x);
    if WellFormed(to, x) {
      WellFormedIffInRange(to, x);
      ReadingAgrees(from, to, x);
      if Reading(to, x) != z {
        assert z == -1 && !to.IsSigned();
        DivModUnique(-1, Pow2(WORD_BITS), -1, Pow2(WORD_BITS) - 1);
        Pow2Strict(to.Bits(), WORD_BITS);
      }
    }
  }

  /** Encoding an in-range value and reading it back at the type gives the value. */
  lemma ReadingOfValue(t: Type, z: int)
    requires t.IsWellFormed() && InRange(t, z)
    ensures Reading(t, Encode(z)) == z
    ensures WellFormed(t, Encode(z)) && IntValue(t, Encode(z)) == z
  {
    if t.IsSigned() {
      Pow2Split(t.Bits() - 1, WORD_BITS - 1);
      SignedEncode(z);
    } else {
      Pow2Split(t.Bits(), WORD_BITS);
      EncodeCongruent(z);
    }
    WellFormedIffInRange(t, Encode(z));
  }

  lemma UnrepresentableValue(from: Type, to: Type) returns (z: int)
    requires from.IsWellFormed() && to.IsWellFormed() && ForConvert(from, to) != NoRepair
    ensures InRange(from, z) && !InRange(to, z)
    ensures Abs(z - Wrap(to, z)) == Pow2(to.Bits())
    ensures to.Bits() < WORD_BITS && (z >= 0 || (z == -1 && !to.IsSigned()))
    ensures z < Pow2(if to.IsSigned() then WORD_BITS - 1 else WORD_BITS)
  {
    var w := to.Bits();
    assert w < WORD_BITS;
    Pow2Strict(w, WORD_BITS);
    z := if to.IsSigned() then Pow2(w - 1) else if from.IsSigned() then -1 else Pow2(w);
    if to.IsSigned() {
      SignedBoundary(from, w);
      WrapsOneLap(to, z, z - Pow2(w));
    } else if from.IsSigned() {
      WrapsOneLap(to, z, z + Pow2(w));
    } else {
      Pow2Strict(w, from.Bits());
      WrapsOneLap(to, z, z - Pow2(w));
    }
  }

  /** A value one modulus away from an in-range value wraps to it. */
  lemma WrapsOneLap(t: Type, z: int, y: int)
    requires t.IsWellFormed() && InRange(t, y)
    requires y == z + Pow2(t.Bits()) || y == z - Pow2(t.Bits())
    ensures Wrap(t, z) == y && Abs(z - Wrap(t, z)) == Pow2(t.Bits())
  {
    ModLap(z, Pow2(t.Bits()));
    WrapUnique(t, y, z);
  }

  /** `2^(w-1)` fits every type that does not convert freely to `i<w>`. */
  lemma SignedBoundary(from: Type, w: nat)
    requires from.IsWellFormed() && 1 <= w < WORD_BITS
    requires if from.IsSigned() then w < from.Bits() else w <= from.Bits()
    ensures InRange(from, Pow2(w - 1)) && Pow2(w - 1) < Pow2(WORD_BITS - 1)
  {
    Pow2Strict(w - 1, WORD_BITS - 1);
    Pow2Strict(w - 1, if from.IsSigned() then from.Bits() - 1 else from.Bits());
  }

  /** No repair is stored exactly when every source word already satisfies the destination. */
  lemma ConvertIsExact(from: Type, to: Type)
    requires from.IsWellFormed() && to.IsWellFormed()
    ensures ForConvert(from, to) == NoRepair <==>
            forall x: Word :: WellFormed(from, x) ==> WellFormed(to, x)
  {
    if ForConvert(from, to) == NoRepair {
      forall x: Word | WellFormed(from, x)
        ensures WellFormed(to, x)
      {
        ConvertIsRustAs(from, to, x);
      }
    } else {
      var x := UnrepresentableWitness(from, to);
    }
  }

  /**
   Converting through a middle type equals converting directly on every source
   word exactly when the destination is no wider than the middle type, or the
   first conversion was free.
   */
  lemma ConvertComposesIff(a: Type, b: Type, c: Type)
    requires a.IsWellFormed() && b.IsWellFormed() && c.IsWellFormed()
    ensures (c.Bits() <= b.Bits() || ForConvert(a, b) == NoRepair) <==>
            forall x: Word :: WellFormed(a, x) ==> Convert(b, c, Convert(a, b, x)) == Convert(a, c, x)
  {
    if c.Bits() <= b.Bits() || ForConvert(a, b) == NoRepair {
      forall x: Word | WellFormed(a, x)
        ensures Convert(b, c, Convert(a, b, x)) == Convert(a, c, x)
      {
        ConvertComposes(a, b, c, x);
      }
    } else {
      var x := UnrepresentableWitness(a, b);
      ConvertDiverges(a, b, c, x);
    }
  }

  lemma ConvertComposes(a: Type, b: Type, c: Type, x: Word)
    requires a.IsWellFormed() && b.IsWellFormed() && c.IsWellFormed() && WellFormed(a, x)
    requires c.Bits() <= b.Bits() || ForConvert(a, b) == NoRepair
    ensures Convert(b, c, Convert(a, b, x)) == Convert(a, c, x)
  {
    var v := IntValue(a, x);
    var y := Convert(a, b, x);
    ConvertIsRustAs(a, b, x);
    ConvertIsRustAs(b, c, y);
    ConvertIsRustAs(a, c, x);
    WrapInRange(b, v);
    if c.Bits() <= b.Bits() {
      CongruentNarrow(Wrap(b, v), v, c.Bits(), b.Bits());
      WrapCongruent(c, Wrap(b, v), v);
    } else {
      WellFormedIffInRange(a, x);
      RangeIncluded(a, b, v);
      WrapUnique(b, v, v);
    }
    ValueDetermines(c, Convert(b, c, y), Convert(a, c, x));
  }

  lemma ConvertDiverges(a: Type, b: Type, c: Type, x: Word)
    requires a.IsWellFormed() && b.IsWellFormed() && c.IsWellFormed() && WellFormed(a, x)
    requires b.Bits() < c.Bits() && Abs(IntValue(a, x) - Wrap(b, IntValue(a, x))) == Pow2(b.Bits())
    ensures Convert(b, c, Convert(a, b, x)) != Convert(a, c, x)
  {
    var v := IntValue(a, x);
    var (y, m) := (Convert(a, b, x), Pow2(c.Bits()));
    ConvertIsRustAs(a, b, x);
    ConvertIsRustAs(b, c, y);
    ConvertIsRustAs(a, c, x);
    if Wrap(c, v) == Wrap(c, Wrap(b, v)) {
      WrapInRange(c, v);
      WrapInRange(c, Wrap(b, v));
      Pow2Strict(b.Bits(), c.Bits());
      CongruentClose(v, Wrap(b, v), m);
    }
  }

  /** Converting to a type at least as wide and back is the identity, whatever the signs. */
  lemma ConvertRoundTrips(a: Type, b: Type, x: Word)
    requires a.IsWellFormed() && b.IsWellFormed() && a.Bits() <= b.Bits() && WellFormed(a, x)
    ensures Convert(b, a, Convert(a, b, x)) == x
  {
    ConvertComposes(a, b, a, x);
  }

  /** `LT`/`SLT` on well-formed words decide the Rust comparison with no preparation. */
  lemma ComparisonIsFree(t: Type, x: Word, y: Word)
    requires t.IsWellFormed() && WellFormed(t, x) && WellFormed(t, y)
    ensures (if t.IsSigned() then SLt(x, y) else Lt(x, y)) == FromBool(IntValue(t, x) < IntValue(t, y))
    ensures Eq(x, y) == FromBool(IntValue(t, x) == IntValue(t, y))
  {
    WellFormedIffInRange(t, x);
    WellFormedIffInRange(t, y);
  }
}
