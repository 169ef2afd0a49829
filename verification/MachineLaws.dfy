/** What the machine's memory, storage and opcodes do, said in bytes, integers and bits. */
module MachineLaws {
  import opened Powers
  import opened Isa
  import opened Immediates
  import opened Types
  import opened WidthRepair
  import opened Machine
  import W = Words

  // ----- memory -----

  /** A write changes the bytes it covers, and those only. */
  lemma {:induction false} PutFetch(memory: map<nat, Byte>, at: nat, data: seq<Byte>, i: nat)
    ensures Fetch(Put(memory, at, data), i) == if at <= i < at + |data| then data[i - at] else Fetch(memory, i)
    decreases |data|
  {
    if data == [] {
    } else {
      PutFetch(memory[at := data[0]], at + 1, data[1..], i);
    }
  }

  lemma RangeOfPut(memory: map<nat, Byte>, at: nat, data: seq<Byte>)
    ensures Range(Put(memory, at, data), at, |data|) == data
  {
    forall i | 0 <= i < |data|
      ensures Range(Put(memory, at, data), at, |data|)[i] == data[i]
    {
      PutFetch(memory, at, data, at + i);
    }
  }

  /** A word stored is the word loaded from the same place; bytes outside its 32 stay as they were. */
  lemma LoadAfterStore(memory: map<nat, Byte>, at: nat, x: Word)
    ensures LoadWord(Put(memory, at, Bytes(x, 32)), at) == x
    ensures forall i: nat :: i < at || at + 32 <= i ==> Fetch(Put(memory, at, Bytes(x, 32)), i) == Fetch(memory, i)
  {
    hide Bytes, Put;
    RangeOfPut(memory, at, Bytes(x, 32));
    BytesDenote(x, 32);
    forall i: nat | i < at || at + 32 <= i
      ensures Fetch(Put(memory, at, Bytes(x, 32)), i) == Fetch(memory, i)
    {
      PutFetch(memory, at, Bytes(x, 32), i);
    }
  }

  /** A word stored elsewhere does not change what is loaded. */
  lemma LoadUnderStore(memory: map<nat, Byte>, at: nat, x: Word, other: nat)
    requires other + 32 <= at || at + 32 <= other
    ensures LoadWord(Put(memory, at, Bytes(x, 32)), other) == LoadWord(memory, other)
  {
    hide Bytes, Put;
    var stored := Put(memory, at, Bytes(x, 32));
    forall i | 0 <= i < W.WORD_BYTES
      ensures Range(stored, other, W.WORD_BYTES)[i] == Range(memory, other, W.WORD_BYTES)[i]
    {
      PutFetch(memory, at, Bytes(x, 32), other + i);
    }
    assert Range(stored, other, W.WORD_BYTES) == Range(memory, other, W.WORD_BYTES);
  }

  /** After a copy the destination holds what the source held, overlapping or not. */
  lemma CopyMoves(memory: map<nat, Byte>, dst: nat, src: nat, n: nat, i: nat)
    ensures var copied := Put(memory, dst, Range(memory, src, n));
            Fetch(copied, i) == if dst <= i < dst + n then Fetch(memory, src + (i - dst)) else Fetch(memory, i)
  {
    PutFetch(memory, dst, Range(memory, src, n), i);
  }

  /** Touching memory grows it to the least whole number of words that covers what was touched. */
  lemma TouchCovers(size: nat, at: nat, n: nat)
    requires size % 32 == 0
    ensures Touch(size, at, 0) == size
    ensures n > 0 ==> at + n <= Touch(size, at, n) && size <= Touch(size, at, n)
    ensures Touch(size, at, n) % 32 == 0
    ensures forall m: nat :: m % 32 == 0 && size <= m && (n > 0 ==> at + n <= m) ==> Touch(size, at, n) <= m
  {
  }

  // ----- opcodes that compute -----

  /** Congruence modulo the whole word. */
  predicate Congruent(r: int, z: int) {
    (r - z) % Pow2(W.WORD_BITS) == 0
  }

  lemma EncodeIsCongruent(z: int)
    ensures Congruent(W.Encode(z), z)
  {
    var m := Pow2(W.WORD_BITS);
    assert z == m * (z / m) + z % m;
    ModShift(0, -(z / m), m);
    assert -(z / m) * m == -(m * (z / m));
  }

  /** The topmost operand is the first factor, the minuend, the dividend, the base. */
  lemma ArithmeticOpcodes(x: Word, y: Word)
    ensures Congruent(EvalOpcode(0x01, [x, y]), x + y)
    ensures Congruent(EvalOpcode(0x02, [x, y]), x * y)
    ensures Congruent(EvalOpcode(0x03, [x, y]), x - y)
    ensures Congruent(EvalOpcode(0x0a, [x, y]), Power(x, y))
    ensures y == 0 ==> forall b: Byte :: 0x04 <= b <= 0x07 ==> EvalOpcode(b, [x, y]) == 0
    ensures y != 0 ==> x == y * EvalOpcode(0x04, [x, y]) + EvalOpcode(0x06, [x, y]) && EvalOpcode(0x06, [x, y]) < y
    ensures y != 0 ==> Congruent(EvalOpcode(0x05, [x, y]), W.TruncDiv(W.Signed(x), W.Signed(y)))
    ensures y != 0 ==> Congruent(EvalOpcode(0x07, [x, y]), W.TruncRem(W.Signed(x), W.Signed(y)))
  {
    hide W.Encode, Congruent;
    EncodeIsCongruent(x + y);
    EncodeIsCongruent(x * y);
    EncodeIsCongruent(x - y);
    EncodeIsCongruent(Power(x, y));
    if y != 0 {
      DivMod(x, y);
      EncodeIsCongruent(W.TruncDiv(W.Signed(x), W.Signed(y)));
      EncodeIsCongruent(W.TruncRem(W.Signed(x), W.Signed(y)));
    }
  }

  /** The modulus is the third operand, and the sum or product is not reduced before. */
  lemma ModularOpcodes(x: Word, y: Word, n: Word)
    ensures Remains(EvalOpcode(0x08, [x, y, n]), x + y, n)
    ensures Remains(EvalOpcode(0x09, [x, y, n]), x * y, n)
  {
    hide Remains;
    IsRemainder(x + y, n, W.AddMod(x, y, n));
    IsRemainder(x * y, n, W.MulMod(x, y, n));
  }

  /** `r` is what is left of `z` modulo `n`; nothing modulo zero. */
  predicate Remains(r: Word, z: nat, n: Word) {
    if n == 0 then r == 0 else r < n && (z - r) % n == 0
  }

  lemma IsRemainder(z: nat, n: Word, r: Word)
    requires r == if n == 0 then 0 else z % n
    ensures Remains(r, z, n)
  {
    if n != 0 {
      var q := z / n;
      DivMod(z, n);
      assert z - r == 0 + q * n;
      ModShift(0, q, n);
    }
  }

  /** Comparisons give 1 for true and 0 for false, the topmost operand on the left. */
  lemma ComparisonOpcodes(x: Word, y: Word)
    ensures EvalOpcode(0x10, [x, y]) == (if x < y then 1 else 0)
    ensures EvalOpcode(0x11, [x, y]) == (if x > y then 1 else 0)
    ensures EvalOpcode(0x12, [x, y]) == (if W.Signed(x) < W.Signed(y) then 1 else 0)
    ensures EvalOpcode(0x13, [x, y]) == (if W.Signed(x) > W.Signed(y) then 1 else 0)
    ensures EvalOpcode(0x14, [x, y]) == (if x == y then 1 else 0)
    ensures EvalOpcode(0x15, [x]) == (if x == 0 then 1 else 0)
  {
    hide W.FromBool, W.Signed;
    Truth(x < y);
    Truth(y < x);
    Truth(W.Signed(x) < W.Signed(y));
    Truth(W.Signed(y) < W.Signed(x));
    Truth(x == y);
    Truth(x == 0);
  }

  lemma Truth(b: bool)
    ensures W.FromBool(b) == if b then 1 else 0
  {
  }

  lemma BitwiseOpcodes(x: Word, y: Word, i: nat)
    requires i < W.WORD_BITS
    ensures W.Bit(EvalOpcode(0x16, [x, y]), i) == (W.Bit(x, i) && W.Bit(y, i))
    ensures W.Bit(EvalOpcode(0x17, [x, y]), i) == (W.Bit(x, i) || W.Bit(y, i))
    ensures W.Bit(EvalOpcode(0x18, [x, y]), i) == (W.Bit(x, i) != W.Bit(y, i))
    ensures W.Bit(EvalOpcode(0x19, [x]), i) == !W.Bit(x, i)
  {
    hide W.Bit, W.Bitwise, W.Not;
    W.BitwiseBit(W.AndOp, x, y, i);
    W.BitwiseBit(W.OrOp, x, y, i);
    W.BitwiseBit(W.XorOp, x, y, i);
    W.NotBit(x, i);
  }

  lemma {:induction false} BytesAt(v: nat, n: nat, i: nat)
    requires i < n
    ensures Bytes(v, n)[i] == v / Pow2(8 * (n - 1 - i)) % 256
    decreases n
  {
    if i == n - 1 {
    } else {
      BytesAt(v / 256, n - 1, i);
      Pow2Byte(n - 2 - i);
      DivDiv(v, 256, Pow2(8 * (n - 2 - i)));
    }
  }

  /** The topmost operand says which byte, or how far: bytes count from the most significant end. */
  lemma PositionalOpcodes(k: Word, x: Word)
    ensures EvalOpcode(0x1a, [k, x]) == if k < 32 then Bytes(x, 32)[k] else 0
    ensures Congruent(EvalOpcode(0x1b, [k, x]), x * Pow2(k))
    ensures EvalOpcode(0x1c, [k, x]) == x / Pow2(k)
    ensures Congruent(EvalOpcode(0x1d, [k, x]), W.Signed(x) / Pow2(k))
  {
    hide W.Byte, W.Shl, W.Shr, W.Sar, Congruent;
    ByteIs(k, x);
    ShiftsAre(k, x);
    SarIs(k, x);
  }

  lemma ByteIs(k: Word, x: Word)
    ensures W.Byte(k, x) == if k < 32 then Bytes(x, 32)[k] else 0
  {
    if k < 32 {
      BytesAt(x, 32, k);
      assert Pow2(8) == 256;
    }
  }

  lemma ShiftsAre(k: Word, x: Word)
    ensures Congruent(W.Shl(k, x), x * Pow2(k)) && W.Shr(k, x) == x / Pow2(k)
  {
    hide Congruent, W.Encode, Pow2;
    if k >= W.WORD_BITS {
      Pow2Split(W.WORD_BITS, k);
      ModSmall(x, Pow2(k));
      ShiftedOut(x, Pow2(W.WORD_BITS), Pow2(k - W.WORD_BITS), Pow2(k));
      assert Congruent(0, x * Pow2(k));
    } else {
      EncodeIsCongruent(x * Pow2(k));
    }
  }

  lemma ShiftedOut(x: int, m: nat, k: nat, p: nat)
    requires m == Pow2(W.WORD_BITS) && p == m * k
    ensures Congruent(0, x * p)
  {
    MultipleIsZero(-x, m, k);
    NegateProduct(x, p);
  }

  lemma NegateProduct(x: int, p: int)
    ensures 0 - x * p == -x * p
  {
  }

  lemma SarIs(k: Word, x: Word)
    ensures Congruent(W.Sar(k, x), W.Signed(x) / Pow2(k))
  {
    hide Congruent, W.Encode;
    var z := W.Signed(x);
    EncodeIsCongruent(z / Pow2(k));
    if k >= W.WORD_BITS {
      Pow2Split(W.WORD_BITS, k);
      W.SignedCongruent(x);
      FloorDiv(z, Pow2(k));
      if z >= 0 {
        ModSmall(z, Pow2(k));
        W.EncodeCongruent(0);
      }
    }
  }

  /** Sign extension copies bit `8k + 7` of the second operand into every bit above it. */
  lemma SignExtendOpcode(k: Word, x: Word, i: nat)
    requires i < W.WORD_BITS
    ensures W.Bit(EvalOpcode(0x0b, [k, x]), i) == W.Bit(x, if k < 31 && i >= 8 * (k + 1) then 8 * k + 7 else i)
  {
    if k < 31 {
      SextIsSignExtend(k, x);
      SextReplicates(8 * (k + 1), x, i);
    }
  }

  // ----- opcodes that read and write -----

  /** What one storage opcode writes the other reads at that key, and no other key changes. */
  lemma StorageOpcodes(env: Env, key: Word, x: Word, other: Word, w: World)
    ensures var w' := StateOpcode(env, 0x55, [key, x], w).1;
            && StateOpcode(env, 0x54, [key], w').0 == [x]
            && (other != key ==> StateOpcode(env, 0x54, [other], w').0 == StateOpcode(env, 0x54, [other], w).0)
            && w' == w.(storage := w'.storage)
    ensures var w' := StateOpcode(env, 0x5d, [key, x], w).1;
            && StateOpcode(env, 0x5c, [key], w').0 == [x]
            && (other != key ==> StateOpcode(env, 0x5c, [other], w').0 == StateOpcode(env, 0x5c, [other], w).0)
            && w' == w.(transient := w'.transient)
  {
  }

  /** A stored word is loaded back; a stored byte is the low byte of the operand; a copy moves what was there. */
  lemma MemoryOpcodes(env: Env, at: Word, x: Word, n: Word, i: nat, w: World)
    ensures StateOpcode(env, 0x51, [at], StateOpcode(env, 0x52, [at, x], w).1).0 == [x]
    ensures Fetch(StateOpcode(env, 0x53, [at, x], w).1.memory, i) == if i == at then x % 256 else Fetch(w.memory, i)
    ensures Fetch(StateOpcode(env, 0x5e, [at, x, n], w).1.memory, i)
         == if at <= i < at + n then Fetch(w.memory, x + (i - at)) else Fetch(w.memory, i)
    ensures StateOpcode(env, 0x20, [at, n], w) == ([env.hash(Range(w.memory, at, n))], w)
  {
    hide Bytes, Put, LoadWord, Range;
    LoadAfterStore(w.memory, at, x);
    PutFetch(w.memory, at, [x % 256], i);
    CopyMoves(w.memory, at, x, n, i);
  }

  /** The copies from outside write at their first operand, or at their second when an account comes before it. */
  lemma CopyOpcodes(env: Env, b: Byte, args: seq<Word>, i: nat, w: World)
    requires b in {0x37, 0x39, 0x3e, 0x3c} && |args| == (if b == 0x3c then 4 else 3)
    ensures var (dst, n) := if b == 0x3c then (args[1], args[3]) else (args[0], args[2]);
            Fetch(StateOpcode(env, b, args, w).1.memory, i)
            == if dst <= i < dst + n then env.copied(b, args, w.context, i - dst) else Fetch(w.memory, i)
  {
    hide Put;
    var (dst, n) := if b == 0x3c then (args[1], args[3]) else (args[0], args[2]);
    PutFetch(w.memory, dst, CopiedBytes(env, b, args, w.context, n), i);
  }

  /** A log holds the bytes at its first operand, as many as its second says, with the other operands as topics. */
  lemma LogOpcodes(env: Env, b: Byte, args: seq<Word>, w: World)
    requires IsLog(b) && |args| == 2 + (b - 0xa0)
    ensures OpcodeEffect(env, b, args, w)
         == ([], w.(logs := w.logs + [LogEntry(args[2..], Range(w.memory, args[0], args[1]))]))
    ensures |args[2..]| == b - 0xa0
  {
    hide Range, StateOpcode;
    assert b == 0xa0 ==> args[2..] == [];
  }

  // ----- active memory -----

  ghost predicate SameBelow(a: map<nat, Byte>, b: map<nat, Byte>, n: nat) {
    forall i: nat :: i < n ==> Fetch(a, i) == Fetch(b, i)
  }

  ghost predicate SameFrom(a: map<nat, Byte>, b: map<nat, Byte>, n: nat) {
    forall i: nat :: n <= i ==> Fetch(a, i) == Fetch(b, i)
  }

  lemma RangeBelow(a: map<nat, Byte>, b: map<nat, Byte>, size: nat, at: nat, n: nat)
    requires SameBelow(a, b, Touch(size, at, n))
    ensures Range(a, at, n) == Range(b, at, n)
  {
    forall i | 0 <= i < n
      ensures Range(a, at, n)[i] == Range(b, at, n)[i]
    {
      assert at + i < Touch(size, at, n);
    }
  }

  lemma PutBelow(a: map<nat, Byte>, b: map<nat, Byte>, n: nat, at: nat, data: seq<Byte>)
    requires SameBelow(a, b, n)
    ensures SameBelow(Put(a, at, data), Put(b, at, data), n)
  {
    forall i: nat | i < n
      ensures Fetch(Put(a, at, data), i) == Fetch(Put(b, at, data), i)
    {
      PutFetch(a, at, data, i);
      PutFetch(b, at, data, i);
    }
  }

  lemma PutFrom(a: map<nat, Byte>, size: nat, at: nat, data: seq<Byte>)
    ensures SameFrom(Put(a, at, data), a, Touch(size, at, |data|))
  {
    forall i: nat | Touch(size, at, |data|) <= i
      ensures Fetch(Put(a, at, data), i) == Fetch(a, i)
    {
      PutFetch(a, at, data, i);
    }
  }

  /** Writing one range read from the same memory touches what covers both. */
  lemma CopyTouches(a: map<nat, Byte>, b: map<nat, Byte>, size: nat, dst: nat, src: nat, n: nat)
    requires SameBelow(a, b, Touch(size, Max(dst, src), n))
    ensures SameBelow(Put(a, dst, Range(a, src, n)), Put(b, dst, Range(b, src, n)), Touch(size, Max(dst, src), n))
    ensures SameFrom(Put(a, dst, Range(a, src, n)), a, Touch(size, Max(dst, src), n))
  {
    assert |Range(a, src, n)| == n;
    hide Put, Range;
    assert Touch(size, src, n) <= Touch(size, Max(dst, src), n) && Touch(size, dst, n) <= Touch(size, Max(dst, src), n);
    RangeBelow(a, b, size, src, n);
    PutBelow(a, b, Touch(size, Max(dst, src), n), dst, Range(a, src, n));
    PutFrom(a, size, dst, Range(a, src, n));
  }

  /** An effect that gives the same results and logs on either memory, and keeps to the bytes below `n`. */
  ghost predicate StaysBelow(x: (seq<Word>, World), y: (seq<Word>, World), memory: map<nat, Byte>, n: nat) {
    && x.0 == y.0 && y.1 == x.1.(memory := y.1.memory)
    && SameBelow(x.1.memory, y.1.memory, n) && SameFrom(x.1.memory, memory, n)
  }

  lemma OpcodeStaysBelow(env: Env, b: Byte, args: seq<Word>, v: World, w: World)
    requires w == v.(memory := w.memory) && !IsExternal(b)
    requires var (at, n) := OpcodeTouched(b, args);
             SameBelow(v.memory, w.memory, Touch(v.size, at, n))
    ensures var (at, n) := OpcodeTouched(b, args);
            StaysBelow(OpcodeEffect(env, b, args, v), OpcodeEffect(env, b, args, w), v.memory, Touch(v.size, at, n))
  {
    hide Put, Range, Touch, Bytes, EvalOpcode, LoadWord, CopiedBytes, Fetch, W.Encode;
    var (at, n) := OpcodeTouched(b, args);
    RangeBelow(v.memory, w.memory, v.size, at, n);
    if IsLog(b) || Computes(b) || !MovesMemory(b) {
      if b == 0x51 {
        LoadBelow(v.memory, w.memory, v.size, at);
      }
    } else {
      WriteStaysBelow(env, b, args, v, w);
    }
  }

  predicate MovesMemory(b: Byte) { b in {0x52, 0x53, 0x5e, 0x37, 0x39, 0x3e, 0x3c} }

  lemma LoadBelow(a: map<nat, Byte>, b: map<nat, Byte>, size: nat, at: nat)
    requires SameBelow(a, b, Touch(size, at, 32))
    ensures LoadWord(a, at) == LoadWord(b, at)
  {
    hide SameBelow;
    RangeBelow(a, b, size, at, 32);
  }

  lemma WriteStaysBelow(env: Env, b: Byte, args: seq<Word>, v: World, w: World)
    requires w == v.(memory := w.memory) && MovesMemory(b)
    requires var (at, n) := OpcodeTouched(b, args);
             SameBelow(v.memory, w.memory, Touch(v.size, at, n))
    ensures var (at, n) := OpcodeTouched(b, args);
            StaysBelow(StateOpcode(env, b, args, v), StateOpcode(env, b, args, w), v.memory, Touch(v.size, at, n))
  {
    var (at, n) := OpcodeTouched(b, args);
    if b == 0x5e {
      hide Put, Range, Touch, Fetch, SameBelow, SameFrom;
      CopyTouches(v.memory, w.memory, v.size, Arg(args, 0), Arg(args, 1), n);
    } else {
      var data := Outside(env, b, args, v, n);
      assert OpcodeTouched(b, args) == (at, n);
      OutsideWrites(env, b, args, v, n, at);
      OutsideWrites(env, b, args, w, n, at);
      hide Put, Touch, Outside, StateOpcode, Fetch, OpcodeTouched, SameBelow, SameFrom;
      PutBelow(v.memory, w.memory, Touch(v.size, at, n), at, data);
      PutFrom(v.memory, v.size, at, data);
    }
  }

  /** The bytes an opcode writes that do not come from memory. */
  function Outside(env: Env, b: Byte, args: seq<Word>, w: World, n: nat): seq<Byte> {
    if b == 0x52 then Bytes(Arg(args, 1), 32)
    else if b == 0x53 then [Arg(args, 1) % 256]
    else CopiedBytes(env, b, args, w.context, n)
  }

  lemma OutsideWrites(env: Env, b: Byte, args: seq<Word>, w: World, n: nat, at: nat)
    requires MovesMemory(b) && b != 0x5e && OpcodeTouched(b, args) == (at, n)
    ensures |Outside(env, b, args, w, n)| == n
    ensures StateOpcode(env, b, args, w) == ([], w.(memory := Put(w.memory, at, Outside(env, b, args, w, n))))
  {
    hide Put, Bytes;
  }
}
