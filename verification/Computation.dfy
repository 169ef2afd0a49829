/**
 From a builder call to the values a run binds: the instruction the call appends,
 executed where its operands hold words, gives the Rust result of the operation on
 those words in the order the caller named them.
 */
module Computation {
  import opened Sequences
  import opened Powers
  import opened Isa
  import opened Immediates
  import opened Types
  import opened Instructions
  import opened WidthRepair
  import opened Machine
  import opened MachineLaws
  import opened Arena
  import opened Builder
  import W = Words

  // ----- what each operation means, in integers and bits -----

  /** The word of this type that holds this integer wrapped. */
  ghost predicate Denotes(ty: Type, r: Word, z: int)
    requires ty.IsWellFormed()
  {
    WellFormed(ty, r) && IntValue(ty, r) == Wrap(ty, z)
  }

  ghost predicate BitByBit(op: W.BoolOp, r: Word, a: Word, b: Word) {
    forall i :: 0 <= i < W.WORD_BITS ==> W.Bit(r, i) == op.Apply(W.Bit(a, i), W.Bit(b, i))
  }

  /** The operations on two numbers of one type. */
  predicate IsHomogeneous(op: Op) {
    op.Add? || op.Sub? || op.Mul? || op.Div? || op.Rem? || op.And? || op.Or? || op.Xor?
  }

  /** `r` is the result of the operation on the first and second number the caller named. */
  ghost predicate IsResultOf(op: Op, ty: Type, a: Word, b: Word, r: Word)
    requires ty.IsWellFormed()
  {
    var x, y := IntValue(ty, a), IntValue(ty, b);
    if op.Add? then Denotes(ty, r, x + y)
    else if op.Sub? then Denotes(ty, r, x - y)
    else if op.Mul? then Denotes(ty, r, x * y)
    else if op.Div? then Denotes(ty, r, if y == 0 then 0 else W.TruncDiv(x, y))
    else if op.Rem? then Denotes(ty, r, if y == 0 then 0 else W.TruncRem(x, y))
    else if op.Exp? then Denotes(ty, r, Power(x, b))
    else if op.Shl? then Denotes(ty, r, x * Pow2(b))
    else if op.Shr? then Denotes(ty, r, a / Pow2(b))
    else if op.Sar? then Denotes(ty, r, W.Signed(a) / Pow2(b))
    else if op.And? then WellFormed(ty, r) && BitByBit(W.AndOp, r, a, b)
    else if op.Or? then WellFormed(ty, r) && BitByBit(W.OrOp, r, a, b)
    else op.Xor? && WellFormed(ty, r) && BitByBit(W.XorOp, r, a, b)
  }

  lemma BinaryComputes(op: Op, ty: Type, a: Word, b: Word)
    requires IsBinary(op) && !op.ExtractByte? && ty.IsWellFormed()
    requires WellFormed(ty, a) && (IsHomogeneous(op) ==> WellFormed(ty, b))
    ensures IsResultOf(op, ty, a, b, Repaired(op, ty, RawBinary(op, ty, a, b)))
  {
    hide Repaired, RawBinary, WellFormed, IntValue, Denotes, BitByBit, Wrap;
    if op.Add? {
      AddComputes(ty, a, b);
    } else if op.Sub? {
      SubComputes(ty, a, b);
    } else if op.Mul? {
      MulComputes(ty, a, b);
    } else if op.Div? || op.Rem? {
      DivisionComputes(ty, a, b);
    } else if op.Exp? || op.Shl? {
      ScalingComputes(ty, a, b);
    } else if op.Shr? || op.Sar? {
      ShiftComputes(ty, a, b);
    } else {
      BitwiseComputes(op, ty, a, b);
    }
  }

  lemma AddComputes(ty: Type, a: Word, b: Word)
    requires ty.IsWellFormed() && WellFormed(ty, a) && WellFormed(ty, b)
    ensures IsResultOf(Add, ty, a, b, Repaired(Add, ty, RawBinary(Add, ty, a, b)))
  {
    hide Repaired, RawBinary, WellFormed, IntValue, Wrap;
    AddWraps(ty, a, b);
  }

  lemma SubComputes(ty: Type, a: Word, b: Word)
    requires ty.IsWellFormed() && WellFormed(ty, a) && WellFormed(ty, b)
    ensures IsResultOf(Sub, ty, a, b, Repaired(Sub, ty, RawBinary(Sub, ty, a, b)))
  {
    hide Repaired, RawBinary, WellFormed, IntValue, Wrap;
    SubWraps(ty, a, b);
  }

  lemma MulComputes(ty: Type, a: Word, b: Word)
    requires ty.IsWellFormed() && WellFormed(ty, a) && WellFormed(ty, b)
    ensures IsResultOf(Mul, ty, a, b, Repaired(Mul, ty, RawBinary(Mul, ty, a, b)))
  {
    hide Repaired, RawBinary, WellFormed, IntValue, Wrap;
    MulWraps(ty, a, b);
  }

  lemma DivisionComputes(ty: Type, a: Word, b: Word)
    requires ty.IsWellFormed() && WellFormed(ty, a) && WellFormed(ty, b)
    ensures IsResultOf(Div, ty, a, b, Repaired(Div, ty, RawBinary(Div, ty, a, b)))
    ensures IsResultOf(Rem, ty, a, b, Repaired(Rem, ty, RawBinary(Rem, ty, a, b)))
  {
    hide Repaired, RawBinary, WellFormed, IntValue, Wrap;
    WrapsToItself(ty, 0);
    if ty.IsSigned() {
      SignedDivWraps(ty, a, b);
      SignedRemExact(ty, a, b);
      ValueWraps(ty, Repaired(Rem, ty, RawBinary(Rem, ty, a, b)));
    } else {
      UnsignedDivComputes(ty, a, b);
    }
  }

  lemma WrapsToItself(ty: Type, z: int)
    requires ty.IsWellFormed()
    ensures Wrap(ty, 0) == 0
    ensures InRange(ty, z) ==> Wrap(ty, z) == z
  {
    WrapUnique(ty, 0, 0);
    if InRange(ty, z) {
      WrapUnique(ty, z, z);
    }
  }

  lemma ValueWraps(ty: Type, r: Word)
    requires ty.IsWellFormed()
    ensures Wrap(ty, IntValue(ty, r)) == IntValue(ty, r)
  {
    WrapInRange(ty, r);
    WrapsToItself(ty, IntValue(ty, r));
  }

  lemma UnsignedDivComputes(ty: Type, a: Word, b: Word)
    requires ty.IsWellFormed() && !ty.IsSigned() && WellFormed(ty, a) && WellFormed(ty, b)
    ensures IsResultOf(Div, ty, a, b, Repaired(Div, ty, RawBinary(Div, ty, a, b)))
    ensures IsResultOf(Rem, ty, a, b, Repaired(Rem, ty, RawBinary(Rem, ty, a, b)))
  {
    var q, r := Repaired(Div, ty, RawBinary(Div, ty, a, b)), Repaired(Rem, ty, RawBinary(Rem, ty, a, b));
    var x, y := IntValue(ty, a), IntValue(ty, b);
    UnsignedDivExact(ty, a, b);
    ValueCongruent(ty, a);
    ValueCongruent(ty, b);
    hide Repaired, RawBinary, WellFormed, IntValue, Wrap;
    WrapsToItself(ty, 0);
    ValueWraps(ty, q);
    ValueWraps(ty, r);
    if y != 0 {
      DivModUnique(x, y, IntValue(ty, q), IntValue(ty, r));
    }
  }

  lemma ScalingComputes(ty: Type, a: Word, b: Word)
    requires ty.IsWellFormed() && WellFormed(ty, a)
    ensures IsResultOf(Exp, ty, a, b, Repaired(Exp, ty, RawBinary(Exp, ty, a, b)))
    ensures IsResultOf(Shl, ty, a, b, Repaired(Shl, ty, RawBinary(Shl, ty, a, b)))
  {
    hide Repaired, RawBinary, WellFormed, IntValue, Wrap;
    ExpWraps(ty, a, b);
    ShlWraps(ty, a, b);
  }

  /** A right shift of the whole word, clearing or repeating its top bit, and then the repair. */
  lemma ShiftComputes(ty: Type, a: Word, b: Word)
    requires ty.IsWellFormed() && WellFormed(ty, a)
    ensures IsResultOf(Shr, ty, a, b, Repaired(Shr, ty, RawBinary(Shr, ty, a, b)))
    ensures IsResultOf(Sar, ty, a, b, Repaired(Sar, ty, RawBinary(Sar, ty, a, b)))
  {
    hide WellFormed, Wrap, W.Shr, W.Sar, Repair.Apply, Congruent;
    ShiftsAre(b, a);
    SarIs(b, a);
    CongruentSame(W.Sar(b, a), W.Signed(a) / Pow2(b));
    RepairedWraps(ty, W.Sar(b, a), W.Signed(a) / Pow2(b));
    if ty.IsSigned() {
      RepairedWraps(ty, W.Shr(b, a), a / Pow2(b));
    } else {
      DivAtMost(a, Pow2(b));
      UnsignedBelow(ty, a, W.Shr(b, a));
      NoRepairKeeps(W.Shr(b, a));
    }
  }

  lemma NoRepairKeeps(x: Word)
    ensures NoRepair.Apply(x) == x
  {
  }

  lemma CongruentSame(r: int, z: int)
    requires Congruent(r, z)
    ensures r % Pow2(W.WORD_BITS) == z % Pow2(W.WORD_BITS)
  {
    var m := Pow2(W.WORD_BITS);
    var k := (r - z) / m;
    assert r - z == m * k;
    assert r == z + k * m;
    ModShift(z, k, m);
  }

  lemma BitwiseComputes(op: Op, ty: Type, a: Word, b: Word)
    requires ty.IsWellFormed() && WellFormed(ty, a) && WellFormed(ty, b) && (op.And? || op.Or? || op.Xor?)
    ensures IsResultOf(op, ty, a, b, Repaired(op, ty, RawBinary(op, ty, a, b)))
  {
    var how := if op.And? then W.AndOp else if op.Or? then W.OrOp else W.XorOp;
    var r := W.Bitwise(how, a, b);
    assert Repaired(op, ty, RawBinary(op, ty, a, b)) == r;
    BitwiseStaysWellFormed(how, ty, a, b);
    forall i | 0 <= i < W.WORD_BITS
      ensures W.Bit(r, i) == how.Apply(W.Bit(a, i), W.Bit(b, i))
    {
      W.BitwiseBit(how, a, b, i);
    }
  }

  /** What the caller owes an operation: numbers of its type, or a truth value to select by. */
  ghost predicate Suits(op: Op, ty: Type, operand: Type, words: seq<Word>)
    requires ty.IsWellFormed()
  {
    if IsBinary(op) then
      && |words| == 2 && !op.ExtractByte?
      && WellFormed(ty, words[0]) && (IsHomogeneous(op) ==> WellFormed(ty, words[1]))
    else if op.Const? then words == []
    else if op.Not? then |words| == 1 && WellFormed(ty, words[0])
    else if op.Icmp? then
      |words| == 2 && operand.IsWellFormed() && WellFormed(operand, words[0]) && WellFormed(operand, words[1])
    else op.Select? && |words| == 3 && (words[0] == 0 || words[0] == 1)
  }

  /** `r` is the Rust result of the operation on the words in the order the caller named them. */
  ghost predicate Computed(op: Op, ty: Type, operand: Type, words: seq<Word>, r: Word)
    requires ty.IsWellFormed() && Suits(op, ty, operand, words)
  {
    if IsBinary(op) then IsResultOf(op, ty, words[0], words[1], r)
    else if op.Const? then r == BigEndian(op.literal)
    else if op.Not? then
      var x := IntValue(ty, words[0]);
      Denotes(ty, r, if ty.IsSigned() then -1 - x else Limit(ty) - 1 - x)
    else if op.Icmp? then
      r == if CmpHolds(op.cmp, IntValue(operand, words[0]), IntValue(operand, words[1])) then 1 else 0
    else op.Select? && r == if words[0] == 1 then words[1] else words[2]
  }

  lemma PureComputes(op: Op, ty: Type, operand: Type, words: seq<Word>) returns (raw: Word)
    requires ty.IsWellFormed() && Suits(op, ty, operand, words)
    ensures EvalPure(op, ty, operand, words) == Some([raw])
    ensures Computed(op, ty, operand, words, Repaired(op, ty, raw))
  {
    hide WellFormed, IntValue, Denotes, RawBinary, Compare, SelectWord, IsResultOf, CmpHolds;
    if IsBinary(op) {
      raw := RawBinary(op, ty, words[0], words[1]);
      BinaryComputes(op, ty, words[0], words[1]);
    } else if op.Const? {
      raw := Literal(op.literal);
    } else if op.Not? {
      raw := W.Not(words[0]);
      NotComputes(ty, words[0]);
    } else if op.Icmp? {
      raw := Compare(op.cmp, operand, words[0], words[1]);
      CompareDecides(op.cmp, operand, words[0], words[1]);
      Truth(CmpHolds(op.cmp, IntValue(operand, words[0]), IntValue(operand, words[1])));
    } else {
      raw := SelectWord(words[0], words[1], words[2]);
      SelectPicks(words[0], words[1], words[2]);
    }
  }

  lemma NotComputes(ty: Type, a: Word)
    requires ty.IsWellFormed() && WellFormed(ty, a)
    ensures Denotes(ty, Repaired(Not, ty, W.Not(a)),
                    if ty.IsSigned() then -1 - IntValue(ty, a) else Limit(ty) - 1 - IntValue(ty, a))
  {
    hide WellFormed, IntValue, Wrap, Repaired;
    NotComplements(ty, a);
    ValueWraps(ty, Repaired(Not, ty, W.Not(a)));
  }

  /** The operations on whole words that no builder call makes: the modulus comes last, the byte index first. */
  lemma WordOperations(ty: Type, operand: Type, x: Word, y: Word, n: Word)
    ensures var (sum, product) := (EvalPure(AddMod, ty, operand, [x, y, n]), EvalPure(MulMod, ty, operand, [x, y, n]));
            && sum.Some? && |sum.value| == 1 && Remains(sum.value[0], x + y, n)
            && product.Some? && |product.value| == 1 && Remains(product.value[0], x * y, n)
    ensures EvalPure(ExtractByte, ty, operand, [x, y]) == Some([if x < 32 then Bytes(y, 32)[x] else 0])
  {
    hide Remains, W.Byte, Bytes;
    IsRemainder(x + y, n, W.AddMod(x, y, n));
    IsRemainder(x * y, n, W.MulMod(x, y, n));
    ByteIs(x, y);
  }

  // ----- from the call to the values bound -----

  /** The call is accepted and appends this instruction. */
  ghost predicate Appends(s: State, ins: Ins, inst: InstData) {
    && CurrentOk(s) && Ready(s, BuilderCall.Emit(ins))
    && s.error.None? && Step(s, BuilderCall.Emit(ins)).func.insts == s.func.insts + [inst]
  }

  /** The values hold these words, in order. */
  predicate Carry(vals: Values, args: seq<Value>, words: seq<Word>) {
    |args| == |words| && forall k :: 0 <= k < |args| ==> args[k] in vals && vals[args[k]] == words[k]
  }

  lemma CarriedOperands(vals: Values, args: seq<Value>, words: seq<Word>)
    requires Carry(vals, args, words)
    ensures AllBound(vals, args) && Operands(vals, args) == words
  {
  }

  /** Every accepted call but a refused raw opcode appends one instruction, and returns handles not used before. */
  lemma CallAppends(s: State, ins: Ins)
    requires CurrentOk(s) && Ready(s, BuilderCall.Emit(ins)) && s.error.None?
    requires Target(s).Ok? && !ins.Raw?
    ensures exists inst :: Appends(s, ins, inst)
  {
    hide Op.DefaultRepair, ForConvert;
    var inst := Last(Step(s, BuilderCall.Emit(ins)).func.insts);
    assert Appends(s, ins, inst);
  }

  lemma OneHandle(first: nat)
    ensures Handles(first, 1) == [first]
    ensures Handles(first, 2) == [first, first + 1]
  {
  }

  lemma SingleAppends(s: State, op: Op, ty: Type, args: seq<Value>, inst: InstData)
    requires Appends(s, Single(op, ty, args), inst)
    ensures inst == InstData(op, ty, op.DefaultRepair(ty), args, [|s.func.values|])
  {
    hide Op.DefaultRepair, HasMethod;
    OneHandle(|s.func.values|);
    assert inst == Last(s.func.insts + [inst]);
  }

  /** The world once the instruction is paid for. */
  function Paid(env: Env, inst: InstData, words: seq<Word>, w: World): World
    requires Cost(env, inst, words, w) <= w.gas
  {
    w.(gas := w.gas - Cost(env, inst, words, w))
  }

  lemma PureRuns(
    env: Env, types: seq<Type>, slot: Word, inst: InstData, vals: Values, words: seq<Word>, w: World, raw: Word)
    requires Carry(vals, inst.args, words) && Cost(env, inst, words, w) <= w.gas
    requires inst.repair.Fits() && |inst.results| == 1
    requires !inst.op.Opcode? && !inst.op.CallFn? && !IsNamed(inst.op)
    requires EvalPure(inst.op, inst.ty, OperandType(types, inst), words) == Some([raw])
    ensures ExecInst(env, types, slot, inst, vals, w)
         == Some((vals[inst.results[0] := inst.repair.Apply(raw)], Paid(env, inst, words, w)))
  {
    hide EvalPure, IsNamed, Cost, Repair.Apply, Bind;
    CarriedOperands(vals, inst.args, words);
    OneResult(vals, inst.results, inst.repair.Apply(raw));
    assert RepairFirst(inst.repair, [raw]) == [inst.repair.Apply(raw)];
  }

  lemma OneResult(vals: Values, names: seq<Value>, x: Word)
    requires |names| == 1
    ensures Bind(vals, names, [x]) == vals[names[0] := x]
  {
    assert names[1..] == [] && [x][1..] == [];
  }

  /**
   A single-result call appends an instruction that binds the handle it returned to
   the Rust result of the operation on what its arguments hold, in the caller's order.
   */
  lemma SingleComputes(
    s: State, op: Op, ty: Type, args: seq<Value>, inst: InstData,
    env: Env, types: seq<Type>, slot: Word, vals: Values, words: seq<Word>, w: World) returns (r: Word)
    requires Appends(s, Single(op, ty, args), inst) && ty.IsWellFormed()
    requires Carry(vals, args, words) && Cost(env, inst, words, w) <= w.gas
    requires Suits(op, ty, if args != [] && args[0] < |types| then types[args[0]] else ty, words)
    ensures Computed(op, ty, if args != [] && args[0] < |types| then types[args[0]] else ty, words, r)
    ensures ExecInst(env, types, slot, inst, vals, w)
         == Some((vals[|s.func.values| := r], Paid(env, inst, words, w)))
  {
    hide Suits, Computed, EvalPure, Cost, Repaired, ExecInst, Op.DefaultRepair;
    SingleAppends(s, op, ty, args, inst);
    hide Appends;
    var raw := PureComputes(op, ty, OperandType(types, inst), words);
    StoredRepair(op, ty, raw);
    SuitsPure(op, ty, OperandType(types, inst), words);
    PureRuns(env, types, slot, inst, vals, words, w, raw);
    r := Repaired(op, ty, raw);
  }

  lemma StoredRepair(op: Op, ty: Type, raw: Word)
    requires ty.IsWellFormed()
    ensures op.DefaultRepair(ty).Fits() && op.DefaultRepair(ty).Apply(raw) == Repaired(op, ty, raw)
  {
  }

  lemma SuitsPure(op: Op, ty: Type, operand: Type, words: seq<Word>)
    requires ty.IsWellFormed() && Suits(op, ty, operand, words)
    ensures !op.Opcode? && !op.CallFn? && !IsNamed(op)
  {
    hide WellFormed;
  }

  /**
   A conversion appends an instruction that binds its handle to the operand's value, at
   the type the builder has for it, converted as Rust's `as` does.
   */
  lemma ConvertComputes(
    s: State, to: Type, v: Value, inst: InstData,
    env: Env, types: seq<Type>, slot: Word, vals: Values, x: Word, w: World) returns (r: Word)
    requires Appends(s, ConvertTo(to, v), inst) && to.IsWellFormed() && v < |s.func.values|
    requires s.func.values[v].ty.IsWellFormed() && WellFormed(s.func.values[v].ty, x)
    requires Carry(vals, [v], [x]) && Cost(env, inst, [x], w) <= w.gas
    ensures Denotes(to, r, IntValue(s.func.values[v].ty, x))
    ensures ExecInst(env, types, slot, inst, vals, w)
         == Some((vals[|s.func.values| := r], Paid(env, inst, [x], w)))
  {
    hide EvalPure, Cost, ExecInst, WellFormed, IntValue, Wrap;
    var from := s.func.values[v].ty;
    ConvertAppends(s, to, v, inst);
    RepairFits(from, to);
    ConvertIsRustAs(from, to, x);
    ConvertPasses(to, OperandType(types, inst), x);
    PureRuns(env, types, slot, inst, vals, [x], w, x);
    r := Types.Convert(from, to, x);
  }

  lemma ConvertAppends(s: State, to: Type, v: Value, inst: InstData)
    requires Appends(s, ConvertTo(to, v), inst) && v < |s.func.values|
    ensures inst == InstData(Op.Convert, to, ForConvert(s.func.values[v].ty, to), [v], [|s.func.values|])
  {
    hide ForConvert;
    OneHandle(|s.func.values|);
    assert inst == Last(s.func.insts + [inst]);
  }

  lemma ConvertPasses(ty: Type, operand: Type, x: Word)
    ensures EvalPure(Op.Convert, ty, operand, [x]) == Some([x])
  {
    hide RawBinary;
  }

  /**
   Checked arithmetic appends an instruction that binds its first handle to the wrapped
   result of the operation on `a` and `b`, and its second to whether that differs from
   the exact one.
   */
  lemma CheckedComputes(
    s: State, op: Op, ty: Type, a: Value, b: Value, inst: InstData,
    env: Env, types: seq<Type>, slot: Word, vals: Values, words: seq<Word>, w: World) returns (r: Word, flag: Word)
    requires Appends(s, Checked(op, ty, a, b), inst) && IsChecked(op) && ty.IsWellFormed()
    requires Carry(vals, [a, b], words) && Cost(env, inst, words, w) <= w.gas
    requires |words| == 2 && WellFormed(ty, words[0]) && WellFormed(ty, words[1])
    ensures var (x, y) := (IntValue(ty, words[0]), IntValue(ty, words[1]));
            var exact := if op.AddOverflow? then x + y else if op.SubOverflow? then x - y else x * y;
            Denotes(ty, r, exact) && flag == if InRange(ty, exact) then 0 else 1
    ensures ExecInst(env, types, slot, inst, vals, w)
         == Some((vals[|s.func.values| := r][|s.func.values| + 1 := flag], Paid(env, inst, words, w)))
  {
    hide EvalPure, Cost, ExecInst, WellFormed, IntValue, Wrap, Repaired, Op.DefaultRepair, InRange;
    CheckedAppends(s, op, ty, a, b, inst);
    var operand := OperandType(types, inst);
    assert words == [words[0], words[1]];
    CheckedArithmeticFlags(op, ty, operand, words[0], words[1]);
    var raw := EvalPure(op, ty, operand, words).value;
    StoredRepair(op, ty, raw[0]);
    r, flag := Repaired(op, ty, raw[0]), raw[1];
    FlagIsExact(ty, words, op, flag);
    CheckedRuns(env, types, slot, inst, vals, words, w, raw);
  }

  lemma FlagIsExact(ty: Type, words: seq<Word>, op: Op, flag: Word)
    requires ty.IsWellFormed() && |words| == 2
    requires WellFormed(BOOL, flag)
    requires var (x, y) := (IntValue(ty, words[0]), IntValue(ty, words[1]));
             var exact := if op.AddOverflow? then x + y else if op.SubOverflow? then x - y else x * y;
             flag == 1 <==> Wrap(ty, exact) != exact
    ensures var (x, y) := (IntValue(ty, words[0]), IntValue(ty, words[1]));
            var exact := if op.AddOverflow? then x + y else if op.SubOverflow? then x - y else x * y;
            flag == if InRange(ty, exact) then 0 else 1
  {
    hide WellFormed, IntValue, Wrap, InRange;
    var x, y := IntValue(ty, words[0]), IntValue(ty, words[1]);
    BoolIsBit(flag);
    WrapExactIff(ty, if op.AddOverflow? then x + y else if op.SubOverflow? then x - y else x * y);
  }

  lemma CheckedAppends(s: State, op: Op, ty: Type, a: Value, b: Value, inst: InstData)
    requires Appends(s, Checked(op, ty, a, b), inst)
    ensures inst == InstData(op, ty, op.DefaultRepair(ty), [a, b], [|s.func.values|, |s.func.values| + 1])
  {
    hide Op.DefaultRepair, IsChecked;
    OneHandle(|s.func.values|);
    assert inst == Last(s.func.insts + [inst]);
  }

  lemma CheckedRuns(
    env: Env, types: seq<Type>, slot: Word, inst: InstData, vals: Values, words: seq<Word>, w: World, raw: seq<Word>)
    requires Carry(vals, inst.args, words) && Cost(env, inst, words, w) <= w.gas
    requires inst.repair.Fits() && |inst.results| == 2 && |raw| == 2 && IsChecked(inst.op)
    requires EvalPure(inst.op, inst.ty, OperandType(types, inst), words) == Some(raw)
    ensures ExecInst(env, types, slot, inst, vals, w)
         == Some((vals[inst.results[0] := inst.repair.Apply(raw[0])][inst.results[1] := raw[1]],
                  Paid(env, inst, words, w)))
  {
    hide EvalPure, Cost, Repair.Apply, Bind;
    CarriedOperands(vals, inst.args, words);
    var x := inst.repair.Apply(raw[0]);
    assert RepairFirst(inst.repair, raw) == [x, raw[1]];
    TwoResults(vals, inst.results, x, raw[1]);
  }

  lemma TwoResults(vals: Values, names: seq<Value>, x: Word, y: Word)
    requires |names| == 2
    ensures Bind(vals, names, [x, y]) == vals[names[0] := x][names[1] := y]
  {
    OneResult(vals[names[0] := x], names[1..], y);
    assert [x, y][1..] == [y];
  }
}
