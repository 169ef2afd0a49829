/**
 What executing one instruction does: operand words in, result words out, and a
 world of memory, storage, transient storage, logs and context.
 */
module Machine {
  import opened Isa
  import opened Immediates
  import opened Types
  import opened Instructions
  import opened WidthRepair
  import W = Words

  datatype LogEntry = LogEntry(topics: seq<Word>, data: seq<Byte>)

  /**
   `size` is the active memory in bytes; `context` stands for everything outside
   the frame; `gas` is what the frame has left to spend.
   */
  datatype World = World(
    memory: map<nat, Byte>, size: nat, storage: map<Word, Word>, transient: map<Word, Word>,
    logs: seq<LogEntry>, context: nat, gas: nat)
  {
    /** The world with its gas out of sight. */
    function Bare(): World { this.(gas := 0) }

    /** The world with `extra` more gas. */
    function Richer(extra: nat): World { this.(gas := gas + extra) }

    /** The world with no more gas than `limit`: other code gives back at most what it was handed. */
    function Capped(limit: nat): World { if gas <= limit then this else this.(gas := limit) }
  }

  /**
   The parts of execution the code does not determine: the environment, other code
   and the gas schedule. An internal callee may end the frame instead of returning.
   A cost may depend on the instruction with its type and repair, on its operand
   words and on anything in the world but the gas left.
   */
  datatype Env = Env(
    query: (Byte, seq<Word>, nat) -> Word,
    copied: (Byte, seq<Word>, nat, nat) -> Byte,
    hash: seq<Byte> -> Word,
    external: (Byte, seq<Word>, World) -> (Word, World),
    internal: (FuncRef, seq<Word>, World) -> Option<(seq<Word>, World)>,
    cost: (InstData, seq<Word>, World) -> nat)

  // ----- memory -----

  function Fetch(memory: map<nat, Byte>, at: nat): Byte {
    if at in memory then memory[at] else 0
  }

  function Range(memory: map<nat, Byte>, at: nat, n: nat): seq<Byte> {
    seq<Byte>(n, i requires 0 <= i < n => Fetch(memory, at + i))
  }

  function Put(memory: map<nat, Byte>, at: nat, data: seq<Byte>): map<nat, Byte>
    decreases |data|
  {
    if data == [] then memory else Put(memory[at := data[0]], at + 1, data[1..])
  }

  function LoadWord(memory: map<nat, Byte>, at: nat): Word {
    BigEndianBound(Range(memory, at, W.WORD_BYTES));
    BigEndian(Range(memory, at, W.WORD_BYTES))
  }

  function Max(a: nat, b: nat): nat { if a < b then b else a }

  /** Active memory after touching `n` bytes at `at`, in whole words. */
  function Touch(size: nat, at: nat, n: nat): nat {
    if n == 0 then size else Max(size, (at + n + 31) / 32 * 32)
  }

  function Lookup(m: map<Word, Word>, key: Word): Word {
    if key in m then m[key] else 0
  }

  function Arg(args: seq<Word>, i: nat): Word {
    if i < |args| then args[i] else 0
  }

  // ----- raw opcodes -----

  /** The table rows the raw escape hatch admits. */
  predicate Admitted(spec: OpSpec) {
    && ByByte(spec.byte) == Some(spec)
    && spec.category !in {StackManip, Control, Terminating}
  }

  /** The arithmetic, comparison and bitwise opcodes. */
  predicate Computes(b: Byte) {
    0x01 <= b <= 0x0b || 0x10 <= b <= 0x1d
  }

  predicate IsLog(b: Byte) { 0xa0 <= b <= 0xa4 }

  /** The opcodes that hand control to other code: `CREATE`, `CALL` and their variants. */
  predicate IsExternal(b: Byte) { b in {0xf0, 0xf1, 0xf2, 0xf4, 0xf5, 0xfa} }

  /** Arithmetic, comparison and bitwise opcodes, topmost operand first. */
  function EvalOpcode(b: Byte, args: seq<Word>): Word {
    var x, y, z := Arg(args, 0), Arg(args, 1), Arg(args, 2);
    match b
    case 0x01 => W.Add(x, y)
    case 0x02 => W.Mul(x, y)
    case 0x03 => W.Sub(x, y)
    case 0x04 => W.Div(x, y)
    case 0x05 => W.SDiv(x, y)
    case 0x06 => W.Mod(x, y)
    case 0x07 => W.SMod(x, y)
    case 0x08 => W.AddMod(x, y, z)
    case 0x09 => W.MulMod(x, y, z)
    case 0x0a => W.Exp(x, y)
    case 0x0b => W.SignExtend(x, y)
    case 0x10 => W.Lt(x, y)
    case 0x11 => W.Lt(y, x)
    case 0x12 => W.SLt(x, y)
    case 0x13 => W.SLt(y, x)
    case 0x14 => W.Eq(x, y)
    case 0x15 => W.IsZero(x)
    case 0x16 => W.And(x, y)
    case 0x17 => W.Or(x, y)
    case 0x18 => W.Bitwise(W.XorOp, x, y)
    case 0x19 => W.Not(x)
    case 0x1a => W.Byte(x, y)
    case 0x1b => W.Shl(x, y)
    case 0x1c => W.Shr(x, y)
    case _ => W.Sar(x, y)
  }

  /** The memory bytes an operation may expand to: offset and length. */
  function Touched(op: Op, args: seq<Word>): (nat, nat) {
    match op
    case Load => (Arg(args, 0), 32)
    case Store => (Arg(args, 0), 32)
    case MemCopy => CopyExtent(args)
    case Opcode(spec) => OpcodeTouched(spec.byte, args)
    case _ => (0, 0)
  }

  function CopyExtent(args: seq<Word>): (nat, nat) {
    (Max(Arg(args, 0), Arg(args, 1)), Arg(args, 2))
  }

  function OpcodeTouched(b: Byte, args: seq<Word>): (nat, nat) {
    match b
    case 0x20 => (Arg(args, 0), Arg(args, 1))
    case 0x51 => (Arg(args, 0), 32)
    case 0x52 => (Arg(args, 0), 32)
    case 0x53 => (Arg(args, 0), 1)
    case 0x5e => CopyExtent(args)
    case 0x37 => (Arg(args, 0), Arg(args, 2))
    case 0x39 => (Arg(args, 0), Arg(args, 2))
    case 0x3e => (Arg(args, 0), Arg(args, 2))
    case 0x3c => (Arg(args, 1), Arg(args, 3))
    case _ => if IsLog(b) then (Arg(args, 0), Arg(args, 1)) else (0, 0)
  }

  function CopiedBytes(env: Env, b: Byte, args: seq<Word>, context: nat, n: nat): seq<Byte> {
    seq<Byte>(n, i requires 0 <= i < n => env.copied(b, args, context, i))
  }

  /** Results and world of a raw opcode, its memory growth aside. */
  function OpcodeEffect(env: Env, b: Byte, args: seq<Word>, w: World): (seq<Word>, World) {
    if Computes(b) then ([EvalOpcode(b, args)], w)
    else if IsExternal(b) then
      var (r, w') := env.external(b, args, w);
      ([r], w'.Capped(w.gas))
    else if IsLog(b) then
      ([], w.(logs := w.logs + [LogEntry(if |args| > 2 then args[2..] else [],
                                         Range(w.memory, Arg(args, 0), Arg(args, 1)))]))
    else StateOpcode(env, b, args, w)
  }

  function StateOpcode(env: Env, b: Byte, args: seq<Word>, w: World): (seq<Word>, World) {
    var x, y, z := Arg(args, 0), Arg(args, 1), Arg(args, 2);
    match b
    case 0x20 => ([env.hash(Range(w.memory, x, y))], w)
    case 0x51 => ([LoadWord(w.memory, x)], w)
    case 0x52 => ([], w.(memory := Put(w.memory, x, Bytes(y, 32))))
    case 0x53 => ([], w.(memory := Put(w.memory, x, [y % 256])))
    case 0x59 => ([W.Encode(w.size)], w)
    case 0x5a => ([W.Encode(w.gas)], w)
    case 0x5e => ([], w.(memory := Put(w.memory, x, Range(w.memory, y, z))))
    case 0x37 => ([], w.(memory := Put(w.memory, x, CopiedBytes(env, b, args, w.context, z))))
    case 0x39 => ([], w.(memory := Put(w.memory, x, CopiedBytes(env, b, args, w.context, z))))
    case 0x3e => ([], w.(memory := Put(w.memory, x, CopiedBytes(env, b, args, w.context, z))))
    case 0x3c => ([], w.(memory := Put(w.memory, y, CopiedBytes(env, b, args, w.context, Arg(args, 3)))))
    case 0x54 => ([Lookup(w.storage, x)], w)
    case 0x55 => ([], w.(storage := w.storage[x := y]))
    case 0x5c => ([Lookup(w.transient, x)], w)
    case 0x5d => ([], w.(transient := w.transient[x := y]))
    case _ => ([env.query(b, args, w.context)], w)
  }

  // ----- operations -----

  /** Raw results of an operation that only computes, or nothing when the arity is wrong. */
  function EvalPure(op: Op, ty: Type, operand: Type, args: seq<Word>): Option<seq<Word>> {
    if IsBinary(op) then (if |args| == 2 then Some([RawBinary(op, ty, args[0], args[1])]) else None)
    else match op
    case Const(imm) => if args == [] then Some([Literal(imm)]) else None
    case Not => if |args| == 1 then Some([W.Not(args[0])]) else None
    case Convert => if |args| == 1 then Some([args[0]]) else None
    case AddMod => if |args| == 3 then Some([W.AddMod(args[0], args[1], args[2])]) else None
    case MulMod => if |args| == 3 then Some([W.MulMod(args[0], args[1], args[2])]) else None
    case Select => if |args| == 3 then Some([SelectWord(args[0], args[1], args[2])]) else None
    case Icmp(cmp) => if |args| == 2 then Some([Compare(cmp, operand, args[0], args[1])]) else None
    case AddOverflow => Overflowing(Op.Add, ty, args)
    case SubOverflow => Overflowing(Op.Sub, ty, args)
    case MulOverflow => Overflowing(Op.Mul, ty, args)
    case _ => None
  }

  /** The raw result and whether the exact one leaves the type's range. */
  function Overflowing(op: Op, ty: Type, args: seq<Word>): Option<seq<Word>>
    requires op.Add? || op.Sub? || op.Mul?
  {
    if |args| != 2 || !ty.IsWellFormed() then None
    else
      var x, y := IntValue(ty, args[0]), IntValue(ty, args[1]);
      var exact := match op { case Add => x + y case Sub => x - y case _ => x * y };
      Some([RawBinary(op, ty, args[0], args[1]), W.FromBool(!InRange(ty, exact))])
  }

  /** Checked arithmetic gives the wrapped value, and flags exactly when that is not the exact one. */
  lemma CheckedArithmeticFlags(op: Op, ty: Type, operand: Type, a: Word, b: Word)
    requires ty.IsWellFormed() && WellFormed(ty, a) && WellFormed(ty, b)
    requires op.AddOverflow? || op.SubOverflow? || op.MulOverflow?
    ensures var x, y := IntValue(ty, a), IntValue(ty, b);
            var exact := if op.AddOverflow? then x + y else if op.SubOverflow? then x - y else x * y;
            var raw := EvalPure(op, ty, operand, [a, b]);
            && raw.Some? && |raw.value| == 2
            && WellFormed(ty, Repaired(op, ty, raw.value[0])) && WellFormed(BOOL, raw.value[1])
            && IntValue(ty, Repaired(op, ty, raw.value[0])) == Wrap(ty, exact)
            && (raw.value[1] == 1 <==> Wrap(ty, exact) != exact)
  {
    hide EvalPure, Overflowing, Repaired, RawBinary, Wrap, IntValue, WellFormed, InRange;
    var x, y := IntValue(ty, a), IntValue(ty, b);
    CheckedIsPlain(op, ty, operand, a, b);
    if op.AddOverflow? {
      AddWraps(ty, a, b);
      OverflowFlag(Op.Add, ty, a, b, x + y);
    } else if op.SubOverflow? {
      SubWraps(ty, a, b);
      OverflowFlag(Op.Sub, ty, a, b, x - y);
    } else {
      MulWraps(ty, a, b);
      OverflowFlag(Op.Mul, ty, a, b, x * y);
    }
  }

  /** The arithmetic under a checked operation. */
  function Plain(op: Op): Op
    requires op.AddOverflow? || op.SubOverflow? || op.MulOverflow?
  {
    if op.AddOverflow? then Op.Add else if op.SubOverflow? then Op.Sub else Op.Mul
  }

  lemma CheckedIsPlain(op: Op, ty: Type, operand: Type, a: Word, b: Word)
    requires ty.IsWellFormed() && (op.AddOverflow? || op.SubOverflow? || op.MulOverflow?)
    ensures EvalPure(op, ty, operand, [a, b]) == Overflowing(Plain(op), ty, [a, b])
    ensures forall w: Word :: Repaired(op, ty, w) == Repaired(Plain(op), ty, w)
  {
    hide Overflowing, RawBinary;
  }

  lemma OverflowFlag(op: Op, ty: Type, a: Word, b: Word, exact: int)
    requires ty.IsWellFormed()
    requires (op.Add? && exact == IntValue(ty, a) + IntValue(ty, b))
          || (op.Sub? && exact == IntValue(ty, a) - IntValue(ty, b))
          || (op.Mul? && exact == IntValue(ty, a) * IntValue(ty, b))
    ensures var raw := Overflowing(op, ty, [a, b]);
            && raw.Some? && |raw.value| == 2 && raw.value[0] == RawBinary(op, ty, a, b)
            && WellFormed(BOOL, raw.value[1]) && (raw.value[1] == 1 <==> Wrap(ty, exact) != exact)
  {
    hide RawBinary, IntValue, WellFormed, InRange;
    FlagSays(ty, exact);
  }

  lemma FlagSays(ty: Type, exact: int)
    requires ty.IsWellFormed()
    ensures W.FromBool(!InRange(ty, exact)) == 1 <==> Wrap(ty, exact) != exact
    ensures WellFormed(BOOL, W.FromBool(!InRange(ty, exact)))
  {
    WrapExactIff(ty, exact);
    BoolIsBit(W.FromBool(!InRange(ty, exact)));
  }

  function Grown(w: World, extent: (nat, nat)): World {
    w.(size := Touch(w.size, extent.0, extent.1))
  }

  /** An operation on operand words once it is paid for; `slot` is the frame address an alloca stands for. */
  function Effect(env: Env, op: Op, ty: Type, operand: Type, slot: Word, args: seq<Word>, w: World)
    : Option<(seq<Word>, World)>
  {
    if op.Opcode? then
      if !Admitted(op.spec) || |args| != op.spec.stackIn then None
      else
        var (r, w') := OpcodeEffect(env, op.spec.byte, args, w);
        Some((r, if IsExternal(op.spec.byte) then w' else Grown(w', OpcodeTouched(op.spec.byte, args))))
    else if op.CallFn? then
      match env.internal(op.callee, args, w)
      case None => None
      case Some((r, w')) => Some((r, w'.Capped(w.gas)))
    else if IsNamed(op) then
      match NamedEffect(op, slot, args, w)
      case None => None
      case Some((r, w')) => Some((r, Grown(w', Touched(op, args))))
    else
      match EvalPure(op, ty, operand, args)
      case None => None
      case Some(r) => Some((r, w))
  }

  function Cost(env: Env, inst: InstData, args: seq<Word>, w: World): nat {
    env.cost(inst, args, w.Bare())
  }

  /** Takes the price of an instruction off the gas; running out ends the run. */
  function Pay(env: Env, inst: InstData, args: seq<Word>, w: World): Option<World> {
    if Cost(env, inst, args, w) <= w.gas then Some(w.(gas := w.gas - Cost(env, inst, args, w))) else None
  }

  /** An instruction's operation, paid for and then carried out. */
  function Exec(env: Env, inst: InstData, operand: Type, slot: Word, args: seq<Word>, w: World)
    : Option<(seq<Word>, World)>
  {
    match Pay(env, inst, args, w)
    case None => None
    case Some(paid) => Effect(env, inst.op, inst.ty, operand, slot, args, paid)
  }

  const MSIZE: OpSpec := OpSpec(0x59, 0, 1, false, Memory, Frontier)
  const GAS: OpSpec := OpSpec(0x5a, 0, 1, false, Context, Frontier)

  predicate IsMsize(op: Op) { op.Opcode? && op.spec.byte == 0x59 }

  predicate IsGas(op: Op) { op.Opcode? && op.spec.byte == 0x5a }

  predicate IsCall(op: Op) { op.CallFn? || (op.Opcode? && IsExternal(op.spec.byte)) }

  /** The call an operation makes, if any, goes the same way with `extra` more gas, and gives the extra back. */
  ghost predicate CallUnmoved(env: Env, op: Op, args: seq<Word>, paid: World, extra: nat) {
    if op.CallFn? then
      env.internal(op.callee, args, paid.Richer(extra))
      == match env.internal(op.callee, args, paid) {
           case None => None
           case Some((r, w)) => Some((r, w.Richer(extra)))
         }
    else
      IsCall(op) ==>
        env.external(op.spec.byte, args, paid.Richer(extra))
        == (env.external(op.spec.byte, args, paid).0, env.external(op.spec.byte, args, paid).1.Richer(extra))
  }

  /** The two ways gas shows: an instruction reads it, or a callee minds what it is handed. */
  datatype Observer = Reader | Handover | AnyObserver

  /** Whether what the operation does in this world shows `extra` more gas. */
  ghost predicate Sees(env: Env, o: Observer, op: Op, args: seq<Word>, paid: World, extra: nat) {
    (!o.Handover? && IsGas(op)) || (!o.Reader? && !CallUnmoved(env, op, args, paid, extra))
  }

  /** No callee, in any world, lets the gas it is handed show in anything but the gas it gives back. */
  ghost predicate CalleesBlind(env: Env) {
    forall op, args, paid, extra :: CallUnmoved(env, op, args, paid, extra)
  }

  /** The operation can show gas in some world. */
  ghost predicate ObservesGas(env: Env, op: Op) {
    IsGas(op) || (IsCall(op) && !CalleesBlind(env))
  }

  /** The operations that name a piece of the frame, memory or storage. */
  predicate IsNamed(op: Op) {
    op.Alloca? || op.Load? || op.Store? || op.MemCopy? || op.SLoad? || op.SStore? || op.TLoad? || op.TStore?
  }

  /** The named memory and storage operations, memory growth aside. */
  function NamedEffect(op: Op, slot: Word, args: seq<Word>, w: World): Option<(seq<Word>, World)> {
    match op
    case Alloca(_) => if |args| == 0 then Some(([slot], w)) else None
    case Load => if |args| == 1 then Some(([LoadWord(w.memory, args[0])], w)) else None
    case Store =>
      if |args| == 2 then Some(([], w.(memory := Put(w.memory, args[0], Bytes(args[1], 32))))) else None
    case MemCopy =>
      if |args| == 3 then Some(([], w.(memory := Put(w.memory, args[0], Range(w.memory, args[1], args[2]))))) else None
    case SLoad => if |args| == 1 then Some(([Lookup(w.storage, args[0])], w)) else None
    case SStore => if |args| == 2 then Some(([], w.(storage := w.storage[args[0] := args[1]]))) else None
    case TLoad => if |args| == 1 then Some(([Lookup(w.transient, args[0])], w)) else None
    case TStore => if |args| == 2 then Some(([], w.(transient := w.transient[args[0] := args[1]]))) else None
    case _ => None
  }

  // ----- instructions -----

  type Values = map<Value, Word>

  predicate AllBound(vals: Values, args: seq<Value>) {
    forall i :: 0 <= i < |args| ==> args[i] in vals
  }

  function Operands(vals: Values, args: seq<Value>): seq<Word>
    requires AllBound(vals, args)
  {
    seq(|args|, i requires 0 <= i < |args| => vals[args[i]])
  }

  /** The stored repair acts on the first result. */
  function RepairFirst(repair: Repair, raw: seq<Word>): seq<Word>
    requires repair.Fits()
  {
    if raw == [] then [] else [repair.Apply(raw[0])] + raw[1..]
  }

  function Bind(vals: Values, names: seq<Value>, words: seq<Word>): Values
    requires |names| == |words|
    decreases |names|
  {
    if names == [] then vals else Bind(vals[names[0] := words[0]], names[1..], words[1..])
  }

  /** The type whose signedness a comparison uses: its first operand's. */
  function OperandType(types: seq<Type>, inst: InstData): Type {
    if inst.args != [] && inst.args[0] < |types| then types[inst.args[0]] else inst.ty
  }

  /** Executes an instruction; stuck on an unbound operand, a bad arity or a repair the EVM has not. */
  function ExecInst(env: Env, types: seq<Type>, slot: Word, inst: InstData, vals: Values, w: World)
    : Option<(Values, World)>
  {
    if !AllBound(vals, inst.args) || !inst.repair.Fits() then None
    else match Exec(env, inst, OperandType(types, inst), slot, Operands(vals, inst.args), w) {
      case None => None
      case Some((raw, w')) =>
        if |raw| != |inst.results| then None
        else Some((Bind(vals, inst.results, RepairFirst(inst.repair, raw)), w'))
    }
  }

  /** Runs a straight-line body; `slotOf` is the frame layout, keyed by the results of each alloca. */
  function RunBody(
    env: Env, types: seq<Type>, slotOf: seq<Value> -> Word, body: seq<InstData>, vals: Values, w: World)
    : Option<(Values, World)>
  {
    if body == [] then Some((vals, w))
    else match ExecInst(env, types, slotOf(body[0].results), body[0], vals, w) {
      case None => None
      case Some((vals', w')) => RunBody(env, types, slotOf, body[1..], vals', w')
    }
  }

  lemma {:induction false} RunConcat(
    env: Env, types: seq<Type>, slotOf: seq<Value> -> Word, before: seq<InstData>, after: seq<InstData>,
    vals: Values, w: World)
    ensures RunBody(env, types, slotOf, before + after, vals, w)
         == match RunBody(env, types, slotOf, before, vals, w) {
              case None => None
              case Some((v, u)) => RunBody(env, types, slotOf, after, v, u)
            }
    decreases |before|
  {
    hide ExecInst;
    if before == [] {
      assert before + after == after;
    } else {
      assert (before + after)[1..] == before[1..] + after && (before + after)[0] == before[0];
      match ExecInst(env, types, slotOf(before[0].results), before[0], vals, w)
      case None =>
      case Some((v, u)) => RunConcat(env, types, slotOf, before[1..], after, v, u);
    }
  }

  // ----- what gas can change -----

  lemma EffectShift(env: Env, op: Op, ty: Type, operand: Type, slot: Word, args: seq<Word>, w: World, extra: nat)
    requires !Sees(env, AnyObserver, op, args, w, extra) && Effect(env, op, ty, operand, slot, args, w).Some?
    ensures var (raw, w') := Effect(env, op, ty, operand, slot, args, w).value;
            && w'.gas <= w.gas
            && Effect(env, op, ty, operand, slot, args, w.Richer(extra)) == Some((raw, w'.Richer(extra)))
  {
    hide EvalPure, OpcodeEffect, NamedEffect, Touch, Touched, ByByte;
    if op.Opcode? {
      OpcodeShift(env, op, args, w, extra);
    } else if IsNamed(op) {
      NamedShift(op, slot, args, w, extra);
    }
  }

  lemma NamedShift(op: Op, slot: Word, args: seq<Word>, w: World, extra: nat)
    requires NamedEffect(op, slot, args, w).Some?
    ensures var (raw, w') := NamedEffect(op, slot, args, w).value;
            w'.gas == w.gas && NamedEffect(op, slot, args, w.Richer(extra)) == Some((raw, w'.Richer(extra)))
  {
    hide Range, LoadWord, Put, Lookup, Bytes;
  }

  lemma OpcodeShift(env: Env, op: Op, args: seq<Word>, w: World, extra: nat)
    requires op.Opcode? && !IsGas(op) && CallUnmoved(env, op, args, w, extra)
    ensures var (raw, w') := OpcodeEffect(env, op.spec.byte, args, w);
            && w'.gas <= w.gas
            && OpcodeEffect(env, op.spec.byte, args, w.Richer(extra)) == (raw, w'.Richer(extra))
  {
    hide Range, EvalOpcode, StateOpcode;
    if !IsCall(op) {
      StateShift(env, op.spec.byte, args, w, extra);
    }
  }

  lemma StateShift(env: Env, b: Byte, args: seq<Word>, w: World, extra: nat)
    requires b != 0x5a
    ensures var (raw, w') := StateOpcode(env, b, args, w);
            && w'.gas == w.gas
            && StateOpcode(env, b, args, w.Richer(extra)) == (raw, w'.Richer(extra))
  {
    hide Range, LoadWord, Put, Lookup, CopiedBytes, W.Encode, Bytes;
  }

  lemma BlindSeesNothing(env: Env, op: Op, args: seq<Word>, paid: World, extra: nat)
    requires !ObservesGas(env, op)
    ensures !Sees(env, AnyObserver, op, args, paid, extra)
  {
  }

  /** An instruction that does not see the difference does the same with more gas, and spends the same. */
  lemma ExecShift(env: Env, inst: InstData, operand: Type, slot: Word, args: seq<Word>, w: World, extra: nat)
    requires Exec(env, inst, operand, slot, args, w).Some?
    requires !Sees(env, AnyObserver, inst.op, args, Pay(env, inst, args, w).value, extra)
    ensures var (raw, w') := Exec(env, inst, operand, slot, args, w).value;
            Exec(env, inst, operand, slot, args, w.Richer(extra)) == Some((raw, w'.Richer(extra)))
  {
    hide Effect, Sees;
    var paid := Pay(env, inst, args, w).value;
    assert w.Richer(extra).Bare() == w.Bare();
    assert Pay(env, inst, args, w.Richer(extra)) == Some(paid.Richer(extra));
    EffectShift(env, inst.op, inst.ty, operand, slot, args, paid, extra);
  }

  lemma InstShift(env: Env, types: seq<Type>, slot: Word, inst: InstData, vals: Values, w: World, extra: nat)
    requires !ObservesGas(env, inst.op) && ExecInst(env, types, slot, inst, vals, w).Some?
    ensures var (vals', w') := ExecInst(env, types, slot, inst, vals, w).value;
            ExecInst(env, types, slot, inst, vals, w.Richer(extra)) == Some((vals', w'.Richer(extra)))
  {
    hide Effect, Bind, RepairFirst, ObservesGas, Sees;
    var args := Operands(vals, inst.args);
    BlindSeesNothing(env, inst.op, args, Pay(env, inst, args, w).value, extra);
    ExecShift(env, inst, OperandType(types, inst), slot, args, w, extra);
  }

  /** A body that does not observe gas runs the same with more of it. */
  lemma {:induction false} RunShift(
    env: Env, types: seq<Type>, slotOf: seq<Value> -> Word, body: seq<InstData>, vals: Values, w: World, extra: nat)
    requires forall i :: 0 <= i < |body| ==> !ObservesGas(env, body[i].op)
    requires RunBody(env, types, slotOf, body, vals, w).Some?
    ensures var (v, u) := RunBody(env, types, slotOf, body, vals, w).value;
            RunBody(env, types, slotOf, body, vals, w.Richer(extra)) == Some((v, u.Richer(extra)))
    decreases |body|
  {
    hide ExecInst, ObservesGas;
    if body == [] {
    } else {
      InstShift(env, types, slotOf(body[0].results), body[0], vals, w, extra);
      var (vals', w') := ExecInst(env, types, slotOf(body[0].results), body[0], vals, w).value;
      RunShift(env, types, slotOf, body[1..], vals', w', extra);
    }
  }
}
