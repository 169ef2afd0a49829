/**
 Type soundness: in every run of a well-typed program of builder-produced
 functions, every value bound in every frame satisfies the representation
 invariant of its type.
 */
module Soundness {
  import opened Powers
  import opened Isa
  import opened Immediates
  import opened Types
  import opened Instructions
  import opened WidthRepair
  import opened Machine
  import opened Arena
  import Builder
  import opened BuilderRuns
  import W = Words

  // ----- programs and their runs -----

  type Program = seq<Arena.Func>

  /** An activation: the next instruction of a block, and the values bound so far. */
  datatype Frame = Frame(fn: FuncRef, block: Block, pc: nat, vals: Values)

  datatype State = State(frames: seq<Frame>, world: World)

  /** Where the frame layout puts an alloca: function, call depth, the alloca's result. */
  type Layout = (FuncRef, nat, seq<Value>) -> Word

  predicate FrameOk(p: Program, fr: Frame) {
    fr.fn < |p| && fr.block < |p[fr.fn].blocks| && fr.pc <= |p[fr.fn].blocks[fr.block].insts|
  }

  predicate AtInstruction(p: Program, fr: Frame) {
    && FrameOk(p, fr)
    && fr.pc < |p[fr.fn].blocks[fr.block].insts|
    && p[fr.fn].blocks[fr.block].insts[fr.pc] < |p[fr.fn].insts|
  }

  function InstructionAt(p: Program, fr: Frame): InstData
    requires AtInstruction(p, fr)
  {
    p[fr.fn].insts[p[fr.fn].blocks[fr.block].insts[fr.pc]]
  }

  function TypesOf(f: Arena.Func): seq<Type> {
    seq(|f.values|, v requires 0 <= v < |f.values| => f.values[v].ty)
  }

  /** Takes an edge: the target's parameters are bound to the edge arguments. */
  function Goto(p: Program, fr: Frame, call: BlockCall): Option<Frame>
    requires fr.fn < |p|
  {
    var blocks := p[fr.fn].blocks;
    if call.block < |blocks| && AllBound(fr.vals, call.args) && |call.args| == |blocks[call.block].params| then
      Some(Frame(fr.fn, call.block, 0, Bind(fr.vals, blocks[call.block].params, Operands(fr.vals, call.args))))
    else None
  }

  /** Starts a callee with its entry parameters bound to the arguments. */
  function Enter(p: Program, callee: FuncRef, args: seq<Word>): Option<Frame> {
    if callee < |p| && |p[callee].blocks| > 0 && |p[callee].blocks[0].params| == |args| then
      Some(Frame(callee, 0, 0, Bind(map[], p[callee].blocks[0].params, args)))
    else None
  }

  /** The first case whose literal equals the word, tried in order. */
  function Chosen(cases: seq<(Immediate, BlockCall)>, default: BlockCall, on: Word): BlockCall {
    if cases == [] then default
    else if Literal(cases[0].0) == on then cases[0].1
    else Chosen(cases[1..], default, on)
  }

  /** The edge a terminator takes, when it takes one. */
  function TakenEdge(term: Terminator, vals: Values): Option<BlockCall> {
    match term
    case Jump(dest) => Some(dest)
    case Brif(cond, thenCall, elseCall) =>
      if cond in vals then Some(if vals[cond] != 0 then thenCall else elseCall) else None
    case Switch(on, cases, default) => if on in vals then Some(Chosen(cases, default, vals[on])) else None
    case _ => None
  }

  /** Hands return values to the caller, which is waiting at its call instruction. */
  function Resume(p: Program, caller: Frame, words: seq<Word>): Option<Frame> {
    if AtInstruction(p, caller) && |InstructionAt(p, caller).results| == |words| then
      Some(caller.(pc := caller.pc + 1, vals := Bind(caller.vals, InstructionAt(p, caller).results, words)))
    else None
  }

  /** One step; nothing when the run halts, returns from its first frame or is stuck. */
  function Step(p: Program, env: Env, layout: Layout, s: State): Option<State> {
    var n := |s.frames| - 1;
    if n < 0 || !FrameOk(p, s.frames[n]) then None
    else if AtInstruction(p, s.frames[n]) then StepInst(p, env, layout, s, InstructionAt(p, s.frames[n]))
    else StepTerm(p, s)
  }

  function StepInst(p: Program, env: Env, layout: Layout, s: State, inst: InstData): Option<State>
    requires s.frames != []
  {
    var n := |s.frames| - 1;
    var fr := s.frames[n];
    if inst.op.CallFn? then
      if !AllBound(fr.vals, inst.args) then None
      else match (Enter(p, inst.op.callee, Operands(fr.vals, inst.args)),
                  Pay(env, inst, Operands(fr.vals, inst.args), s.world)) {
        case (Some(callee), Some(paid)) => Some(State(s.frames + [callee], paid))
        case _ => None
      }
    else if fr.fn >= |p| then None
    else match ExecInst(env, TypesOf(p[fr.fn]), layout(fr.fn, n, inst.results), inst, fr.vals, s.world) {
      case None => None
      case Some((vals, w)) => Some(State(s.frames[n := fr.(pc := fr.pc + 1, vals := vals)], w))
    }
  }

  function StepTerm(p: Program, s: State): Option<State>
    requires s.frames != [] && FrameOk(p, s.frames[|s.frames| - 1])
  {
    var n := |s.frames| - 1;
    var fr := s.frames[n];
    match p[fr.fn].blocks[fr.block].term
    case None => None
    case Some(term) =>
      if term.Return? then
        if n == 0 || !AllBound(fr.vals, term.values) then None
        else match Resume(p, s.frames[n - 1], Operands(fr.vals, term.values)) {
          case None => None
          case Some(caller) => Some(State(s.frames[..n - 1] + [caller], s.world))
        }
      else match TakenEdge(term, fr.vals) {
        case None => None
        case Some(call) =>
          match Goto(p, fr, call)
          case None => None
          case Some(next) => Some(State(s.frames[n := next], s.world))
      }
  }

  function Run(p: Program, env: Env, layout: Layout, s: State, n: nat): Option<State> {
    if n == 0 then Some(s)
    else match Run(p, env, layout, s, n - 1) {
      case None => None
      case Some(t) => Step(p, env, layout, t)
    }
  }

  // ----- side conditions left to a verifier -----

  predicate SameInt(a: Type, b: Type) { a.AsInt() == b.AsInt() }

  ghost predicate TypesMatch(f: Arena.Func, vs: seq<Value>, types: seq<Type>) {
    && |vs| == |types|
    && forall k :: 0 <= k < |vs| ==> vs[k] < |f.values| && SameInt(f.values[vs[k]].ty, types[k])
  }

  /** Operand types, literals and raw result widths: what the stored repairs rely on. */
  ghost predicate InstTyped(p: Program, f: Arena.Func, inst: InstData)
    requires WidthsOk(f)
  {
    var ty := inst.ty;
    if inst.op.Const? then ty.IsWellFormed() && WellFormed(ty, Literal(inst.op.literal))
    else if inst.op.And? || inst.op.Or? || inst.op.Xor? then TypesMatch(f, inst.args, [ty, ty])
    else if inst.op.Not? then TypesMatch(f, inst.args, [ty])
    else if (inst.op.Div? || inst.op.Rem? || inst.op.Shr?) && !ty.IsSigned() then
      |inst.args| == 2 && TypesMatch(f, inst.args[..1], [ty])
    else if inst.op.Select? then TypesMatch(f, inst.args, [BOOL, ty, ty])
    else if inst.op.Opcode? then ty.Bits() == W.WORD_BITS
    else if inst.op.CallFn? then
      && inst.op.callee < |p|
      && TypesMatch(f, inst.args, p[inst.op.callee].sig.params)
      && TypesMatch(f, inst.results, p[inst.op.callee].sig.rets)
    else true
  }

  ghost predicate EdgeTyped(f: Arena.Func, call: BlockCall) {
    && call.block < |f.blocks|
    && |call.args| == |f.blocks[call.block].params|
    && forall k :: 0 <= k < |call.args| ==>
         && call.args[k] < |f.values| && f.blocks[call.block].params[k] < |f.values|
         && SameInt(f.values[call.args[k]].ty, f.values[f.blocks[call.block].params[k]].ty)
  }

  ghost predicate TermTyped(f: Arena.Func, term: Terminator) {
    && (forall call :: HasEdge(term, call) ==> EdgeTyped(f, call))
    && (term.Return? ==> TypesMatch(f, term.values, f.sig.rets))
  }

  ghost predicate WidthsOk(f: Arena.Func) {
    forall v :: 0 <= v < |f.values| ==> f.values[v].ty.IsWellFormed()
  }

  ghost predicate FuncTyped(p: Program, f: Arena.Func) {
    && WidthsOk(f)
    && (forall i :: 0 <= i < |f.insts| ==> InstTyped(p, f, f.insts[i]))
    && (forall b :: 0 <= b < |f.blocks| && f.blocks[b].term.Some? ==> TermTyped(f, f.blocks[b].term.value))
  }

  /** What the builder guarantees of a function. */
  ghost predicate FuncBuilt(f: Arena.Func) {
    ArenaOk(f) && AllBuilt(f)
  }

  ghost predicate WellTyped(p: Program) {
    forall i :: 0 <= i < |p| ==> FuncBuilt(p[i]) && FuncTyped(p, p[i])
  }

  predicate FitsPointer(x: Word) { x < Pow2(Ptr.Bits()) }

  /** Alloca addresses fit a pointer. */
  ghost predicate LayoutOk(layout: Layout) {
    forall fn, depth, results :: FitsPointer(layout(fn, depth, results))
  }

  // ----- the invariant -----

  ghost predicate ValuesOk(f: Arena.Func, vals: Values) {
    forall v :: v in vals ==>
      v < |f.values| && f.values[v].ty.IsWellFormed() && WellFormed(f.values[v].ty, vals[v])
  }

  /** A frame below the top waits at a call of the function above it. */
  ghost predicate Waiting(p: Program, caller: Frame, callee: Frame) {
    && AtInstruction(p, caller)
    && InstructionAt(p, caller).op == CallFn(callee.fn)
  }

  ghost predicate Sound(p: Program, s: State) {
    && (forall i :: 0 <= i < |s.frames| ==> FrameOk(p, s.frames[i]) && ValuesOk(p[s.frames[i].fn], s.frames[i].vals))
    && (forall i :: 0 <= i < |s.frames| - 1 ==> Waiting(p, s.frames[i], s.frames[i + 1]))
  }

  ghost predicate WordsOk(f: Arena.Func, names: seq<Value>, words: seq<Word>) {
    && |names| == |words|
    && forall k :: 0 <= k < |names| ==>
         names[k] < |f.values| && f.values[names[k]].ty.IsWellFormed() && WellFormed(f.values[names[k]].ty, words[k])
  }

  lemma {:induction false} BindKeepsValues(f: Arena.Func, vals: Values, names: seq<Value>, words: seq<Word>)
    requires ValuesOk(f, vals) && WordsOk(f, names, words)
    ensures ValuesOk(f, Bind(vals, names, words))
    decreases |names|
  {
    if names == [] {
    } else {
      assert names[0] < |f.values| && WellFormed(f.values[names[0]].ty, words[0]);
      forall k | 0 <= k < |names[1..]|
        ensures names[1..][k] < |f.values| && f.values[names[1..][k]].ty.IsWellFormed()
        ensures WellFormed(f.values[names[1..][k]].ty, words[1..][k])
      {
        assert names[1..][k] == names[k + 1] && words[1..][k] == words[k + 1];
      }
      BindKeepsValues(f, vals[names[0] := words[0]], names[1..], words[1..]);
    }
  }

  lemma SameIntWellFormed(a: Type, b: Type, x: Word)
    requires a.IsWellFormed() && SameInt(a, b) && WellFormed(a, x)
    ensures b.IsWellFormed() && WellFormed(b, x)
  {
  }

  /** Words read from typed values are well-formed at matching types. */
  lemma OperandsOk(f: Arena.Func, vals: Values, args: seq<Value>, types: seq<Type>, k: nat)
    requires ValuesOk(f, vals) && AllBound(vals, args) && TypesMatch(f, args, types) && k < |args|
    ensures types[k].IsWellFormed() && WellFormed(types[k], Operands(vals, args)[k])
  {
    assert args[k] in vals;
    SameIntWellFormed(f.values[args[k]].ty, types[k], vals[args[k]]);
  }

  // ----- one operation -----

  /** Repairing to the type always gives a well-formed word. */
  lemma RepairedToType(op: Op, ty: Type, raw: Word)
    requires ty.IsWellFormed() && op.DefaultRepair(ty) == RepairTo(ty.AsInt())
    ensures WellFormed(ty, Repaired(op, ty, raw))
  {
    RepairWraps(ty, raw);
  }

  /** Operations whose result is well-formed whatever their operands. */
  predicate AlwaysRepaired(op: Op, ty: Type) {
    || op.Add? || op.Sub? || op.Mul? || op.AddMod? || op.MulMod? || op.Exp?
    || op.AddOverflow? || op.SubOverflow? || op.MulOverflow? || op.Shl? || op.Sar? || op.ExtractByte?
    || op.Load? || op.SLoad? || op.TLoad?
    || ((op.Div? || op.Rem? || op.Shr?) && ty.IsSigned())
    || (op.Not? && !ty.IsSigned())
  }

  lemma AlwaysRepairedStores(op: Op, ty: Type)
    requires AlwaysRepaired(op, ty)
    ensures op.DefaultRepair(ty) == RepairTo(ty.AsInt())
  {
  }

  /** Every `NoRepair` that `DefaultRepair` grants to a computing operation is justified by its operands. */
  lemma UnrepairedIsWellFormed(op: Op, ty: Type, operand: Type, args: seq<Word>)
    requires ty.IsWellFormed() && EvalPure(op, ty, operand, args).Some?
    requires !AlwaysRepaired(op, ty) && !op.Convert?
    requires op.Const? ==> WellFormed(ty, Literal(op.literal))
    requires op.Icmp? ==> SameInt(ty, BOOL)
    requires op.And? || op.Or? || op.Xor? ==> WellFormed(ty, Arg(args, 0)) && WellFormed(ty, Arg(args, 1))
    requires op.Not? || op.Div? || op.Rem? || op.Shr? ==> WellFormed(ty, Arg(args, 0))
    requires op.Select? ==>
      WellFormed(BOOL, Arg(args, 0)) && WellFormed(ty, Arg(args, 1)) && WellFormed(ty, Arg(args, 2))
    ensures |EvalPure(op, ty, operand, args).value| == 1
    ensures op.DefaultRepair(ty) == NoRepair
    ensures WellFormed(ty, EvalPure(op, ty, operand, args).value[0])
  {
    if op.And? {
      BitwiseStaysWellFormed(W.AndOp, ty, args[0], args[1]);
    } else if op.Or? {
      BitwiseStaysWellFormed(W.OrOp, ty, args[0], args[1]);
    } else if op.Xor? {
      BitwiseStaysWellFormed(W.XorOp, ty, args[0], args[1]);
    } else if op.Not? {
      NotComplements(ty, args[0]);
    } else if op.Div? || op.Rem? || op.Shr? {
      UnsignedStaysBelow(op, ty, args[0], args[1]);
    } else if op.Select? {
      BoolIsBit(args[0]);
      SelectPicks(args[0], args[1], args[2]);
    } else if op.Icmp? {
      CompareIsBool(op.cmp, operand, args[0], args[1]);
    }
  }

  lemma UnsignedStaysBelow(op: Op, ty: Type, a: Word, b: Word)
    requires ty.IsWellFormed() && !ty.IsSigned() && WellFormed(ty, a) && (op.Div? || op.Rem? || op.Shr?)
    ensures WellFormed(ty, RawBinary(op, ty, a, b))
  {
    if op.Rem? && b > 0 {
      ModAtMost(a, b);
    }
    UnsignedBelow(ty, a, RawBinary(op, ty, a, b));
  }

  lemma CompareIsBool(cmp: Cmp, operand: Type, a: Word, b: Word)
    ensures Compare(cmp, operand, a, b) == 0 || Compare(cmp, operand, a, b) == 1
    ensures WellFormed(BOOL, Compare(cmp, operand, a, b))
  {
    BoolIsBit(Compare(cmp, operand, a, b));
  }

  lemma SingleWordOk(f: Arena.Func, results: seq<Value>, ty: Type, word: Word)
    requires WidthsOk(f) && ResultsTyped(f, results, [ty]) && ty.IsWellFormed() && WellFormed(ty, word)
    ensures WordsOk(f, results, [word])
  {
    assert f.values[results[0]].ty == ty;
  }

  lemma SingleResultType(f: Arena.Func, results: seq<Value>, types: seq<Type>, k: nat)
    requires WidthsOk(f) && ResultsTyped(f, results, types) && k < |types|
    ensures types[k].IsWellFormed()
  {
    assert f.values[results[k]].ty == types[k];
  }

  // ----- one instruction -----

  lemma ConvertOk(f: Arena.Func, inst: InstData, vals: Values)
    requires WidthsOk(f) && Built(f, inst) && inst.op.Convert?
    requires ValuesOk(f, vals) && AllBound(vals, inst.args)
    ensures inst.repair.Fits() && WordsOk(f, inst.results, [inst.repair.Apply(Operands(vals, inst.args)[0])])
  {
    var from := f.values[inst.args[0]].ty;
    assert inst.args[0] in vals;
    SingleResultType(f, inst.results, [inst.ty], 0);
    RepairFits(from, inst.ty);
    ConvertIsRustAs(from, inst.ty, vals[inst.args[0]]);
    SingleWordOk(f, inst.results, inst.ty, Types.Convert(from, inst.ty, vals[inst.args[0]]));
  }

  lemma RawOpcodeOk(p: Program, f: Arena.Func, inst: InstData, raw: seq<Word>)
    requires WidthsOk(f) && Built(f, inst) && inst.op.Opcode? && InstTyped(p, f, inst) && |raw| == |inst.results|
    ensures inst.repair.Fits() && WordsOk(f, inst.results, RepairFirst(inst.repair, raw))
  {
    forall k | 0 <= k < |inst.results|
      ensures inst.results[k] < |f.values| && WellFormed(f.values[inst.results[k]].ty, raw[k])
    {
      assert f.values[inst.results[k]].ty == inst.ty;
      ReadingAtWordWidth(inst.ty, raw[k]);
    }
    assert RepairFirst(inst.repair, raw) == raw;
  }

  lemma CheckedOk(f: Arena.Func, inst: InstData, raw: seq<Word>, flag: bool)
    requires WidthsOk(f) && Built(f, inst) && Builder.IsChecked(inst.op)
    requires |raw| == 2 && raw[1] == W.FromBool(flag)
    ensures inst.repair.Fits() && WordsOk(f, inst.results, RepairFirst(inst.repair, raw))
  {
    SingleResultType(f, inst.results, [inst.ty, BOOL], 0);
    RepairedToType(inst.op, inst.ty, raw[0]);
    BoolIsBit(raw[1]);
    assert f.values[inst.results[0]].ty == inst.ty && f.values[inst.results[1]].ty == BOOL;
  }

  lemma AllocaOk(f: Arena.Func, inst: InstData, slot: Word)
    requires WidthsOk(f) && Built(f, inst) && inst.op.Alloca? && FitsPointer(slot)
    ensures inst.repair.Fits() && WordsOk(f, inst.results, [inst.repair.Apply(slot)])
  {
    PointerWellFormed(slot);
    SingleWordOk(f, inst.results, Ptr, slot);
  }

  lemma PointerWellFormed(slot: Word)
    requires FitsPointer(slot)
    ensures Ptr.IsWellFormed() && WellFormed(Ptr, slot)
  {
    WellFormedIffInRange(Ptr, slot);
  }

  lemma RepairedOk(f: Arena.Func, inst: InstData, raw: Word)
    requires WidthsOk(f) && Built(f, inst) && AlwaysRepaired(inst.op, inst.ty) && !Builder.IsChecked(inst.op)
    ensures inst.repair.Fits() && WordsOk(f, inst.results, [inst.repair.Apply(raw)])
  {
    SingleResultType(f, inst.results, [inst.ty], 0);
    AlwaysRepairedStores(inst.op, inst.ty);
    RepairedToType(inst.op, inst.ty, raw);
    SingleWordOk(f, inst.results, inst.ty, Repaired(inst.op, inst.ty, raw));
  }

  predicate Justified(op: Op, ty: Type) {
    !AlwaysRepaired(op, ty) && !op.Convert? && !op.Opcode? && !op.CallFn? && !IsNamed(op)
  }

  /** Operand words at the positions the unrepaired operations rely on. */
  lemma OperandFacts(p: Program, f: Arena.Func, inst: InstData, vals: Values)
    requires WidthsOk(f) && InstTyped(p, f, inst) && Justified(inst.op, inst.ty)
    requires ValuesOk(f, vals) && AllBound(vals, inst.args)
    ensures var (op, ty, args) := (inst.op, inst.ty, Operands(vals, inst.args));
            && (op.And? || op.Or? || op.Xor? ==>
                  |args| == 2 && ty.IsWellFormed() && WellFormed(ty, args[0]) && WellFormed(ty, args[1]))
            && (op.Not? ==> |args| == 1 && ty.IsWellFormed() && WellFormed(ty, args[0]))
            && (op.Div? || op.Rem? || op.Shr? ==> |args| == 2 && ty.IsWellFormed() && WellFormed(ty, args[0]))
            && (op.Select? ==>
                  && |args| == 3 && ty.IsWellFormed()
                  && WellFormed(BOOL, args[0]) && WellFormed(ty, args[1]) && WellFormed(ty, args[2]))
  {
    hide WellFormed, ValuesOk, WidthsOk, TypesMatch;
    var op, ty, args := inst.op, inst.ty, Operands(vals, inst.args);
    if op.And? || op.Or? || op.Xor? {
      TwoOperandsOk(f, vals, inst.args, ty, ty);
    } else if op.Not? {
      OneOperandOk(f, vals, inst.args, ty);
    } else if op.Div? || op.Rem? || op.Shr? {
      assert Operands(vals, inst.args[..1])[0] == args[0];
      OneOperandOk(f, vals, inst.args[..1], ty);
    } else if op.Select? {
      ThreeOperandsOk(f, vals, inst.args, ty);
    }
  }

  lemma OneOperandOk(f: Arena.Func, vals: Values, args: seq<Value>, a: Type)
    requires ValuesOk(f, vals) && AllBound(vals, args) && TypesMatch(f, args, [a])
    ensures |args| == 1 && a.IsWellFormed() && WellFormed(a, Operands(vals, args)[0])
  {
    OperandsOk(f, vals, args, [a], 0);
  }

  lemma TwoOperandsOk(f: Arena.Func, vals: Values, args: seq<Value>, a: Type, b: Type)
    requires ValuesOk(f, vals) && AllBound(vals, args) && TypesMatch(f, args, [a, b])
    ensures |args| == 2 && a.IsWellFormed() && b.IsWellFormed()
    ensures WellFormed(a, Operands(vals, args)[0]) && WellFormed(b, Operands(vals, args)[1])
  {
    OperandsOk(f, vals, args, [a, b], 0);
    OperandsOk(f, vals, args, [a, b], 1);
  }

  lemma ThreeOperandsOk(f: Arena.Func, vals: Values, args: seq<Value>, a: Type)
    requires ValuesOk(f, vals) && AllBound(vals, args) && TypesMatch(f, args, [BOOL, a, a])
    ensures |args| == 3 && a.IsWellFormed() && WellFormed(BOOL, Operands(vals, args)[0])
    ensures WellFormed(a, Operands(vals, args)[1]) && WellFormed(a, Operands(vals, args)[2])
  {
    OperandsOk(f, vals, args, [BOOL, a, a], 0);
    OperandsOk(f, vals, args, [BOOL, a, a], 1);
    OperandsOk(f, vals, args, [BOOL, a, a], 2);
  }

  /** Built instructions of the unrepaired kind have one result of their type. */
  lemma JustifiedBuilt(f: Arena.Func, inst: InstData)
    requires WidthsOk(f) && Built(f, inst) && Justified(inst.op, inst.ty)
    ensures ResultsTyped(f, inst.results, [inst.ty]) && inst.ty.IsWellFormed()
    ensures inst.repair == inst.op.DefaultRepair(inst.ty)
    ensures inst.op.Icmp? ==> inst.ty == BOOL
  {
    SingleResultType(f, inst.results, [inst.ty], 0);
  }

  lemma UnrepairedOk(p: Program, f: Arena.Func, inst: InstData, vals: Values)
    requires WidthsOk(f) && Built(f, inst) && InstTyped(p, f, inst) && Justified(inst.op, inst.ty)
    requires ValuesOk(f, vals) && AllBound(vals, inst.args)
    requires EvalPure(inst.op, inst.ty, OperandType(TypesOf(f), inst), Operands(vals, inst.args)).Some?
    ensures inst.repair.Fits()
    ensures WordsOk(f, inst.results,
                    RepairFirst(inst.repair,
                                EvalPure(inst.op, inst.ty, OperandType(TypesOf(f), inst), Operands(vals, inst.args)).value))
  {
    hide EvalPure, WellFormed, Built, ValuesOk, WidthsOk, WordsOk, ResultsTyped, TypesMatch, Op.DefaultRepair;
    hide AlwaysRepaired;
    var ty, args := inst.ty, Operands(vals, inst.args);
    JustifiedBuilt(f, inst);
    OperandFacts(p, f, inst, vals);
    UnrepairedIsWellFormed(inst.op, ty, OperandType(TypesOf(f), inst), args);
    var raw := EvalPure(inst.op, ty, OperandType(TypesOf(f), inst), args).value;
    SingleWordOk(f, inst.results, ty, raw[0]);
    assert RepairFirst(inst.repair, raw) == [raw[0]];
  }

  /** Executing any instruction but an internal call keeps every bound value well-formed. */
  lemma ExecInstKeeps(p: Program, f: Arena.Func, env: Env, slot: Word, inst: InstData, vals: Values, w: World)
    requires WidthsOk(f) && Built(f, inst) && InstTyped(p, f, inst) && !inst.op.CallFn?
    requires ValuesOk(f, vals) && FitsPointer(slot)
    requires ExecInst(env, TypesOf(f), slot, inst, vals, w).Some?
    ensures ValuesOk(f, ExecInst(env, TypesOf(f), slot, inst, vals, w).value.0)
  {
    var operand, args := OperandType(TypesOf(f), inst), Operands(vals, inst.args);
    var paid := Pay(env, inst, args, w).value;
    var raw := Effect(env, inst.op, inst.ty, operand, slot, args, paid).value.0;
    var words := RepairFirst(inst.repair, raw);
    assert WordsOk(f, inst.results, words) by {
      ResultWordsOk(p, f, env, slot, inst, vals, paid, raw);
    }
    BindKeepsValues(f, vals, inst.results, words);
  }

  lemma ResultWordsOk(
    p: Program, f: Arena.Func, env: Env, slot: Word, inst: InstData, vals: Values, w: World, raw: seq<Word>)
    requires WidthsOk(f) && Built(f, inst) && InstTyped(p, f, inst) && !inst.op.CallFn?
    requires ValuesOk(f, vals) && FitsPointer(slot) && AllBound(vals, inst.args) && inst.repair.Fits()
    requires var r := Effect(env, inst.op, inst.ty, OperandType(TypesOf(f), inst), slot, Operands(vals, inst.args), w);
             r.Some? && r.value.0 == raw
    requires |raw| == |inst.results|
    ensures WordsOk(f, inst.results, RepairFirst(inst.repair, raw))
  {
    if raw == [] {
    } else if inst.op.Opcode? {
      RawOpcodeOk(p, f, inst, raw);
    } else if IsNamed(inst.op) {
      NamedResult(inst.op, slot, Operands(vals, inst.args), w);
      RepairOne(inst.repair, raw);
      if inst.op.Alloca? {
        AllocaOk(f, inst, slot);
      } else {
        RepairedOk(f, inst, raw[0]);
      }
    } else {
      ComputedWordsOk(p, f, inst, vals, raw);
    }
  }

  /** A named operation gives nothing, one raw word read, or the alloca's slot. */
  lemma NamedResult(op: Op, slot: Word, args: seq<Word>, w: World)
    requires IsNamed(op) && NamedEffect(op, slot, args, w).Some?
    ensures var raw := NamedEffect(op, slot, args, w).value.0;
            if op.Alloca? then raw == [slot]
            else if op.Load? || op.SLoad? || op.TLoad? then |raw| == 1
            else raw == []
  {
  }

  lemma RepairOne(repair: Repair, raw: seq<Word>)
    requires repair.Fits() && |raw| == 1
    ensures RepairFirst(repair, raw) == [repair.Apply(raw[0])]
  {
  }

  lemma ComputedWordsOk(p: Program, f: Arena.Func, inst: InstData, vals: Values, raw: seq<Word>)
    requires WidthsOk(f) && Built(f, inst) && InstTyped(p, f, inst)
    requires !inst.op.CallFn? && !inst.op.Opcode? && !IsNamed(inst.op)
    requires ValuesOk(f, vals) && AllBound(vals, inst.args) && inst.repair.Fits()
    requires EvalPure(inst.op, inst.ty, OperandType(TypesOf(f), inst), Operands(vals, inst.args)) == Some(raw)
    ensures WordsOk(f, inst.results, RepairFirst(inst.repair, raw))
  {
    if inst.op.Convert? {
      ConvertOk(f, inst, vals);
      RepairOne(inst.repair, raw);
    } else if Builder.IsChecked(inst.op) {
      CheckedFlag(inst.op, inst.ty, OperandType(TypesOf(f), inst), Operands(vals, inst.args), raw);
      CheckedOk(f, inst, raw, raw[1] == 1);
    } else if AlwaysRepaired(inst.op, inst.ty) {
      RepairOne(inst.repair, raw);
      RepairedOk(f, inst, raw[0]);
    } else {
      UnrepairedOk(p, f, inst, vals);
    }
  }

  lemma CheckedFlag(op: Op, ty: Type, operand: Type, args: seq<Word>, raw: seq<Word>)
    requires Builder.IsChecked(op) && EvalPure(op, ty, operand, args) == Some(raw)
    ensures |raw| == 2 && raw[1] == W.FromBool(raw[1] == 1)
  {
  }

  // ----- one step -----

  /** The two halves of a well-typed function. */
  lemma TypedFunction(p: Program, fn: FuncRef)
    requires WellTyped(p) && fn < |p|
    ensures FuncBuilt(p[fn]) && FuncTyped(p, p[fn])
  {
  }

  lemma InstructionFacts(p: Program, fr: Frame)
    requires WellTyped(p) && AtInstruction(p, fr)
    ensures WidthsOk(p[fr.fn])
    ensures Built(p[fr.fn], InstructionAt(p, fr)) && InstTyped(p, p[fr.fn], InstructionAt(p, fr))
  {
    TypedFunction(p, fr.fn);
  }

  /** A chosen case is an edge of the switch. */
  lemma {:induction false} ChosenIsEdge(cases: seq<(Immediate, BlockCall)>, default: BlockCall, on: Word)
    ensures var c := Chosen(cases, default, on);
            c == default || exists i :: 0 <= i < |cases| && cases[i].1 == c
  {
    if cases == [] || Literal(cases[0].0) == on {
    } else {
      ChosenIsEdge(cases[1..], default, on);
      var c := Chosen(cases, default, on);
      if c != default {
        var i :| 0 <= i < |cases[1..]| && cases[1..][i].1 == c;
        assert cases[i + 1].1 == c;
      }
    }
  }

  lemma TakenIsEdge(term: Terminator, vals: Values)
    requires TakenEdge(term, vals).Some?
    ensures HasEdge(term, TakenEdge(term, vals).value)
  {
    if term.Switch? {
      ChosenIsEdge(term.cases, term.default, vals[term.on]);
    }
  }

  lemma GotoKeeps(p: Program, fr: Frame, call: BlockCall)
    requires WellTyped(p) && FrameOk(p, fr) && ValuesOk(p[fr.fn], fr.vals) && EdgeTyped(p[fr.fn], call)
    requires Goto(p, fr, call).Some?
    ensures FrameOk(p, Goto(p, fr, call).value) && Goto(p, fr, call).value.fn == fr.fn
    ensures ValuesOk(p[fr.fn], Goto(p, fr, call).value.vals)
  {
    var f := p[fr.fn];
    var params, words := f.blocks[call.block].params, Operands(fr.vals, call.args);
    TypedFunction(p, fr.fn);
    forall k | 0 <= k < |params|
      ensures params[k] < |f.values| && WellFormed(f.values[params[k]].ty, words[k])
    {
      assert call.args[k] in fr.vals;
      SameIntWellFormed(f.values[call.args[k]].ty, f.values[params[k]].ty, words[k]);
    }
    BindKeepsValues(f, fr.vals, params, words);
  }

  lemma EnterKeeps(p: Program, f: Arena.Func, callee: FuncRef, args: seq<Value>, vals: Values)
    requires WellTyped(p) && callee < |p| && ValuesOk(f, vals) && AllBound(vals, args)
    requires TypesMatch(f, args, p[callee].sig.params)
    requires Enter(p, callee, Operands(vals, args)).Some?
    ensures FrameOk(p, Enter(p, callee, Operands(vals, args)).value)
    ensures Enter(p, callee, Operands(vals, args)).value.fn == callee
    ensures ValuesOk(p[callee], Enter(p, callee, Operands(vals, args)).value.vals)
  {
    var g := p[callee];
    var params := g.blocks[0].params;
    TypedFunction(p, callee);
    forall k | 0 <= k < |params|
      ensures params[k] < |g.values| && WellFormed(g.values[params[k]].ty, Operands(vals, args)[k])
    {
      OperandsOk(f, vals, args, g.sig.params, k);
    }
    BindKeepsValues(g, map[], params, Operands(vals, args));
  }

  lemma ResumeKeeps(p: Program, caller: Frame, callee: Frame, values: seq<Value>)
    requires WellTyped(p) && FrameOk(p, caller) && ValuesOk(p[caller.fn], caller.vals)
    requires FrameOk(p, callee) && ValuesOk(p[callee.fn], callee.vals) && Waiting(p, caller, callee)
    requires AllBound(callee.vals, values) && TypesMatch(p[callee.fn], values, p[callee.fn].sig.rets)
    requires Resume(p, caller, Operands(callee.vals, values)).Some?
    ensures var next := Resume(p, caller, Operands(callee.vals, values)).value;
            FrameOk(p, next) && next.fn == caller.fn && ValuesOk(p[next.fn], next.vals)
  {
    var f, words := p[caller.fn], Operands(callee.vals, values);
    var inst := InstructionAt(p, caller);
    InstructionFacts(p, caller);
    forall k | 0 <= k < |inst.results|
      ensures inst.results[k] < |f.values| && WellFormed(f.values[inst.results[k]].ty, words[k])
    {
      OperandsOk(p[callee.fn], callee.vals, values, p[callee.fn].sig.rets, k);
      SameIntWellFormed(p[callee.fn].sig.rets[k], f.values[inst.results[k]].ty, words[k]);
    }
    BindKeepsValues(f, caller.vals, inst.results, words);
  }

  /** Replacing the top frame by one of the same function keeps the stack sound. */
  lemma ReplaceTop(p: Program, frames: seq<Frame>, top: Frame, w: World, v: World)
    requires frames != [] && Sound(p, State(frames, w))
    requires FrameOk(p, top) && top.fn == frames[|frames| - 1].fn && ValuesOk(p[top.fn], top.vals)
    ensures Sound(p, State(frames[|frames| - 1 := top], v))
  {
    var n := |frames| - 1;
    var next := frames[n := top];
    forall i | 0 <= i < |next| - 1
      ensures Waiting(p, next[i], next[i + 1])
    {
      assert Waiting(p, frames[i], frames[i + 1]);
    }
  }

  lemma PopTop(p: Program, frames: seq<Frame>, w: World)
    requires |frames| >= 1 && Sound(p, State(frames, w))
    ensures Sound(p, State(frames[..|frames| - 1], w))
  {
    var rest := frames[..|frames| - 1];
    forall i | 0 <= i < |rest| - 1
      ensures Waiting(p, rest[i], rest[i + 1])
    {
      assert Waiting(p, frames[i], frames[i + 1]);
    }
  }

  lemma StepCallKeeps(p: Program, s: State, fr: Frame, inst: InstData, paid: World)
    requires WellTyped(p) && Sound(p, s) && s.frames != [] && fr == s.frames[|s.frames| - 1]
    requires AtInstruction(p, fr) && inst == InstructionAt(p, fr) && inst.op.CallFn? && AllBound(fr.vals, inst.args)
    requires Enter(p, inst.op.callee, Operands(fr.vals, inst.args)).Some?
    ensures Sound(p, State(s.frames + [Enter(p, inst.op.callee, Operands(fr.vals, inst.args)).value], paid))
  {
    InstructionFacts(p, fr);
    EnterKeeps(p, p[fr.fn], inst.op.callee, inst.args, fr.vals);
    PushTop(p, s.frames, Enter(p, inst.op.callee, Operands(fr.vals, inst.args)).value, s.world, paid);
  }

  lemma StepOpKeeps(p: Program, env: Env, slot: Word, s: State, fr: Frame, inst: InstData)
    requires WellTyped(p) && Sound(p, s) && s.frames != [] && fr == s.frames[|s.frames| - 1]
    requires AtInstruction(p, fr) && inst == InstructionAt(p, fr) && !inst.op.CallFn? && FitsPointer(slot)
    requires ExecInst(env, TypesOf(p[fr.fn]), slot, inst, fr.vals, s.world).Some?
    ensures var (vals, w) := ExecInst(env, TypesOf(p[fr.fn]), slot, inst, fr.vals, s.world).value;
            Sound(p, State(s.frames[|s.frames| - 1 := fr.(pc := fr.pc + 1, vals := vals)], w))
  {
    InstructionFacts(p, fr);
    ExecInstKeeps(p, p[fr.fn], env, slot, inst, fr.vals, s.world);
    var (vals, w) := ExecInst(env, TypesOf(p[fr.fn]), slot, inst, fr.vals, s.world).value;
    ReplaceTop(p, s.frames, fr.(pc := fr.pc + 1, vals := vals), s.world, w);
  }

  lemma StepInstKeeps(p: Program, env: Env, layout: Layout, s: State)
    requires WellTyped(p) && LayoutOk(layout) && Sound(p, s) && s.frames != []
    requires AtInstruction(p, s.frames[|s.frames| - 1])
    requires StepInst(p, env, layout, s, InstructionAt(p, s.frames[|s.frames| - 1])).Some?
    ensures Sound(p, StepInst(p, env, layout, s, InstructionAt(p, s.frames[|s.frames| - 1])).value)
  {
    hide Sound, WellTyped, ExecInst, Enter, FrameOk, TypesOf;
    var fr := s.frames[|s.frames| - 1];
    var inst := InstructionAt(p, fr);
    if inst.op.CallFn? {
      StepCallKeeps(p, s, fr, inst, StepInst(p, env, layout, s, inst).value.world);
    } else {
      StepOpKeeps(p, env, layout(fr.fn, |s.frames| - 1, inst.results), s, fr, inst);
    }
  }

  lemma PushTop(p: Program, frames: seq<Frame>, top: Frame, w: World, v: World)
    requires frames != [] && Sound(p, State(frames, w))
    requires FrameOk(p, top) && ValuesOk(p[top.fn], top.vals) && Waiting(p, frames[|frames| - 1], top)
    ensures Sound(p, State(frames + [top], v))
  {
    var all := frames + [top];
    forall i | 0 <= i < |all| - 1
      ensures Waiting(p, all[i], all[i + 1])
    {
      if i < |frames| - 1 {
        assert Waiting(p, frames[i], frames[i + 1]);
      }
    }
  }

  lemma StepReturnKeeps(p: Program, s: State, term: Terminator)
    requires WellTyped(p) && Sound(p, s) && s.frames != []
    requires AtTerminator(p, s.frames[|s.frames| - 1], term) && term.Return?
    requires StepTerm(p, s).Some?
    ensures Sound(p, StepTerm(p, s).value)
  {
    hide WellTyped, FrameOk, ValuesOk, Resume, TermTyped, FuncTyped;
    var n := |s.frames| - 1;
    var fr, caller := s.frames[n], s.frames[n - 1];
    TerminatorFacts(p, fr, term);
    assert Waiting(p, caller, s.frames[n - 1 + 1]);
    ResumeKeeps(p, caller, fr, term.values);
    var next := Resume(p, caller, Operands(fr.vals, term.values)).value;
    PopTop(p, s.frames, s.world);
    ReplaceTop(p, s.frames[..n], next, s.world, s.world);
    assert s.frames[..n][n - 1 := next] == s.frames[..n - 1] + [next];
  }

  lemma StepEdgeKeeps(p: Program, s: State, term: Terminator)
    requires WellTyped(p) && Sound(p, s) && s.frames != []
    requires AtTerminator(p, s.frames[|s.frames| - 1], term) && !term.Return?
    requires StepTerm(p, s).Some?
    ensures Sound(p, StepTerm(p, s).value)
  {
    hide WellTyped, FrameOk, ValuesOk, Goto, TakenEdge, TermTyped, FuncTyped;
    var fr := s.frames[|s.frames| - 1];
    TerminatorFacts(p, fr, term);
    TakenIsEdge(term, fr.vals);
    var call := TakenEdge(term, fr.vals).value;
    GotoKeeps(p, fr, call);
    ReplaceTop(p, s.frames, Goto(p, fr, call).value, s.world, s.world);
  }

  predicate AtTerminator(p: Program, fr: Frame, term: Terminator) {
    FrameOk(p, fr) && p[fr.fn].blocks[fr.block].term == Some(term)
  }

  lemma TerminatorFacts(p: Program, fr: Frame, term: Terminator)
    requires WellTyped(p) && AtTerminator(p, fr, term)
    ensures forall c: BlockCall :: HasEdge(term, c) ==> EdgeTyped(p[fr.fn], c)
    ensures term.Return? ==> TypesMatch(p[fr.fn], term.values, p[fr.fn].sig.rets)
  {
    TypedFunction(p, fr.fn);
    assert TermTyped(p[fr.fn], term);
  }

  lemma StepTermKeeps(p: Program, s: State)
    requires WellTyped(p) && Sound(p, s) && s.frames != []
    requires StepTerm(p, s).Some?
    ensures Sound(p, StepTerm(p, s).value)
  {
    hide WellTyped, Resume, Goto, TakenEdge;
    var fr := s.frames[|s.frames| - 1];
    var term := p[fr.fn].blocks[fr.block].term.value;
    if term.Return? {
      StepReturnKeeps(p, s, term);
    } else {
      StepEdgeKeeps(p, s, term);
    }
  }

  lemma StepKeeps(p: Program, env: Env, layout: Layout, s: State)
    requires WellTyped(p) && LayoutOk(layout) && Sound(p, s) && Step(p, env, layout, s).Some?
    ensures Sound(p, Step(p, env, layout, s).value)
  {
    if AtInstruction(p, s.frames[|s.frames| - 1]) {
      StepInstKeeps(p, env, layout, s);
    } else {
      StepTermKeeps(p, s);
    }
  }

  /** From a sound state every reachable state is sound, through loops and calls alike. */
  lemma {:induction false} RunStaysSound(p: Program, env: Env, layout: Layout, s: State, n: nat)
    requires WellTyped(p) && LayoutOk(layout) && Sound(p, s) && Run(p, env, layout, s, n).Some?
    ensures Sound(p, Run(p, env, layout, s, n).value)
  {
    hide Step, Sound, WellTyped;
    if n == 0 {
    } else {
      RunStaysSound(p, env, layout, s, n - 1);
      StepKeeps(p, env, layout, Run(p, env, layout, s, n - 1).value);
    }
  }

  /** The start of a run: one function entered with well-formed arguments. */
  ghost predicate Starts(p: Program, fn: FuncRef, args: seq<Word>) {
    && fn < |p|
    && |args| == |p[fn].sig.params|
    && forall k :: 0 <= k < |args| ==>
         p[fn].sig.params[k].IsWellFormed() && WellFormed(p[fn].sig.params[k], args[k])
  }

  /**
   Type soundness. Take any program whose functions each come out of a sequence of
   builder calls and meet the side conditions, enter any of its functions with
   well-formed arguments, and run any number of steps in any environment: every
   value bound in every open frame is well-formed at its type.
   */
  lemma TypeSoundness(
    p: Program, histories: seq<seq<Builder.BuilderCall>>, env: Env, layout: Layout,
    fn: FuncRef, args: seq<Word>, w: World, n: nat)
    requires |histories| == |p|
    requires forall i :: 0 <= i < |p| ==>
               BuilderRuns.Run(p[i].sig, histories[i]).Some?
               && Builder.Finished(BuilderRuns.Run(p[i].sig, histories[i]).value) == Builder.Ok(p[i])
    requires forall i :: 0 <= i < |p| ==> FuncTyped(p, p[i])
    requires LayoutOk(layout) && Starts(p, fn, args)
    ensures Enter(p, fn, args).Some?
    ensures var end := Run(p, env, layout, State([Enter(p, fn, args).value], w), n);
            end.Some? ==>
              forall i, v :: 0 <= i < |end.value.frames| && v in end.value.frames[i].vals ==>
                var fr := end.value.frames[i];
                && fr.fn < |p| && v < |p[fr.fn].values|
                && p[fr.fn].values[v].ty.IsWellFormed()
                && WellFormed(p[fr.fn].values[v].ty, fr.vals[v])
  {
    ProgramIsBuilt(p, histories);
    StartIsSound(p, fn, args, w);
    if Run(p, env, layout, State([Enter(p, fn, args).value], w), n).Some? {
      RunStaysSound(p, env, layout, State([Enter(p, fn, args).value], w), n);
    }
  }

  lemma ProgramIsBuilt(p: Program, histories: seq<seq<Builder.BuilderCall>>)
    requires |histories| == |p|
    requires forall i :: 0 <= i < |p| ==>
               BuilderRuns.Run(p[i].sig, histories[i]).Some?
               && Builder.Finished(BuilderRuns.Run(p[i].sig, histories[i]).value) == Builder.Ok(p[i])
    ensures forall i :: 0 <= i < |p| ==> FuncBuilt(p[i])
  {
    forall i | 0 <= i < |p|
      ensures FuncBuilt(p[i])
    {
      ReachableArenasOk(p[i].sig, histories[i]);
      ReachableBuilt(p[i].sig, histories[i]);
    }
  }

  lemma StartIsSound(p: Program, fn: FuncRef, args: seq<Word>, w: World)
    requires WellTyped(p) && Starts(p, fn, args)
    ensures Enter(p, fn, args).Some? && Sound(p, State([Enter(p, fn, args).value], w))
  {
    var f := p[fn];
    TypedFunction(p, fn);
    BindKeepsValues(f, map[], f.blocks[0].params, args);
  }
}
