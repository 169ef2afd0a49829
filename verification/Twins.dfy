/**
 Two runs of one instruction side by side, one of them with more gas: deleted values
 may be missing from it, and tainted ones may differ.
 */
module Twins {
  import opened Isa
  import opened Types
  import opened Effects
  import opened Instructions
  import opened WidthRepair
  import opened Machine
  import opened Removal

  predicate ReadsTaint(args: seq<Value>, tainted: set<Value>) {
    exists k :: 0 <= k < |args| && args[k] in tainted
  }

  /** What an instruction costs does not depend on its operand words. */
  ghost predicate SteadyCost(env: Env, inst: InstData) {
    forall x, y, w :: env.cost(inst, x, w) == env.cost(inst, y, w)
  }

  /** What one frame binds, deleted values aside, the other binds too. */
  ghost predicate BoundOutside(a: Values, b: Values, dead: set<Value>) {
    forall v :: v in a && v !in dead ==> v in b
  }

  // ----- binding -----

  lemma {:induction false} BindNames(vals: Values, names: seq<Value>, words: seq<Word>)
    requires |names| == |words|
    ensures forall v :: v in Bind(vals, names, words) <==> v in vals || v in names
    decreases |names|
  {
    if names == [] {
    } else {
      BindNames(vals[names[0] := words[0]], names[1..], words[1..]);
    }
  }

  /** Binding names to words that agree wherever the name is not hidden. */
  lemma {:induction false} BindMasked(
    a: Values, b: Values, hidden: set<Value>, names: seq<Value>, x: seq<Word>, y: seq<Word>)
    requires AgreeOutside(a, b, hidden) && |names| == |x| == |y|
    requires forall k :: 0 <= k < |names| && names[k] !in hidden ==> x[k] == y[k]
    ensures AgreeOutside(Bind(a, names, x), Bind(b, names, y), hidden)
    decreases |names|
  {
    if names == [] {
    } else {
      forall k | 0 <= k < |names[1..]| && names[1..][k] !in hidden
        ensures x[1..][k] == y[1..][k]
      {
        assert names[k + 1] == names[1..][k];
      }
      BindMasked(a[names[0] := x[0]], b[names[0] := y[0]], hidden, names[1..], x[1..], y[1..]);
    }
  }

  lemma BindBoth(
    a: Values, b: Values, dead: set<Value>, hidden: set<Value>, names: seq<Value>, x: seq<Word>, y: seq<Word>)
    requires AgreeOutside(a, b, hidden) && BoundOutside(a, b, dead) && |names| == |x| == |y|
    requires forall k :: 0 <= k < |names| && names[k] !in hidden ==> x[k] == y[k]
    ensures AgreeOutside(Bind(a, names, x), Bind(b, names, y), hidden)
    ensures BoundOutside(Bind(a, names, x), Bind(b, names, y), dead)
  {
    hide AgreeOutside;
    BindMasked(a, b, hidden, names, x, y);
    BindNames(a, names, x);
    BindNames(b, names, y);
  }

  /** Operands that are not deleted are bound in both frames, and agree where they are not tainted. */
  lemma OperandsMatch(a: Values, b: Values, dead: set<Value>, tainted: set<Value>, args: seq<Value>)
    requires AgreeOutside(a, b, dead + tainted) && BoundOutside(a, b, dead) && AllBound(a, args)
    requires forall v :: v in args ==> v !in dead
    ensures AllBound(b, args)
    ensures forall k :: 0 <= k < |args| && args[k] !in tainted ==> Operands(b, args)[k] == Operands(a, args)[k]
    ensures !ReadsTaint(args, tainted) ==> Operands(b, args) == Operands(a, args)
  {
    forall k | 0 <= k < |args|
      ensures args[k] in b && (args[k] !in tainted ==> b[args[k]] == a[args[k]])
    {
      assert args[k] in args;
    }
  }

  // ----- one instruction -----

  /** Results that agree, or whose names are all hidden, keep the two frames alike. */
  lemma ResultsBound(
    env: Env, types: seq<Type>, slot: Word, inst: InstData, a: Values, b: Values, dead: set<Value>, hidden: set<Value>,
    v: World, w: World, x: seq<Word>, y: seq<Word>)
    requires AgreeOutside(a, b, hidden) && BoundOutside(a, b, dead) && AllBound(b, inst.args)
    requires ExecInst(env, types, slot, inst, a, v).Some?
    requires Exec(env, inst, OperandType(types, inst), slot, Operands(a, inst.args), v).value.0 == x
    requires Exec(env, inst, OperandType(types, inst), slot, Operands(b, inst.args), w).Some?
    requires Exec(env, inst, OperandType(types, inst), slot, Operands(b, inst.args), w).value.0 == y
    requires |x| == |y| && (x == y || Named(inst.results) <= hidden)
    ensures ExecInst(env, types, slot, inst, b, w).Some?
    ensures ExecInst(env, types, slot, inst, b, w).value.1
         == Exec(env, inst, OperandType(types, inst), slot, Operands(b, inst.args), w).value.1
    ensures AgreeOutside(ExecInst(env, types, slot, inst, a, v).value.0,
                         ExecInst(env, types, slot, inst, b, w).value.0, hidden)
    ensures BoundOutside(ExecInst(env, types, slot, inst, a, v).value.0,
                         ExecInst(env, types, slot, inst, b, w).value.0, dead)
  {
    hide Exec, AgreeOutside, BoundOutside, Repair.Fits, Repair.Apply;
    forall k | 0 <= k < |inst.results| && inst.results[k] !in hidden
      ensures RepairFirst(inst.repair, x)[k] == RepairFirst(inst.repair, y)[k]
    {
      assert inst.results[k] in Named(inst.results);
    }
    BindBoth(a, b, dead, hidden, inst.results, RepairFirst(inst.repair, x), RepairFirst(inst.repair, y));
  }

  /** A pure operation runs on any operand words of the same number, and leaves any world alone. */
  lemma PureRunsAnyway(
    env: Env, op: Op, ty: Type, operand: Type, slot: Word, x: seq<Word>, y: seq<Word>, v: World, w: World)
    requires op.OpEffects().IsPure() && |x| == |y| && Effect(env, op, ty, operand, slot, x, v).Some?
    ensures Effect(env, op, ty, operand, slot, x, v).value.1 == v
    ensures Effect(env, op, ty, operand, slot, y, w).Some? && Effect(env, op, ty, operand, slot, y, w).value.1 == w
    ensures |Effect(env, op, ty, operand, slot, y, w).value.0| == |Effect(env, op, ty, operand, slot, x, v).value.0|
  {
    hide ByByte, OpcodeEffect, OpcodeTouched, OfOpcode, NamedEffect, EvalPure, Touch;
    if op.Opcode? {
      PureMeansComputes(op.spec);
      ComputingOpcode(env, op.spec.byte, x, v);
      ComputingOpcode(env, op.spec.byte, y, w);
    } else {
      PureIsUnnamed(op);
      SameArity(op, ty, operand, x, y);
    }
  }

  lemma SameArity(op: Op, ty: Type, operand: Type, x: seq<Word>, y: seq<Word>)
    requires |x| == |y| && EvalPure(op, ty, operand, x).Some?
    ensures EvalPure(op, ty, operand, y).Some?
    ensures |EvalPure(op, ty, operand, y).value| == |EvalPure(op, ty, operand, x).value|
  {
    hide RawBinary, Compare, SelectWord, IntValue, InRange;
  }

  /** An instruction that neither reads taint nor observes gas does the same in both runs. */
  lemma CleanTaken(
    env: Env, types: seq<Type>, slot: Word, inst: InstData, a: Values, b: Values, dead: set<Value>, tainted: set<Value>,
    w: World, extra: nat)
    requires AgreeOutside(a, b, dead + tainted) && BoundOutside(a, b, dead) && forall v :: v in inst.args ==> v !in dead
    requires !ReadsTaint(inst.args, tainted) && !ObservesGas(env, inst.op)
    requires ExecInst(env, types, slot, inst, a, w).Some?
    ensures ExecInst(env, types, slot, inst, b, w.Richer(extra)).Some?
    ensures Alike(dead, tainted, ExecInst(env, types, slot, inst, a, w).value,
                  ExecInst(env, types, slot, inst, b, w.Richer(extra)).value, extra)
  {
    hide Exec, AgreeOutside, BoundOutside, ReadsTaint, ObservesGas, Sees, Bind, RepairFirst, Repair.Fits;
    OperandsMatch(a, b, dead, tainted, inst.args);
    var operand, args := OperandType(types, inst), Operands(a, inst.args);
    PaidFor(env, inst, operand, slot, args, w);
    BlindSeesNothing(env, inst.op, args, Pay(env, inst, args, w).value, extra);
    ExecShift(env, inst, operand, slot, args, w, extra);
    var (raw, w') := Exec(env, inst, operand, slot, args, w).value;
    ResultsBound(env, types, slot, inst, a, b, dead, dead + tainted, w, w.Richer(extra), raw, raw);
  }

  lemma PaidFor(env: Env, inst: InstData, operand: Type, slot: Word, args: seq<Word>, w: World)
    requires Exec(env, inst, operand, slot, args, w).Some?
    ensures Pay(env, inst, args, w).Some?
    ensures Exec(env, inst, operand, slot, args, w)
         == Effect(env, inst.op, inst.ty, operand, slot, args, Pay(env, inst, args, w).value)
  {
    hide Effect;
  }

  /** The outcomes of one instruction in the two runs. */
  ghost predicate Alike(dead: set<Value>, tainted: set<Value>, x: (Values, World), y: (Values, World), extra: nat) {
    AgreeOutside(x.0, y.0, dead + tainted) && BoundOutside(x.0, y.0, dead) && y.1 == x.1.Richer(extra)
  }

  /** A pure instruction on tainted operands: what it binds is tainted. */
  lemma TaintedTaken(
    env: Env, types: seq<Type>, slot: Word, inst: InstData, a: Values, b: Values, dead: set<Value>, tainted: set<Value>,
    w: World, extra: nat)
    requires AgreeOutside(a, b, dead + tainted) && BoundOutside(a, b, dead) && forall v :: v in inst.args ==> v !in dead
    requires inst.op.OpEffects().IsPure() && SteadyCost(env, inst) && Named(inst.results) <= tainted
    requires ExecInst(env, types, slot, inst, a, w).Some?
    ensures ExecInst(env, types, slot, inst, b, w.Richer(extra)).Some?
    ensures Alike(dead, tainted, ExecInst(env, types, slot, inst, a, w).value,
                  ExecInst(env, types, slot, inst, b, w.Richer(extra)).value, extra)
  {
    hide Effect, AgreeOutside, BoundOutside, ReadsTaint, Bind, RepairFirst, Repair.Fits;
    OperandsMatch(a, b, dead, tainted, inst.args);
    var operand, x, y := OperandType(types, inst), Operands(a, inst.args), Operands(b, inst.args);
    var paid := Pay(env, inst, x, w).value;
    assert w.Richer(extra).Bare() == w.Bare();
    assert Pay(env, inst, y, w.Richer(extra)) == Some(paid.Richer(extra));
    PureRunsAnyway(env, inst.op, inst.ty, operand, slot, x, y, paid, paid.Richer(extra));
    var raw := Effect(env, inst.op, inst.ty, operand, slot, x, paid).value.0;
    var other := Effect(env, inst.op, inst.ty, operand, slot, y, paid.Richer(extra)).value.0;
    ResultsBound(env, types, slot, inst, a, b, dead, dead + tainted, w, w.Richer(extra), raw, other);
  }

  /** A `GAS` instruction: the readings differ, and are tainted. */
  lemma GasTaken(
    env: Env, types: seq<Type>, slot: Word, inst: InstData, a: Values, b: Values, dead: set<Value>, tainted: set<Value>,
    w: World, extra: nat)
    requires AgreeOutside(a, b, dead + tainted) && BoundOutside(a, b, dead) && forall v :: v in inst.args ==> v !in dead
    requires IsGas(inst.op) && Named(inst.results) <= tainted
    requires ExecInst(env, types, slot, inst, a, w).Some?
    ensures ExecInst(env, types, slot, inst, b, w.Richer(extra)).Some?
    ensures Alike(dead, tainted, ExecInst(env, types, slot, inst, a, w).value,
                  ExecInst(env, types, slot, inst, b, w.Richer(extra)).value, extra)
  {
    hide Effect, AgreeOutside, BoundOutside, ReadsTaint, Bind, RepairFirst, Repair.Fits;
    OperandsMatch(a, b, dead, tainted, inst.args);
    var operand, x, y := OperandType(types, inst), Operands(a, inst.args), Operands(b, inst.args);
    var paid := Pay(env, inst, x, w).value;
    GasEffect(env, inst.op, inst.ty, operand, slot, x, paid);
    assert x == [] && y == [];
    assert w.Richer(extra).Bare() == w.Bare();
    assert Pay(env, inst, y, w.Richer(extra)) == Some(paid.Richer(extra));
    GasReads(env, inst.op, inst.ty, operand, slot, y, paid.Richer(extra));
    var raw := Effect(env, inst.op, inst.ty, operand, slot, x, paid).value.0;
    var other := Effect(env, inst.op, inst.ty, operand, slot, y, paid.Richer(extra)).value.0;
    ResultsBound(env, types, slot, inst, a, b, dead, dead + tainted, w, w.Richer(extra), raw, other);
  }

  lemma GasEffect(env: Env, op: Op, ty: Type, operand: Type, slot: Word, args: seq<Word>, w: World)
    requires IsGas(op) && Effect(env, op, ty, operand, slot, args, w).Some?
    ensures args == [] && Admitted(op.spec)
    ensures Effect(env, op, ty, operand, slot, args, w).value.1 == w
    ensures |Effect(env, op, ty, operand, slot, args, w).value.0| == 1
  {
    assert OpcodeEffect(env, 0x5a, args, w).1 == w && |OpcodeEffect(env, 0x5a, args, w).0| == 1;
  }

  lemma GasReads(env: Env, op: Op, ty: Type, operand: Type, slot: Word, args: seq<Word>, w: World)
    requires IsGas(op) && Admitted(op.spec) && args == []
    ensures Effect(env, op, ty, operand, slot, args, w).Some?
    ensures Effect(env, op, ty, operand, slot, args, w).value.1 == w
    ensures |Effect(env, op, ty, operand, slot, args, w).value.0| == 1
  {
    assert OpcodeEffect(env, 0x5a, args, w).1 == w && |OpcodeEffect(env, 0x5a, args, w).0| == 1;
  }
}
