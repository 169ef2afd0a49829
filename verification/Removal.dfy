/** What the effect classification licenses: removing dead pure instructions from a block. */
module Removal {
  import opened Powers
  import opened Isa
  import opened Types
  import opened Effects
  import opened Instructions
  import opened WidthRepair
  import opened Machine
  import W = Words

  // ----- the rule -----

  /** The instructions a mask keeps. */
  function Kept(body: seq<InstData>, keep: seq<bool>): seq<InstData>
    requires |keep| == |body|
  {
    if body == [] then [] else (if keep[0] then [body[0]] else []) + Kept(body[1..], keep[1..])
  }

  function Named(names: seq<Value>): set<Value> { set v | v in names }

  /** The values the deleted instructions bind. */
  function Lost(body: seq<InstData>, keep: seq<bool>): set<Value>
    requires |keep| == |body|
  {
    if body == [] then {} else (if keep[0] then {} else Named(body[0].results)) + Lost(body[1..], keep[1..])
  }

  /**
   The removal rule: every deleted instruction is removable, and nothing that
   stays, the terminator included, reads a result of a deleted one.
   */
  ghost predicate MayDelete(body: seq<InstData>, keep: seq<bool>, term: Terminator)
    requires |keep| == |body|
  {
    forall i :: 0 <= i < |body| && !keep[i] ==>
      && body[i].op.OpEffects().IsRemovable()
      && (forall v :: v in body[i].results ==> !ReadsValue(term, v))
      && (forall j, v :: i < j < |body| && keep[j] && v in body[i].results ==> v !in body[j].args)
  }

  /** What the deleted instructions would have cost. */
  function Saved(
    env: Env, types: seq<Type>, slotOf: seq<Value> -> Word, body: seq<InstData>, keep: seq<bool>,
    vals: Values, w: World): nat
    requires |keep| == |body| && RunBody(env, types, slotOf, body, vals, w).Some?
  {
    if body == [] then 0
    else
      var (vals', w') := ExecInst(env, types, slotOf(body[0].results), body[0], vals, w).value;
      (if keep[0] then 0 else Cost(env, body[0], Operands(vals, body[0].args), w))
      + Saved(env, types, slotOf, body[1..], keep[1..], vals', w')
  }

  /** What instruction `i` costs in the run. */
  function CostAt(
    env: Env, types: seq<Type>, slotOf: seq<Value> -> Word, body: seq<InstData>, vals: Values, w: World, i: nat): nat
    requires i < |body| && RunBody(env, types, slotOf, body, vals, w).Some?
  {
    if i == 0 then Cost(env, body[0], Operands(vals, body[0].args), w)
    else
      var (vals', w') := ExecInst(env, types, slotOf(body[0].results), body[0], vals, w).value;
      CostAt(env, types, slotOf, body[1..], vals', w', i - 1)
  }

  /** No `GAS` is kept behind a deleted instruction that costs something in the run. */
  ghost predicate NoGasBehindCharge(
    env: Env, types: seq<Type>, slotOf: seq<Value> -> Word, body: seq<InstData>, keep: seq<bool>, vals: Values,
    w: World)
    requires |keep| == |body| && RunBody(env, types, slotOf, body, vals, w).Some?
  {
    forall i, j :: 0 <= i < j < |body| && !keep[i] && keep[j] && CostAt(env, types, slotOf, body, vals, w, i) > 0 ==>
      !IsGas(body[j].op)
  }

  /**
   Along the run, with `extra` saved before it and the cost of every deleted
   instruction saved on the way, nothing kept sees the saving in the given way.
   */
  ghost predicate Unseen(
    env: Env, types: seq<Type>, slotOf: seq<Value> -> Word, o: Observer, body: seq<InstData>, keep: seq<bool>,
    vals: Values, w: World, extra: nat)
    requires |keep| == |body| && RunBody(env, types, slotOf, body, vals, w).Some?
  {
    body != [] ==>
      var args := Operands(vals, body[0].args);
      var (vals', w') := ExecInst(env, types, slotOf(body[0].results), body[0], vals, w).value;
      if keep[0] then
        && (extra > 0 ==> !Sees(env, o, body[0].op, args, Pay(env, body[0], args, w).value, extra))
        && Unseen(env, types, slotOf, o, body[1..], keep[1..], vals', w', extra)
      else Unseen(env, types, slotOf, o, body[1..], keep[1..], vals', w', extra + Cost(env, body[0], args, w))
  }

  /** `b` agrees with `a` on everything outside `dead`. */
  ghost predicate AgreeOutside(a: Values, b: Values, dead: set<Value>) {
    forall v :: v in a && v !in dead ==> v in b && b[v] == a[v]
  }

  // ----- one instruction -----

  /** A pure operation leaves the whole world alone and gives the same in any other. */
  lemma PureIgnoresWorld(
    env: Env, op: Op, ty: Type, operand: Type, slot: Word, args: seq<Word>, v: World, w: World)
    requires op.OpEffects().IsPure() && Effect(env, op, ty, operand, slot, args, v).Some?
    ensures Effect(env, op, ty, operand, slot, args, v).value.1 == v
    ensures Effect(env, op, ty, operand, slot, args, w)
         == Some((Effect(env, op, ty, operand, slot, args, v).value.0, w))
  {
    hide ByByte, OpcodeEffect, OpcodeTouched, OfOpcode, NamedEffect, EvalPure, Touch;
    if op.Opcode? {
      PureMeansComputes(op.spec);
      ComputingOpcode(env, op.spec.byte, args, v);
      ComputingOpcode(env, op.spec.byte, args, w);
    } else {
      PureIsUnnamed(op);
    }
  }

  lemma PureIsUnnamed(op: Op)
    requires op.OpEffects().IsPure() && !op.Opcode?
    ensures !IsNamed(op) && !op.CallFn?
  {
  }

  lemma ComputingOpcode(env: Env, b: Byte, args: seq<Word>, w: World)
    requires Computes(b)
    ensures !IsExternal(b) && OpcodeEffect(env, b, args, w) == ([EvalOpcode(b, args)], w)
    ensures Grown(w, OpcodeTouched(b, args)) == w
  {
    hide EvalOpcode;
  }

  lemma PureMeansComputes(spec: OpSpec)
    requires OfOpcode(spec).IsPure() && Admitted(spec)
    ensures Computes(spec.byte)
  {
    PureOpcodes(spec.byte);
  }

  lemma {:induction false} BindAgrees(a: Values, b: Values, dead: set<Value>, names: seq<Value>, words: seq<Word>)
    requires AgreeOutside(a, b, dead) && |names| == |words|
    ensures AgreeOutside(Bind(a, names, words), Bind(b, names, words), dead)
    decreases |names|
  {
    if names == [] {
    } else {
      BindAgrees(a[names[0] := words[0]], b[names[0] := words[0]], dead, names[1..], words[1..]);
    }
  }

  lemma {:induction false} BindTouchesOnlyNames(a: Values, names: seq<Value>, words: seq<Word>)
    requires |names| == |words|
    ensures forall v :: v !in names ==> (v in Bind(a, names, words) <==> v in a)
    ensures forall v :: v in a && v !in names ==> Bind(a, names, words)[v] == a[v]
    decreases |names|
  {
    if names == [] {
    } else {
      BindTouchesOnlyNames(a[names[0] := words[0]], names[1..], words[1..]);
    }
  }

  predicate Paid(env: Env, inst: InstData, vals: Values, w: World) {
    AllBound(vals, inst.args) && Pay(env, inst, Operands(vals, inst.args), w).Some?
  }

  /** Whether an instruction of the run, once paid for, shows `extra` more gas. */
  ghost predicate SeesAt(env: Env, inst: InstData, vals: Values, w: World, extra: nat)
    requires Paid(env, inst, vals, w)
  {
    var args := Operands(vals, inst.args);
    Sees(env, AnyObserver, inst.op, args, Pay(env, inst, args, w).value, extra)
  }

  /** A kept instruction does the same in the run that has `extra` more gas, unless it shows it. */
  lemma KeptStep(
    env: Env, types: seq<Type>, slot: Word, inst: InstData, a: Values, b: Values, dead: set<Value>,
    w: World, extra: nat)
    requires AgreeOutside(a, b, dead) && forall v :: v in inst.args ==> v !in dead
    requires ExecInst(env, types, slot, inst, a, w).Some?
    requires extra > 0 ==> !SeesAt(env, inst, a, w, extra)
    ensures var (a', w') := ExecInst(env, types, slot, inst, a, w).value;
            && ExecInst(env, types, slot, inst, b, w.Richer(extra)).Some?
            && var (b', v') := ExecInst(env, types, slot, inst, b, w.Richer(extra)).value;
               v' == w'.Richer(extra) && AgreeOutside(a', b', dead)
  {
    hide Effect, Repair.Fits, AgreeOutside, Sees;
    OperandsAgree(a, b, dead, inst.args);
    var operand, args := OperandType(types, inst), Operands(a, inst.args);
    var (raw, w') := Exec(env, inst, operand, slot, args, w).value;
    if extra == 0 {
      assert w.Richer(extra) == w && w'.Richer(extra) == w';
    } else {
      ExecShift(env, inst, operand, slot, args, w, extra);
    }
    BindAgrees(a, b, dead, inst.results, RepairFirst(inst.repair, raw));
  }

  lemma OperandsAgree(a: Values, b: Values, dead: set<Value>, args: seq<Value>)
    requires AgreeOutside(a, b, dead) && AllBound(a, args) && forall v :: v in args ==> v !in dead
    ensures AllBound(b, args) && Operands(b, args) == Operands(a, args)
  {
    forall i | 0 <= i < |args|
      ensures args[i] in b && b[args[i]] == a[args[i]]
    {
      assert args[i] in args;
    }
  }

  /** A deleted instruction would only have bound its results and spent its cost. */
  lemma DeletedStep(
    env: Env, types: seq<Type>, slot: Word, inst: InstData, a: Values, b: Values, dead: set<Value>, w: World)
    requires AgreeOutside(a, b, dead) && inst.op.OpEffects().IsRemovable()
    requires ExecInst(env, types, slot, inst, a, w).Some?
    ensures var (a', w') := ExecInst(env, types, slot, inst, a, w).value;
            && AllBound(a, inst.args) && w'.Richer(Cost(env, inst, Operands(a, inst.args), w)) == w
            && AgreeOutside(a', b, dead + Named(inst.results))
  {
    hide Effect, Repair.Fits;
    var operand, args := OperandType(types, inst), Operands(a, inst.args);
    var paid := Pay(env, inst, args, w).value;
    PureIgnoresWorld(env, inst.op, inst.ty, operand, slot, args, paid, paid);
    var raw := Effect(env, inst.op, inst.ty, operand, slot, args, paid).value.0;
    BindTouchesOnlyNames(a, inst.results, RepairFirst(inst.repair, raw));
  }

  // ----- a block -----

  /** The two runs side by side: the original at `(a, w)`, the other at `b` with `extra` more gas. */
  ghost predicate Beside(
    body: seq<InstData>, keep: seq<bool>, term: Terminator, a: Values, b: Values, dead: set<Value>)
    requires |keep| == |body|
  {
    && MayDelete(body, keep, term) && AgreeOutside(a, b, dead)
    && (forall v :: v in dead ==> !ReadsValue(term, v))
    && (forall j, v :: 0 <= j < |body| && keep[j] && v in dead ==> v !in body[j].args)
  }

  lemma BesideHead(
    body: seq<InstData>, keep: seq<bool>, term: Terminator, a: Values, b: Values, dead: set<Value>)
    requires |keep| == |body| && Beside(body, keep, term, a, b, dead)
    ensures AgreeOutside(a, b, dead)
    ensures body != [] && keep[0] ==> forall v :: v in body[0].args ==> v !in dead
    ensures body != [] && !keep[0] ==> body[0].op.OpEffects().IsRemovable()
  {
  }

  lemma BesideKept(
    body: seq<InstData>, keep: seq<bool>, term: Terminator, a: Values, b: Values, a': Values, b': Values,
    dead: set<Value>)
    requires |keep| == |body| > 0 && keep[0] && Beside(body, keep, term, a, b, dead) && AgreeOutside(a', b', dead)
    ensures Beside(body[1..], keep[1..], term, a', b', dead)
    ensures Kept(body, keep) == [body[0]] + Kept(body[1..], keep[1..])
    ensures Lost(body, keep) == Lost(body[1..], keep[1..])
  {
    MayDeleteTail(body, keep, term);
  }

  lemma BesideDeleted(
    body: seq<InstData>, keep: seq<bool>, term: Terminator, a: Values, b: Values, a': Values, dead: set<Value>)
    requires |keep| == |body| > 0 && !keep[0] && Beside(body, keep, term, a, b, dead)
    requires AgreeOutside(a', b, dead + Named(body[0].results))
    ensures Beside(body[1..], keep[1..], term, a', b, dead + Named(body[0].results))
    ensures Kept(body, keep) == Kept(body[1..], keep[1..])
    ensures Lost(body, keep) == Named(body[0].results) + Lost(body[1..], keep[1..])
  {
    MayDeleteTail(body, keep, term);
  }

  /** Both runs take a kept instruction. */
  lemma AdvanceKept(
    env: Env, types: seq<Type>, slot: Word, body: seq<InstData>, keep: seq<bool>, term: Terminator,
    a: Values, b: Values, dead: set<Value>, w: World, extra: nat) returns (b': Values)
    requires |keep| == |body| > 0 && keep[0] && Beside(body, keep, term, a, b, dead)
    requires ExecInst(env, types, slot, body[0], a, w).Some?
    requires extra > 0 ==> !SeesAt(env, body[0], a, w, extra)
    ensures var (a', w') := ExecInst(env, types, slot, body[0], a, w).value;
            && ExecInst(env, types, slot, body[0], b, w.Richer(extra)) == Some((b', w'.Richer(extra)))
            && Beside(body[1..], keep[1..], term, a', b', dead)
    ensures Kept(body, keep) == [body[0]] + Kept(body[1..], keep[1..])
    ensures Lost(body, keep) == Lost(body[1..], keep[1..])
  {
    hide ExecInst, Beside, AgreeOutside, SeesAt;
    BesideHead(body, keep, term, a, b, dead);
    KeptStep(env, types, slot, body[0], a, b, dead, w, extra);
    b' := ExecInst(env, types, slot, body[0], b, w.Richer(extra)).value.0;
    BesideKept(body, keep, term, a, b, ExecInst(env, types, slot, body[0], a, w).value.0, b', dead);
  }

  /** The original takes a deleted instruction and pays for it; the other run stands still. */
  lemma AdvanceDeleted(
    env: Env, types: seq<Type>, slot: Word, body: seq<InstData>, keep: seq<bool>, term: Terminator,
    a: Values, b: Values, dead: set<Value>, w: World)
    requires |keep| == |body| > 0 && !keep[0] && Beside(body, keep, term, a, b, dead)
    requires ExecInst(env, types, slot, body[0], a, w).Some?
    ensures var (a', w') := ExecInst(env, types, slot, body[0], a, w).value;
            && AllBound(a, body[0].args) && w'.Richer(Cost(env, body[0], Operands(a, body[0].args), w)) == w
            && Beside(body[1..], keep[1..], term, a', b, dead + Named(body[0].results))
    ensures Kept(body, keep) == Kept(body[1..], keep[1..])
    ensures Lost(body, keep) == Named(body[0].results) + Lost(body[1..], keep[1..])
  {
    hide ExecInst, Beside, AgreeOutside, Cost;
    BesideHead(body, keep, term, a, b, dead);
    DeletedStep(env, types, slot, body[0], a, b, dead, w);
    BesideDeleted(body, keep, term, a, b, ExecInst(env, types, slot, body[0], a, w).value.0, dead);
  }

  lemma MayDeleteTail(body: seq<InstData>, keep: seq<bool>, term: Terminator)
    requires |keep| == |body| && body != [] && MayDelete(body, keep, term)
    ensures MayDelete(body[1..], keep[1..], term)
  {
    forall i | 0 <= i < |body[1..]| && !keep[1..][i]
      ensures body[1..][i].op.OpEffects().IsRemovable()
      ensures forall v :: v in body[1..][i].results ==> !ReadsValue(term, v)
      ensures forall j, v :: i < j < |body[1..]| && keep[1..][j] && v in body[1..][i].results ==>
                v !in body[1..][j].args
    {
      assert body[1..][i] == body[i + 1] && keep[1..][i] == keep[i + 1];
    }
  }

  /** The first instruction of a run, and what it contributes to the saving. */
  lemma Unfold(
    env: Env, types: seq<Type>, slotOf: seq<Value> -> Word, body: seq<InstData>, keep: seq<bool>,
    vals: Values, w: World)
    requires |keep| == |body| > 0 && RunBody(env, types, slotOf, body, vals, w).Some?
    ensures ExecInst(env, types, slotOf(body[0].results), body[0], vals, w).Some? && AllBound(vals, body[0].args)
    ensures var (vals', w') := ExecInst(env, types, slotOf(body[0].results), body[0], vals, w).value;
            && RunBody(env, types, slotOf, body[1..], vals', w') == RunBody(env, types, slotOf, body, vals, w)
            && Saved(env, types, slotOf, body, keep, vals, w)
               == (if keep[0] then 0 else Cost(env, body[0], Operands(vals, body[0].args), w))
                  + Saved(env, types, slotOf, body[1..], keep[1..], vals', w')
  {
    hide Exec, Cost;
  }

  lemma RunPrepends(
    env: Env, types: seq<Type>, slotOf: seq<Value> -> Word, inst: InstData, rest: seq<InstData>, vals: Values, w: World)
    requires ExecInst(env, types, slotOf(inst.results), inst, vals, w).Some?
    ensures var (vals', w') := ExecInst(env, types, slotOf(inst.results), inst, vals, w).value;
            RunBody(env, types, slotOf, [inst] + rest, vals, w) == RunBody(env, types, slotOf, rest, vals', w')
  {
    hide ExecInst;
    assert ([inst] + rest)[1..] == rest;
  }

  /** One step of `Unseen`. */
  lemma UnseenHead(
    env: Env, types: seq<Type>, slotOf: seq<Value> -> Word, o: Observer, body: seq<InstData>, keep: seq<bool>,
    vals: Values, w: World, extra: nat)
    requires |keep| == |body| > 0 && RunBody(env, types, slotOf, body, vals, w).Some?
    requires Unseen(env, types, slotOf, o, body, keep, vals, w, extra)
    ensures ExecInst(env, types, slotOf(body[0].results), body[0], vals, w).Some? && Paid(env, body[0], vals, w)
    ensures var (vals', w') := ExecInst(env, types, slotOf(body[0].results), body[0], vals, w).value;
            var args := Operands(vals, body[0].args);
            && RunBody(env, types, slotOf, body[1..], vals', w').Some?
            && (if keep[0] then
                  && (extra > 0 ==> !Sees(env, o, body[0].op, args, Pay(env, body[0], args, w).value, extra))
                  && Unseen(env, types, slotOf, o, body[1..], keep[1..], vals', w', extra)
                else
                  Unseen(env, types, slotOf, o, body[1..], keep[1..], vals', w', extra + Cost(env, body[0], args, w)))
  {
    hide Effect, Sees, Cost;
  }

  lemma {:induction false} UnseenEitherWay(
    env: Env, types: seq<Type>, slotOf: seq<Value> -> Word, body: seq<InstData>, keep: seq<bool>,
    vals: Values, w: World, extra: nat)
    requires |keep| == |body| && RunBody(env, types, slotOf, body, vals, w).Some?
    requires Unseen(env, types, slotOf, Reader, body, keep, vals, w, extra)
    requires Unseen(env, types, slotOf, Handover, body, keep, vals, w, extra)
    ensures Unseen(env, types, slotOf, AnyObserver, body, keep, vals, w, extra)
    decreases |body|
  {
    hide ExecInst, Cost, CallUnmoved;
    if body == [] {
    } else {
      UnseenHead(env, types, slotOf, Reader, body, keep, vals, w, extra);
      UnseenHead(env, types, slotOf, Handover, body, keep, vals, w, extra);
      var (vals', w') := ExecInst(env, types, slotOf(body[0].results), body[0], vals, w).value;
      var saved := if keep[0] then extra else extra + Cost(env, body[0], Operands(vals, body[0].args), w);
      UnseenEitherWay(env, types, slotOf, body[1..], keep[1..], vals', w', saved);
    }
  }

  /** No reader sees the saving exactly when no `GAS` stands behind a charge, or behind the extra gas itself. */
  lemma {:induction false} ReadersSeeCharges(
    env: Env, types: seq<Type>, slotOf: seq<Value> -> Word, body: seq<InstData>, keep: seq<bool>,
    vals: Values, w: World, extra: nat)
    requires |keep| == |body| && RunBody(env, types, slotOf, body, vals, w).Some?
    ensures Unseen(env, types, slotOf, Reader, body, keep, vals, w, extra)
       <==> && NoGasBehindCharge(env, types, slotOf, body, keep, vals, w)
            && (extra > 0 ==> forall j :: 0 <= j < |body| && keep[j] ==> !IsGas(body[j].op))
    decreases |body|
  {
    hide ExecInst, Cost, CallUnmoved;
    if body == [] {
    } else {
      Unfold(env, types, slotOf, body, keep, vals, w);
      var (vals', w') := ExecInst(env, types, slotOf(body[0].results), body[0], vals, w).value;
      var cost := Cost(env, body[0], Operands(vals, body[0].args), w);
      var saved := if keep[0] then extra else extra + cost;
      ReadersSeeCharges(env, types, slotOf, body[1..], keep[1..], vals', w', saved);
      ChargesSplit(env, types, slotOf, body, keep, vals, w);
      assert (forall j :: 0 <= j < |body| && keep[j] ==> !IsGas(body[j].op))
        <==> && (keep[0] ==> !IsGas(body[0].op))
             && forall j :: 0 <= j < |body[1..]| && keep[1..][j] ==> !IsGas(body[1..][j].op)
      by {
        if forall j :: 0 <= j < |body| && keep[j] ==> !IsGas(body[j].op) {
          assert forall j :: 0 <= j < |body[1..]| ==> body[1..][j] == body[j + 1] && keep[1..][j] == keep[j + 1];
        } else {
          var j :| 0 <= j < |body| && keep[j] && IsGas(body[j].op);
          assert j > 0 ==> body[1..][j - 1] == body[j] && keep[1..][j - 1] == keep[j];
        }
      }
    }
  }

  lemma ChargesSplit(
    env: Env, types: seq<Type>, slotOf: seq<Value> -> Word, body: seq<InstData>, keep: seq<bool>, vals: Values,
    w: World)
    requires |keep| == |body| > 0 && RunBody(env, types, slotOf, body, vals, w).Some?
    requires ExecInst(env, types, slotOf(body[0].results), body[0], vals, w).Some? && AllBound(vals, body[0].args)
    requires var (vals', w') := ExecInst(env, types, slotOf(body[0].results), body[0], vals, w).value;
             RunBody(env, types, slotOf, body[1..], vals', w').Some?
    ensures var (vals', w') := ExecInst(env, types, slotOf(body[0].results), body[0], vals, w).value;
            NoGasBehindCharge(env, types, slotOf, body, keep, vals, w)
            <==> && NoGasBehindCharge(env, types, slotOf, body[1..], keep[1..], vals', w')
                 && (!keep[0] && Cost(env, body[0], Operands(vals, body[0].args), w) > 0 ==>
                       forall j :: 0 <= j < |body[1..]| && keep[1..][j] ==> !IsGas(body[1..][j].op))
  {
    hide ExecInst, Cost, RunBody, IsGas;
    var (vals', w') := ExecInst(env, types, slotOf(body[0].results), body[0], vals, w).value;
    var rest, kept := body[1..], keep[1..];
    if NoGasBehindCharge(env, types, slotOf, body, keep, vals, w) {
      forall i, j | 0 <= i < j < |rest| && !kept[i] && kept[j] && CostAt(env, types, slotOf, rest, vals', w', i) > 0
        ensures !IsGas(rest[j].op)
      {
        assert CostAt(env, types, slotOf, body, vals, w, i + 1) > 0 && !keep[i + 1] && keep[j + 1];
      }
      if !keep[0] && Cost(env, body[0], Operands(vals, body[0].args), w) > 0 {
        forall j | 0 <= j < |rest| && kept[j]
          ensures !IsGas(rest[j].op)
        {
          assert CostAt(env, types, slotOf, body, vals, w, 0) > 0 && keep[j + 1];
        }
      }
    } else {
      var i, j :| 0 <= i < j < |body| && !keep[i] && keep[j] && CostAt(env, types, slotOf, body, vals, w, i) > 0
                  && IsGas(body[j].op);
      assert rest[j - 1] == body[j] && kept[j - 1];
      if i > 0 {
        assert !kept[i - 1] && CostAt(env, types, slotOf, rest, vals', w', i - 1) > 0;
      }
    }
  }

  /** What deleting comes to: the same values outside what is dead or lost, and the saved gas on top. */
  ghost predicate Agrees(
    env: Env, types: seq<Type>, slotOf: seq<Value> -> Word, body: seq<InstData>, keep: seq<bool>,
    a: Values, b: Values, dead: set<Value>, w: World, extra: nat)
    requires |keep| == |body| && RunBody(env, types, slotOf, body, a, w).Some?
  {
    var (va, wa) := RunBody(env, types, slotOf, body, a, w).value;
    var kept := RunBody(env, types, slotOf, Kept(body, keep), b, w.Richer(extra));
    && kept.Some?
    && kept.value.1 == wa.Richer(extra + Saved(env, types, slotOf, body, keep, a, w))
    && AgreeOutside(va, kept.value.0, dead + Lost(body, keep))
  }

  lemma AgreesKept(
    env: Env, types: seq<Type>, slotOf: seq<Value> -> Word, body: seq<InstData>, keep: seq<bool>, term: Terminator,
    a: Values, b: Values, dead: set<Value>, w: World, extra: nat) returns (b': Values)
    requires |keep| == |body| > 0 && keep[0] && Beside(body, keep, term, a, b, dead)
    requires RunBody(env, types, slotOf, body, a, w).Some?
    requires extra > 0 ==> Paid(env, body[0], a, w) && !SeesAt(env, body[0], a, w, extra)
    ensures ExecInst(env, types, slotOf(body[0].results), body[0], a, w).Some?
    ensures var (a', w') := ExecInst(env, types, slotOf(body[0].results), body[0], a, w).value;
            && Beside(body[1..], keep[1..], term, a', b', dead)
            && RunBody(env, types, slotOf, body[1..], a', w').Some?
            && (Agrees(env, types, slotOf, body[1..], keep[1..], a', b', dead, w', extra) ==>
                  Agrees(env, types, slotOf, body, keep, a, b, dead, w, extra))
  {
    hide ExecInst, RunBody, Saved, Kept, Lost, Operands, Cost, Beside, AgreeOutside, SeesAt;
    var inst, slot := body[0], slotOf(body[0].results);
    Unfold(env, types, slotOf, body, keep, a, w);
    b' := AdvanceKept(env, types, slot, body, keep, term, a, b, dead, w, extra);
    RunPrepends(env, types, slotOf, inst, Kept(body[1..], keep[1..]), b, w.Richer(extra));
  }

  lemma AgreesDeleted(
    env: Env, types: seq<Type>, slotOf: seq<Value> -> Word, body: seq<InstData>, keep: seq<bool>, term: Terminator,
    a: Values, b: Values, dead: set<Value>, w: World, extra: nat)
    requires |keep| == |body| > 0 && !keep[0] && Beside(body, keep, term, a, b, dead)
    requires RunBody(env, types, slotOf, body, a, w).Some?
    ensures ExecInst(env, types, slotOf(body[0].results), body[0], a, w).Some? && AllBound(a, body[0].args)
    ensures var (a', w') := ExecInst(env, types, slotOf(body[0].results), body[0], a, w).value;
            var (dead', cost) := (dead + Named(body[0].results), Cost(env, body[0], Operands(a, body[0].args), w));
            && Beside(body[1..], keep[1..], term, a', b, dead')
            && RunBody(env, types, slotOf, body[1..], a', w').Some?
            && (Agrees(env, types, slotOf, body[1..], keep[1..], a', b, dead', w', extra + cost) ==>
                  Agrees(env, types, slotOf, body, keep, a, b, dead, w, extra))
  {
    hide ExecInst, RunBody, Saved, Kept, Lost, Operands, Cost, Beside, AgreeOutside;
    var inst, slot := body[0], slotOf(body[0].results);
    Unfold(env, types, slotOf, body, keep, a, w);
    AdvanceDeleted(env, types, slot, body, keep, term, a, b, dead, w);
    var cost := Cost(env, inst, Operands(a, inst.args), w);
    var w' := ExecInst(env, types, slot, inst, a, w).value.1;
    assert w'.Richer(extra + cost) == w.Richer(extra);
    assert dead + Named(inst.results) + Lost(body[1..], keep[1..]) == dead + Lost(body, keep);
  }

  lemma {:induction false} DeletingKeepsRun(
    env: Env, types: seq<Type>, slotOf: seq<Value> -> Word, body: seq<InstData>, keep: seq<bool>, term: Terminator,
    a: Values, b: Values, dead: set<Value>, w: World, extra: nat)
    requires |keep| == |body| && Beside(body, keep, term, a, b, dead)
    requires RunBody(env, types, slotOf, body, a, w).Some?
    requires Unseen(env, types, slotOf, AnyObserver, body, keep, a, w, extra)
    ensures Agrees(env, types, slotOf, body, keep, a, b, dead, w, extra)
    decreases |body|
  {
    hide ExecInst, Beside, AgreeOutside, Sees, Cost;
    if body == [] {
      BesideHead(body, keep, term, a, b, dead);
      assert dead + Lost(body, keep) == dead;
    } else {
      hide RunBody, Agrees, Unseen;
      UnseenHead(env, types, slotOf, AnyObserver, body, keep, a, w, extra);
      var (a', w') := ExecInst(env, types, slotOf(body[0].results), body[0], a, w).value;
      if keep[0] {
        var b' := AgreesKept(env, types, slotOf, body, keep, term, a, b, dead, w, extra);
        DeletingKeepsRun(env, types, slotOf, body[1..], keep[1..], term, a', b', dead, w', extra);
      } else {
        AgreesDeleted(env, types, slotOf, body, keep, term, a, b, dead, w, extra);
        var cost, dead' := Cost(env, body[0], Operands(a, body[0].args), w), dead + Named(body[0].results);
        DeletingKeepsRun(env, types, slotOf, body[1..], keep[1..], term, a', b, dead', w', extra + cost);
      }
    }
  }

  lemma {:induction false} LostUnread(body: seq<InstData>, keep: seq<bool>, term: Terminator)
    requires |keep| == |body| && MayDelete(body, keep, term)
    ensures forall v :: v in Lost(body, keep) ==> !ReadsValue(term, v)
  {
    if body == [] {
    } else {
      MayDeleteTail(body, keep, term);
      LostUnread(body[1..], keep[1..], term);
    }
  }

  /**
   The removal rule is sound for any set of instructions it allows, wherever the
   saved gas goes unseen: no `GAS` is kept behind a charged deletion, and the calls
   kept there go the same way with the gas they are handed on top. The block still
   runs, every value but the deleted ones is the same, so is everything the
   terminator reads, and the world is the same but for the gas saved.
   */
  lemma RemovalIsSound(
    env: Env, types: seq<Type>, slotOf: seq<Value> -> Word, body: seq<InstData>, keep: seq<bool>, term: Terminator,
    vals: Values, w: World)
    requires |keep| == |body| && MayDelete(body, keep, term)
    requires RunBody(env, types, slotOf, body, vals, w).Some?
    requires NoGasBehindCharge(env, types, slotOf, body, keep, vals, w)
    requires Unseen(env, types, slotOf, Handover, body, keep, vals, w, 0)
    ensures RunBody(env, types, slotOf, Kept(body, keep), vals, w).Some?
    ensures var (va, wa) := RunBody(env, types, slotOf, body, vals, w).value;
            var (vb, wb) := RunBody(env, types, slotOf, Kept(body, keep), vals, w).value;
            && wb == wa.Richer(Saved(env, types, slotOf, body, keep, vals, w))
            && AgreeOutside(va, vb, Lost(body, keep))
            && forall v :: ReadsValue(term, v) && v in va ==> v in vb && vb[v] == va[v]
  {
    hide ExecInst, NoGasBehindCharge, Unseen, RunBody, Kept, Lost, Saved;
    ReadersSeeCharges(env, types, slotOf, body, keep, vals, w, 0);
    UnseenEitherWay(env, types, slotOf, body, keep, vals, w, 0);
    DeletingKeepsRun(env, types, slotOf, body, keep, term, vals, vals, {}, w, 0);
    assert w.Richer(0) == w;
    assert {} + Lost(body, keep) == Lost(body, keep);
    LostUnread(body, keep, term);
  }

  // ----- exactly when -----

  /** No value is bound by two instructions, as the arenas guarantee. */
  ghost predicate BindsOnce(body: seq<InstData>) {
    forall i, j, v :: 0 <= i < j < |body| && v in body[i].results ==> v !in body[j].results
  }

  /** Raw results are stored unrepaired, as the builder does. */
  ghost predicate RawUnrepaired(body: seq<InstData>) {
    forall i :: 0 <= i < |body| && body[i].op.Opcode? ==> body[i].repair == NoRepair
  }

  /** The block without the deleted instructions runs to the same values and, gas aside, the same world. */
  ghost predicate Reproduces(
    env: Env, types: seq<Type>, slotOf: seq<Value> -> Word, body: seq<InstData>, keep: seq<bool>, vals: Values,
    w: World)
    requires |keep| == |body| && RunBody(env, types, slotOf, body, vals, w).Some?
  {
    var (va, wa) := RunBody(env, types, slotOf, body, vals, w).value;
    var kept := RunBody(env, types, slotOf, Kept(body, keep), vals, w);
    kept.Some? && kept.value.1.Bare() == wa.Bare() && AgreeOutside(va, kept.value.0, Lost(body, keep))
  }

  lemma {:induction false} RunKeepsOthers(
    env: Env, types: seq<Type>, slotOf: seq<Value> -> Word, body: seq<InstData>, vals: Values, w: World, v: Value)
    requires RunBody(env, types, slotOf, body, vals, w).Some?
    requires v in vals && forall i :: 0 <= i < |body| ==> v !in body[i].results
    ensures var va := RunBody(env, types, slotOf, body, vals, w).value.0; v in va && va[v] == vals[v]
    decreases |body|
  {
    hide Exec;
    if body == [] {
    } else {
      var inst, slot := body[0], slotOf(body[0].results);
      var raw := Exec(env, inst, OperandType(types, inst), slot, Operands(vals, inst.args), w).value.0;
      BindTouchesOnlyNames(vals, inst.results, RepairFirst(inst.repair, raw));
      var (vals', w') := ExecInst(env, types, slot, inst, vals, w).value;
      RunKeepsOthers(env, types, slotOf, body[1..], vals', w', v);
    }
  }

  lemma {:induction false} KeptAvoids(body: seq<InstData>, keep: seq<bool>, v: Value)
    requires |keep| == |body| && forall i :: 0 <= i < |body| ==> v !in body[i].results
    ensures forall i :: 0 <= i < |Kept(body, keep)| ==> v !in Kept(body, keep)[i].results
    ensures v !in Lost(body, keep)
  {
    if body == [] {
    } else {
      KeptAvoids(body[1..], keep[1..], v);
    }
  }

  /** What a `GAS` instruction binds: the gas left once it is paid for. */
  lemma GasReading(env: Env, types: seq<Type>, slot: Word, inst: InstData, vals: Values, w: World)
    requires IsGas(inst.op) && inst.repair == NoRepair && ExecInst(env, types, slot, inst, vals, w).Some?
    ensures |inst.results| == 1 && AllBound(vals, inst.args)
    ensures Cost(env, inst, Operands(vals, inst.args), w) <= w.gas
    ensures var left := w.gas - Cost(env, inst, Operands(vals, inst.args), w);
            ExecInst(env, types, slot, inst, vals, w)
            == Some((vals[inst.results[0] := W.Encode(left)], w.(gas := left)))
  {
    hide ByByte, Cost, W.Encode;
    var args := Operands(vals, inst.args);
    var paid := Pay(env, inst, args, w).value;
    assert OpcodeEffect(env, 0x5a, args, paid) == ([W.Encode(paid.gas)], paid);
    assert Bind(vals, inst.results, [W.Encode(paid.gas)]) == vals[inst.results[0] := W.Encode(paid.gas)];
  }

  /** Two `GAS` readings under different amounts of gas differ for good. */
  lemma ReadingDiffers(
    env: Env, types: seq<Type>, slot: Word, inst: InstData, a: Values, b: Values, dead: set<Value>, w: World,
    extra: nat)
    requires IsGas(inst.op) && inst.repair == NoRepair && extra > 0 && w.gas + extra < Pow2(W.WORD_BITS)
    requires AgreeOutside(a, b, dead) && forall v :: v in inst.args ==> v !in dead
    requires ExecInst(env, types, slot, inst, a, w).Some?
    requires ExecInst(env, types, slot, inst, b, w.Richer(extra)).Some?
    ensures |inst.results| == 1
    ensures var a' := ExecInst(env, types, slot, inst, a, w).value.0;
            var b' := ExecInst(env, types, slot, inst, b, w.Richer(extra)).value.0;
            var v := inst.results[0];
            v in a' && v in b' && a'[v] != b'[v]
  {
    hide ExecInst, W.Encode, AgreeOutside;
    GasReading(env, types, slot, inst, a, w);
    GasReading(env, types, slot, inst, b, w.Richer(extra));
    OperandsAgree(a, b, dead, inst.args);
    assert w.Richer(extra).Bare() == w.Bare();
    var left := w.gas - Cost(env, inst, Operands(a, inst.args), w);
    EncodesItself(left);
    EncodesItself(left + extra);
  }

  lemma EncodesItself(n: nat)
    requires n < Pow2(W.WORD_BITS)
    ensures W.Encode(n) == n
  {
    ModSmall(n, Pow2(W.WORD_BITS));
  }

  lemma BindsOnceTail(body: seq<InstData>)
    requires body != [] && BindsOnce(body)
    ensures BindsOnce(body[1..])
    ensures forall v, k :: v in body[0].results && 0 <= k < |body[1..]| ==> v !in body[1..][k].results
  {
    forall i, j, v | 0 <= i < j < |body[1..]| && v in body[1..][i].results
      ensures v !in body[1..][j].results
    {
      assert v in body[i + 1].results;
    }
  }

  /** No instruction adds to the gas. */
  lemma SpendsGas(env: Env, types: seq<Type>, slot: Word, inst: InstData, vals: Values, w: World)
    requires ExecInst(env, types, slot, inst, vals, w).Some?
    ensures ExecInst(env, types, slot, inst, vals, w).value.1.gas <= w.gas
  {
    hide Effect, Bind, RepairFirst;
    var args := Operands(vals, inst.args);
    var paid := Pay(env, inst, args, w).value;
    EffectSpends(env, inst.op, inst.ty, OperandType(types, inst), slot, args, paid);
  }

  lemma EffectSpends(env: Env, op: Op, ty: Type, operand: Type, slot: Word, args: seq<Word>, w: World)
    requires Effect(env, op, ty, operand, slot, args, w).Some?
    ensures Effect(env, op, ty, operand, slot, args, w).value.1.gas <= w.gas
  {
    hide ByByte;
    if IsGas(op) {
      assert OpcodeEffect(env, 0x5a, args, w).1 == w;
    } else if IsCall(op) {
      hide StateOpcode;
    } else {
      EffectShift(env, op, ty, operand, slot, args, w, 0);
    }
  }

  /** A difference in what a kept instruction binds is there to stay. */
  lemma DifferenceStays(
    env: Env, types: seq<Type>, slotOf: seq<Value> -> Word, body: seq<InstData>, keep: seq<bool>,
    a: Values, b: Values, u: World, w: World, v: Value)
    requires |keep| == |body| > 0 && keep[0] && BindsOnce(body) && v in body[0].results
    requires RunBody(env, types, slotOf, body, a, u).Some?
    requires RunBody(env, types, slotOf, Kept(body, keep), b, w).Some?
    requires ExecInst(env, types, slotOf(body[0].results), body[0], a, u).Some?
    requires ExecInst(env, types, slotOf(body[0].results), body[0], b, w).Some?
    requires var a' := ExecInst(env, types, slotOf(body[0].results), body[0], a, u).value.0;
             var b' := ExecInst(env, types, slotOf(body[0].results), body[0], b, w).value.0;
             v in a' && v in b' && a'[v] != b'[v]
    ensures v !in Lost(body, keep)
    ensures var va := RunBody(env, types, slotOf, body, a, u).value.0;
            var vb := RunBody(env, types, slotOf, Kept(body, keep), b, w).value.0;
            v in va && v in vb && vb[v] != va[v]
  {
    hide ExecInst, BindsOnce;
    var inst, slot := body[0], slotOf(body[0].results);
    var rest := Kept(body[1..], keep[1..]);
    assert Kept(body, keep)[0] == inst && Kept(body, keep)[1..] == rest;
    var (a', u') := ExecInst(env, types, slot, inst, a, u).value;
    var (b', w') := ExecInst(env, types, slot, inst, b, w).value;
    BindsOnceTail(body);
    KeptAvoids(body[1..], keep[1..], v);
    RunKeepsOthers(env, types, slotOf, body[1..], a', u', v);
    RunKeepsOthers(env, types, slotOf, rest, b', w', v);
  }

  /** A kept `GAS` in the richer run: its value differs and stays. */
  lemma GasShows(
    env: Env, types: seq<Type>, slotOf: seq<Value> -> Word, body: seq<InstData>, keep: seq<bool>,
    a: Values, b: Values, dead: set<Value>, w: World, extra: nat) returns (v: Value)
    requires |keep| == |body| > 0 && keep[0] && IsGas(body[0].op) && body[0].repair == NoRepair
    requires BindsOnce(body) && extra > 0 && w.gas + extra < Pow2(W.WORD_BITS)
    requires AgreeOutside(a, b, dead) && forall x :: x in body[0].args ==> x !in dead
    requires RunBody(env, types, slotOf, body, a, w).Some?
    requires RunBody(env, types, slotOf, Kept(body, keep), b, w.Richer(extra)).Some?
    ensures v in body[0].results && v !in Lost(body, keep)
    ensures var va := RunBody(env, types, slotOf, body, a, w).value.0;
            var vb := RunBody(env, types, slotOf, Kept(body, keep), b, w.Richer(extra)).value.0;
            v in va && v in vb && vb[v] != va[v]
  {
    hide ExecInst, AgreeOutside, BindsOnce;
    assert Kept(body, keep)[0] == body[0];
    ReadingDiffers(env, types, slotOf(body[0].results), body[0], a, b, dead, w, extra);
    v := body[0].results[0];
    assert v in body[0].results;
    DifferenceStays(env, types, slotOf, body, keep, a, b, w, w.Richer(extra), v);
  }

  /**
   A kept `GAS` that sees the saving ends up with another value: `v`, bound by
   instruction `k`.
   */
  lemma {:induction false} DeletionShows(
    env: Env, types: seq<Type>, slotOf: seq<Value> -> Word, body: seq<InstData>, keep: seq<bool>, term: Terminator,
    a: Values, b: Values, dead: set<Value>, w: World, extra: nat)
    returns (k: nat, v: Value)
    requires |keep| == |body| && Beside(body, keep, term, a, b, dead) && BindsOnce(body) && RawUnrepaired(body)
    requires RunBody(env, types, slotOf, body, a, w).Some? && w.gas + extra < Pow2(W.WORD_BITS)
    requires Unseen(env, types, slotOf, Handover, body, keep, a, w, extra)
    requires !Unseen(env, types, slotOf, Reader, body, keep, a, w, extra)
    requires RunBody(env, types, slotOf, Kept(body, keep), b, w.Richer(extra)).Some?
    ensures k < |body| && v in body[k].results && v !in Lost(body, keep)
    ensures var va := RunBody(env, types, slotOf, body, a, w).value.0;
            var vb := RunBody(env, types, slotOf, Kept(body, keep), b, w.Richer(extra)).value.0;
            v in va && (v in vb ==> vb[v] != va[v])
    decreases |body|
  {
    hide ExecInst, Beside, AgreeOutside, MayDelete, RunBody, Saved, Kept, Lost, Operands, CallUnmoved, Cost;
    var inst, slot := body[0], slotOf(body[0].results);
    Unfold(env, types, slotOf, body, keep, a, w);
    UnseenHead(env, types, slotOf, Handover, body, keep, a, w, extra);
    var (a', w') := ExecInst(env, types, slot, inst, a, w).value;
    BesideHead(body, keep, term, a, b, dead);
    BindsOnceTail(body);
    if keep[0] && IsGas(inst.op) && extra > 0 {
      v := GasShows(env, types, slotOf, body, keep, a, b, dead, w, extra);
      k := 0;
    } else if keep[0] {
      var b' := AdvanceKept(env, types, slot, body, keep, term, a, b, dead, w, extra);
      RunPrepends(env, types, slotOf, inst, Kept(body[1..], keep[1..]), b, w.Richer(extra));
      SpendsGas(env, types, slot, inst, a, w);
      k, v := DeletionShows(env, types, slotOf, body[1..], keep[1..], term, a', b', dead, w', extra);
      k := k + 1;
    } else {
      AdvanceDeleted(env, types, slot, body, keep, term, a, b, dead, w);
      var cost, dead' := Cost(env, inst, Operands(a, inst.args), w), dead + Named(inst.results);
      assert w'.Richer(extra + cost) == w.Richer(extra);
      k, v := DeletionShows(env, types, slotOf, body[1..], keep[1..], term, a', b, dead', w', extra + cost);
      k := k + 1;
    }
  }

  /**
   The exact condition, whatever instructions cost. Where the calls kept behind a
   charged deletion go the same way with more gas, what the removal rule allows
   leaves the block's values and world as they were exactly when no `GAS` is kept
   behind a charged deletion.
   */
  lemma RemovalIsSoundIff(
    env: Env, types: seq<Type>, slotOf: seq<Value> -> Word, body: seq<InstData>, keep: seq<bool>, term: Terminator,
    vals: Values, w: World)
    requires |keep| == |body| && MayDelete(body, keep, term) && BindsOnce(body) && RawUnrepaired(body)
    requires RunBody(env, types, slotOf, body, vals, w).Some? && w.gas < Pow2(W.WORD_BITS)
    requires Unseen(env, types, slotOf, Handover, body, keep, vals, w, 0)
    ensures Reproduces(env, types, slotOf, body, keep, vals, w)
       <==> NoGasBehindCharge(env, types, slotOf, body, keep, vals, w)
  {
    hide ExecInst, Saved, Kept, Lost, RunBody, BindsOnce, RawUnrepaired, MayDelete, Unseen, NoGasBehindCharge;
    if NoGasBehindCharge(env, types, slotOf, body, keep, vals, w) {
      RemovalIsSound(env, types, slotOf, body, keep, term, vals, w);
    } else if Reproduces(env, types, slotOf, body, keep, vals, w) {
      EmptyBeside(body, keep, term, vals);
      ReadersSeeCharges(env, types, slotOf, body, keep, vals, w, 0);
      assert w.Richer(0) == w;
      var k, v := DeletionShows(env, types, slotOf, body, keep, term, vals, vals, {}, w, 0);
      assert false;
    }
  }

  lemma EmptyBeside(body: seq<InstData>, keep: seq<bool>, term: Terminator, vals: Values)
    requires |keep| == |body| && MayDelete(body, keep, term)
    ensures Beside(body, keep, term, vals, vals, {})
  {
  }

  /** The failing input: a dead `add` that costs something, in front of a `GAS` that the function returns. */
  lemma DeadAddBeforeGas(
    env: Env, types: seq<Type>, slotOf: seq<Value> -> Word, add: InstData, gas: InstData, vals: Values, w: World)
    requires add.op.Add? && gas.op == Opcode(GAS) && gas.repair == NoRepair
    requires |add.results| == |gas.results| == 1 && add.results != gas.results && gas.args == []
    requires RunBody(env, types, slotOf, [add, gas], vals, w).Some? && w.gas < Pow2(W.WORD_BITS)
    requires AllBound(vals, add.args) && Cost(env, add, Operands(vals, add.args), w) > 0
    ensures MayDelete([add, gas], [false, true], Return(gas.results))
    ensures !Reproduces(env, types, slotOf, [add, gas], [false, true], vals, w)
  {
    hide ExecInst, Kept, Lost, RunBody, ByByte, Cost;
    var body, keep := [add, gas], [false, true];
    assert body[1].op == gas.op && body[0].op == add.op;
    assert CostAt(env, types, slotOf, body, vals, w, 0) > 0 && !keep[0] && keep[1] && IsGas(body[1].op);
    assert !NoGasBehindCharge(env, types, slotOf, body, keep, vals, w);
    NoCallsUnseen(env, types, slotOf, body, keep, vals, w, 0);
    RemovalIsSoundIff(env, types, slotOf, body, keep, Return(gas.results), vals, w);
  }

  /** Without calls there is nobody to hand gas to. */
  lemma {:induction false} NoCallsUnseen(
    env: Env, types: seq<Type>, slotOf: seq<Value> -> Word, body: seq<InstData>, keep: seq<bool>,
    vals: Values, w: World, extra: nat)
    requires |keep| == |body| && RunBody(env, types, slotOf, body, vals, w).Some?
    requires forall j :: 0 <= j < |body| && keep[j] ==> !IsCall(body[j].op)
    ensures Unseen(env, types, slotOf, Handover, body, keep, vals, w, extra)
    decreases |body|
  {
    hide ExecInst, Cost;
    if body == [] {
    } else {
      Unfold(env, types, slotOf, body, keep, vals, w);
      var (vals', w') := ExecInst(env, types, slotOf(body[0].results), body[0], vals, w).value;
      var saved := if keep[0] then extra else extra + Cost(env, body[0], Operands(vals, body[0].args), w);
      NoCallsUnseen(env, types, slotOf, body[1..], keep[1..], vals', w', saved);
    }
  }
}
