/**
 The removal rule when nothing is known of the code a block calls: it must hold
 whatever the callees do with the gas they are handed.
 */
module AllCallees {
  import opened Powers
  import opened Isa
  import opened Types
  import opened Effects
  import opened Instructions
  import opened WidthRepair
  import opened Machine
  import opened Removal
  import W = Words

  /** Environments that differ in nothing but their callees. */
  ghost predicate SameButCallees(env: Env, e: Env) {
    e == env.(external := e.external, internal := e.internal)
  }

  /** The schedule prices instructions, whatever they are applied to and wherever. */
  ghost predicate FlatPrices(env: Env) {
    forall inst, args, w :: env.cost(inst, args, w) == Price(env, inst)
  }

  function Price(env: Env, inst: InstData): nat {
    env.cost(inst, [], World(map[], 0, map[], map[], [], 0, 0))
  }

  predicate GasLeavesBlock(op: Op) { IsGas(op) || IsCall(op) }

  /** Neither a `GAS` nor a call is kept behind a deleted instruction with a price. */
  ghost predicate NoneBehindPrice(env: Env, body: seq<InstData>, keep: seq<bool>)
    requires |keep| == |body|
  {
    forall i, j :: 0 <= i < j < |body| && !keep[i] && keep[j] && Price(env, body[i]) > 0 ==>
      !GasLeavesBlock(body[j].op)
  }

  /** In this environment, where the block runs, the block without the deleted instructions does the same. */
  ghost predicate RuleHolds(
    e: Env, types: seq<Type>, slotOf: seq<Value> -> Word, body: seq<InstData>, keep: seq<bool>, vals: Values, w: World)
    requires |keep| == |body|
  {
    RunBody(e, types, slotOf, body, vals, w).Some? ==> Reproduces(e, types, slotOf, body, keep, vals, w)
  }

  // ----- enough -----

  lemma {:induction false} CostAtIsPrice(
    env: Env, types: seq<Type>, slotOf: seq<Value> -> Word, body: seq<InstData>, vals: Values, w: World, i: nat)
    requires i < |body| && RunBody(env, types, slotOf, body, vals, w).Some? && FlatPrices(env)
    ensures CostAt(env, types, slotOf, body, vals, w, i) == Price(env, body[i])
    decreases i
  {
    hide Price, Effect;
    if i == 0 {
    } else {
      var (vals', w') := ExecInst(env, types, slotOf(body[0].results), body[0], vals, w).value;
      CostAtIsPrice(env, types, slotOf, body[1..], vals', w', i - 1);
    }
  }

  lemma {:induction false} NoCallBehindPrice(
    env: Env, types: seq<Type>, slotOf: seq<Value> -> Word, body: seq<InstData>, keep: seq<bool>,
    vals: Values, w: World, extra: nat)
    requires |keep| == |body| && RunBody(env, types, slotOf, body, vals, w).Some? && FlatPrices(env)
    requires NoneBehindPrice(env, body, keep)
    requires extra > 0 ==> forall j :: 0 <= j < |body| && keep[j] ==> !GasLeavesBlock(body[j].op)
    ensures Unseen(env, types, slotOf, Handover, body, keep, vals, w, extra)
    decreases |body|
  {
    hide ExecInst, Price;
    if body == [] {
    } else {
      Unfold(env, types, slotOf, body, keep, vals, w);
      NoneBehindTail(env, body, keep);
      var (vals', w') := ExecInst(env, types, slotOf(body[0].results), body[0], vals, w).value;
      var saved := if keep[0] then extra else extra + Cost(env, body[0], Operands(vals, body[0].args), w);
      NoCallBehindPrice(env, types, slotOf, body[1..], keep[1..], vals', w', saved);
    }
  }

  lemma NoneBehindTail(env: Env, body: seq<InstData>, keep: seq<bool>)
    requires |keep| == |body| > 0 && NoneBehindPrice(env, body, keep)
    ensures NoneBehindPrice(env, body[1..], keep[1..])
    ensures !keep[0] && Price(env, body[0]) > 0 ==>
              forall j :: 0 <= j < |body[1..]| && keep[1..][j] ==> !GasLeavesBlock(body[1..][j].op)
  {
    hide Price;
    forall i, j | 0 <= i < j < |body[1..]| && !keep[1..][i] && keep[1..][j] && Price(env, body[1..][i]) > 0
      ensures !GasLeavesBlock(body[1..][j].op)
    {
      assert body[1..][i] == body[i + 1] && body[1..][j] == body[j + 1];
    }
    if !keep[0] && Price(env, body[0]) > 0 {
      forall j | 0 <= j < |body[1..]| && keep[1..][j]
        ensures !GasLeavesBlock(body[1..][j].op)
      {
        assert body[1..][j] == body[j + 1] && keep[j + 1];
      }
    }
  }

  lemma NoGasBehindPrice(
    env: Env, types: seq<Type>, slotOf: seq<Value> -> Word, body: seq<InstData>, keep: seq<bool>, vals: Values,
    w: World)
    requires |keep| == |body| && RunBody(env, types, slotOf, body, vals, w).Some? && FlatPrices(env)
    requires NoneBehindPrice(env, body, keep)
    ensures NoGasBehindCharge(env, types, slotOf, body, keep, vals, w)
  {
    hide RunBody, Price;
    forall i, j | 0 <= i < j < |body| && !keep[i] && keep[j] && CostAt(env, types, slotOf, body, vals, w, i) > 0
      ensures !IsGas(body[j].op)
    {
      CostAtIsPrice(env, types, slotOf, body, vals, w, i);
      assert Price(env, body[i]) > 0;
    }
  }

  // ----- a callee that minds -----

  /** An environment whose callees do something else when handed exactly `g` gas. */
  function Trap(env: Env, g: nat, r: Word): Env {
    env.(external := (b, args, w: World) => if w.gas == g then (r, w) else env.external(b, args, w),
         internal := (f, args, w: World) => if w.gas == g then None else env.internal(f, args, w))
  }

  lemma EffectSame(
    env: Env, g: nat, r: Word, op: Op, ty: Type, operand: Type, slot: Word, args: seq<Word>, w: World)
    requires IsCall(op) ==> w.gas != g
    ensures Effect(Trap(env, g, r), op, ty, operand, slot, args, w) == Effect(env, op, ty, operand, slot, args, w)
  {
    hide EvalPure, NamedEffect, Touch, Touched, ByByte, EvalOpcode, Range;
    if op.Opcode? && !IsCall(op) {
      assert StateOpcode(Trap(env, g, r), op.spec.byte, args, w) == StateOpcode(env, op.spec.byte, args, w);
      hide StateOpcode;
    }
  }

  /** Away from the trap an instruction does the same. */
  lemma InstSame(
    env: Env, g: nat, r: Word, types: seq<Type>, slot: Word, inst: InstData, vals: Values, w: World)
    requires IsCall(inst.op) && Paid(env, inst, vals, w) ==> Pay(env, inst, Operands(vals, inst.args), w).value.gas != g
    ensures ExecInst(Trap(env, g, r), types, slot, inst, vals, w) == ExecInst(env, types, slot, inst, vals, w)
  {
    hide Effect, Bind, RepairFirst, Trap;
    TrapCosts(env, g, r);
    if Paid(env, inst, vals, w) {
      var args := Operands(vals, inst.args);
      EffectSame(env, g, r, inst.op, inst.ty, OperandType(types, inst), slot, args, Pay(env, inst, args, w).value);
    }
  }

  lemma TrapCosts(env: Env, g: nat, r: Word)
    ensures SameButCallees(env, Trap(env, g, r)) && Trap(env, g, r).cost == env.cost
  {
  }

  /** Below the trap nothing changes. */
  lemma {:induction false} RunSameBelow(
    env: Env, g: nat, r: Word, types: seq<Type>, slotOf: seq<Value> -> Word, body: seq<InstData>, vals: Values,
    w: World)
    requires w.gas < g
    ensures RunBody(Trap(env, g, r), types, slotOf, body, vals, w) == RunBody(env, types, slotOf, body, vals, w)
    decreases |body|
  {
    hide ExecInst, Trap;
    if body == [] {
    } else {
      PaysDown(env, body[0], vals, w);
      InstSame(env, g, r, types, slotOf(body[0].results), body[0], vals, w);
      match ExecInst(env, types, slotOf(body[0].results), body[0], vals, w)
      case None =>
      case Some((vals', w')) =>
        SpendsGas(env, types, slotOf(body[0].results), body[0], vals, w);
        RunSameBelow(env, g, r, types, slotOf, body[1..], vals', w');
    }
  }

  lemma PaysDown(env: Env, inst: InstData, vals: Values, w: World)
    ensures Paid(env, inst, vals, w) ==> Pay(env, inst, Operands(vals, inst.args), w).value.gas <= w.gas
  {
  }

  /** Deleted instructions are removable. */
  ghost predicate OnlyPureDeleted(body: seq<InstData>, keep: seq<bool>)
    requires |keep| == |body|
  {
    forall i :: 0 <= i < |body| && !keep[i] ==> body[i].op.OpEffects().IsRemovable()
  }

  lemma PureIsNoCall(env: Env, types: seq<Type>, slot: Word, inst: InstData, vals: Values, w: World)
    requires inst.op.OpEffects().IsRemovable() && ExecInst(env, types, slot, inst, vals, w).Some?
    ensures !IsCall(inst.op)
  {
    hide ByByte, OfOpcode, OpcodeEffect;
    if inst.op.Opcode? {
      PureMeansComputes(inst.op.spec);
    } else {
      PureIsUnnamed(inst.op);
    }
  }

  /** Where nothing kept calls, nothing changes. */
  lemma {:induction false} RunSameNoCalls(
    env: Env, g: nat, r: Word, types: seq<Type>, slotOf: seq<Value> -> Word, body: seq<InstData>, keep: seq<bool>,
    vals: Values, w: World)
    requires |keep| == |body| && OnlyPureDeleted(body, keep) && RunBody(env, types, slotOf, body, vals, w).Some?
    requires forall k :: 0 <= k < |body| && keep[k] ==> !IsCall(body[k].op)
    ensures RunBody(Trap(env, g, r), types, slotOf, body, vals, w) == RunBody(env, types, slotOf, body, vals, w)
    decreases |body|
  {
    hide ExecInst, Trap;
    if body == [] {
    } else {
      if !keep[0] {
        PureIsNoCall(env, types, slotOf(body[0].results), body[0], vals, w);
      }
      InstSame(env, g, r, types, slotOf(body[0].results), body[0], vals, w);
      var (vals', w') := ExecInst(env, types, slotOf(body[0].results), body[0], vals, w).value;
      RunSameNoCalls(env, g, r, types, slotOf, body[1..], keep[1..], vals', w');
    }
  }

  lemma DeletedPays(env: Env, types: seq<Type>, slot: Word, inst: InstData, vals: Values, w: World)
    requires inst.op.OpEffects().IsRemovable() && ExecInst(env, types, slot, inst, vals, w).Some?
    ensures AllBound(vals, inst.args)
    ensures ExecInst(env, types, slot, inst, vals, w).value.1.gas + Cost(env, inst, Operands(vals, inst.args), w)
         == w.gas
  {
    hide ExecInst, AgreeOutside;
    SelfAgrees(vals);
    DeletedStep(env, types, slot, inst, vals, vals, {}, w);
  }

  lemma SelfAgrees(vals: Values)
    ensures AgreeOutside(vals, vals, {})
  {
  }

  /** A run spends at least what deleting would save. */
  lemma {:induction false} SavedIsSpent(
    env: Env, types: seq<Type>, slotOf: seq<Value> -> Word, body: seq<InstData>, keep: seq<bool>, vals: Values,
    w: World)
    requires |keep| == |body| && OnlyPureDeleted(body, keep) && RunBody(env, types, slotOf, body, vals, w).Some?
    ensures RunBody(env, types, slotOf, body, vals, w).value.1.gas + Saved(env, types, slotOf, body, keep, vals, w)
         <= w.gas
    decreases |body|
  {
    hide ExecInst, Cost;
    if body == [] {
    } else {
      Unfold(env, types, slotOf, body, keep, vals, w);
      var (vals', w') := ExecInst(env, types, slotOf(body[0].results), body[0], vals, w).value;
      SavedIsSpent(env, types, slotOf, body[1..], keep[1..], vals', w');
      if keep[0] {
        SpendsGas(env, types, slotOf(body[0].results), body[0], vals, w);
      } else {
        DeletedPays(env, types, slotOf(body[0].results), body[0], vals, w);
      }
    }
  }

  /** A trap set below what the run leaves, the saving included, is met by no call in front of every charge. */
  lemma {:induction false} RunSameAbove(
    env: Env, g: nat, r: Word, types: seq<Type>, slotOf: seq<Value> -> Word, body: seq<InstData>, keep: seq<bool>,
    vals: Values, w: World)
    requires |keep| == |body| && OnlyPureDeleted(body, keep) && RunBody(env, types, slotOf, body, vals, w).Some?
    requires FlatPrices(env) && NoneBehindPrice(env, body, keep)
    requires g < RunBody(env, types, slotOf, body, vals, w).value.1.gas + Saved(env, types, slotOf, body, keep, vals, w)
    ensures RunBody(Trap(env, g, r), types, slotOf, body, vals, w) == RunBody(env, types, slotOf, body, vals, w)
    decreases |body|
  {
    hide ExecInst, Trap, Price, Cost, NoneBehindPrice, OnlyPureDeleted;
    if body == [] {
    } else {
      var slot := slotOf(body[0].results);
      Unfold(env, types, slotOf, body, keep, vals, w);
      var (vals', w') := ExecInst(env, types, slot, body[0], vals, w).value;
      NoneBehindTail(env, body, keep);
      PureTail(body, keep);
      CostIsPrice(env, body[0], Operands(vals, body[0].args), w);
      if keep[0] {
        SavedIsSpent(env, types, slotOf, body[1..], keep[1..], vals', w');
        PaidBeforeDone(env, types, slot, body[0], vals, w);
      } else {
        PureIsNoCall(env, types, slot, body[0], vals, w);
      }
      InstSame(env, g, r, types, slot, body[0], vals, w);
      if keep[0] || Price(env, body[0]) == 0 {
        RunSameAbove(env, g, r, types, slotOf, body[1..], keep[1..], vals', w');
      } else {
        RunSameNoCalls(env, g, r, types, slotOf, body[1..], keep[1..], vals', w');
      }
    }
  }

  lemma PureTail(body: seq<InstData>, keep: seq<bool>)
    requires |keep| == |body| > 0 && OnlyPureDeleted(body, keep)
    ensures OnlyPureDeleted(body[1..], keep[1..])
    ensures !keep[0] ==> body[0].op.OpEffects().IsRemovable()
  {
  }

  lemma CostIsPrice(env: Env, inst: InstData, args: seq<Word>, w: World)
    requires FlatPrices(env)
    ensures Cost(env, inst, args, w) == Price(env, inst)
  {
    hide Price;
  }

  lemma PaidBeforeDone(env: Env, types: seq<Type>, slot: Word, inst: InstData, vals: Values, w: World)
    requires ExecInst(env, types, slot, inst, vals, w).Some?
    ensures Paid(env, inst, vals, w)
    ensures ExecInst(env, types, slot, inst, vals, w).value.1.gas
         <= Pay(env, inst, Operands(vals, inst.args), w).value.gas
  {
    hide Effect, Bind, RepairFirst, Cost;
    var args := Operands(vals, inst.args);
    EffectSpends(env, inst.op, inst.ty, OperandType(types, inst), slot, args, Pay(env, inst, args, w).value);
  }

  // ----- necessary -----

  /** The first kept instruction that lets gas leave the block behind a price. */
  lemma {:induction false} FirstBehind(env: Env, body: seq<InstData>, keep: seq<bool>) returns (i: nat, j: nat)
    requires |keep| == |body| && !NoneBehindPrice(env, body, keep)
    ensures i < j < |body| && !keep[i] && keep[j] && Price(env, body[i]) > 0 && GasLeavesBlock(body[j].op)
    ensures NoneBehindPrice(env, body[..j], keep[..j])
    decreases |body|
  {
    hide Price, GasLeavesBlock;
    assert body != [];
    var n := |body| - 1;
    if NoneBehindPrice(env, body[..n], keep[..n]) {
      j := n;
      i := LastBehind(env, body, keep);
    } else {
      i, j := FirstBehind(env, body[..n], keep[..n]);
      assert body[..n][..j] == body[..j] && keep[..n][..j] == keep[..j];
    }
  }

  lemma LastBehind(env: Env, body: seq<InstData>, keep: seq<bool>) returns (i: nat)
    requires |keep| == |body| > 0 && !NoneBehindPrice(env, body, keep)
    requires NoneBehindPrice(env, body[..|body| - 1], keep[..|body| - 1])
    ensures i < |body| - 1 && !keep[i] && keep[|body| - 1] && Price(env, body[i]) > 0
    ensures GasLeavesBlock(body[|body| - 1].op)
  {
    hide Price, GasLeavesBlock;
    var n, k :| 0 <= n < k < |body| && !keep[n] && keep[k] && Price(env, body[n]) > 0 && GasLeavesBlock(body[k].op);
    assert k == |body| - 1;
    i := n;
  }

  lemma {:induction false} SplitKept(before: seq<InstData>, after: seq<InstData>, k1: seq<bool>, k2: seq<bool>)
    requires |k1| == |before| && |k2| == |after|
    ensures Kept(before + after, k1 + k2) == Kept(before, k1) + Kept(after, k2)
    ensures Lost(before + after, k1 + k2) == Lost(before, k1) + Lost(after, k2)
    decreases |before|
  {
    if before == [] {
      assert before + after == after && k1 + k2 == k2;
    } else {
      assert (before + after)[1..] == before[1..] + after && (k1 + k2)[1..] == k1[1..] + k2;
      SplitKept(before[1..], after, k1[1..], k2);
    }
  }

  /** A priced deletion saves something. */
  lemma {:induction false} PricedSaves(
    env: Env, types: seq<Type>, slotOf: seq<Value> -> Word, body: seq<InstData>, keep: seq<bool>,
    vals: Values, w: World, i: nat)
    requires |keep| == |body| && RunBody(env, types, slotOf, body, vals, w).Some? && FlatPrices(env)
    requires i < |body| && !keep[i] && Price(env, body[i]) > 0
    ensures Saved(env, types, slotOf, body, keep, vals, w) > 0
    decreases |body|
  {
    hide ExecInst, Cost, Price;
    Unfold(env, types, slotOf, body, keep, vals, w);
    CostIsPrice(env, body[0], Operands(vals, body[0].args), w);
    if i == 0 {
    } else {
      var (vals', w') := ExecInst(env, types, slotOf(body[0].results), body[0], vals, w).value;
      PricedSaves(env, types, slotOf, body[1..], keep[1..], vals', w', i - 1);
    }
  }

  /** Everything up to the first observer behind a price, in an environment that agrees with the first on the way. */
  lemma UpToObserver(
    e: Env, types: seq<Type>, slotOf: seq<Value> -> Word, before: seq<InstData>, kept: seq<bool>, rest: seq<InstData>,
    others: seq<bool>, term: Terminator, vals: Values, w: World) returns (a: Values, b: Values, u: World)
    requires |kept| == |before| && |others| == |rest| > 0 && others[0]
    requires MayDelete(before + rest, kept + others, term) && FlatPrices(e) && NoneBehindPrice(e, before, kept)
    requires RunBody(e, types, slotOf, before + rest, vals, w).Some?
    ensures RunBody(e, types, slotOf, before, vals, w) == Some((a, u))
    ensures RunBody(e, types, slotOf, rest, a, u) == RunBody(e, types, slotOf, before + rest, vals, w)
    ensures var saved := Saved(e, types, slotOf, before, kept, vals, w);
            && RunBody(e, types, slotOf, Kept(before, kept), vals, w) == Some((b, u.Richer(saved)))
            && RunBody(e, types, slotOf, Kept(before + rest, kept + others), vals, w)
               == RunBody(e, types, slotOf, Kept(rest, others), b, u.Richer(saved))
    ensures AgreeOutside(a, b, Lost(before, kept))
    ensures forall x :: x in rest[0].args ==> x !in Lost(before, kept)
  {
    hide ExecInst, RunBody, Kept, Lost, Saved, Price, NoneBehindPrice, AgreeOutside, NoGasBehindCharge, Unseen;
    RunConcat(e, types, slotOf, before, rest, vals, w);
    a := RunBody(e, types, slotOf, before, vals, w).value.0;
    u := RunBody(e, types, slotOf, before, vals, w).value.1;
    MayDeletePrefix(before, rest, kept, others, term);
    NoGasBehindPrice(e, types, slotOf, before, kept, vals, w);
    NoCallBehindPrice(e, types, slotOf, before, kept, vals, w, 0);
    RemovalIsSound(e, types, slotOf, before, kept, term, vals, w);
    b := RunBody(e, types, slotOf, Kept(before, kept), vals, w).value.0;
    SplitKept(before, rest, kept, others);
    RunConcat(e, types, slotOf, Kept(before, kept), Kept(rest, others), vals, w);
  }

  lemma {:induction false} MayDeletePrefix(
    before: seq<InstData>, rest: seq<InstData>, kept: seq<bool>, others: seq<bool>, term: Terminator)
    requires |kept| == |before| && |others| == |rest| > 0 && others[0]
    requires MayDelete(before + rest, kept + others, term)
    ensures MayDelete(before, kept, term) && OnlyPureDeleted(before, kept)
    ensures forall x :: x in rest[0].args ==> x !in Lost(before, kept)
    decreases |before|
  {
    var body, keep := before + rest, kept + others;
    forall i | 0 <= i < |before| && !kept[i]
      ensures before[i].op.OpEffects().IsRemovable()
      ensures forall v :: v in before[i].results ==> !ReadsValue(term, v)
      ensures forall j, v :: i < j < |before| && kept[j] && v in before[i].results ==> v !in before[j].args
      ensures forall v :: v in before[i].results ==> v !in rest[0].args
    {
      assert body[i] == before[i] && keep[i] == kept[i];
      forall j, v | i < j < |before| && kept[j] && v in before[i].results
        ensures v !in before[j].args
      {
        assert body[j] == before[j] && keep[j] == kept[j];
      }
      assert body[|before|] == rest[0] && keep[|before|];
    }
    LostIsBound(before, kept);
  }

  /** A lost value is a result of some deleted instruction. */
  lemma {:induction false} LostIsBound(body: seq<InstData>, keep: seq<bool>)
    requires |keep| == |body|
    ensures forall v :: v in Lost(body, keep) ==> exists i :: 0 <= i < |body| && !keep[i] && v in body[i].results
    decreases |body|
  {
    if body == [] {
    } else {
      LostIsBound(body[1..], keep[1..]);
      forall v | v in Lost(body, keep)
        ensures exists i :: 0 <= i < |body| && !keep[i] && v in body[i].results
      {
        if v in Lost(body[1..], keep[1..]) {
          var i :| 0 <= i < |body[1..]| && !keep[1..][i] && v in body[1..][i].results;
          assert !keep[i + 1] && v in body[i + 1].results;
        } else {
          assert !keep[0] && v in body[0].results;
        }
      }
    }
  }

  /** A difference behind a common start shows in the whole block. */
  lemma NotReproduced(
    e: Env, types: seq<Type>, slotOf: seq<Value> -> Word, before: seq<InstData>, kept: seq<bool>, rest: seq<InstData>,
    others: seq<bool>, vals: Values, w: World, v: Value)
    requires |kept| == |before| && |others| == |rest| > 0 && BindsOnce(before + rest)
    requires RunBody(e, types, slotOf, before + rest, vals, w).Some?
    requires v in rest[0].results && v !in Lost(rest, others)
    requires RunBody(e, types, slotOf, Kept(before + rest, kept + others), vals, w).Some?
    requires var va := RunBody(e, types, slotOf, before + rest, vals, w).value.0;
             var vb := RunBody(e, types, slotOf, Kept(before + rest, kept + others), vals, w).value.0;
             v in va && v in vb && vb[v] != va[v]
    ensures !Reproduces(e, types, slotOf, before + rest, kept + others, vals, w)
  {
    hide RunBody, Kept, Lost, BindsOnce;
    SplitKept(before, rest, kept, others);
    BoundLater(before, rest, v);
    LostIsBound(before, kept);
  }

  lemma BoundLater(before: seq<InstData>, rest: seq<InstData>, v: Value)
    requires rest != [] && BindsOnce(before + rest) && v in rest[0].results
    ensures forall i :: 0 <= i < |before| ==> v !in before[i].results
  {
    var body := before + rest;
    assert body[|before|] == rest[0];
    forall i | 0 <= i < |before|
      ensures v !in before[i].results
    {
      assert body[i] == before[i];
    }
  }

  /** A kept `GAS` behind a price breaks the rule whatever the callees do. */
  lemma RuleFailsAtGas(
    env: Env, types: seq<Type>, slotOf: seq<Value> -> Word, before: seq<InstData>, kept: seq<bool>, rest: seq<InstData>,
    others: seq<bool>, term: Terminator, vals: Values, w: World, i: nat)
    requires |kept| == |before| && |others| == |rest| > 0 && others[0] && IsGas(rest[0].op)
    requires rest[0].repair == NoRepair
    requires MayDelete(before + rest, kept + others, term) && BindsOnce(before + rest)
    requires FlatPrices(env) && NoneBehindPrice(env, before, kept) && w.gas < Pow2(W.WORD_BITS)
    requires RunBody(env, types, slotOf, before + rest, vals, w).Some?
    requires i < |before| && !kept[i] && Price(env, before[i]) > 0
    ensures !RuleHolds(env, types, slotOf, before + rest, kept + others, vals, w)
  {
    hide ExecInst, RunBody, Kept, Lost, Saved, Price, NoneBehindPrice, AgreeOutside, MayDelete, BindsOnce;
    if RunBody(env, types, slotOf, Kept(before + rest, kept + others), vals, w).Some? {
      var a, b, u := UpToObserver(env, types, slotOf, before, kept, rest, others, term, vals, w);
      var saved := Saved(env, types, slotOf, before, kept, vals, w);
      PricedSaves(env, types, slotOf, before, kept, vals, w, i);
      MayDeletePrefix(before, rest, kept, others, term);
      SavedIsSpent(env, types, slotOf, before, kept, vals, w);
      HeadBindsOnce(before, rest);
      var v := GasShows(env, types, slotOf, rest, others, a, b, Lost(before, kept), u, saved);
      NotReproduced(env, types, slotOf, before, kept, rest, others, vals, w, v);
    }
  }

  lemma HeadBindsOnce(before: seq<InstData>, rest: seq<InstData>)
    requires BindsOnce(before + rest)
    ensures BindsOnce(rest)
  {
    forall i, j, x | 0 <= i < j < |rest| && x in rest[i].results
      ensures x !in rest[j].results
    {
      assert (before + rest)[|before| + i] == rest[i] && (before + rest)[|before| + j] == rest[j];
    }
  }

  /** What the original hands the callee, and what the other run does; they differ by the saving. */
  lemma TrapSpringsInternal(
    env: Env, g: nat, r: Word, types: seq<Type>, slot: Word, inst: InstData, vals: Values, w: World)
    requires inst.op.CallFn? && Paid(env, inst, vals, w) && Pay(env, inst, Operands(vals, inst.args), w).value.gas == g
    ensures ExecInst(Trap(env, g, r), types, slot, inst, vals, w).None?
  {
  }

  /** An external callee hands back `r` when the trap springs. */
  lemma TrapSpringsExternal(
    env: Env, g: nat, r: Word, types: seq<Type>, slot: Word, inst: InstData, vals: Values, w: World)
    requires inst.op.Opcode? && IsCall(inst.op) && inst.repair == NoRepair
    requires Paid(env, inst, vals, w) && Pay(env, inst, Operands(vals, inst.args), w).value.gas == g
    requires ExecInst(Trap(env, g, r), types, slot, inst, vals, w).Some?
    ensures |inst.results| == 1
    ensures ExecInst(Trap(env, g, r), types, slot, inst, vals, w).value.0 == vals[inst.results[0] := r]
  {
    hide ByByte;
    assert Bind(vals, inst.results, [r]) == vals[inst.results[0] := r];
  }

  lemma ExternalBinds(env: Env, types: seq<Type>, slot: Word, inst: InstData, vals: Values, w: World)
    requires inst.op.Opcode? && IsCall(inst.op) && inst.repair == NoRepair
    requires ExecInst(env, types, slot, inst, vals, w).Some?
    ensures Paid(env, inst, vals, w) && |inst.results| == 1
    ensures var args := Operands(vals, inst.args);
            ExecInst(env, types, slot, inst, vals, w).value.0
            == vals[inst.results[0] := env.external(inst.op.spec.byte, args, Pay(env, inst, args, w).value).0]
  {
    hide ByByte;
    var args := Operands(vals, inst.args);
    var r := env.external(inst.op.spec.byte, args, Pay(env, inst, args, w).value).0;
    assert Bind(vals, inst.results, [r]) == vals[inst.results[0] := r];
  }

  /** Another word. */
  function Other(r: Word): Word { if r == 0 then W.FromBool(true) else W.FromBool(false) }

  /** The trap for a block: the gas its first call behind a price finds in the run without the deleted instructions. */
  lemma TrapUnmet(
    env: Env, g: nat, r: Word, types: seq<Type>, slotOf: seq<Value> -> Word, before: seq<InstData>, kept: seq<bool>,
    rest: seq<InstData>, vals: Values, w: World)
    requires |kept| == |before| && OnlyPureDeleted(before, kept) && rest != [] && IsCall(rest[0].op)
    requires FlatPrices(env) && NoneBehindPrice(env, before, kept) && Price(env, rest[0]) > 0
    requires RunBody(env, types, slotOf, before + rest, vals, w).Some?
    requires RunBody(env, types, slotOf, before, vals, w).Some?
    requires Saved(env, types, slotOf, before, kept, vals, w) > 0
    requires g == RunBody(env, types, slotOf, before, vals, w).value.1.gas
                  + Saved(env, types, slotOf, before, kept, vals, w) - Price(env, rest[0])
    ensures RunBody(Trap(env, g, r), types, slotOf, before, vals, w) == RunBody(env, types, slotOf, before, vals, w)
    ensures RunBody(Trap(env, g, r), types, slotOf, before + rest, vals, w)
         == RunBody(env, types, slotOf, before + rest, vals, w)
    ensures var (a, u) := RunBody(env, types, slotOf, before, vals, w).value;
            ExecInst(Trap(env, g, r), types, slotOf(rest[0].results), rest[0], a, u)
            == ExecInst(env, types, slotOf(rest[0].results), rest[0], a, u)
  {
    hide ExecInst, Trap, Price, Saved, NoneBehindPrice;
    var (a, u) := RunBody(env, types, slotOf, before, vals, w).value;
    var slot := slotOf(rest[0].results);
    RunSameAbove(env, g, r, types, slotOf, before, kept, vals, w);
    RunConcat(env, types, slotOf, before, rest, vals, w);
    RunConcat(Trap(env, g, r), types, slotOf, before, rest, vals, w);
    HeadRuns(env, types, slotOf, rest, a, u);
    PaidBeforeDone(env, types, slot, rest[0], a, u);
    CostIsPrice(env, rest[0], Operands(a, rest[0].args), u);
    InstSame(env, g, r, types, slot, rest[0], a, u);
    var (a', u') := ExecInst(env, types, slot, rest[0], a, u).value;
    RunSameBelow(env, g, r, types, slotOf, rest[1..], a', u');
  }

  lemma HeadRuns(
    env: Env, types: seq<Type>, slotOf: seq<Value> -> Word, body: seq<InstData>, vals: Values, w: World)
    requires body != [] && RunBody(env, types, slotOf, body, vals, w).Some?
    ensures ExecInst(env, types, slotOf(body[0].results), body[0], vals, w).Some?
  {
    hide ExecInst;
  }

  /** The prices of the deleted instructions. */
  function PricesSaved(env: Env, body: seq<InstData>, keep: seq<bool>): nat
    requires |keep| == |body|
  {
    if body == [] then 0 else (if keep[0] then 0 else Price(env, body[0])) + PricesSaved(env, body[1..], keep[1..])
  }

  lemma {:induction false} SavedIsPrices(
    env: Env, types: seq<Type>, slotOf: seq<Value> -> Word, body: seq<InstData>, keep: seq<bool>, vals: Values,
    w: World)
    requires |keep| == |body| && FlatPrices(env) && RunBody(env, types, slotOf, body, vals, w).Some?
    ensures Saved(env, types, slotOf, body, keep, vals, w) == PricesSaved(env, body, keep)
    decreases |body|
  {
    hide ExecInst, Cost, Price;
    if body == [] {
    } else {
      Unfold(env, types, slotOf, body, keep, vals, w);
      CostIsPrice(env, body[0], Operands(vals, body[0].args), w);
      var (vals', w') := ExecInst(env, types, slotOf(body[0].results), body[0], vals, w).value;
      SavedIsPrices(env, types, slotOf, body[1..], keep[1..], vals', w');
    }
  }

  lemma {:induction false} TrapPrices(env: Env, g: nat, r: Word, body: seq<InstData>, keep: seq<bool>)
    requires |keep| == |body|
    ensures FlatPrices(env) ==> FlatPrices(Trap(env, g, r))
    ensures NoneBehindPrice(env, body, keep) ==> NoneBehindPrice(Trap(env, g, r), body, keep)
    ensures PricesSaved(Trap(env, g, r), body, keep) == PricesSaved(env, body, keep)
    decreases |body|
  {
    assert forall inst :: Price(Trap(env, g, r), inst) == Price(env, inst);
    if body == [] {
    } else {
      TrapPrices(env, g, r, body[1..], keep[1..]);
    }
  }

  /** The word an external callee gives back in the run. */
  function Given(env: Env, inst: InstData, vals: Values, w: World): Word
    requires inst.op.Opcode? && Paid(env, inst, vals, w)
  {
    var args := Operands(vals, inst.args);
    env.external(inst.op.spec.byte, args, Pay(env, inst, args, w).value).0
  }

  /** A kept call behind a price breaks the rule for some callee. */
  lemma RuleFailsAtCall(
    env: Env, types: seq<Type>, slotOf: seq<Value> -> Word, before: seq<InstData>, kept: seq<bool>, rest: seq<InstData>,
    others: seq<bool>, term: Terminator, vals: Values, w: World, i: nat) returns (e: Env)
    requires |kept| == |before| && |others| == |rest| > 0 && others[0]
    requires IsCall(rest[0].op) && rest[0].repair == NoRepair && Price(env, rest[0]) > 0
    requires MayDelete(before + rest, kept + others, term) && BindsOnce(before + rest)
    requires FlatPrices(env) && NoneBehindPrice(env, before, kept)
    requires RunBody(env, types, slotOf, before + rest, vals, w).Some?
    requires i < |before| && !kept[i] && Price(env, before[i]) > 0
    ensures SameButCallees(env, e) && !RuleHolds(e, types, slotOf, before + rest, kept + others, vals, w)
  {
    hide ExecInst, RunBody, Kept, Lost, Saved, Price, NoneBehindPrice, AgreeOutside, MayDelete, BindsOnce, Trap, Given;
    hide SameButCallees;
    var a, b, u := UpToObserver(env, types, slotOf, before, kept, rest, others, term, vals, w);
    var saved, inst, slot := Saved(env, types, slotOf, before, kept, vals, w), rest[0], slotOf(rest[0].results);
    PricedSaves(env, types, slotOf, before, kept, vals, w, i);
    MayDeletePrefix(before, rest, kept, others, term);
    HeadRuns(env, types, slotOf, rest, a, u);
    PaidBeforeDone(env, types, slot, inst, a, u);
    CostIsPrice(env, inst, Operands(a, inst.args), u);
    var g := u.gas + saved - Price(env, inst);
    var r := if inst.op.Opcode? then Other(Given(env, inst, a, u)) else Other(0);
    e := Trap(env, g, r);
    TrapCosts(env, g, r);
    TrapUnmet(env, g, r, types, slotOf, before, kept, rest, vals, w);
    TrapPrices(env, g, r, before, kept);
    if RunBody(e, types, slotOf, Kept(before + rest, kept + others), vals, w).Some? {
      SavedIsPrices(env, types, slotOf, before, kept, vals, w);
      SavedIsPrices(e, types, slotOf, before, kept, vals, w);
      var a', b', u' := UpToObserver(e, types, slotOf, before, kept, rest, others, term, vals, w);
      assert a' == a && u' == u;
      CallDiffers(env, g, r, types, slotOf, before, kept, rest, others, a, b', u, saved);
      NotReproduced(e, types, slotOf, before, kept, rest, others, vals, w, rest[0].results[0]);
    }
  }

  /** Handed the saving on top, the trapped callee answers otherwise, and the answer stays. */
  lemma CallDiffers(
    env: Env, g: nat, r: Word, types: seq<Type>, slotOf: seq<Value> -> Word, before: seq<InstData>, kept: seq<bool>,
    rest: seq<InstData>, others: seq<bool>, a: Values, b: Values, u: World, saved: nat)
    requires |kept| == |before| && |others| == |rest| > 0 && others[0] && BindsOnce(before + rest)
    requires IsCall(rest[0].op) && rest[0].repair == NoRepair && FlatPrices(env)
    requires g == u.gas + saved - Price(env, rest[0])
    requires ExecInst(env, types, slotOf(rest[0].results), rest[0], a, u).Some?
    requires ExecInst(Trap(env, g, r), types, slotOf(rest[0].results), rest[0], a, u)
          == ExecInst(env, types, slotOf(rest[0].results), rest[0], a, u)
    requires rest[0].op.Opcode? ==> Paid(env, rest[0], a, u) && r != Given(env, rest[0], a, u)
    requires RunBody(Trap(env, g, r), types, slotOf, rest, a, u).Some?
    requires RunBody(Trap(env, g, r), types, slotOf, Kept(rest, others), b, u.Richer(saved)).Some?
    ensures |rest[0].results| > 0 && rest[0].results[0] !in Lost(rest, others)
    ensures var va := RunBody(Trap(env, g, r), types, slotOf, rest, a, u).value.0;
            var vb := RunBody(Trap(env, g, r), types, slotOf, Kept(rest, others), b, u.Richer(saved)).value.0;
            rest[0].results[0] in va && rest[0].results[0] in vb && vb[rest[0].results[0]] != va[rest[0].results[0]]
  {
    hide ExecInst, RunBody, Lost, Price, BindsOnce, Trap;
    var e, inst, slot := Trap(env, g, r), rest[0], slotOf(rest[0].results);
    assert Kept(rest, others)[0] == inst;
    HeadRuns(e, types, slotOf, Kept(rest, others), b, u.Richer(saved));
    PaidBeforeDone(e, types, slot, inst, b, u.Richer(saved));
    TrapCosts(env, g, r);
    CostIsPrice(env, inst, Operands(b, inst.args), u.Richer(saved));
    if inst.op.CallFn? {
      TrapSpringsInternal(env, g, r, types, slot, inst, b, u.Richer(saved));
      assert false;
    } else {
      TrapSpringsExternal(env, g, r, types, slot, inst, b, u.Richer(saved));
      ExternalBinds(env, types, slot, inst, a, u);
      HeadBindsOnce(before, rest);
      assert inst.results[0] in inst.results;
      DifferenceStays(e, types, slotOf, rest, others, a, b, u, u.Richer(saved), inst.results[0]);
    }
  }

  // ----- exactly when -----

  lemma RuleHoldsWithoutObservers(
    e: Env, types: seq<Type>, slotOf: seq<Value> -> Word, body: seq<InstData>, keep: seq<bool>, term: Terminator,
    vals: Values, w: World)
    requires |keep| == |body| && MayDelete(body, keep, term) && FlatPrices(e) && NoneBehindPrice(e, body, keep)
    ensures RuleHolds(e, types, slotOf, body, keep, vals, w)
  {
    hide ExecInst, RunBody, Kept, Lost, Saved, Price, NoneBehindPrice, MayDelete, NoGasBehindCharge, Unseen;
    if RunBody(e, types, slotOf, body, vals, w).Some? {
      NoGasBehindPrice(e, types, slotOf, body, keep, vals, w);
      NoCallBehindPrice(e, types, slotOf, body, keep, vals, w, 0);
      RemovalIsSound(e, types, slotOf, body, keep, term, vals, w);
    }
  }

  /** Neither raw results nor call results are repaired, as the builder stores them. */
  ghost predicate OthersUnrepaired(body: seq<InstData>) {
    forall i :: 0 <= i < |body| && GasLeavesBlock(body[i].op) ==> body[i].repair == NoRepair
  }

  ghost predicate CallsCost(env: Env, body: seq<InstData>) {
    forall i :: 0 <= i < |body| && IsCall(body[i].op) ==> Price(env, body[i]) > 0
  }

  /**
   The exact condition when callees may be anything, calls have a price, and prices
   depend on the instruction alone. Take a block that runs in some environment. What
   the removal rule allows leaves its values and world as they were in every
   environment with other callees exactly when neither a `GAS` nor a call is kept
   behind a deleted instruction with a price.
   */
  lemma RuleHoldsForAllCalleesIff(
    env: Env, types: seq<Type>, slotOf: seq<Value> -> Word, body: seq<InstData>, keep: seq<bool>, term: Terminator,
    vals: Values, w: World)
    requires |keep| == |body| && MayDelete(body, keep, term) && BindsOnce(body) && OthersUnrepaired(body)
    requires FlatPrices(env) && CallsCost(env, body) && w.gas < Pow2(W.WORD_BITS)
    requires RunBody(env, types, slotOf, body, vals, w).Some?
    ensures (forall e :: SameButCallees(env, e) ==> RuleHolds(e, types, slotOf, body, keep, vals, w))
       <==> NoneBehindPrice(env, body, keep)
  {
    hide RuleHolds, RunBody, Price, MayDelete, BindsOnce;
    if NoneBehindPrice(env, body, keep) {
      forall e | SameButCallees(env, e)
        ensures RuleHolds(e, types, slotOf, body, keep, vals, w)
      {
        SamePrices(env, e, body, keep);
        RuleHoldsWithoutObservers(e, types, slotOf, body, keep, term, vals, w);
      }
    } else {
      var e := BreakingCallees(env, types, slotOf, body, keep, term, vals, w);
    }
  }

  lemma SamePrices(env: Env, e: Env, body: seq<InstData>, keep: seq<bool>)
    requires |keep| == |body| && SameButCallees(env, e) && FlatPrices(env) && NoneBehindPrice(env, body, keep)
    ensures FlatPrices(e) && NoneBehindPrice(e, body, keep)
  {
    assert forall inst :: Price(e, inst) == Price(env, inst);
  }

  lemma BreakingCallees(
    env: Env, types: seq<Type>, slotOf: seq<Value> -> Word, body: seq<InstData>, keep: seq<bool>, term: Terminator,
    vals: Values, w: World) returns (e: Env)
    requires |keep| == |body| && MayDelete(body, keep, term) && BindsOnce(body) && OthersUnrepaired(body)
    requires FlatPrices(env) && CallsCost(env, body) && w.gas < Pow2(W.WORD_BITS)
    requires RunBody(env, types, slotOf, body, vals, w).Some? && !NoneBehindPrice(env, body, keep)
    ensures SameButCallees(env, e) && !RuleHolds(e, types, slotOf, body, keep, vals, w)
  {
    hide RuleHolds, RunBody, Price, MayDelete, BindsOnce, FlatPrices;
    var i, j := FirstBehind(env, body, keep);
    var before, rest, kept, others := body[..j], body[j..], keep[..j], keep[j..];
    assert body == before + rest && keep == kept + others && rest[0] == body[j] && before[i] == body[i];
    if IsGas(body[j].op) {
      e := env;
      RuleFailsAtGas(env, types, slotOf, before, kept, rest, others, term, vals, w, i);
    } else {
      e := RuleFailsAtCall(env, types, slotOf, before, kept, rest, others, term, vals, w, i);
    }
  }

  /** The failing callee: behind a dead `add` with a price, a call whose result the function returns. */
  lemma DeadAddBeforeCall(
    env: Env, types: seq<Type>, slotOf: seq<Value> -> Word, add: InstData, call: InstData, vals: Values, w: World)
    returns (e: Env)
    requires add.op.Add? && IsCall(call.op) && call.repair == NoRepair
    requires |add.results| == |call.results| == 1 && add.results != call.results && add.results[0] !in call.args
    requires FlatPrices(env) && Price(env, add) > 0 && Price(env, call) > 0 && w.gas < Pow2(W.WORD_BITS)
    requires RunBody(env, types, slotOf, [add, call], vals, w).Some?
    ensures MayDelete([add, call], [false, true], Return(call.results)) && SameButCallees(env, e)
    ensures !RuleHolds(e, types, slotOf, [add, call], [false, true], vals, w)
  {
    hide RuleHolds, RunBody, Price, ByByte;
    var body, keep := [add, call], [false, true];
    assert body[0].op == add.op && body[1].op == call.op;
    assert !keep[0] && keep[1] && Price(env, body[0]) > 0 && GasLeavesBlock(body[1].op);
    e := BreakingCallees(env, types, slotOf, body, keep, Return(call.results), vals, w);
  }
}
