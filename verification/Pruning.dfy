/**
 The removal rule over whole programs: deleting dead pure instructions everywhere
 at once is simulated step by step, through branches, loops and calls. A `GAS`
 that stays may read something else; the values that depend on it are tainted, and
 a taint discipline keeps them out of the world and out of control.
 */
module Pruning {
  import opened Isa
  import opened Instructions
  import opened Types
  import opened WidthRepair
  import opened Machine
  import opened Arena
  import opened Soundness
  import opened Removal
  import opened Twins

  /** Which instructions of which functions are deleted. */
  type Drop = (FuncRef, Inst) -> bool

  /** Which values of which functions may depend on a `GAS` reading. */
  type Taint = FuncRef -> set<Value>

  // ----- the transformation -----

  function Filter(insts: seq<Inst>, fn: FuncRef, drop: Drop): seq<Inst> {
    if insts == [] then []
    else
      var last := insts[|insts| - 1];
      Filter(insts[..|insts| - 1], fn, drop) + if drop(fn, last) then [] else [last]
  }

  /** The blocks lose the deleted instructions; the arenas stay as they are. */
  function Pruned(f: Arena.Func, fn: FuncRef, drop: Drop): Arena.Func {
    f.(blocks := seq(|f.blocks|, b requires 0 <= b < |f.blocks| =>
         f.blocks[b].(insts := Filter(f.blocks[b].insts, fn, drop))))
  }

  function PruneAll(p: Program, drop: Drop): Program {
    seq(|p|, fn requires 0 <= fn < |p| => Pruned(p[fn], fn, drop))
  }

  lemma {:induction false} FilterMembers(insts: seq<Inst>, fn: FuncRef, drop: Drop, i: Inst)
    ensures i in Filter(insts, fn, drop) <==> i in insts && !drop(fn, i)
  {
    if insts == [] {
    } else {
      var init := insts[..|insts| - 1];
      FilterMembers(init, fn, drop, i);
      assert insts == init + [insts[|insts| - 1]];
    }
  }

  /** A pruned block holds exactly what is not deleted, and keeps its parameters and its terminator. */
  lemma PrunedHolds(p: Program, drop: Drop, fn: FuncRef, b: Block, i: Inst)
    requires fn < |p| && b < |p[fn].blocks|
    ensures |PruneAll(p, drop)| == |p| && |PruneAll(p, drop)[fn].blocks| == |p[fn].blocks|
    ensures var (was, now) := (p[fn].blocks[b], PruneAll(p, drop)[fn].blocks[b]);
            && (i in now.insts <==> i in was.insts && !drop(fn, i))
            && now.params == was.params && now.term == was.term
  {
    FilterMembers(p[fn].blocks[b].insts, fn, drop, i);
  }

  // ----- what may be deleted -----

  /** The values the deleted instructions of a function bind. */
  ghost function Dead(f: Arena.Func, fn: FuncRef, drop: Drop): set<Value> {
    set i, k | 0 <= i < |f.insts| && drop(fn, i) && 0 <= k < |f.insts[i].results| :: f.insts[i].results[k]
  }

  /** Deleted instructions are removable, and nothing that stays reads what they bind. */
  ghost predicate MayPrune(f: Arena.Func, fn: FuncRef, drop: Drop) {
    && (forall i :: 0 <= i < |f.insts| && drop(fn, i) ==> f.insts[i].op.OpEffects().IsRemovable())
    && (forall i, v :: 0 <= i < |f.insts| && !drop(fn, i) && v in f.insts[i].args ==> v !in Dead(f, fn, drop))
    && (forall b, v :: 0 <= b < |f.blocks| && f.blocks[b].term.Some? && ReadsValue(f.blocks[b].term.value, v) ==>
          v !in Dead(f, fn, drop))
  }

  // ----- what may depend on gas -----

  /** Taint at one end of a list of values is taint at the other. */
  ghost predicate Flows(from: seq<Value>, tainted: set<Value>, to: seq<Value>, target: set<Value>) {
    forall k :: 0 <= k < |from| && k < |to| && from[k] in tainted ==> to[k] in target
  }

  /**
   Tainted operands go into pure operations with tainted results, at a cost they do
   not decide, or into parameters of a callee that are tainted there; what comes
   back tainted is tainted. `GAS` results are tainted, and nothing else observes gas.
   */
  ghost predicate InstContained(p: Program, fn: FuncRef, inst: InstData, taint: Taint, env: Env) {
    if IsGas(inst.op) then Named(inst.results) <= taint(fn)
    else if inst.op.CallFn? then
      && (inst.op.callee < |p| ==> CallContained(p[inst.op.callee], inst, taint(fn), taint(inst.op.callee)))
      && (ReadsTaint(inst.args, taint(fn)) ==> SteadyCost(env, inst))
    else
      && !ObservesGas(env, inst.op)
      && (ReadsTaint(inst.args, taint(fn)) ==>
            inst.op.OpEffects().IsPure() && SteadyCost(env, inst) && Named(inst.results) <= taint(fn))
  }

  ghost predicate CallContained(callee: Arena.Func, inst: InstData, here: set<Value>, there: set<Value>) {
    && (callee.blocks != [] ==> Flows(inst.args, here, callee.blocks[0].params, there))
    && forall b :: 0 <= b < |callee.blocks| && callee.blocks[b].term.Some? && callee.blocks[b].term.value.Return? ==>
         Flows(callee.blocks[b].term.value.values, there, inst.results, here)
  }

  /** Tainted values decide no branch and end up in no halt; on an edge they meet tainted parameters. */
  ghost predicate TermContained(f: Arena.Func, term: Terminator, tainted: set<Value>) {
    && (!term.Return? ==> forall v :: v in term.OwnArgs() ==> v !in tainted)
    && forall call: BlockCall :: HasEdge(term, call) && call.block < |f.blocks| ==>
         Flows(call.args, tainted, f.blocks[call.block].params, tainted)
  }

  ghost predicate Contained(p: Program, fn: FuncRef, drop: Drop, taint: Taint, env: Env)
    requires fn < |p|
  {
    && (forall i :: 0 <= i < |p[fn].insts| && !drop(fn, i) ==> InstContained(p, fn, p[fn].insts[i], taint, env))
    && (forall b :: 0 <= b < |p[fn].blocks| && p[fn].blocks[b].term.Some? ==>
          TermContained(p[fn], p[fn].blocks[b].term.value, taint(fn)))
  }

  ghost predicate Prunable(p: Program, drop: Drop, taint: Taint, env: Env) {
    forall fn :: 0 <= fn < |p| ==>
      ArenaOk(p[fn]) && MayPrune(p[fn], fn, drop) && Contained(p, fn, drop, taint, env)
  }

  /** Nothing in the function observes gas. */
  ghost predicate GasBlind(f: Arena.Func, env: Env) {
    forall i :: 0 <= i < |f.insts| && !f.insts[i].op.CallFn? ==> !ObservesGas(env, f.insts[i].op)
  }

  /** Without `GAS`, and without callees that mind their gas, nothing need be tainted. */
  lemma NothingTainted(p: Program, drop: Drop, env: Env)
    requires forall fn :: 0 <= fn < |p| ==> ArenaOk(p[fn]) && MayPrune(p[fn], fn, drop) && GasBlind(p[fn], env)
    ensures Prunable(p, drop, fn => {}, env)
  {
    var taint: Taint := fn => {};
    hide ArenaOk, MayPrune, ObservesGas;
    forall fn | 0 <= fn < |p|
      ensures Contained(p, fn, drop, taint, env)
    {
      forall i | 0 <= i < |p[fn].insts| && !drop(fn, i)
        ensures InstContained(p, fn, p[fn].insts[i], taint, env)
      {
        GasObserves(env, p[fn].insts[i].op);
      }
    }
  }

  lemma GasObserves(env: Env, op: Op)
    ensures IsGas(op) ==> ObservesGas(env, op) && !op.CallFn?
  {
  }

  // ----- positions -----

  lemma FilterNext(insts: seq<Inst>, n: nat, fn: FuncRef, drop: Drop)
    requires n < |insts|
    ensures Filter(insts[..n + 1], fn, drop)
         == Filter(insts[..n], fn, drop) + if drop(fn, insts[n]) then [] else [insts[n]]
  {
    assert insts[..n + 1][..n] == insts[..n];
  }

  lemma {:induction false} FilterPrefix(insts: seq<Inst>, n: nat, fn: FuncRef, drop: Drop)
    requires n <= |insts|
    ensures Filter(insts[..n], fn, drop) <= Filter(insts, fn, drop)
  {
    if n == |insts| {
      assert insts[..n] == insts;
    } else {
      var init := insts[..|insts| - 1];
      FilterPrefix(init, n, fn, drop);
      assert init[..n] == insts[..n];
    }
  }

  lemma KeptPosition(insts: seq<Inst>, n: nat, fn: FuncRef, drop: Drop)
    requires n < |insts| && !drop(fn, insts[n])
    ensures |Filter(insts[..n], fn, drop)| < |Filter(insts, fn, drop)|
    ensures Filter(insts, fn, drop)[|Filter(insts[..n], fn, drop)|] == insts[n]
  {
    FilterNext(insts, n, fn, drop);
    FilterPrefix(insts, n + 1, fn, drop);
  }

  // ----- the simulation relation -----

  ghost function Hidden(p: Program, drop: Drop, taint: Taint, fn: FuncRef): set<Value>
    requires fn < |p|
  {
    Dead(p[fn], fn, drop) + taint(fn)
  }

  /** The same place in the pruned program, with the same values but for the deleted and the tainted ones. */
  ghost predicate FramesMatch(p: Program, drop: Drop, taint: Taint, fr: Frame, gr: Frame) {
    && FrameOk(p, fr)
    && gr.fn == fr.fn && gr.block == fr.block
    && gr.pc == |Filter(p[fr.fn].blocks[fr.block].insts[..fr.pc], fr.fn, drop)|
    && AgreeOutside(fr.vals, gr.vals, Hidden(p, drop, taint, fr.fn))
    && BoundOutside(fr.vals, gr.vals, Dead(p[fr.fn], fr.fn, drop))
  }

  predicate AtCallOf(p: Program, fr: Frame, callee: FuncRef) {
    AtInstruction(p, fr) && InstructionAt(p, fr).op == CallFn(callee)
  }

  /** Stack against stack; the pruned run has the same world and at least as much gas. */
  ghost predicate Matches(p: Program, drop: Drop, taint: Taint, s: State, t: State) {
    && |t.frames| == |s.frames|
    && (forall i :: 0 <= i < |s.frames| ==> FramesMatch(p, drop, taint, s.frames[i], t.frames[i]))
    && (forall i :: 0 <= i < |s.frames| - 1 ==> AtCallOf(p, s.frames[i], s.frames[i + 1].fn))
    && t.world.gas >= s.world.gas && t.world.Bare() == s.world.Bare()
  }

  lemma RicherWorld(v: World, w: World) returns (extra: nat)
    requires w.gas >= v.gas && w.Bare() == v.Bare()
    ensures w == v.Richer(extra)
  {
    extra := w.gas - v.gas;
  }

  predicate AtEnd(p: Program, fr: Frame) {
    FrameOk(p, fr) && fr.pc == |p[fr.fn].blocks[fr.block].insts|
  }

  lemma InstructionOrEnd(p: Program, drop: Drop, taint: Taint, env: Env, fr: Frame)
    requires Prunable(p, drop, taint, env) && FrameOk(p, fr)
    ensures AtInstruction(p, fr) <==> !AtEnd(p, fr)
  {
    hide MayPrune, Contained;
  }

  lemma SameInstruction(p: Program, drop: Drop, taint: Taint, fr: Frame, gr: Frame)
    requires FramesMatch(p, drop, taint, fr, gr) && AtInstruction(p, fr)
    requires !drop(fr.fn, p[fr.fn].blocks[fr.block].insts[fr.pc])
    ensures AtInstruction(PruneAll(p, drop), gr) && InstructionAt(PruneAll(p, drop), gr) == InstructionAt(p, fr)
    ensures FramesMatch(p, drop, taint, fr.(pc := fr.pc + 1), gr.(pc := gr.pc + 1))
  {
    hide AgreeOutside, BoundOutside, Hidden, Dead;
    var insts := p[fr.fn].blocks[fr.block].insts;
    KeptPosition(insts, fr.pc, fr.fn, drop);
    FilterNext(insts, fr.pc, fr.fn, drop);
  }

  lemma SameEnd(p: Program, drop: Drop, taint: Taint, fr: Frame, gr: Frame)
    requires FramesMatch(p, drop, taint, fr, gr) && AtEnd(p, fr)
    ensures AtEnd(PruneAll(p, drop), gr)
    ensures PruneAll(p, drop)[gr.fn].blocks[gr.block].term == p[fr.fn].blocks[fr.block].term
  {
    var insts := p[fr.fn].blocks[fr.block].insts;
    assert insts[..fr.pc] == insts;
  }

  // ----- one step -----

  /** Where the top frame stands at an instruction that was deleted. */
  predicate AtDropped(p: Program, drop: Drop, s: State) {
    && s.frames != [] && AtInstruction(p, s.frames[|s.frames| - 1])
    && var fr := s.frames[|s.frames| - 1];
       drop(fr.fn, p[fr.fn].blocks[fr.block].insts[fr.pc])
  }

  lemma DroppedFacts(p: Program, drop: Drop, taint: Taint, env: Env, fr: Frame)
    requires Prunable(p, drop, taint, env) && AtInstruction(p, fr)
    requires drop(fr.fn, p[fr.fn].blocks[fr.block].insts[fr.pc])
    ensures InstructionAt(p, fr).op.OpEffects().IsRemovable() && !InstructionAt(p, fr).op.CallFn?
    ensures Named(InstructionAt(p, fr).results) <= Dead(p[fr.fn], fr.fn, drop)
  {
    hide ArenaOk, Contained;
    var f, i := p[fr.fn], p[fr.fn].blocks[fr.block].insts[fr.pc];
    assert f.insts[i] == InstructionAt(p, fr);
    forall v | v in f.insts[i].results
      ensures v in Dead(f, fr.fn, drop)
    {
      var k :| 0 <= k < |f.insts[i].results| && f.insts[i].results[k] == v;
      assert drop(fr.fn, i);
    }
  }

  lemma KeptFacts(p: Program, drop: Drop, taint: Taint, env: Env, fr: Frame)
    requires Prunable(p, drop, taint, env) && AtInstruction(p, fr)
    requires !drop(fr.fn, p[fr.fn].blocks[fr.block].insts[fr.pc])
    ensures forall v :: v in InstructionAt(p, fr).args ==> v !in Dead(p[fr.fn], fr.fn, drop)
    ensures InstContained(p, fr.fn, InstructionAt(p, fr), taint, env)
  {
    hide ArenaOk, Dead, InstContained, TermContained;
    assert InstructionAt(p, fr) == p[fr.fn].insts[p[fr.fn].blocks[fr.block].insts[fr.pc]];
  }

  lemma TermFacts(p: Program, drop: Drop, taint: Taint, env: Env, fr: Frame, term: Terminator)
    requires Prunable(p, drop, taint, env) && FrameOk(p, fr) && p[fr.fn].blocks[fr.block].term == Some(term)
    ensures forall v :: ReadsValue(term, v) ==> v !in Dead(p[fr.fn], fr.fn, drop)
    ensures TermContained(p[fr.fn], term, taint(fr.fn))
  {
    hide ArenaOk, Dead, InstContained, TermContained;
  }

  /** A deleted instruction: the pruned run stands still. */
  lemma DroppedStep(p: Program, drop: Drop, taint: Taint, env: Env, layout: Layout, s: State, t: State)
    requires Prunable(p, drop, taint, env) && Matches(p, drop, taint, s, t) && AtDropped(p, drop, s)
    requires Step(p, env, layout, s).Some?
    ensures Matches(p, drop, taint, Step(p, env, layout, s).value, t)
  {
    hide ExecInst, Cost, Dead, Prunable, AgreeOutside, BoundOutside, Filter;
    var n := |s.frames| - 1;
    var fr, gr := s.frames[n], t.frames[n];
    var inst, dead := InstructionAt(p, fr), Dead(p[fr.fn], fr.fn, drop);
    var types, slot := TypesOf(p[fr.fn]), layout(fr.fn, n, inst.results);
    DroppedFacts(p, drop, taint, env, fr);
    DeletedStep(env, types, slot, inst, fr.vals, gr.vals, dead + taint(fr.fn), s.world);
    assert dead + taint(fr.fn) + Named(inst.results) == dead + taint(fr.fn);
    DroppedBinds(env, types, slot, inst, fr.vals, gr.vals, dead, s.world);
    FilterNext(p[fr.fn].blocks[fr.block].insts, fr.pc, fr.fn, drop);
  }

  lemma DroppedBinds(
    env: Env, types: seq<Type>, slot: Word, inst: InstData, a: Values, b: Values, dead: set<Value>, w: World)
    requires BoundOutside(a, b, dead) && Named(inst.results) <= dead && ExecInst(env, types, slot, inst, a, w).Some?
    ensures BoundOutside(ExecInst(env, types, slot, inst, a, w).value.0, b, dead)
  {
    hide Exec;
    var raw := Exec(env, inst, OperandType(types, inst), slot, Operands(a, inst.args), w).value.0;
    BindNames(a, inst.results, RepairFirst(inst.repair, raw));
  }

  /** An instruction that stays and does not call: both runs take it. */
  lemma OpTaken(
    p: Program, drop: Drop, taint: Taint, env: Env, slot: Word, fr: Frame, gr: Frame, w: World, extra: nat)
    requires Prunable(p, drop, taint, env) && FramesMatch(p, drop, taint, fr, gr) && AtInstruction(p, fr)
    requires !drop(fr.fn, p[fr.fn].blocks[fr.block].insts[fr.pc]) && !InstructionAt(p, fr).op.CallFn?
    requires ExecInst(env, TypesOf(p[fr.fn]), slot, InstructionAt(p, fr), fr.vals, w).Some?
    ensures ExecInst(env, TypesOf(p[fr.fn]), slot, InstructionAt(p, fr), gr.vals, w.Richer(extra)).Some?
    ensures Alike(Dead(p[fr.fn], fr.fn, drop), taint(fr.fn),
                  ExecInst(env, TypesOf(p[fr.fn]), slot, InstructionAt(p, fr), fr.vals, w).value,
                  ExecInst(env, TypesOf(p[fr.fn]), slot, InstructionAt(p, fr), gr.vals, w.Richer(extra)).value, extra)
  {
    hide ExecInst, Dead, Prunable, Filter, ObservesGas, ReadsTaint, SteadyCost, AgreeOutside, BoundOutside, IsGas;
    var inst, dead, tainted := InstructionAt(p, fr), Dead(p[fr.fn], fr.fn, drop), taint(fr.fn);
    var types := TypesOf(p[fr.fn]);
    KeptFacts(p, drop, taint, env, fr);
    if IsGas(inst.op) {
      GasTaken(env, types, slot, inst, fr.vals, gr.vals, dead, tainted, w, extra);
    } else if ReadsTaint(inst.args, tainted) {
      TaintedTaken(env, types, slot, inst, fr.vals, gr.vals, dead, tainted, w, extra);
    } else {
      CleanTaken(env, types, slot, inst, fr.vals, gr.vals, dead, tainted, w, extra);
    }
  }

  lemma OpStep(p: Program, drop: Drop, taint: Taint, env: Env, layout: Layout, s: State, t: State)
    requires Prunable(p, drop, taint, env) && Matches(p, drop, taint, s, t) && !AtDropped(p, drop, s)
    requires s.frames != [] && AtInstruction(p, s.frames[|s.frames| - 1])
    requires !InstructionAt(p, s.frames[|s.frames| - 1]).op.CallFn? && Step(p, env, layout, s).Some?
    ensures Step(PruneAll(p, drop), env, layout, t).Some?
    ensures Matches(p, drop, taint, Step(p, env, layout, s).value, Step(PruneAll(p, drop), env, layout, t).value)
  {
    hide ExecInst, Dead, Prunable, Filter, AgreeOutside, BoundOutside;
    var q, n := PruneAll(p, drop), |s.frames| - 1;
    var fr, gr := s.frames[n], t.frames[n];
    SameInstruction(p, drop, taint, fr, gr);
    var extra := RicherWorld(s.world, t.world);
    assert TypesOf(q[fr.fn]) == TypesOf(p[fr.fn]);
    OpTaken(p, drop, taint, env, layout(fr.fn, n, InstructionAt(p, fr).results), fr, gr, s.world, extra);
  }

  /** The callee is entered in both runs, with words that agree where its parameters are not tainted. */
  lemma EnterMatches(
    p: Program, drop: Drop, taint: Taint, callee: FuncRef, x: seq<Word>, y: seq<Word>)
    requires Enter(p, callee, x).Some? && |y| == |x|
    requires forall k :: 0 <= k < |x| && p[callee].blocks[0].params[k] !in taint(callee) ==> x[k] == y[k]
    ensures Enter(PruneAll(p, drop), callee, y).Some?
    ensures FramesMatch(p, drop, taint, Enter(p, callee, x).value, Enter(PruneAll(p, drop), callee, y).value)
  {
    var params := p[callee].blocks[0].params;
    BindBoth(map[], map[], Dead(p[callee], callee, drop), Hidden(p, drop, taint, callee), params, x, y);
  }

  /** The operands of a call in both runs, what they cost, and where the callee's parameters take them. */
  lemma CallOperands(p: Program, drop: Drop, taint: Taint, env: Env, fr: Frame, gr: Frame, w: World, extra: nat)
    requires Prunable(p, drop, taint, env) && FramesMatch(p, drop, taint, fr, gr) && AtInstruction(p, fr)
    requires !drop(fr.fn, p[fr.fn].blocks[fr.block].insts[fr.pc])
    requires InstructionAt(p, fr).op.CallFn? && AllBound(fr.vals, InstructionAt(p, fr).args)
    requires Enter(p, InstructionAt(p, fr).op.callee, Operands(fr.vals, InstructionAt(p, fr).args)).Some?
    requires Pay(env, InstructionAt(p, fr), Operands(fr.vals, InstructionAt(p, fr).args), w).Some?
    ensures var inst := InstructionAt(p, fr);
            && AllBound(gr.vals, inst.args)
            && Pay(env, inst, Operands(gr.vals, inst.args), w.Richer(extra))
               == Some(Pay(env, inst, Operands(fr.vals, inst.args), w).value.Richer(extra))
            && Enter(PruneAll(p, drop), inst.op.callee, Operands(gr.vals, inst.args)).Some?
            && FramesMatch(p, drop, taint, Enter(p, inst.op.callee, Operands(fr.vals, inst.args)).value,
                           Enter(PruneAll(p, drop), inst.op.callee, Operands(gr.vals, inst.args)).value)
  {
    hide Dead, Prunable, Filter, AgreeOutside, BoundOutside, IsGas, ReadsTaint;
    var inst, dead, tainted := InstructionAt(p, fr), Dead(p[fr.fn], fr.fn, drop), taint(fr.fn);
    var callee, x := inst.op.callee, Operands(fr.vals, inst.args);
    KeptFacts(p, drop, taint, env, fr);
    NotGas(inst.op);
    OperandsMatch(fr.vals, gr.vals, dead, tainted, inst.args);
    var y := Operands(gr.vals, inst.args);
    assert w.Richer(extra).Bare() == w.Bare();
    assert Cost(env, inst, y, w) == Cost(env, inst, x, w);
    forall k | 0 <= k < |x| && p[callee].blocks[0].params[k] !in taint(callee)
      ensures x[k] == y[k]
    {
      assert inst.args[k] !in tainted;
    }
    EnterMatches(p, drop, taint, callee, x, y);
  }

  lemma NotGas(op: Op)
    requires op.CallFn?
    ensures !IsGas(op)
  {
  }

  /** An internal call: both runs push the callee. */
  lemma CallStep(p: Program, drop: Drop, taint: Taint, env: Env, layout: Layout, s: State, t: State)
    requires Prunable(p, drop, taint, env) && Matches(p, drop, taint, s, t) && !AtDropped(p, drop, s)
    requires s.frames != [] && AtInstruction(p, s.frames[|s.frames| - 1])
    requires InstructionAt(p, s.frames[|s.frames| - 1]).op.CallFn? && Step(p, env, layout, s).Some?
    ensures Step(PruneAll(p, drop), env, layout, t).Some?
    ensures Matches(p, drop, taint, Step(p, env, layout, s).value, Step(PruneAll(p, drop), env, layout, t).value)
  {
    hide Dead, Prunable, AgreeOutside, BoundOutside, Filter, Cost, StepTerm, ExecInst, Operands, AllBound;
    var n := |s.frames| - 1;
    var fr, gr := s.frames[n], t.frames[n];
    var inst := InstructionAt(p, fr);
    var extra := RicherWorld(s.world, t.world);
    SameInstruction(p, drop, taint, fr, gr);
    hide FramesMatch, Enter, Pay, PruneAll;
    CallOperands(p, drop, taint, env, fr, gr, s.world, extra);
    EnteredFn(p, inst.op.callee, Operands(fr.vals, inst.args));
    PaidWorld(env, inst, Operands(fr.vals, inst.args), s.world);
  }

  lemma PaidWorld(env: Env, inst: InstData, args: seq<Word>, w: World)
    requires Pay(env, inst, args, w).Some?
    ensures Pay(env, inst, args, w).value.Bare() == w.Bare()
  {
  }

  lemma EnteredFn(p: Program, callee: FuncRef, args: seq<Word>)
    requires Enter(p, callee, args).Some?
    ensures Enter(p, callee, args).value.fn == callee
  {
  }

  lemma ConditionRead(term: Terminator)
    ensures forall v :: v in term.OwnArgs() ==> ReadsValue(term, v)
    ensures term.Brif? ==> term.cond in term.OwnArgs()
    ensures term.Switch? ==> term.on in term.OwnArgs()
    ensures term.Return? ==> term.values == term.OwnArgs()
  {
  }

  /** The same edge is taken; the words on it agree where the target's parameters are not tainted. */
  lemma EdgeStep(p: Program, drop: Drop, taint: Taint, env: Env, fr: Frame, gr: Frame, term: Terminator)
    requires Prunable(p, drop, taint, env) && FramesMatch(p, drop, taint, fr, gr)
    requires p[fr.fn].blocks[fr.block].term == Some(term) && !term.Return?
    requires TakenEdge(term, fr.vals).Some? && Goto(p, fr, TakenEdge(term, fr.vals).value).Some?
    ensures TakenEdge(term, gr.vals) == TakenEdge(term, fr.vals)
    ensures Goto(PruneAll(p, drop), gr, TakenEdge(term, fr.vals).value).Some?
    ensures FramesMatch(p, drop, taint, Goto(p, fr, TakenEdge(term, fr.vals).value).value,
                        Goto(PruneAll(p, drop), gr, TakenEdge(term, fr.vals).value).value)
  {
    hide Dead, Prunable;
    var dead, tainted, call := Dead(p[fr.fn], fr.fn, drop), taint(fr.fn), TakenEdge(term, fr.vals).value;
    TermFacts(p, drop, taint, env, fr, term);
    ConditionRead(term);
    TakenIsEdge(term, fr.vals);
    OperandsMatch(fr.vals, gr.vals, dead, tainted, call.args);
    var params, x, y := p[fr.fn].blocks[call.block].params, Operands(fr.vals, call.args), Operands(gr.vals, call.args);
    forall k | 0 <= k < |params| && params[k] !in dead + tainted
      ensures x[k] == y[k]
    {
      assert call.args[k] !in tainted;
    }
    BindBoth(fr.vals, gr.vals, dead, dead + tainted, params, x, y);
  }

  /** The caller takes the words back; they agree where the results are not tainted. */
  lemma ResumeMatches(
    p: Program, drop: Drop, taint: Taint, env: Env, fr: Frame, gr: Frame, x: seq<Word>, y: seq<Word>)
    requires Prunable(p, drop, taint, env) && FramesMatch(p, drop, taint, fr, gr)
    requires AtInstruction(p, fr) && InstructionAt(p, fr).op.CallFn? && |x| == |y| && Resume(p, fr, x).Some?
    requires forall k :: 0 <= k < |x| && InstructionAt(p, fr).results[k] !in taint(fr.fn) ==> x[k] == y[k]
    ensures Resume(PruneAll(p, drop), gr, y).Some?
    ensures FramesMatch(p, drop, taint, Resume(p, fr, x).value, Resume(PruneAll(p, drop), gr, y).value)
    ensures Resume(p, fr, x).value.fn == fr.fn
  {
    hide Dead, Prunable, Filter;
    if drop(fr.fn, p[fr.fn].blocks[fr.block].insts[fr.pc]) {
      DroppedFacts(p, drop, taint, env, fr);
      assert false;
    } else {
      var dead := Dead(p[fr.fn], fr.fn, drop);
      SameInstruction(p, drop, taint, fr, gr);
      BindBoth(fr.vals, gr.vals, dead, dead + taint(fr.fn), InstructionAt(p, fr).results, x, y);
    }
  }

  lemma JumpStep(
    p: Program, drop: Drop, taint: Taint, env: Env, layout: Layout, s: State, t: State, term: Terminator)
    requires Prunable(p, drop, taint, env) && Matches(p, drop, taint, s, t)
    requires s.frames != [] && AtEnd(p, s.frames[|s.frames| - 1]) && Step(p, env, layout, s).Some?
    requires AtTerminator(p, s.frames[|s.frames| - 1], term) && !term.Return?
    ensures Step(PruneAll(p, drop), env, layout, t).Some?
    ensures Matches(p, drop, taint, Step(p, env, layout, s).value, Step(PruneAll(p, drop), env, layout, t).value)
  {
    hide Dead, Prunable, Filter, Goto, TakenEdge, FramesMatch, PruneAll, AtCallOf, StepInst;
    var n := |s.frames| - 1;
    var fr, gr := s.frames[n], t.frames[n];
    MatchedTop(p, drop, taint, s, t);
    SameEnd(p, drop, taint, fr, gr);
    EdgeStep(p, drop, taint, env, fr, gr, term);
    GotoFn(p, fr, TakenEdge(term, fr.vals).value);
  }

  lemma GotoFn(p: Program, fr: Frame, call: BlockCall)
    requires fr.fn < |p| && Goto(p, fr, call).Some?
    ensures Goto(p, fr, call).value.fn == fr.fn
  {
  }

  lemma MatchedTop(p: Program, drop: Drop, taint: Taint, s: State, t: State)
    requires Matches(p, drop, taint, s, t) && s.frames != []
    ensures |t.frames| == |s.frames|
    ensures FramesMatch(p, drop, taint, s.frames[|s.frames| - 1], t.frames[|s.frames| - 1])
  {
  }

  lemma ReturnStep(
    p: Program, drop: Drop, taint: Taint, env: Env, layout: Layout, s: State, t: State, term: Terminator)
    requires Prunable(p, drop, taint, env) && Matches(p, drop, taint, s, t)
    requires s.frames != [] && AtEnd(p, s.frames[|s.frames| - 1]) && Step(p, env, layout, s).Some?
    requires AtTerminator(p, s.frames[|s.frames| - 1], term) && term.Return?
    ensures Step(PruneAll(p, drop), env, layout, t).Some?
    ensures Matches(p, drop, taint, Step(p, env, layout, s).value, Step(PruneAll(p, drop), env, layout, t).value)
  {
    hide Dead, Prunable, Filter, AgreeOutside, BoundOutside, StepInst, PruneAll, FramesMatch, Resume;
    var n := |s.frames| - 1;
    var fr, gr, caller := s.frames[n], t.frames[n], s.frames[n - 1];
    MatchedTop(p, drop, taint, s, t);
    SameEnd(p, drop, taint, fr, gr);
    assert AtCallOf(p, caller, s.frames[n - 1 + 1].fn);
    ResumeArity(p, caller, Operands(fr.vals, term.values));
    ReturnOperands(p, drop, taint, env, caller, fr, gr, term);
    var x, y := Operands(fr.vals, term.values), Operands(gr.vals, term.values);
    ResumeMatches(p, drop, taint, env, caller, t.frames[n - 1], x, y);
  }

  lemma ResumeArity(p: Program, caller: Frame, words: seq<Word>)
    requires Resume(p, caller, words).Some?
    ensures AtInstruction(p, caller) && |InstructionAt(p, caller).results| == |words|
  {
  }

  lemma ReturnOperands(
    p: Program, drop: Drop, taint: Taint, env: Env, caller: Frame, fr: Frame, gr: Frame, term: Terminator)
    requires Prunable(p, drop, taint, env) && FramesMatch(p, drop, taint, fr, gr)
    requires p[fr.fn].blocks[fr.block].term == Some(term) && term.Return? && AllBound(fr.vals, term.values)
    requires AtCallOf(p, caller, fr.fn) && |term.values| == |InstructionAt(p, caller).results|
    ensures AllBound(gr.vals, term.values)
    ensures forall k :: 0 <= k < |term.values| && InstructionAt(p, caller).results[k] !in taint(caller.fn) ==>
              Operands(fr.vals, term.values)[k] == Operands(gr.vals, term.values)[k]
  {
    hide Dead, Prunable, AgreeOutside, BoundOutside, Filter, IsGas, ReadsTaint;
    TermFacts(p, drop, taint, env, fr, term);
    ConditionRead(term);
    OperandsMatch(fr.vals, gr.vals, Dead(p[fr.fn], fr.fn, drop), taint(fr.fn), term.values);
    if drop(caller.fn, p[caller.fn].blocks[caller.block].insts[caller.pc]) {
      DroppedFacts(p, drop, taint, env, caller);
      assert false;
    } else {
      KeptFacts(p, drop, taint, env, caller);
      NotGas(InstructionAt(p, caller).op);
    }
  }

  /** One step of the program is one step of the pruned program, or none where the instruction was deleted. */
  lemma StepSimulates(p: Program, drop: Drop, taint: Taint, env: Env, layout: Layout, s: State, t: State)
    requires Prunable(p, drop, taint, env) && Matches(p, drop, taint, s, t) && Step(p, env, layout, s).Some?
    ensures AtDropped(p, drop, s) ==> Matches(p, drop, taint, Step(p, env, layout, s).value, t)
    ensures !AtDropped(p, drop, s) ==>
              && Step(PruneAll(p, drop), env, layout, t).Some?
              && Matches(p, drop, taint, Step(p, env, layout, s).value, Step(PruneAll(p, drop), env, layout, t).value)
  {
    hide Prunable, Matches, StepInst, Resume, Goto, TakenEdge;
    var fr := s.frames[|s.frames| - 1];
    InstructionOrEnd(p, drop, taint, env, fr);
    if AtDropped(p, drop, s) {
      DroppedStep(p, drop, taint, env, layout, s, t);
    } else if AtInstruction(p, fr) {
      if InstructionAt(p, fr).op.CallFn? {
        CallStep(p, drop, taint, env, layout, s, t);
      } else {
        OpStep(p, drop, taint, env, layout, s, t);
      }
    } else {
      var term := p[fr.fn].blocks[fr.block].term.value;
      if term.Return? {
        ReturnStep(p, drop, taint, env, layout, s, t, term);
      } else {
        JumpStep(p, drop, taint, env, layout, s, t, term);
      }
    }
  }

  // ----- whole runs -----

  lemma {:induction false} RunSimulates(
    p: Program, drop: Drop, taint: Taint, env: Env, layout: Layout, s: State, t: State, n: nat) returns (m: nat)
    requires Prunable(p, drop, taint, env) && Matches(p, drop, taint, s, t) && Run(p, env, layout, s, n).Some?
    ensures m <= n && Run(PruneAll(p, drop), env, layout, t, m).Some?
    ensures Matches(p, drop, taint, Run(p, env, layout, s, n).value, Run(PruneAll(p, drop), env, layout, t, m).value)
  {
    hide Step, Prunable, Matches, AtDropped, PruneAll;
    if n == 0 {
      m := 0;
    } else {
      m := RunSimulates(p, drop, taint, env, layout, s, t, n - 1);
      var s', t' := Run(p, env, layout, s, n - 1).value, Run(PruneAll(p, drop), env, layout, t, m).value;
      StepSimulates(p, drop, taint, env, layout, s', t');
      if !AtDropped(p, drop, s') {
        m := m + 1;
      }
    }
  }

  /** The state of the pruned run as the program's own state shows it: world, stack, untouched values, terminator. */
  ghost predicate LooksSame(p: Program, drop: Drop, taint: Taint, s: State, t: State) {
    && |t.frames| == |s.frames|
    && t.world.Bare() == s.world.Bare() && t.world.gas >= s.world.gas
    && (forall i :: 0 <= i < |s.frames| ==> FramesLookSame(p, drop, taint, s.frames[i], t.frames[i]))
    && (s.frames != [] ==> EndsLookSame(p, PruneAll(p, drop), s.frames[|s.frames| - 1], t.frames[|s.frames| - 1]))
  }

  ghost predicate FramesLookSame(p: Program, drop: Drop, taint: Taint, fr: Frame, gr: Frame) {
    && fr.fn < |p| && gr.fn == fr.fn && gr.block == fr.block
    && AgreeOutside(fr.vals, gr.vals, Hidden(p, drop, taint, fr.fn))
  }

  /** Frames past their last instruction leave their blocks alike; unless that is a return, with the same words. */
  ghost predicate EndsLookSame(p: Program, q: Program, fr: Frame, gr: Frame) {
    AtEnd(p, fr) ==>
      && AtEnd(q, gr) && q[gr.fn].blocks[gr.block].term == p[fr.fn].blocks[fr.block].term
      && var term := p[fr.fn].blocks[fr.block].term;
         term.Some? && !term.value.Return? ==>
           forall v :: v in fr.vals && v in term.value.OwnArgs() ==> v in gr.vals && gr.vals[v] == fr.vals[v]
  }

  lemma MatchesLooksSame(p: Program, drop: Drop, taint: Taint, env: Env, s: State, t: State)
    requires Prunable(p, drop, taint, env) && Matches(p, drop, taint, s, t)
    ensures LooksSame(p, drop, taint, s, t)
  {
    hide Prunable, Dead, Filter, PruneAll;
    if s.frames != [] {
      var n := |s.frames| - 1;
      var fr, gr := s.frames[n], t.frames[n];
      if AtEnd(p, fr) {
        SameEnd(p, drop, taint, fr, gr);
        if p[fr.fn].blocks[fr.block].term.Some? {
          TermFacts(p, drop, taint, env, fr, p[fr.fn].blocks[fr.block].term.value);
          ConditionRead(p[fr.fn].blocks[fr.block].term.value);
        }
      }
    }
  }

  /**
   Removal over whole programs. Delete any set of pure instructions that nothing
   left reads, in every function of a program whose `GAS` readings keep to tainted
   values. Every run of the program, of any length, through loops and calls, is
   matched by a run of the pruned program that is no longer and spends no more gas.
   It reaches the same world, the same stack, the same values but for the deleted
   and tainted ones, and the same terminator with the same operands.
   */
  lemma PruningIsSound(
    p: Program, drop: Drop, taint: Taint, env: Env, layout: Layout, fn: FuncRef, args: seq<Word>, w: World, n: nat)
    returns (m: nat)
    requires Prunable(p, drop, taint, env) && Enter(p, fn, args).Some?
    requires Run(p, env, layout, State([Enter(p, fn, args).value], w), n).Some?
    ensures Enter(PruneAll(p, drop), fn, args).Some? && m <= n
    ensures Run(PruneAll(p, drop), env, layout, State([Enter(PruneAll(p, drop), fn, args).value], w), m).Some?
    ensures LooksSame(p, drop, taint, Run(p, env, layout, State([Enter(p, fn, args).value], w), n).value,
                      Run(PruneAll(p, drop), env, layout,
                          State([Enter(PruneAll(p, drop), fn, args).value], w), m).value)
  {
    hide Run, Prunable, LooksSame, PruneAll, Enter;
    EnterMatches(p, drop, taint, fn, args, args);
    var start := State([Enter(p, fn, args).value], w);
    var entered := State([Enter(PruneAll(p, drop), fn, args).value], w);
    m := RunSimulates(p, drop, taint, env, layout, start, entered, n);
    MatchesLooksSame(p, drop, taint, env, Run(p, env, layout, start, n).value,
                     Run(PruneAll(p, drop), env, layout, entered, m).value);
  }
}
