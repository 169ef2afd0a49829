/** What holds of the builder over every sequence of calls. */
module BuilderRuns {
  import opened Sequences
  import opened Isa
  import opened Types
  import opened Instructions
  import opened Arena
  import opened Builder
  import Machine

  /** The state after a history, when every call's handles were in range. */
  function Run(sig: Signature, calls: seq<BuilderCall>): (r: Option<State>)
    ensures r.Some? ==> CurrentOk(r.value)
  {
    if calls == [] then
      NewFuncOk(sig);
      Some(State(NewFunc(sig), Some(0), None))
    else
      match Run(sig, Init(calls)) {
        case None => None
        case Some(s) => if Ready(s, Last(calls)) then Some(Step(s, Last(calls))) else None
      }
  }

  // ----- the arena invariant -----

  lemma StepKeepsArena(s: State, call: BuilderCall)
    requires CurrentOk(s) && Ready(s, call) && ArenaOk(s.func)
    ensures ArenaOk(Step(s, call).func)
  {
    match call
    case NewBlock(params) =>
      WithBlockKeeps(s.func);
      WithParamsKeeps(WithBlock(s.func), |s.func.blocks|, params);
    case SwitchTo(_) =>
    case Emit(ins) =>
      if s.error.None? && RequestOf(s.func, ins).Ok? && Target(s).Ok? {
        var r := RequestOf(s.func, ins).value;
        WithInstKeeps(s.func, Target(s).value, InstData(r.op, r.ty, r.repair, r.args, []), r.results);
      }
    case Terminate(term) =>
      if s.error.None? && Target(s).Ok? {
        WithTerminatorKeeps(s.func, Target(s).value, term);
      }
  }

  /**
   After any call sequence: values and definition sites are in bijection, every
   instruction lies in exactly one block once, and the entry parameters are values
   `0..P-1`.
   */
  lemma {:induction false} ReachableArenasOk(sig: Signature, calls: seq<BuilderCall>)
    requires Run(sig, calls).Some?
    ensures ArenaOk(Run(sig, calls).value.func)
    ensures Run(sig, calls).value.func.sig == sig
  {
    if calls == [] {
      NewFuncOk(sig);
      WithParamsKeepSig(WithBlock(Arena.Func(sig, [], [], [])), 0, sig.params);
    } else {
      ReachableArenasOk(sig, Init(calls));
      var s := Run(sig, Init(calls)).value;
      StepKeepsArena(s, Last(calls));
      if Last(calls).NewBlock? {
        WithParamsKeepSig(WithBlock(s.func), |s.func.blocks|, Last(calls).params);
      }
    }
  }

  // ----- what later calls leave alone -----

  lemma {:induction false} WithParamsKeepSig(f: Arena.Func, b: Block, types: seq<Type>)
    requires b < |f.blocks|
    ensures var g := WithParams(f, b, types);
            && g.sig == f.sig && g.insts == f.insts
            && f.values <= g.values && |g.values| == |f.values| + |types|
            && |g.blocks| == |f.blocks|
            && (forall c :: 0 <= c < |f.blocks| && c != b ==> g.blocks[c] == f.blocks[c])
            && g.blocks[b].insts == f.blocks[b].insts && g.blocks[b].term == f.blocks[b].term
    decreases |types|
  {
    if types == [] {
    } else {
      WithParamsKeepSig(f, b, Init(types));
    }
  }

  /** `g` extends `f`: nothing recorded changes, and terminated blocks are frozen. */
  ghost predicate Extends(f: Arena.Func, g: Arena.Func) {
    && f.insts <= g.insts
    && f.values <= g.values
    && |f.blocks| <= |g.blocks|
    && (forall b :: 0 <= b < |f.blocks| ==> f.blocks[b].params == g.blocks[b].params)
    && (forall b :: 0 <= b < |f.blocks| ==> f.blocks[b].insts <= g.blocks[b].insts)
    && (forall b :: 0 <= b < |f.blocks| && f.blocks[b].term.Some? ==> g.blocks[b] == f.blocks[b])
  }

  lemma ExtendsTransitive(f: Arena.Func, g: Arena.Func, h: Arena.Func)
    requires Extends(f, g) && Extends(g, h)
    ensures Extends(f, h)
  {
    forall b | 0 <= b < |f.blocks|
      ensures f.blocks[b].params == h.blocks[b].params
      ensures f.blocks[b].insts <= h.blocks[b].insts
      ensures f.blocks[b].term.Some? ==> h.blocks[b] == f.blocks[b]
    {
      assert f.blocks[b].params == g.blocks[b].params;
      assert f.blocks[b].insts <= g.blocks[b].insts <= h.blocks[b].insts;
    }
  }

  lemma StepExtends(s: State, call: BuilderCall)
    requires CurrentOk(s) && Ready(s, call)
    ensures Extends(s.func, Step(s, call).func)
    ensures s.error.Some? ==> Step(s, call).error == s.error && Step(s, call).func.insts == s.func.insts
    ensures s.error.Some? ==> forall b :: 0 <= b < |s.func.blocks| ==> Step(s, call).func.blocks[b] == s.func.blocks[b]
  {
    if call.NewBlock? {
      WithParamsKeepSig(WithBlock(s.func), |s.func.blocks|, call.params);
    }
  }

  /**
   A terminated block never gains an instruction or another terminator, recorded
   values and instructions never change, and after the first error no block that
   exists changes and the error stays.
   */
  lemma {:induction false} LaterCallsExtend(sig: Signature, calls: seq<BuilderCall>, more: seq<BuilderCall>)
    requires Run(sig, calls + more).Some?
    ensures Run(sig, calls).Some?
    ensures Extends(Run(sig, calls).value.func, Run(sig, calls + more).value.func)
    ensures var (s, t) := (Run(sig, calls).value, Run(sig, calls + more).value);
            s.error.Some? ==>
              && t.error == s.error && t.func.insts == s.func.insts
              && Finished(t) == Err(s.error.value)
              && forall b :: 0 <= b < |s.func.blocks| ==> t.func.blocks[b] == s.func.blocks[b]
  {
    if more == [] {
      assert calls + more == calls;
    } else {
      var before := calls + Init(more);
      assert Init(calls + more) == before && Last(calls + more) == Last(more);
      LaterCallsExtend(sig, calls, Init(more));
      var s, m, t := Run(sig, calls).value.func, Run(sig, before).value, Run(sig, calls + more).value.func;
      StepExtends(m, Last(more));
      ExtendsTransitive(s, m.func, t);
    }
  }

  // ----- repairs and result types are the builder's -----

  ghost predicate ResultsTyped(f: Arena.Func, results: seq<Value>, types: seq<Type>) {
    && |results| == |types|
    && forall k :: 0 <= k < |results| ==> results[k] < |f.values| && f.values[results[k]].ty == types[k]
  }

  /** An instruction carries the repair the builder chooses, and results of the types it mints. */
  ghost predicate Built(f: Arena.Func, inst: InstData) {
    if inst.op.Convert? then
      && |inst.args| == 1 && inst.args[0] < |f.values|
      && inst.repair == ForConvert(f.values[inst.args[0]].ty, inst.ty)
      && ResultsTyped(f, inst.results, [inst.ty])
    else if inst.op.Opcode? then
      && inst.repair == NoRepair && Machine.Admitted(inst.op.spec) && |inst.results| <= 1
      && ResultsTyped(f, inst.results, seq(|inst.results|, i => inst.ty))
    else if inst.op.CallFn? then
      && inst.repair == NoRepair
      && (forall k :: 0 <= k < |inst.results| ==> inst.results[k] < |f.values|)
      && inst.ty == (if inst.results == [] then U256 else f.values[inst.results[0]].ty)
    else if IsChecked(inst.op) then
      && |inst.args| == 2
      && inst.repair == inst.op.DefaultRepair(inst.ty) && ResultsTyped(f, inst.results, [inst.ty, BOOL])
    else if IsPut(inst.op) then
      && |inst.args| == 2 && inst.args[1] < |f.values| && inst.ty == f.values[inst.args[1]].ty
      && inst.repair == NoRepair && inst.results == []
    else if inst.op.MemCopy? then
      |inst.args| == 3 && inst.ty == Ptr && inst.repair == NoRepair && inst.results == []
    else
      && HasMethod(inst.op, inst.ty, |inst.args|)
      && inst.repair == inst.op.DefaultRepair(inst.ty) && ResultsTyped(f, inst.results, [inst.ty])
  }

  ghost predicate AllBuilt(f: Arena.Func) {
    forall i :: 0 <= i < |f.insts| ==> Built(f, f.insts[i])
  }

  lemma BuiltExtends(f: Arena.Func, g: Arena.Func, inst: InstData)
    requires Extends(f, g) && Built(f, inst)
    ensures Built(g, inst)
  {
  }

  /** What the reserved families leave is what the machine can execute raw. */
  lemma ReservedIsNotAdmitted(spec: OpSpec)
    requires ByByte(spec.byte) == Some(spec)
    ensures Reserved(spec).None? <==> Machine.Admitted(spec)
  {
  }

  lemma RequestBuilt(f: Arena.Func, ins: Ins, b: Block)
    requires InsReady(f, ins) && RequestOf(f, ins).Ok? && b < |f.blocks|
    ensures var r := RequestOf(f, ins).value;
            var g := WithInst(f, b, InstData(r.op, r.ty, r.repair, r.args, []), r.results);
            Built(g, Last(g.insts))
  {
    var r := RequestOf(f, ins).value;
    var g := WithInst(f, b, InstData(r.op, r.ty, r.repair, r.args, []), r.results);
    assert ResultsTyped(g, Last(g.insts).results, r.results);
    match ins
    case Raw(name, _, _, _) => ReservedIsNotAdmitted(ByMnemonic(name).value);
    case _ =>
  }

  /** Every instruction of a builder-produced function carries the builder's repair. */
  lemma {:induction false} ReachableBuilt(sig: Signature, calls: seq<BuilderCall>)
    requires Run(sig, calls).Some?
    ensures AllBuilt(Run(sig, calls).value.func)
  {
    if calls == [] {
      WithParamsKeepSig(WithBlock(Arena.Func(sig, [], [], [])), 0, sig.params);
    } else {
      ReachableBuilt(sig, Init(calls));
      var s, t := Run(sig, Init(calls)).value, Run(sig, calls).value;
      StepExtends(s, Last(calls));
      forall i | 0 <= i < |t.func.insts|
        ensures Built(t.func, t.func.insts[i])
      {
        if i < |s.func.insts| {
          BuiltExtends(s.func, t.func, s.func.insts[i]);
          assert t.func.insts[i] == s.func.insts[i];
        } else {
          NewInstIsRequested(s, Last(calls));
        }
      }
    }
  }

  lemma NewInstIsRequested(s: State, call: BuilderCall)
    requires CurrentOk(s) && Ready(s, call) && |Step(s, call).func.insts| > |s.func.insts|
    ensures |Step(s, call).func.insts| == |s.func.insts| + 1
    ensures Built(Step(s, call).func, Last(Step(s, call).func.insts))
  {
    match call
    case NewBlock(params) => WithParamsKeepSig(WithBlock(s.func), |s.func.blocks|, params);
    case Emit(ins) => RequestBuilt(s.func, ins, Target(s).value);
    case _ =>
  }

  // ----- where instructions come from -----

  /** The instruction is the request, with results minted for it. */
  ghost predicate StemsFrom(f: Arena.Func, inst: InstData, r: Request) {
    && inst == InstData(r.op, r.ty, r.repair, r.args, inst.results)
    && ResultsTyped(f, inst.results, r.results)
  }

  /** The state in which call `k` of a history was made. */
  function Before(sig: Signature, calls: seq<BuilderCall>, k: nat): State
    requires k <= |calls| && Run(sig, calls[..k]).Some?
  {
    Run(sig, calls[..k]).value
  }

  lemma RequestAppended(s: State, call: BuilderCall)
    requires CurrentOk(s) && Ready(s, call) && |Step(s, call).func.insts| > |s.func.insts|
    ensures |Step(s, call).func.insts| == |s.func.insts| + 1
    ensures call.Emit? && RequestOf(s.func, call.ins).Ok?
    ensures StemsFrom(Step(s, call).func, Last(Step(s, call).func.insts), RequestOf(s.func, call.ins).value)
  {
    if call.NewBlock? {
      WithParamsKeepSig(WithBlock(s.func), |s.func.blocks|, call.params);
    }
  }

  /**
   Every instruction of a builder-produced function is what one call asked for: the
   call made when `i` instructions were there, with the type, the repair, the
   operands and the result types the builder computed for it then.
   */
  lemma {:induction false} InstructionOrigin(sig: Signature, calls: seq<BuilderCall>, i: nat) returns (k: nat)
    requires Run(sig, calls).Some? && i < |Run(sig, calls).value.func.insts|
    ensures k < |calls| && calls[k].Emit? && Run(sig, calls[..k]).Some?
    ensures |Before(sig, calls, k).func.insts| == i
    ensures InsReady(Before(sig, calls, k).func, calls[k].ins)
    ensures RequestOf(Before(sig, calls, k).func, calls[k].ins).Ok?
    ensures StemsFrom(Run(sig, calls).value.func, Run(sig, calls).value.func.insts[i],
                      RequestOf(Before(sig, calls, k).func, calls[k].ins).value)
  {
    if calls == [] {
      WithParamsKeepSig(WithBlock(Arena.Func(sig, [], [], [])), 0, sig.params);
      assert false;
    } else {
      var s := Run(sig, Init(calls)).value;
      StepExtends(s, Last(calls));
      if i < |s.func.insts| {
        k := InstructionOrigin(sig, Init(calls), i);
        assert Init(calls)[..k] == calls[..k] && Init(calls)[k] == calls[k];
      } else {
        k := |calls| - 1;
        RequestAppended(s, Last(calls));
      }
    }
  }

  lemma RequestCounts(f: Arena.Func, ins: Ins)
    requires InsReady(f, ins) && RequestOf(f, ins).Ok?
    ensures var r := RequestOf(f, ins).value;
            match ins
            case Raw(name, _, _, n) => r.op.Opcode? && ByMnemonic(name) == Some(r.op.spec) && |r.results| == n
            case Call(_, callee, _) => r.op.ResultCount().None? && |r.results| == |callee.rets|
            case _ => r.op.ResultCount() == Some(|r.results|)
  {
    hide ByMnemonic, Reserved, Op.DefaultRepair, ForConvert;
  }

  /**
   An instruction has as many results as its operation declares, a call as many as
   the signature it was made with. A raw opcode has as many as its caller asked
   for, which is the table's number exactly when the caller asked for that.
   */
  lemma ResultCountsMatch(sig: Signature, calls: seq<BuilderCall>, i: nat) returns (k: nat)
    requires Run(sig, calls).Some? && i < |Run(sig, calls).value.func.insts|
    ensures k < |calls| && calls[k].Emit? && Run(sig, calls[..k]).Some?
    ensures |Before(sig, calls, k).func.insts| == i
    ensures var inst, ins := Run(sig, calls).value.func.insts[i], calls[k].ins;
            match ins
            case Raw(name, _, _, n) =>
              && inst.op.Opcode? && ByMnemonic(name) == Some(inst.op.spec) && |inst.results| == n
              && (inst.op.ResultCount() == Some(|inst.results|) <==> n == inst.op.spec.stackOut)
            case Call(_, callee, _) => inst.op.ResultCount().None? && |inst.results| == |callee.rets|
            case _ => inst.op.ResultCount() == Some(|inst.results|)
  {
    hide Run, RequestOf, InsReady, ByMnemonic;
    k := InstructionOrigin(sig, calls, i);
    RequestCounts(Before(sig, calls, k).func, calls[k].ins);
  }

  /** `SSTORE` asked for one result is accepted on a fresh builder, and has one result where the table has none. */
  lemma RawResultsUnchecked(sig: Signature, args: seq<Value>)
    ensures var calls := [BuilderCall.Emit(Raw(Listed(0x55), U256, args, 1))];
            && Run(sig, calls).Some? && Run(sig, calls).value.error.None?
            && |Run(sig, calls).value.func.insts| == 1
            && var inst := Run(sig, calls).value.func.insts[0];
               inst.op.ResultCount() == Some(0) && |inst.results| == 1
  {
    hide WithParams, Op.DefaultRepair, ForConvert;
    var calls := [BuilderCall.Emit(Raw(Listed(0x55), U256, args, 1))];
    assert Init(calls) == [] && Last(calls) == calls[0];
    WithParamsKeepSig(WithBlock(Arena.Func(sig, [], [], [])), 0, sig.params);
    var s := State(NewFunc(sig), Some(0), None);
    assert Run(sig, []) == Some(s) && Target(s) == Ok(0);
  }
}
