/** From builder calls to the steps of a run: what a recorded instruction does where it stands. */
module Programs {
  import opened Sequences
  import opened Isa
  import opened Types
  import opened Instructions
  import opened WidthRepair
  import opened Machine
  import opened Arena
  import opened Soundness
  import opened Computation
  import opened Control
  import opened Builder
  import BuilderRuns
  import BlockRuns

  /** The function on top of the stack is the one the calls built, about to execute what call `k` recorded. */
  ghost predicate AboutTo(
    p: Program, sig: Signature, calls: seq<BuilderCall>, k: nat, s: Soundness.State, inst: InstData)
  {
    && StandsAt(p, s, inst)
    && BuilderRuns.Run(sig, calls).Some?
    && Finished(BuilderRuns.Run(sig, calls).value) == Ok(p[Top(s).fn])
    && k < |calls| && calls[k].Emit?
    && p[Top(s).fn].blocks[Top(s).block].insts[Top(s).pc] == BlockRuns.Emits(calls[..k])
  }

  /** In a function that was finished every call was accepted, so call `k` appended this instruction. */
  lemma AboutToAppended(
    p: Program, sig: Signature, calls: seq<BuilderCall>, k: nat, s: Soundness.State, inst: InstData)
    requires AboutTo(p, sig, calls, k, s, inst)
    ensures BuilderRuns.Run(sig, calls[..k]).Some?
    ensures Appends(BuilderRuns.Before(sig, calls, k), calls[k].ins, inst)
    ensures BuilderRuns.Before(sig, calls, k).func.values <= p[Top(s).fn].values
  {
    hide ArenaOk, BuilderRuns.Run, Builder.Step, Ready, Soundness.Step, BlockRuns.Emits, BlockRuns.Refusal;
    BlockRuns.FinishedFollows(sig, calls);
    assert BlockRuns.FirstRefused(calls, 0) == |calls|;
    BlockRuns.InstructionOf(sig, calls, k);
  }

  /**
   A run that reaches what a single-result call recorded binds the handle the call
   returned to the Rust result of the operation on its arguments, and moves on.
   */
  lemma StepComputes(
    p: Program, sig: Signature, calls: seq<BuilderCall>, k: nat, op: Op, ty: Type, args: seq<Value>,
    env: Env, layout: Layout, s: Soundness.State, inst: InstData, words: seq<Word>) returns (r: Word)
    requires AboutTo(p, sig, calls, k, s, inst) && calls[k] == BuilderCall.Emit(Single(op, ty, args))
    requires ty.IsWellFormed() && Carry(Top(s).vals, args, words)
    requires args != [] ==> args[0] < |p[Top(s).fn].values|
    requires Suits(op, ty, if args == [] then ty else p[Top(s).fn].values[args[0]].ty, words)
    requires Cost(env, inst, words, s.world) <= s.world.gas
    ensures Computed(op, ty, if args == [] then ty else p[Top(s).fn].values[args[0]].ty, words, r)
    ensures BuilderRuns.Run(sig, calls[..k]).Some? && Soundness.Step(p, env, layout, s).Some?
    ensures var (t, v) := (Soundness.Step(p, env, layout, s).value, |BuilderRuns.Before(sig, calls, k).func.values|);
            && |t.frames| == |s.frames|
            && Top(t) == Frame(Top(s).fn, Top(s).block, Top(s).pc + 1, Top(s).vals[v := r])
            && t.world == Paid(env, inst, words, s.world)
  {
    hide Soundness.Step, ExecInst, Cost, Suits, Computed, Appends, ArenaOk, Carry, BuilderRuns.Run;
    AboutToAppended(p, sig, calls, k, s, inst);
    var before, f := BuilderRuns.Before(sig, calls, k), p[Top(s).fn];
    var slot := layout(Top(s).fn, |s.frames| - 1, inst.results);
    r := SingleComputes(before, op, ty, args, inst, env, TypesOf(f), slot, Top(s).vals, words, s.world);
    SingleAppends(before, op, ty, args, inst);
    SuitsPure(op, ty, OperandType(TypesOf(f), inst), words);
    InstructionGoes(p, env, layout, s, inst);
  }

  // ----- a function built and run -----

  const OCTET: Type := Uint(8)
  const TWO_OCTETS: Signature := Signature([OCTET, OCTET], [OCTET])

  /** The calls that build the difference of two octets. */
  const DIFFERENCE: seq<BuilderCall> :=
    [BuilderCall.Emit(Single(Sub, OCTET, [0, 1])), BuilderCall.Terminate(Return([2]))]

  /** What they build. */
  const DIFFERENCE_BUILT: Arena.Func := Arena.Func(
    TWO_OCTETS,
    [InstData(Sub, OCTET, Mask(8), [0, 1], [2])],
    [ValueData(OCTET, ParamOf(0, 0)), ValueData(OCTET, ParamOf(0, 1)), ValueData(OCTET, ResultOf(0, 0))],
    [BlockData([0, 1], [0], Some(Return([2])))])

  const ONE_PARAMETER: Arena.Func := Arena.Func(
    TWO_OCTETS, [], [ValueData(OCTET, ParamOf(0, 0))], [BlockData([0], [], None)])

  lemma OneParameter(f: Arena.Func)
    requires f == WithBlock(Arena.Func(TWO_OCTETS, [], [], []))
    ensures WithParams(f, 0, [OCTET]) == ONE_PARAMETER
  {
    assert f.blocks == [BlockData([], [], None)] && [] + [0] == [0];
    assert [OCTET][..0] == [] && WithParams(f, 0, []) == f;
    assert WithParam(f, 0, OCTET).blocks == ONE_PARAMETER.blocks;
  }

  lemma TwoParameters()
    ensures NewFunc(TWO_OCTETS)
         == Arena.Func(TWO_OCTETS, [], [ValueData(OCTET, ParamOf(0, 0)), ValueData(OCTET, ParamOf(0, 1))],
                       [BlockData([0, 1], [], None)])
  {
    var f := WithBlock(Arena.Func(TWO_OCTETS, [], [], []));
    OneParameter(f);
    assert TWO_OCTETS.params[..1] == [OCTET];
    assert WithParams(f, 0, TWO_OCTETS.params) == WithParam(ONE_PARAMETER, 0, OCTET);
    assert [0] + [1] == [0, 1];
  }

  lemma DifferenceIsBuilt()
    ensures BuilderRuns.Run(TWO_OCTETS, DIFFERENCE).Some?
    ensures Finished(BuilderRuns.Run(TWO_OCTETS, DIFFERENCE).value) == Ok(DIFFERENCE_BUILT)
  {
    TwoParameters();
    assert Init(DIFFERENCE) == [DIFFERENCE[0]] && Init([DIFFERENCE[0]]) == [];
    assert BuilderRuns.Run(TWO_OCTETS, []) == Some(Builder.State(NewFunc(TWO_OCTETS), Some(0), None));
    assert Handles(2, 1) == [2] && Minted(0, [OCTET]) == [ValueData(OCTET, ResultOf(0, 0))];
    var s := Builder.Step(Builder.State(NewFunc(TWO_OCTETS), Some(0), None), DIFFERENCE[0]);
    assert BuilderRuns.Run(TWO_OCTETS, [DIFFERENCE[0]]) == Some(s);
    assert s.func.insts == DIFFERENCE_BUILT.insts && s.func.values == DIFFERENCE_BUILT.values;
    assert NewFunc(TWO_OCTETS).blocks[0].insts + [0] == [0];
    assert s.func.blocks == [BlockData([0, 1], [0], None)];
    assert Builder.Step(s, DIFFERENCE[1]).func == DIFFERENCE_BUILT;
  }

  lemma DifferenceIsTyped()
    ensures FuncTyped([DIFFERENCE_BUILT], DIFFERENCE_BUILT)
  {
    var f := DIFFERENCE_BUILT;
    assert forall v :: 0 <= v < |f.values| ==> f.values[v].ty == OCTET;
    assert TypesMatch(f, [2], [OCTET]);
  }

  /** The start of a run of the difference on two octets. */
  function Begun(a: Word, b: Word, w: World): Soundness.State {
    Soundness.State([Frame(0, 0, 0, map[0 := a, 1 := b])], w)
  }

  /** The built function, entered with two octets, binds value 2 to their difference modulo 256. */
  lemma DifferenceRuns(env: Env, layout: Layout, a: Word, b: Word, w: World) returns (r: Word)
    requires WellFormed(OCTET, a) && WellFormed(OCTET, b)
    requires Cost(env, DIFFERENCE_BUILT.insts[0], [a, b], w) <= w.gas
    ensures var p := [DIFFERENCE_BUILT];
            && Enter(p, 0, [a, b]) == Some(Begun(a, b, w).frames[0])
            && Soundness.Run(p, env, layout, Begun(a, b, w), 1).Some?
            && Soundness.Run(p, env, layout, Begun(a, b, w), 1).value.frames
               == [Frame(0, 0, 1, map[0 := a, 1 := b, 2 := r])]
    ensures WellFormed(OCTET, r) && IntValue(OCTET, r) == (IntValue(OCTET, a) - IntValue(OCTET, b)) % 256
  {
    hide Cost, WellFormed, IntValue, Soundness.Step, BuilderRuns.Run;
    var p, s, inst := [DIFFERENCE_BUILT], Begun(a, b, w), DIFFERENCE_BUILT.insts[0];
    DifferenceIsBuilt();
    BuilderRuns.ReachableArenasOk(TWO_OCTETS, DIFFERENCE);
    EnterTwo(p, a, b, w);
    assert DIFFERENCE[..0] == [];
    assert AboutTo(p, TWO_OCTETS, DIFFERENCE, 0, s, inst);
    assert Carry(Top(s).vals, [0, 1], [a, b]);
    r := StepComputes(p, TWO_OCTETS, DIFFERENCE, 0, Sub, OCTET, [0, 1], env, layout, s, inst, [a, b]);
    assert Soundness.Run(p, env, layout, s, 0) == Some(s);
    BeforeAll();
    WrapOctet(IntValue(OCTET, a) - IntValue(OCTET, b));
  }

  lemma BeforeAll()
    ensures BuilderRuns.Run(TWO_OCTETS, []).Some? && |BuilderRuns.Run(TWO_OCTETS, []).value.func.values| == 2
  {
    TwoParameters();
  }

  lemma EnterTwo(p: Program, a: Word, b: Word, w: World)
    requires p == [DIFFERENCE_BUILT]
    ensures Enter(p, 0, [a, b]) == Some(Begun(a, b, w).frames[0])
  {
    TwoResults(map[], [0, 1], a, b);
  }

  lemma WrapOctet(z: int)
    ensures Wrap(OCTET, z) == z % 256
  {
  }
}
