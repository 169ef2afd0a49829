/** The deployer: a self-measuring prologue in front of the code to be deployed. */
module Deployer {
  import opened Powers
  import opened Isa
  import opened Immediates
  import opened Disassembler
  import opened Layout
  import opened Assembler
  import opened AssemblerRuns
  import TinyEvm

  /** The prologue: push the length twice and the offset, copy the code, return it. */
  function PrologueCalls(len: nat, offset: nat): seq<Call> {
    [PushCall(FromNat(len)), DupCall(1), PushCall(FromNat(offset)), PushCall(FromNat(0)),
     OpCall(Listed(CODECOPY)), PushCall(FromNat(0)), OpCall(Listed(RETURN))]
  }

  lemma SevenCalls(fork: Fork, c: seq<Call>)
    requires |c| == 7
    ensures Run(fork, c)
         == Step(Step(Step(Step(Step(Step(Step(State(fork, [], 0, None), c[0]), c[1]), c[2]), c[3]), c[4]), c[5]), c[6])
    ensures CodeSize(fork, c)
         == CallSize(fork, c[0]) + CallSize(fork, c[1]) + CallSize(fork, c[2]) + CallSize(fork, c[3])
            + CallSize(fork, c[4]) + CallSize(fork, c[5]) + CallSize(fork, c[6])
  {
    assert c[..0] == [] && c[..7] == c;
    RunOneMore(fork, c, 0);
    RunOneMore(fork, c, 1);
    RunOneMore(fork, c, 2);
    RunOneMore(fork, c, 3);
    RunOneMore(fork, c, 4);
    RunOneMore(fork, c, 5);
    RunOneMore(fork, c, 6);
  }

  /** Calls that no fork refuses. */
  predicate Harmless(call: Call) {
    call.PushCall? || call == DupCall(1) || call == OpCall(Listed(CODECOPY)) || call == OpCall(Listed(RETURN))
  }

  lemma HarmlessAccepted(fork: Fork, before: seq<Call>, call: Call)
    requires Harmless(call)
    ensures !Refused(fork, before, call)
  {
  }

  lemma AllHarmlessAccepted(fork: Fork, calls: seq<Call>)
    requires forall i :: 0 <= i < |calls| ==> Harmless(calls[i])
    ensures NoneRefused(fork, calls) && NoReferences(calls) && Emitting(calls) == calls
  {
    forall i | 0 <= i < |calls|
      ensures !Refused(fork, calls[..i], calls[i])
    {
      HarmlessAccepted(fork, calls[..i], calls[i]);
    }
    NoLabelCalls(calls);
  }

  lemma PrologueAccepted(fork: Fork, len: nat, offset: nat)
    ensures NoneRefused(fork, PrologueCalls(len, offset)) && NoReferences(PrologueCalls(len, offset))
    ensures Emitting(PrologueCalls(len, offset)) == PrologueCalls(len, offset)
  {
    hide FromNat;
    AllHarmlessAccepted(fork, PrologueCalls(len, offset));
  }

  method AssemblePrologue(len: nat, offset: nat, fork: Fork) returns (r: Result<seq<Byte>>)
    ensures Encodable(Run(fork, PrologueCalls(len, offset)).items)
    ensures r == Finished(Run(fork, PrologueCalls(len, offset)))
    ensures r.Ok? && |r.value| == CodeSize(fork, PrologueCalls(len, offset))
  {
    var a := new Asm(fork);
    a.Push(FromNat(len));
    a.Dup(1);
    a.Push(FromNat(offset));
    a.Push(FromNat(0));
    a.Op(Listed(CODECOPY));
    a.Push(FromNat(0));
    a.Op(Listed(RETURN));
    SevenCalls(fork, PrologueCalls(len, offset));
    PrologueFinishes(fork, len, offset);
    r := a.Finish();
  }

  lemma PrologueFinishes(fork: Fork, len: nat, offset: nat)
    ensures Encodable(Run(fork, PrologueCalls(len, offset)).items)
    ensures Finished(Run(fork, PrologueCalls(len, offset))).Ok?
    ensures |Finished(Run(fork, PrologueCalls(len, offset))).value| == CodeSize(fork, PrologueCalls(len, offset))
  {
    var calls := PrologueCalls(len, offset);
    PrologueAccepted(fork, len, offset);
    FinishSucceedsIff(fork, calls);
    RunAccepts(fork, calls);
    AcceptedSize(fork, calls, Run(fork, calls).items);
    ResolveKeepsOffsets(Run(fork, calls).items, LabelsOf(Run(fork, calls).items));
  }

  /** Bytes the fork needs to push zero. */
  function ZeroSize(fork: Fork): nat { if Shanghai.AtMost(fork) then 1 else 2 }

  lemma SmallWidths(v: nat)
    requires v < 256
    ensures Width(FromNat(v)) == if v == 0 then 0 else 1
  {
    assert Pow2(8) == 256 && Pow2(0) == 1;
    Pow2Split(8, 8 * 32);
    BytesDenote(v, 32);
    WidthIsLeast(FromNat(v), 1);
    WidthIsLeast(FromNat(v), 0);
  }

  lemma WideWidths(v: nat)
    requires v < Pow2(64)
    ensures Width(FromNat(v)) <= 8
  {
    Pow2Split(64, 8 * 32);
    BytesDenote(v, 32);
    WidthIsLeast(FromNat(v), 8);
  }

  function PushSize(fork: Fork, v: nat): nat {
    CallSize(fork, PushCall(FromNat(v)))
  }

  lemma PushSizes(fork: Fork, v: nat)
    ensures v == 0 ==> PushSize(fork, v) == ZeroSize(fork)
    ensures 0 < v < 256 ==> PushSize(fork, v) == 2
    ensures v < Pow2(64) ==> PushSize(fork, v) <= 9
  {
    hide FromNat, Width, Pow2;
    if v < 256 {
      SmallWidths(v);
    }
    if v < Pow2(64) {
      WideWidths(v);
    }
  }

  lemma PrologueSize(fork: Fork, len: nat, offset: nat)
    ensures CodeSize(fork, PrologueCalls(len, offset))
         == PushSize(fork, len) + PushSize(fork, offset) + 2 * PushSize(fork, 0) + 3
  {
    hide FromNat;
    SevenCalls(fork, PrologueCalls(len, offset));
  }

  /** The prologue length as a function of the offset it embeds. */
  lemma PrologueLength(fork: Fork, len: nat, offset: nat)
    requires len < Pow2(64) && offset < 256
    ensures CodeSize(fork, PrologueCalls(len, offset)) <= 18
    ensures CodeSize(fork, PrologueCalls(len, offset))
         == CodeSize(fork, PrologueCalls(len, 0)) + (if offset == 0 then 0 else 2 - ZeroSize(fork))
    ensures CodeSize(fork, PrologueCalls(len, offset)) > 0
  {
    hide FromNat, CallSize, CodeSize, PrologueCalls;
    PrologueSize(fork, len, offset);
    PrologueSize(fork, len, 0);
    PushSizes(fork, len);
    PushSizes(fork, offset);
    PushSizes(fork, 0);
  }

  /** Initcode that, when run, returns `runtime`. */
  ghost predicate Deploys(initcode: seq<Byte>, runtime: seq<Byte>) {
    TinyEvm.Execute(initcode, TinyEvm.State(0, [], [])) == TinyEvm.Returned(runtime)
  }

  /**
   The deployer. The offset is iterated to a fixpoint: exactly three assemblies
   from Shanghai on, two before, and never an error.
   */
  method Deploy(runtime: seq<Byte>, fork: Fork) returns (r: Result<seq<Byte>>, ghost rounds: nat)
    requires |runtime| < Pow2(64)
    ensures r.Ok? && |runtime| < |r.value| <= |runtime| + 18
    ensures r.value[|r.value| - |runtime|..] == runtime
    ensures Deploys(r.value, runtime)
    ensures rounds == if Shanghai.AtMost(fork) then 3 else 2
  {
    var offset := 0;
    rounds := 0;
    ghost var first := CodeSize(fork, PrologueCalls(|runtime|, 0));
    PrologueLength(fork, |runtime|, 0);
    while true
      invariant offset <= 18
      invariant rounds == 0 ==> offset == 0
      invariant rounds == 1 ==> offset == first
      invariant rounds == 2 ==> Shanghai.AtMost(fork) && offset == first + 1
      invariant rounds <= 2
      decreases 3 - rounds
    {
      PrologueLength(fork, |runtime|, offset);
      var assembled := AssemblePrologue(|runtime|, offset, fork);
      rounds := rounds + 1;
      if assembled.Err? {
        return assembled, rounds;
      }
      var prologue := assembled.value;
      if |prologue| == offset {
        PrologueReturnsRuntime(fork, runtime, prologue);
        return Ok(prologue + runtime), rounds;
      }
      offset := |prologue|;
    }
  }

  // ----- running the initcode -----

  /** A prologue whose embedded offset is its own length returns the code that follows it. */
  lemma PrologueReturnsRuntime(fork: Fork, runtime: seq<Byte>, prologue: seq<Byte>)
    requires |runtime| < Pow2(64) && |prologue| < 256
    requires Encodable(Run(fork, PrologueCalls(|runtime|, |prologue|)).items)
    requires Finished(Run(fork, PrologueCalls(|runtime|, |prologue|))) == Ok(prologue)
    ensures Deploys(prologue + runtime, runtime)
  {
    var len, offset, zero := FromNat(|runtime|), FromNat(|prologue|), FromNat(0);
    PrologueAccepted(fork, |runtime|, |prologue|);
    PrologueDecodes(fork, PrologueCalls(|runtime|, |prologue|), prologue);
    Pow2Split(64, 256);
    SmallFits(|prologue|);
    BytesDenote(|runtime|, 32);
    BytesDenote(|prologue|, 32);
    BytesDenote(0, 32);
    var list := Disassemble(prologue, 0);
    SevenObey(fork, PrologueCalls(|runtime|, |prologue|), list);
    ExecutesPrologue(fork, runtime, prologue, list, len, offset, zero);
    TinyEvm.ExecutePrefix(prologue, runtime, TinyEvm.State(0, [], []));
  }

  lemma SevenObey(fork: Fork, calls: seq<Call>, list: seq<Instruction>)
    requires |list| == |calls| == 7
    requires forall k :: 0 <= k < 7 ==> Obeys(fork, calls[k], list[k])
    ensures Obeys(fork, calls[0], list[0]) && Obeys(fork, calls[1], list[1]) && Obeys(fork, calls[2], list[2])
    ensures Obeys(fork, calls[3], list[3]) && Obeys(fork, calls[4], list[4]) && Obeys(fork, calls[5], list[5])
    ensures Obeys(fork, calls[6], list[6])
    ensures forall k :: 0 <= k < |list| ==> !list[k].truncated
  {
    forall k | 0 <= k < 7
      ensures !list[k].truncated
    {
      assert Obeys(fork, calls[k], list[k]);
    }
  }

  lemma PrologueDecodes(fork: Fork, calls: seq<Call>, code: seq<Byte>)
    requires Emitting(calls) == calls
    requires Encodable(Run(fork, calls).items) && Finished(Run(fork, calls)) == Ok(code)
    ensures |Disassemble(code, 0)| == |calls|
    ensures forall k :: 0 <= k < |calls| ==> Obeys(fork, calls[k], Disassemble(code, 0)[k])
  {
    FinishRoundTrips(fork, calls, code);
    DisassembleTiles(code, 0);
    forall k | 0 <= k < |calls|
      ensures Obeys(fork, calls[k], Disassemble(code, 0)[k])
    {
      assert Emitting(calls)[k] == calls[k];
    }
  }

  /** An instruction that faithfully decodes what a call emitted. */
  ghost predicate Obeys(fork: Fork, call: Call, ins: Instruction) {
    WellDecoded(fork, ins) && Faithful(ins) && Realises(fork, call, ins)
  }

  lemma Pushes(fork: Fork, imm: Immediate, ins: Instruction, code: seq<Byte>, s: TinyEvm.State)
    returns (t: TinyEvm.State)
    requires Obeys(fork, PushCall(imm), ins)
    ensures TinyEvm.Exec(code, ins, s) == TinyEvm.Running(t)
    ensures t.stack == s.stack + [BigEndian(imm)] && t.memory == s.memory
  {
    assert ins.Missing() == 0;
    assert ins.immediate + [] == ins.immediate;
    t := TinyEvm.State(s.pc + ins.Size(), s.stack + [BigEndian(imm)], s.memory);
  }

  lemma CopiesCode(prologue: seq<Byte>, runtime: seq<Byte>)
    ensures TinyEvm.Write([], 0, TinyEvm.Read(prologue + runtime, |prologue|, |runtime|)) == runtime
    ensures TinyEvm.Read(runtime, 0, |runtime|) == runtime
  {
    assert TinyEvm.Read(prologue + runtime, |prologue|, |runtime|) == runtime;
  }

  lemma ExecutesPrologue(
    fork: Fork, runtime: seq<Byte>, prologue: seq<Byte>, list: seq<Instruction>,
    len: Immediate, offset: Immediate, zero: Immediate)
    requires |list| == 7
    requires BigEndian(len) == |runtime| && BigEndian(offset) == |prologue| && BigEndian(zero) == 0
    requires Obeys(fork, PushCall(len), list[0])
    requires Obeys(fork, DupCall(1), list[1])
    requires Obeys(fork, PushCall(offset), list[2])
    requires Obeys(fork, PushCall(zero), list[3])
    requires Obeys(fork, OpCall(Listed(CODECOPY)), list[4])
    requires Obeys(fork, PushCall(zero), list[5])
    requires Obeys(fork, OpCall(Listed(RETURN)), list[6])
    ensures TinyEvm.ExecList(prologue + runtime, list, TinyEvm.State(0, [], [])) == TinyEvm.Returned(runtime)
  {
    hide Obeys, TinyEvm.Exec, TinyEvm.ExecList, BigEndian;
    var code := prologue + runtime;
    var s0 := TinyEvm.State(0, [], []);
    assert list[0..] == list;
    var s4 := ArgumentsPushed(fork, code, list, s0, len, offset, zero);
    var s5 := Copies(fork, list[4], prologue, runtime, s4);
    TinyEvm.ExecStep(code, list, 4, s4, s5);
    var s6 := Pushes(fork, zero, list[5], code, s5);
    TinyEvm.ExecStep(code, list, 5, s5, s6);
    Returns(fork, list[6], code, runtime, s6);
    TinyEvm.ExecStop(code, list, 6, s6);
  }

  lemma ArgumentsPushed(
    fork: Fork, code: seq<Byte>, list: seq<Instruction>, s0: TinyEvm.State,
    len: Immediate, offset: Immediate, zero: Immediate) returns (s4: TinyEvm.State)
    requires |list| == 7 && s0.stack == []
    requires Obeys(fork, PushCall(len), list[0])
    requires Obeys(fork, DupCall(1), list[1])
    requires Obeys(fork, PushCall(offset), list[2])
    requires Obeys(fork, PushCall(zero), list[3])
    ensures TinyEvm.ExecList(code, list[0..], s0) == TinyEvm.ExecList(code, list[4..], s4)
    ensures s4.stack == [BigEndian(len), BigEndian(len), BigEndian(offset), BigEndian(zero)]
    ensures s4.memory == s0.memory
  {
    hide Obeys, TinyEvm.Exec, TinyEvm.ExecList, BigEndian;
    var s1 := Pushes(fork, len, list[0], code, s0);
    TinyEvm.ExecStep(code, list, 0, s0, s1);
    var s2 := Duplicates(fork, list[1], code, s1, BigEndian(len));
    TinyEvm.ExecStep(code, list, 1, s1, s2);
    var s3 := Pushes(fork, offset, list[2], code, s2);
    TinyEvm.ExecStep(code, list, 2, s2, s3);
    s4 := Pushes(fork, zero, list[3], code, s3);
    TinyEvm.ExecStep(code, list, 3, s3, s4);
  }

  lemma SmallFits(v: nat)
    requires v < 256
    ensures v < Pow2(256)
  {
    assert Pow2(8) == 256;
    Pow2Split(8, 256);
  }

  lemma Duplicates(fork: Fork, ins: Instruction, code: seq<Byte>, s: TinyEvm.State, v: nat) returns (t: TinyEvm.State)
    requires Obeys(fork, DupCall(1), ins) && s.stack == [v]
    ensures TinyEvm.Exec(code, ins, s) == TinyEvm.Running(t) && t.stack == [v, v] && t.memory == s.memory
  {
    t := TinyEvm.State(s.pc + ins.Size(), [v, v], s.memory);
  }

  lemma Copies(fork: Fork, ins: Instruction, prologue: seq<Byte>, runtime: seq<Byte>, s: TinyEvm.State)
    returns (t: TinyEvm.State)
    requires Obeys(fork, OpCall(Listed(CODECOPY)), ins)
    requires s.stack == [|runtime|, |runtime|, |prologue|, 0] && s.memory == []
    ensures TinyEvm.Exec(prologue + runtime, ins, s) == TinyEvm.Running(t)
    ensures t.stack == [|runtime|] && t.memory == runtime
  {
    assert ins.opcode == CODECOPY;
    CopiesCode(prologue, runtime);
    t := TinyEvm.State(s.pc + ins.Size(), [|runtime|], runtime);
    assert s.stack[..1] == [|runtime|];
  }

  lemma Returns(fork: Fork, ins: Instruction, code: seq<Byte>, runtime: seq<Byte>, s: TinyEvm.State)
    requires Obeys(fork, OpCall(Listed(RETURN)), ins)
    requires s.stack == [|runtime|, 0] && s.memory == runtime
    ensures TinyEvm.Exec(code, ins, s) == TinyEvm.Returned(runtime)
  {
    assert ins.opcode == RETURN;
    CopiesCode([], runtime);
  }
}
