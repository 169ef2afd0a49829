/** The blocks of a function, read off the sequence of builder calls that made it. */
module BlockRuns {
  import opened Sequences
  import opened Isa
  import opened Types
  import opened Instructions
  import opened Arena
  import opened Builder
  import opened BuilderRuns

  // ----- the history, without the builder -----

  /** Where calls go: the block switched to last, the entry before any switch, none once it is terminated. */
  function Current(calls: seq<BuilderCall>): Option<Block> {
    if calls == [] then Some(0)
    else if Last(calls).SwitchTo? then Some(Last(calls).block)
    else if Last(calls).Terminate? then None
    else Current(Init(calls))
  }

  /** The last terminator asked for while block `b` was current. */
  function Ending(calls: seq<BuilderCall>, b: Block): Option<Terminator> {
    if calls == [] then None
    else if Last(calls).Terminate? && Current(Init(calls)) == Some(b) then Some(Last(calls).term)
    else Ending(Init(calls), b)
  }

  function Emits(calls: seq<BuilderCall>): nat {
    if calls == [] then 0 else Emits(Init(calls)) + if Last(calls).Emit? then 1 else 0
  }

  function Creations(calls: seq<BuilderCall>): nat {
    if calls == [] then 0 else Creations(Init(calls)) + if Last(calls).NewBlock? then 1 else 0
  }

  /** The instructions asked for while block `b` was current, each by its place among all of them. */
  function EmittedInto(calls: seq<BuilderCall>, b: Block): seq<Inst> {
    if calls == [] then []
    else
      EmittedInto(Init(calls), b)
      + if Last(calls).Emit? && Current(Init(calls)) == Some(b) then [Emits(Init(calls))] else []
  }

  /** Why there is nowhere to put an instruction or a terminator. */
  function Homeless(calls: seq<BuilderCall>): Option<IrError> {
    match Current(calls)
    case None => Some(NoCurrentBlock)
    case Some(b) => if Ending(calls, b).Some? then Some(AlreadyTerminated(b)) else None
  }

  /** The bytes the escape hatch keeps to itself: stack shuffling, jumps, and what ends a block. */
  function RawRefusal(name: Mnemonic): Option<IrError> {
    match name
    case Unlisted(_) => Some(UnknownMnemonic(name))
    case Listed(b) =>
      if ByByte(b).None? then Some(UnknownMnemonic(name))
      else if b == 0x50 || 0x5f <= b < 0xa0 then Some(ReservedOpcode(name, OwnsStack))
      else if b in {0x56, 0x57, 0x58, 0x5b} then Some(ReservedOpcode(name, OwnsControlFlow))
      else if b in {0x00, 0xf3, 0xfd, 0xfe, 0xff} then Some(ReservedOpcode(name, IsTerminator))
      else None
  }

  /** Why a call made after `before` fails, from the history alone. */
  function Refusal(before: seq<BuilderCall>, call: BuilderCall): Option<IrError> {
    match call
    case Emit(ins) =>
      if ins.Raw? && RawRefusal(ins.name).Some? then RawRefusal(ins.name) else Homeless(before)
    case Terminate(_) => Homeless(before)
    case _ => None
  }

  ghost predicate NoneRefused(calls: seq<BuilderCall>) {
    forall k :: 0 <= k < |calls| ==> Refusal(calls[..k], calls[k]).None?
  }

  /** The first call that fails; the length when there is none. */
  function FirstRefused(calls: seq<BuilderCall>, from: nat): (k: nat)
    requires from <= |calls|
    ensures from <= k <= |calls|
    ensures k < |calls| ==> Refusal(calls[..k], calls[k]).Some?
    ensures forall i :: from <= i < k ==> Refusal(calls[..i], calls[i]).None?
    decreases |calls| - from
  {
    if from == |calls| || Refusal(calls[..from], calls[from]).Some? then from else FirstRefused(calls, from + 1)
  }

  lemma NoneRefusedInit(calls: seq<BuilderCall>)
    requires calls != [] && NoneRefused(calls)
    ensures NoneRefused(Init(calls)) && Refusal(Init(calls), Last(calls)).None?
  {
    forall k | 0 <= k < |Init(calls)|
      ensures Refusal(Init(calls)[..k], Init(calls)[k]).None?
    {
      assert Init(calls)[..k] == calls[..k];
    }
    assert Refusal(calls[..|calls| - 1], calls[|calls| - 1]).None?;
  }

  lemma NoneRefusedPrefix(calls: seq<BuilderCall>, k: nat)
    requires k <= |calls| && forall i :: 0 <= i < k ==> Refusal(calls[..i], calls[i]).None?
    ensures NoneRefused(calls[..k])
  {
    forall i | 0 <= i < k
      ensures Refusal(calls[..k][..i], calls[..k][i]).None?
    {
      assert calls[..k][..i] == calls[..i];
    }
  }

  // ----- the builder does what the history says -----

  lemma RequestRefusal(f: Arena.Func, ins: Ins)
    requires InsReady(f, ins)
    ensures RequestOf(f, ins).Err? <==> ins.Raw? && RawRefusal(ins.name).Some?
    ensures RequestOf(f, ins).Err? ==> RawRefusal(ins.name) == Some(RequestOf(f, ins).error)
  {
    hide Op.DefaultRepair, ForConvert;
  }

  /** The block's instructions and terminator are those the history asked for. */
  ghost predicate BlockFollows(calls: seq<BuilderCall>, b: Block, block: BlockData) {
    block.insts == EmittedInto(calls, b) && block.term == Ending(calls, b)
  }

  /** Nothing goes to a block before it exists. */
  predicate Untouched(calls: seq<BuilderCall>, b: Block) {
    EmittedInto(calls, b) == [] && Ending(calls, b).None?
  }

  ghost predicate Follows(s: State, calls: seq<BuilderCall>) {
    && s.error.None? && s.current == Current(calls) && CurrentOk(s)
    && |s.func.blocks| == 1 + Creations(calls)
    && |s.func.insts| == Emits(calls)
    && (forall b :: 0 <= b < |s.func.blocks| ==> BlockFollows(calls, b, s.func.blocks[b]))
    && (forall b :: |s.func.blocks| <= b ==> Untouched(calls, b))
  }

  lemma OneMoreCall(calls: seq<BuilderCall>, b: Block)
    requires calls != []
    ensures Ending(calls, b)
         == if Last(calls).Terminate? && Current(Init(calls)) == Some(b) then Some(Last(calls).term)
            else Ending(Init(calls), b)
    ensures EmittedInto(calls, b)
         == EmittedInto(Init(calls), b)
            + if Last(calls).Emit? && Current(Init(calls)) == Some(b) then [Emits(Init(calls))] else []
  {
  }

  lemma StepFollows(s: State, calls: seq<BuilderCall>)
    requires calls != [] && Follows(s, Init(calls)) && Ready(s, Last(calls))
    requires Refusal(Init(calls), Last(calls)).None?
    ensures Follows(Step(s, Last(calls)), calls)
  {
    hide Ending, EmittedInto, RequestOf, RawRefusal, InsReady, WithParams;
    var call, before := Last(calls), Init(calls);
    var t := Step(s, call);
    if call.NewBlock? {
      WithParamsKeepSig(WithBlock(s.func), |s.func.blocks|, call.params);
    } else if call.Emit? {
      RequestRefusal(s.func, call.ins);
    }
    if s.current.Some? && !call.NewBlock? && !call.SwitchTo? {
      assert BlockFollows(before, s.current.value, s.func.blocks[s.current.value]);
    }
    forall b: Block
      ensures if b < |t.func.blocks| then BlockFollows(calls, b, t.func.blocks[b]) else Untouched(calls, b)
    {
      OneMoreCall(calls, b);
      if b < |s.func.blocks| {
        assert BlockFollows(before, b, s.func.blocks[b]);
      } else {
        assert Untouched(before, b);
      }
    }
  }

  lemma StepRefuses(s: State, before: seq<BuilderCall>, call: BuilderCall)
    requires Follows(s, before) && Ready(s, call) && Refusal(before, call).Some?
    ensures Step(s, call) == s.(error := Refusal(before, call))
  {
    hide Ending, EmittedInto, RawRefusal, InsReady;
    if call.Emit? {
      RequestRefusal(s.func, call.ins);
    }
    if s.current.Some? {
      assert BlockFollows(before, s.current.value, s.func.blocks[s.current.value]);
    }
  }

  /**
   After any history in which no call failed, every block holds exactly the
   instructions asked for while it was current, in that order, and ends in the
   terminator asked for while it was current.
   */
  lemma {:induction false} BlocksFollowCalls(sig: Signature, calls: seq<BuilderCall>)
    requires Run(sig, calls).Some? && NoneRefused(calls)
    ensures Follows(Run(sig, calls).value, calls)
  {
    hide Follows, Refusal;
    if calls == [] {
      NewFollows(sig);
    } else {
      NoneRefusedInit(calls);
      BlocksFollowCalls(sig, Init(calls));
      StepFollows(Run(sig, Init(calls)).value, calls);
    }
  }

  lemma NewFollows(sig: Signature)
    ensures Follows(State(NewFunc(sig), Some(0), None), [])
  {
    WithParamsKeepSig(WithBlock(Arena.Func(sig, [], [], [])), 0, sig.params);
  }

  /** The part of a history up to its first failure runs, and is followed. */
  lemma PrefixFollows(sig: Signature, calls: seq<BuilderCall>, k: nat)
    requires Run(sig, calls).Some? && k <= |calls|
    requires forall i :: 0 <= i < k ==> Refusal(calls[..i], calls[i]).None?
    ensures Run(sig, calls[..k]).Some? && Follows(Run(sig, calls[..k]).value, calls[..k])
  {
    hide Follows, Refusal;
    assert calls[..k] + calls[k..] == calls;
    LaterCallsExtend(sig, calls[..k], calls[k..]);
    NoneRefusedPrefix(calls, k);
    BlocksFollowCalls(sig, calls[..k]);
  }

  /** The builder reports the first call that fails, with its reason, and succeeds when none does. */
  lemma FinishedFollows(sig: Signature, calls: seq<BuilderCall>)
    requires Run(sig, calls).Some?
    ensures Finished(Run(sig, calls).value).Ok? <==> NoneRefused(calls)
    ensures var k := FirstRefused(calls, 0);
            k < |calls| ==> Finished(Run(sig, calls).value) == Err(Refusal(calls[..k], calls[k]).value)
  {
    hide Refusal;
    var k := FirstRefused(calls, 0);
    PrefixFollows(sig, calls, k);
    if k < |calls| {
      FirstRefusalSticks(sig, calls, k);
    } else {
      assert calls[..k] == calls;
    }
  }

  /** Behind the first failure no block that exists changes, and a block made later stays empty. */
  lemma FirstRefusalSticks(sig: Signature, calls: seq<BuilderCall>, k: nat)
    requires Run(sig, calls).Some? && k < |calls| && Run(sig, calls[..k]).Some?
    requires Follows(Run(sig, calls[..k]).value, calls[..k]) && Refusal(calls[..k], calls[k]).Some?
    ensures var (s, t) := (Run(sig, calls[..k]).value, Run(sig, calls).value);
            && t.error == Refusal(calls[..k], calls[k]) && t.func.insts == s.func.insts
            && |s.func.blocks| <= |t.func.blocks|
            && forall b :: 0 <= b < |s.func.blocks| ==> t.func.blocks[b] == s.func.blocks[b]
  {
    hide Follows, Refusal, Step;
    var upto := calls[..k + 1];
    assert upto + calls[k + 1..] == calls && Init(upto) == calls[..k] && Last(upto) == calls[k];
    LaterCallsExtend(sig, upto, calls[k + 1..]);
    StepRefuses(Run(sig, calls[..k]).value, calls[..k], calls[k]);
  }

  // ----- terminators and instructions, one by one -----

  /** Call `i`, made while block `b` was current and before any call had failed, asked to end the block in `t`. */
  ghost predicate Ends(calls: seq<BuilderCall>, i: nat, b: Block, t: Terminator) {
    i < FirstRefused(calls, 0) && calls[i] == BuilderCall.Terminate(t) && Current(calls[..i]) == Some(b)
  }

  lemma {:induction false} EndingFrom(calls: seq<BuilderCall>, b: Block) returns (i: nat)
    requires Ending(calls, b).Some?
    ensures i < |calls| && calls[i] == BuilderCall.Terminate(Ending(calls, b).value)
    ensures Current(calls[..i]) == Some(b)
  {
    if Last(calls).Terminate? && Current(Init(calls)) == Some(b) {
      i := |calls| - 1;
    } else {
      i := EndingFrom(Init(calls), b);
      assert Init(calls)[..i] == calls[..i];
    }
  }

  /** While nothing fails the first terminator of a block is its only one. */
  lemma {:induction false} EndingStays(calls: seq<BuilderCall>, b: Block, i: nat)
    requires NoneRefused(calls) && i < |calls| && calls[i].Terminate? && Current(calls[..i]) == Some(b)
    ensures Ending(calls, b) == Some(calls[i].term)
  {
    var n := |calls| - 1;
    if i == n {
      assert Init(calls) == calls[..i];
    } else {
      NoneRefusedInit(calls);
      assert Init(calls)[..i] == calls[..i];
      EndingStays(Init(calls), b, i);
    }
  }

  lemma FailedStep(s: State, call: BuilderCall)
    requires CurrentOk(s) && Ready(s, call) && s.error.Some?
    ensures var t := Step(s, call);
            && t.error == s.error && |s.func.blocks| <= |t.func.blocks|
            && (forall b :: 0 <= b < |s.func.blocks| ==> t.func.blocks[b] == s.func.blocks[b])
            && forall b :: |s.func.blocks| <= b < |t.func.blocks| ==>
                 t.func.blocks[b].insts == [] && t.func.blocks[b].term.None?
  {
    hide RequestOf, WithParams;
    if call.NewBlock? {
      WithParamsKeepSig(WithBlock(s.func), |s.func.blocks|, call.params);
    }
  }

  /** A block made after the first failure stays empty. */
  lemma {:induction false} LaterBlocksStayEmpty(sig: Signature, calls: seq<BuilderCall>, more: seq<BuilderCall>)
    requires Run(sig, calls + more).Some? && Run(sig, calls).Some? && Run(sig, calls).value.error.Some?
    ensures var (s, t) := (Run(sig, calls).value.func, Run(sig, calls + more).value.func);
            && |s.blocks| <= |t.blocks|
            && forall b :: |s.blocks| <= b < |t.blocks| ==> t.blocks[b].insts == [] && t.blocks[b].term.None?
  {
    hide Step, Ready;
    if more == [] {
      assert calls + more == calls;
    } else {
      var before := calls + Init(more);
      assert Init(calls + more) == before && Last(calls + more) == Last(more);
      LaterCallsExtend(sig, calls, Init(more));
      LaterBlocksStayEmpty(sig, calls, Init(more));
      var s, m, t := Run(sig, calls).value.func, Run(sig, before).value, Run(sig, calls + more).value;
      FailedStep(m, Last(more));
      assert t == Step(m, Last(more));
      forall b | |s.blocks| <= b < |t.func.blocks|
        ensures t.func.blocks[b].insts == [] && t.func.blocks[b].term.None?
      {
        assert b < |m.func.blocks| ==> t.func.blocks[b] == m.func.blocks[b];
      }
    }
  }

  /** The calls before the first that fails. */
  function Accepted(calls: seq<BuilderCall>): seq<BuilderCall> {
    calls[..FirstRefused(calls, 0)]
  }

  /** Over every history each block is what the accepted calls asked for while it was current. */
  lemma EveryBlockFollows(sig: Signature, calls: seq<BuilderCall>, b: Block)
    requires Run(sig, calls).Some? && b < |Run(sig, calls).value.func.blocks|
    ensures BlockFollows(Accepted(calls), b, Run(sig, calls).value.func.blocks[b])
  {
    hide Run, Refusal, EmittedInto, Ending, Current;
    var k := FirstRefused(calls, 0);
    PrefixFollows(sig, calls, k);
    if k == |calls| {
      assert calls[..k] == calls;
    } else {
      FirstRefusalSticks(sig, calls, k);
      if b >= |Run(sig, calls[..k]).value.func.blocks| {
        assert Untouched(calls[..k], b);
        LateBlockIsEmpty(sig, calls, k, b);
      }
    }
  }

  lemma LateBlockIsEmpty(sig: Signature, calls: seq<BuilderCall>, k: nat, b: Block)
    requires Run(sig, calls).Some? && k < |calls| && Run(sig, calls[..k]).Some?
    requires Follows(Run(sig, calls[..k]).value, calls[..k]) && Refusal(calls[..k], calls[k]).Some?
    requires |Run(sig, calls[..k]).value.func.blocks| <= b < |Run(sig, calls).value.func.blocks|
    ensures Run(sig, calls).value.func.blocks[b].insts == [] && Run(sig, calls).value.func.blocks[b].term.None?
  {
    hide Follows, Refusal, Step;
    var upto := calls[..k + 1];
    assert upto + calls[k + 1..] == calls && Init(upto) == calls[..k] && Last(upto) == calls[k];
    LaterCallsExtend(sig, upto, calls[k + 1..]);
    StepRefuses(Run(sig, calls[..k]).value, calls[..k], calls[k]);
    LaterBlocksStayEmpty(sig, upto, calls[k + 1..]);
  }

  /** In every history a block ends in `t` exactly when an accepted call asked for `t` while the block was current. */
  lemma TerminatorFollows(sig: Signature, calls: seq<BuilderCall>, b: Block, t: Terminator)
    requires Run(sig, calls).Some? && b < |Run(sig, calls).value.func.blocks|
    ensures Run(sig, calls).value.func.blocks[b].term == Some(t) <==> exists i: nat :: Ends(calls, i, b, t)
  {
    hide Run, Refusal, Current;
    var accepted := Accepted(calls);
    EveryBlockFollows(sig, calls, b);
    NoneRefusedPrefix(calls, |accepted|);
    if Ending(accepted, b).Some? {
      var i := EndingFrom(accepted, b);
      assert accepted[..i] == calls[..i];
      assert Ends(calls, i, b, Ending(accepted, b).value);
    }
    forall i: nat | Ends(calls, i, b, t)
      ensures Ending(accepted, b) == Some(t)
    {
      assert accepted[..i] == calls[..i];
      EndingStays(accepted, b, i);
    }
  }

  lemma {:induction false} Emitter(calls: seq<BuilderCall>, i: nat) returns (k: nat)
    requires i < Emits(calls)
    ensures k < |calls| && calls[k].Emit? && Emits(calls[..k]) == i
    ensures forall b :: Current(calls[..k]) == Some(b) ==> i in EmittedInto(calls, b)
  {
    if i == Emits(Init(calls)) {
      k := |calls| - 1;
    } else {
      k := Emitter(Init(calls), i);
      assert Init(calls)[..k] == calls[..k];
    }
  }

  /**
   Every instruction lies in the block that was current when the call that asked for
   it was made, and is what that call asked for.
   */
  lemma InstructionPlaced(sig: Signature, calls: seq<BuilderCall>, i: nat) returns (k: nat, b: Block)
    requires Run(sig, calls).Some? && i < |Run(sig, calls).value.func.insts|
    ensures k < |Accepted(calls)| && calls[k].Emit? && Current(calls[..k]) == Some(b)
    ensures Run(sig, calls[..k]).Some? && |Before(sig, calls, k).func.insts| == i
    ensures b < |Run(sig, calls).value.func.blocks| && i in Run(sig, calls).value.func.blocks[b].insts
    ensures InsReady(Before(sig, calls, k).func, calls[k].ins)
    ensures Step(Before(sig, calls, k), calls[k]).func.insts
         == Before(sig, calls, k).func.insts + [Run(sig, calls).value.func.insts[i]]
    ensures RequestOf(Before(sig, calls, k).func, calls[k].ins).Ok?
    ensures StemsFrom(Run(sig, calls).value.func, Run(sig, calls).value.func.insts[i],
                      RequestOf(Before(sig, calls, k).func, calls[k].ins).value)
  {
    hide Refusal, Current, RequestOf, InsReady, Run, StemsFrom, Step;
    var accepted := Accepted(calls);
    CountsFollow(sig, calls);
    k := Emitter(accepted, i);
    assert accepted[..k] == calls[..k];
    PrefixFollows(sig, calls, k);
    b := PlaceOf(sig, calls, k);
    EveryBlockFollows(sig, calls, b);
    Appended(sig, calls, k);
  }

  lemma CountsFollow(sig: Signature, calls: seq<BuilderCall>)
    requires Run(sig, calls).Some?
    ensures |Run(sig, calls).value.func.insts| == Emits(Accepted(calls))
  {
    hide Run, Refusal;
    var k := FirstRefused(calls, 0);
    PrefixFollows(sig, calls, k);
    if k == |calls| {
      assert calls[..k] == calls;
    } else {
      FirstRefusalSticks(sig, calls, k);
    }
  }

  /** An accepted call has a block to go to. */
  lemma PlaceOf(sig: Signature, calls: seq<BuilderCall>, k: nat) returns (b: Block)
    requires Run(sig, calls).Some? && k < |Accepted(calls)| && calls[k].Emit?
    requires Run(sig, calls[..k]).Some? && Follows(Run(sig, calls[..k]).value, calls[..k])
    ensures Current(calls[..k]) == Some(b) && b < |Run(sig, calls).value.func.blocks|
  {
    hide Current, Ending, Run;
    assert Refusal(calls[..k], calls[k]).None?;
    b := Current(calls[..k]).value;
    assert calls[..k] + calls[k..] == calls;
    LaterCallsExtend(sig, calls[..k], calls[k..]);
  }

  /** An accepted call appends one instruction, what it asks for, and the rest of the history leaves that alone. */
  lemma Appended(sig: Signature, calls: seq<BuilderCall>, k: nat)
    requires Run(sig, calls).Some? && k < |Accepted(calls)| && calls[k].Emit?
    requires Run(sig, calls[..k]).Some? && Follows(Run(sig, calls[..k]).value, calls[..k])
    ensures var (s, insts) := (Before(sig, calls, k), Run(sig, calls).value.func.insts);
            && Ready(s, calls[k]) && RequestOf(s.func, calls[k].ins).Ok?
            && |s.func.insts| < |insts|
            && Step(s, calls[k]).func.insts == s.func.insts + [insts[|s.func.insts|]]
            && StemsFrom(Run(sig, calls).value.func, insts[|s.func.insts|], RequestOf(s.func, calls[k].ins).value)
  {
    hide Run, Refusal, Current, RequestOf, InsReady, Step, StemsFrom, Extends, EmittedInto, Ending;
    OneStep(sig, calls, k);
    PrefixFollows(sig, calls, k + 1);
    var s, t := Before(sig, calls, k), Run(sig, calls[..k + 1]).value;
    assert Init(calls[..k + 1]) == calls[..k] && Last(calls[..k + 1]) == calls[k];
    RequestAppended(s, calls[k]);
    StepExtends(s, calls[k]);
    InstsExtend(s.func, t.func);
    InstsExtend(t.func, Run(sig, calls).value.func);
    StemsExtends(t.func, Run(sig, calls).value.func, Last(t.func.insts), RequestOf(s.func, calls[k].ins).value);
  }

  /** The instruction of an accepted call is the one numbered by the instruction calls before it. */
  lemma InstructionOf(sig: Signature, calls: seq<BuilderCall>, k: nat)
    requires Run(sig, calls).Some? && k < |Accepted(calls)| && calls[k].Emit?
    ensures Run(sig, calls[..k]).Some? && Ready(Before(sig, calls, k), calls[k])
    ensures var (s, i, insts) := (Before(sig, calls, k), Emits(calls[..k]), Run(sig, calls).value.func.insts);
            && s.error.None? && |s.func.insts| == i < |insts|
            && Step(s, calls[k]).func.insts == s.func.insts + [insts[i]]
            && s.func.values <= Run(sig, calls).value.func.values
  {
    hide Run, Refusal, Current, RequestOf, InsReady, Step, StemsFrom, EmittedInto, Ending;
    PrefixFollows(sig, calls, k);
    Appended(sig, calls, k);
    assert calls[..k] + calls[k..] == calls;
    LaterCallsExtend(sig, calls[..k], calls[k..]);
  }

  lemma InstsExtend(f: Arena.Func, g: Arena.Func)
    requires Extends(f, g)
    ensures f.insts <= g.insts
  {
  }

  /** A call takes the builder from the state before it to the next, which the rest of the history extends. */
  lemma OneStep(sig: Signature, calls: seq<BuilderCall>, k: nat)
    requires Run(sig, calls).Some? && k < |calls|
    ensures Run(sig, calls[..k]).Some? && Ready(Before(sig, calls, k), calls[k])
    ensures Run(sig, calls[..k + 1]) == Some(Step(Before(sig, calls, k), calls[k]))
    ensures Extends(Step(Before(sig, calls, k), calls[k]).func, Run(sig, calls).value.func)
  {
    hide Step, Ready;
    var upto := calls[..k + 1];
    assert upto + calls[k + 1..] == calls && Init(upto) == calls[..k] && Last(upto) == calls[k];
    LaterCallsExtend(sig, upto, calls[k + 1..]);
  }

  lemma StemsExtends(f: Arena.Func, g: Arena.Func, inst: InstData, r: Request)
    requires Extends(f, g) && StemsFrom(f, inst, r)
    ensures StemsFrom(g, inst, r)
  {
  }

  /** Blocks are numbered in the order of their calls, the entry first. */
  lemma {:induction false} BlocksCount(sig: Signature, calls: seq<BuilderCall>)
    requires Run(sig, calls).Some?
    ensures |Run(sig, calls).value.func.blocks| == 1 + Creations(calls)
  {
    hide RequestOf, WithParams, Ready;
    if calls == [] {
      WithParamsKeepSig(WithBlock(Arena.Func(sig, [], [], [])), 0, sig.params);
    } else {
      BlocksCount(sig, Init(calls));
      var s := Run(sig, Init(calls)).value;
      if Last(calls).NewBlock? {
        WithParamsKeepSig(WithBlock(s.func), |s.func.blocks|, Last(calls).params);
      }
    }
  }

  /** A block keeps the parameters it was asked for, with their types in order. */
  lemma ParamsFollow(sig: Signature, calls: seq<BuilderCall>, k: nat)
    requires Run(sig, calls).Some? && k < |calls| && calls[k].NewBlock?
    ensures var (f, b) := (Run(sig, calls).value.func, 1 + Creations(calls[..k]));
            && b < |f.blocks| && ResultsTyped(f, f.blocks[b].params, calls[k].params)
  {
    hide Run, RequestOf, WithParams;
    var upto := calls[..k + 1];
    assert upto + calls[k + 1..] == calls && Init(upto) == calls[..k] && Last(upto) == calls[k];
    LaterCallsExtend(sig, upto, calls[k + 1..]);
    ParamsMade(sig, upto);
  }

  lemma ParamsMade(sig: Signature, calls: seq<BuilderCall>)
    requires Run(sig, calls).Some? && calls != [] && Last(calls).NewBlock?
    ensures var (f, b) := (Run(sig, calls).value.func, 1 + Creations(Init(calls)));
            && b < |f.blocks| && ResultsTyped(f, f.blocks[b].params, Last(calls).params)
  {
    hide WithParams;
    BlocksCount(sig, Init(calls));
    var f := Run(sig, Init(calls)).value.func;
    WithParamsKeepSig(WithBlock(f), |f.blocks|, Last(calls).params);
    WithParamsOnFresh(WithBlock(f), |f.blocks|, Last(calls).params);
  }
}
