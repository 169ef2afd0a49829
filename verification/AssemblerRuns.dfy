/** What holds of the assembler over every sequence of calls. */
module AssemblerRuns {
  import opened Sequences
  import opened Powers
  import opened Isa
  import opened Immediates
  import opened Disassembler
  import opened Layout
  import opened Assembler

  function Run(fork: Fork, calls: seq<Call>): State {
    if calls == [] then State(fork, [], 0, None) else Step(Run(fork, Init(calls)), Last(calls))
  }

  /** The calls that stand for an instruction: all but label reservations. */
  function Emitting(calls: seq<Call>): seq<Call> {
    if calls == [] then []
    else Emitting(Init(calls)) + (if Last(calls).LabelCall? then [] else [Last(calls)])
  }

  /** One more call is one more step, and one more call's worth of bytes. */
  lemma RunOneMore(fork: Fork, calls: seq<Call>, n: nat)
    requires n < |calls|
    ensures Run(fork, calls[..n + 1]) == Step(Run(fork, calls[..n]), calls[n])
    ensures CodeSize(fork, calls[..n + 1]) == CodeSize(fork, calls[..n]) + CallSize(fork, calls[n])
  {
    assert Init(calls[..n + 1]) == calls[..n];
  }

  lemma {:induction false} NoLabelCalls(calls: seq<Call>)
    requires forall i :: 0 <= i < |calls| ==> !calls[i].LabelCall?
    ensures Emitting(calls) == calls
  {
    if calls == [] {
    } else {
      NoLabelCalls(Init(calls));
      assert calls == Init(calls) + [Last(calls)];
    }
  }

  // ----- which calls are refused -----

  /** Whether a call made after `before` is refused, from the call history alone. */
  predicate Refused(fork: Fork, before: seq<Call>, call: Call) {
    match call
    case OpCall(m) =>
      ByMnemonic(m).None? || FormOf(ByMnemonic(m).value.byte) != Simple || !ByMnemonic(m).value.minFork.AtMost(fork)
    case DupCall(n) => n < 1 || n > 16
    case SwapCall(n) => n < 1 || n > 16
    case BindCall(l) => call in before
    case _ => false
  }

  ghost predicate NoneRefused(fork: Fork, calls: seq<Call>) {
    forall i :: 0 <= i < |calls| ==> !Refused(fork, calls[..i], calls[i])
  }

  /** The items of an accepted history. */
  ghost predicate Accepted(fork: Fork, calls: seq<Call>, items: seq<Item>) {
    var emitting := Emitting(calls);
    && |items| == |emitting|
    && forall i :: 0 <= i < |items| ==>
         && !emitting[i].LabelCall?
         && Rejection(fork, {}, emitting[i]).None?
         && items[i] == Emission(fork, emitting[i])
  }

  lemma {:induction false} EmittingMembers(calls: seq<Call>, call: Call)
    ensures call in Emitting(calls) <==> call in calls && !call.LabelCall?
  {
    if calls == [] {
    } else {
      EmittingMembers(Init(calls), call);
      assert calls == Init(calls) + [Last(calls)];
    }
  }

  lemma NoneRefusedInit(fork: Fork, calls: seq<Call>)
    requires calls != []
    ensures NoneRefused(fork, calls) <==>
            NoneRefused(fork, Init(calls)) && !Refused(fork, Init(calls), Last(calls))
  {
    var init := Init(calls);
    forall i | 0 <= i < |init|
      ensures calls[..i] == init[..i] && calls[i] == init[i]
    {
    }
    if NoneRefused(fork, init) && !Refused(fork, init, Last(calls)) {
      forall i | 0 <= i < |calls|
        ensures !Refused(fork, calls[..i], calls[i])
      {
        assert i < |init| ==> calls[..i] == init[..i];
      }
    }
  }

  /** The labels bound in the items are those bound by the history. */
  lemma BoundMatchesHistory(fork: Fork, calls: seq<Call>, items: seq<Item>, l: Label)
    requires Accepted(fork, calls, items)
    ensures l in Bound(items) <==> BindCall(l) in calls
    ensures RefItem(l) in items <==> PushLabelCall(l) in calls
  {
    var emitting := Emitting(calls);
    EmittingMembers(calls, BindCall(l));
    EmittingMembers(calls, PushLabelCall(l));
    if BindCall(l) in emitting {
      var i :| 0 <= i < |emitting| && emitting[i] == BindCall(l);
      assert items[i] == BindItem(l);
    }
    if PushLabelCall(l) in emitting {
      var i :| 0 <= i < |emitting| && emitting[i] == PushLabelCall(l);
      assert items[i] == RefItem(l);
    }
  }

  /** While nothing is refused every call is accepted in order. */
  lemma {:induction false} RunAccepts(fork: Fork, calls: seq<Call>)
    requires NoneRefused(fork, calls)
    ensures Run(fork, calls).error == None && Run(fork, calls).fork == fork
    ensures Accepted(fork, calls, Run(fork, calls).items)
  {
    if calls == [] {
    } else {
      var init, call := Init(calls), Last(calls);
      NoneRefusedInit(fork, calls);
      RunAccepts(fork, init);
      var s := Run(fork, init);
      if call.BindCall? {
        BoundMatchesHistory(fork, init, s.items, call.l);
      }
      assert Rejection(fork, Bound(s.items), call) == None;
    }
  }

  /** The first refused call. */
  function FirstRefused(fork: Fork, calls: seq<Call>, from: nat): (k: nat)
    requires from <= |calls|
    ensures from <= k <= |calls|
    ensures k < |calls| ==> Refused(fork, calls[..k], calls[k])
    ensures forall i :: from <= i < k ==> !Refused(fork, calls[..i], calls[i])
    decreases |calls| - from
  {
    if from == |calls| || Refused(fork, calls[..from], calls[from]) then from
    else FirstRefused(fork, calls, from + 1)
  }

  lemma PrefixAccepted(fork: Fork, calls: seq<Call>, k: nat)
    requires k <= |calls| && forall i :: 0 <= i < k ==> !Refused(fork, calls[..i], calls[i])
    ensures NoneRefused(fork, calls[..k])
  {
    forall i | 0 <= i < k
      ensures !Refused(fork, calls[..k][..i], calls[..k][i])
    {
      assert calls[..k][..i] == calls[..i];
    }
  }

  /** After a refusal at position `k` the buffer and the recorded error never change again. */
  lemma {:induction false} RunSticks(fork: Fork, calls: seq<Call>, k: nat)
    requires k < |calls| && NoneRefused(fork, calls[..k]) && Refused(fork, calls[..k], calls[k])
    ensures Run(fork, calls).fork == fork
    ensures Run(fork, calls).items == Run(fork, calls[..k]).items
    ensures Run(fork, calls).error == Rejection(fork, Bound(Run(fork, calls[..k]).items), calls[k])
    ensures Run(fork, calls).error.Some?
  {
    var init, call := Init(calls), Last(calls);
    if k == |init| {
      RunAccepts(fork, init);
      assert calls[..k] == init;
      if call.BindCall? {
        BoundMatchesHistory(fork, init, Run(fork, init).items, call.l);
      }
    } else {
      assert calls[..k] == init[..k];
      RunSticks(fork, init, k);
    }
  }

  // ----- when finishing succeeds -----

  /** Bytes a call contributes when accepted. */
  function CallSize(fork: Fork, call: Call): nat {
    match call
    case LabelCall => 0
    case PushCall(imm) => if Width(imm) == 0 && !Shanghai.AtMost(fork) then 2 else 1 + Width(imm)
    case PushLabelCall(_) => 3
    case _ => 1
  }

  function CodeSize(fork: Fork, calls: seq<Call>): nat {
    if calls == [] then 0 else CodeSize(fork, Init(calls)) + CallSize(fork, Last(calls))
  }

  lemma EmissionSize(fork: Fork, call: Call)
    requires !call.LabelCall? && Rejection(fork, {}, call).None?
    ensures Emission(fork, call).Fits(fork)
    ensures |ItemBytes(Emission(fork, call))| == CallSize(fork, call)
  {
    hide Item.Fits, ByByte, ByMnemonic, FormOf, BigEndian, Width, Significant;
    EmissionFits(fork, call);
    if call.PushCall? {
      SignificantDenotes(call.imm);
    }
  }

  lemma AcceptedFit(fork: Fork, calls: seq<Call>, items: seq<Item>)
    requires Accepted(fork, calls, items)
    ensures AllFit(items, fork)
  {
    forall i | 0 <= i < |items|
      ensures items[i].Fits(fork)
    {
      EmissionFits(fork, Emitting(calls)[i]);
    }
  }

  lemma AcceptedInit(fork: Fork, calls: seq<Call>, items: seq<Item>)
    requires calls != [] && !Last(calls).LabelCall? && Accepted(fork, calls, items)
    ensures items != [] && Accepted(fork, Init(calls), Init(items))
    ensures Rejection(fork, {}, Last(calls)).None? && Last(items) == Emission(fork, Last(calls))
  {
    var emitting, n := Emitting(calls), |items| - 1;
    assert emitting[n] == Last(calls) && items[n] == Emission(fork, emitting[n]);
    forall i | 0 <= i < n
      ensures Emitting(Init(calls))[i] == emitting[i]
    {
    }
  }

  lemma {:induction false} AcceptedSize(fork: Fork, calls: seq<Call>, items: seq<Item>)
    requires Accepted(fork, calls, items)
    ensures AllFit(items, fork) && |Encode(items)| == CodeSize(fork, calls)
  {
    AcceptedFit(fork, calls, items);
    if calls == [] {
    } else {
      if Last(calls).LabelCall? {
        assert Emitting(calls) == Emitting(Init(calls));
        assert Accepted(fork, Init(calls), items);
        AcceptedSize(fork, Init(calls), items);
      } else {
        AcceptedInit(fork, calls, items);
        AcceptedSize(fork, Init(calls), Init(items));
        EmissionSize(fork, Last(calls));
      }
    }
  }

  ghost predicate EveryReferenceBound(calls: seq<Call>) {
    forall l :: PushLabelCall(l) in calls ==> BindCall(l) in calls
  }

  ghost predicate NoReferences(calls: seq<Call>) {
    forall l :: PushLabelCall(l) !in calls
  }

  /** Everything after a history without refusals. */
  lemma FinishedAccepted(fork: Fork, calls: seq<Call>)
    requires NoneRefused(fork, calls)
    ensures AllFit(Run(fork, calls).items, fork)
    ensures Finished(Run(fork, calls)).Ok? <==>
            EveryReferenceBound(calls) && (CodeSize(fork, calls) <= MAX_LABEL_OFFSET || NoReferences(calls))
  {
    var items := Run(fork, calls).items;
    RunAccepts(fork, calls);
    AcceptedSize(fork, calls, items);
    FixupsInside(items);
    BoundIsLabels(items);
    forall l
      ensures l in LabelsOf(items) <==> BindCall(l) in calls
      ensures RefItem(l) in items <==> PushLabelCall(l) in calls
    {
      BoundMatchesHistory(fork, calls, items, l);
    }
    var fixups := FixupsOf(items);
    assert fixups == [] <==> NoReferences(calls) by {
      if fixups != [] {
        assert RefItem(fixups[0].dest) in items;
      }
    }
    assert FirstUnbound(fixups, LabelsOf(items)) == |fixups| <==> EveryReferenceBound(calls) by {
      if EveryReferenceBound(calls) {
        forall i | 0 <= i < |fixups|
          ensures fixups[i].dest in LabelsOf(items)
        {
          assert RefItem(fixups[i].dest) in items;
        }
      }
    }
  }

  /**
   `finish` succeeds exactly when no call was refused, every referenced label was
   bound, and the code is addressable or has no references. When a call was
   refused it returns the reason for the first one.
   */
  lemma FinishSucceedsIff(fork: Fork, calls: seq<Call>)
    ensures Encodable(Run(fork, calls).items)
    ensures Finished(Run(fork, calls)).Ok? <==>
            && NoneRefused(fork, calls)
            && EveryReferenceBound(calls)
            && (CodeSize(fork, calls) <= MAX_LABEL_OFFSET || NoReferences(calls))
    ensures var k := FirstRefused(fork, calls, 0);
            k < |calls| ==>
              && Rejection(fork, Bound(Run(fork, calls[..k]).items), calls[k]).Some?
              && Finished(Run(fork, calls)) == Err(Rejection(fork, Bound(Run(fork, calls[..k]).items), calls[k]).value)
              && Run(fork, calls).items == Run(fork, calls[..k]).items
  {
    var k := FirstRefused(fork, calls, 0);
    PrefixAccepted(fork, calls, k);
    if k < |calls| {
      RunSticks(fork, calls, k);
      RunAccepts(fork, calls[..k]);
      AcceptedFit(fork, calls[..k], Run(fork, calls[..k]).items);
    } else {
      assert calls[..k] == calls;
      FinishedAccepted(fork, calls);
    }
  }

  // ----- the bytes decode to the calls -----

  /** The instruction a call asked for, judged by what was decoded. */
  ghost predicate Realises(fork: Fork, call: Call, ins: Instruction) {
    match call
    case OpCall(m) => ins.spec == ByMnemonic(m) && ins.immediate == []
    case PushCall(imm) =>
      && FormOf(ins.opcode).Push?
      && BigEndian(ins.immediate) == BigEndian(imm)
      && |ins.immediate| == (if Width(imm) == 0 && !Shanghai.AtMost(fork) then 1 else Width(imm))
    case DupCall(n) => FormOf(ins.opcode) == Dup(n)
    case SwapCall(n) => FormOf(ins.opcode) == Swap(n)
    case BindCall(_) => ins.IsJumpdest()
    case PushLabelCall(_) => ins.opcode == PUSH2 && |ins.immediate| == 2
    case LabelCall => true
  }

  ghost predicate WellDecoded(fork: Fork, ins: Instruction) {
    && !ins.truncated
    && ins.spec.Some?
    && ins.spec.value.minFork.AtMost(fork)
  }

  ghost predicate DistinctBinds(items: seq<Item>) {
    forall i, j :: 0 <= i < j < |items| && items[i].BindItem? && items[j].BindItem? ==> items[i].dest != items[j].dest
  }

  lemma {:induction false} RunBindsOnce(fork: Fork, calls: seq<Call>)
    ensures DistinctBinds(Run(fork, calls).items)
  {
    if calls == [] {
    } else {
      RunBindsOnce(fork, Init(calls));
      var s, t := Run(fork, Init(calls)), Run(fork, calls);
      if t.items != s.items && Last(t.items).BindItem? {
        assert Last(t.items).dest !in Bound(s.items);
      }
    }
  }

  /** A label that is bound once sits where its item is laid out. */
  lemma {:induction false} LabelAddress(items: seq<Item>, j: nat)
    requires Encodable(items) && DistinctBinds(items) && j < |items| && items[j].BindItem?
    ensures items[j].dest in LabelsOf(items)
    ensures LabelsOf(items)[items[j].dest] == |Encode(items[..j])|
    ensures |Encode(items[..j])| < |Encode(items)|
  {
    var init := Init(items);
    if j >= |init| {
    } else {
      LabelAddress(init, j);
      assert init[..j] == items[..j];
    }
  }

  lemma ResolvePrefix(items: seq<Item>, labels: map<Label, nat>, k: nat)
    requires Encodable(items) && k <= |items|
    ensures Encodable(items[..k]) && Resolve(items, labels)[..k] == Resolve(items[..k], labels)
    ensures |Encode(Resolve(items, labels)[..k])| == |Encode(items[..k])|
  {
    assert Resolve(items, labels)[..k] == Resolve(items[..k], labels);
    ResolveKeepsOffsets(items[..k], labels);
  }

  lemma ResolvedFit(items: seq<Item>, labels: map<Label, nat>, fork: Fork)
    requires AllFit(items, fork)
    ensures AllFit(Resolve(items, labels), fork)
  {
    forall i | 0 <= i < |items|
      ensures Resolve(items, labels)[i].Fits(fork)
    {
      if items[i].RefItem? && items[i].dest in labels {
        PushFits(fork, AddressBytes(labels[items[i].dest]));
      }
    }
  }

  /** The finished bytes and what decoding them gives, item by item. */
  lemma FinishedDecodes(fork: Fork, calls: seq<Call>, code: seq<Byte>, k: nat)
    requires Encodable(Run(fork, calls).items) && Finished(Run(fork, calls)) == Ok(code)
    requires k < |Emitting(calls)|
    ensures |Disassemble(code, 0)| == |Emitting(calls)| == |Run(fork, calls).items|
    ensures AllFit(Run(fork, calls).items, fork) && Accepted(fork, calls, Run(fork, calls).items)
    ensures var item := ResolveItem(Run(fork, calls).items[k], LabelsOf(Run(fork, calls).items));
            && item.Fits(fork)
            && Disassemble(code, 0)[k] == InstructionAt(item, |Encode(Run(fork, calls).items[..k])|)
  {
    FinishSucceedsIff(fork, calls);
    RunAccepts(fork, calls);
    var items := Run(fork, calls).items;
    var labels := LabelsOf(items);
    AcceptedFit(fork, calls, items);
    ResolvedFit(items, labels, fork);
    EncodeDecodes(Resolve(items, labels), fork);
    InstructionPcs(Resolve(items, labels), k);
    ResolvePrefix(items, labels, k);
  }

  /** Disassembling finished code recovers every emitted instruction, in order and untruncated. */
  lemma FinishRoundTrips(fork: Fork, calls: seq<Call>, code: seq<Byte>)
    requires Encodable(Run(fork, calls).items) && Finished(Run(fork, calls)) == Ok(code)
    ensures |Disassemble(code, 0)| == |Emitting(calls)|
    ensures forall k :: 0 <= k < |Emitting(calls)| ==>
              WellDecoded(fork, Disassemble(code, 0)[k]) && Realises(fork, Emitting(calls)[k], Disassemble(code, 0)[k])
  {
    if Emitting(calls) == [] {
      NothingEmitted(fork, calls, code);
    } else {
      FinishedDecodes(fork, calls, code, 0);
    }
    forall k | 0 <= k < |Emitting(calls)|
      ensures WellDecoded(fork, Disassemble(code, 0)[k])
      ensures Realises(fork, Emitting(calls)[k], Disassemble(code, 0)[k])
    {
      InstructionRealises(fork, calls, code, k);
    }
  }

  lemma NothingEmitted(fork: Fork, calls: seq<Call>, code: seq<Byte>)
    requires Encodable(Run(fork, calls).items) && Finished(Run(fork, calls)) == Ok(code)
    requires Emitting(calls) == []
    ensures code == []
  {
    FinishSucceedsIff(fork, calls);
    RunAccepts(fork, calls);
  }

  lemma InstructionRealises(fork: Fork, calls: seq<Call>, code: seq<Byte>, k: nat)
    requires Encodable(Run(fork, calls).items) && Finished(Run(fork, calls)) == Ok(code)
    requires k < |Emitting(calls)| && |Disassemble(code, 0)| == |Emitting(calls)|
    ensures WellDecoded(fork, Disassemble(code, 0)[k])
    ensures Realises(fork, Emitting(calls)[k], Disassemble(code, 0)[k])
  {
    hide Emission, Realises, ResolveItem, Rejection, InstructionAt, LabelsOf, Encode;
    FinishedDecodes(fork, calls, code, k);
    var call := Emitting(calls)[k];
    var items := Run(fork, calls).items;
    if call.PushLabelCall? {
      FinishSucceedsIff(fork, calls);
      EmittingMembers(calls, call);
      BoundMatchesHistory(fork, calls, items, call.l);
      BoundIsLabels(items);
    }
    EmissionRealises(fork, call, LabelsOf(items), |Encode(items[..k])|);
  }

  /** An emitted item, its reference resolved, decodes to what the call asked for. */
  lemma EmissionRealises(fork: Fork, call: Call, labels: map<Label, nat>, pc: nat)
    requires !call.LabelCall? && Rejection(fork, {}, call).None?
    requires call.PushLabelCall? ==> call.l in labels
    requires ResolveItem(Emission(fork, call), labels).Fits(fork)
    ensures var ins := InstructionAt(ResolveItem(Emission(fork, call), labels), pc);
            WellDecoded(fork, ins) && Realises(fork, call, ins)
  {
    if call.PushCall? {
      PushedRealises(fork, call.imm, pc);
    } else {
      hide BigEndian, Width;
    }
  }

  lemma PushedRealises(fork: Fork, imm: Immediate, pc: nat)
    requires PushedItem(fork, imm).Fits(fork)
    ensures WellDecoded(fork, InstructionAt(PushedItem(fork, imm), pc))
    ensures Realises(fork, PushCall(imm), InstructionAt(PushedItem(fork, imm), pc))
  {
    SignificantDenotes(imm);
    assert BigEndian([0]) == 0;
  }

  /**
   Jump safety: every label reference reads, as 16 big-endian bits, the offset of
   the one `JUMPDEST` that binding the label emitted.
   */
  lemma JumpsAreSafe(fork: Fork, calls: seq<Call>, code: seq<Byte>, k: nat) returns (j: nat)
    requires Encodable(Run(fork, calls).items) && Finished(Run(fork, calls)) == Ok(code)
    requires k < |Emitting(calls)| && Emitting(calls)[k].PushLabelCall?
    ensures |Disassemble(code, 0)| == |Emitting(calls)|
    ensures j < |Emitting(calls)| && Emitting(calls)[j] == BindCall(Emitting(calls)[k].l)
    ensures forall i :: 0 <= i < |Emitting(calls)| && Emitting(calls)[i] == Emitting(calls)[j] ==> i == j
    ensures Disassemble(code, 0)[k].opcode == PUSH2
    ensures BigEndian(Disassemble(code, 0)[k].immediate) == Disassemble(code, 0)[j].pc
    ensures BigEndian(Disassemble(code, 0)[k].immediate) in Jumpdests(code)
  {
    var l := Emitting(calls)[k].l;
    FinishSucceedsIff(fork, calls);
    EmittingMembers(calls, PushLabelCall(l));
    EmittingMembers(calls, BindCall(l));
    j :| 0 <= j < |Emitting(calls)| && Emitting(calls)[j] == BindCall(l);
    ReferenceReadsAddress(fork, calls, code, k, j, l);
    JumpdestMembership(Disassemble(code, 0), Disassemble(code, 0)[j].pc);
    forall i | 0 <= i < |Emitting(calls)| && Emitting(calls)[i] == BindCall(l)
      ensures i == j
    {
      BoundOnce(fork, calls, i, j, l);
    }
  }

  lemma BoundOnce(fork: Fork, calls: seq<Call>, i: nat, j: nat, l: Label)
    requires NoneRefused(fork, calls) && i < |Emitting(calls)| && j < |Emitting(calls)|
    requires Emitting(calls)[i] == Emitting(calls)[j] == BindCall(l)
    ensures i == j
  {
    var items := Run(fork, calls).items;
    RunAccepts(fork, calls);
    RunBindsOnce(fork, calls);
    assert items[i] == items[j] == BindItem(l);
  }

  lemma ReferenceReadsAddress(fork: Fork, calls: seq<Call>, code: seq<Byte>, k: nat, j: nat, l: Label)
    requires Encodable(Run(fork, calls).items) && Finished(Run(fork, calls)) == Ok(code)
    requires k < |Emitting(calls)| && Emitting(calls)[k] == PushLabelCall(l)
    requires j < |Emitting(calls)| && Emitting(calls)[j] == BindCall(l)
    ensures |Disassemble(code, 0)| == |Emitting(calls)|
    ensures Disassemble(code, 0)[k].opcode == PUSH2
    ensures BigEndian(Disassemble(code, 0)[k].immediate) == Disassemble(code, 0)[j].pc
    ensures Disassemble(code, 0)[j].IsJumpdest()
  {
    var items := Run(fork, calls).items;
    FinishedDecodes(fork, calls, code, k);
    FinishedDecodes(fork, calls, code, j);
    assert items[k] == RefItem(l) && items[j] == BindItem(l);
    RunBindsOnce(fork, calls);
    LabelAddress(items, j);
    AddressFits(fork, calls, code, k);
    AddressDenotes(LabelsOf(items)[l]);
  }

  lemma AddressFits(fork: Fork, calls: seq<Call>, code: seq<Byte>, k: nat)
    requires Encodable(Run(fork, calls).items) && Finished(Run(fork, calls)) == Ok(code)
    requires k < |Emitting(calls)| && Emitting(calls)[k].PushLabelCall?
    ensures |Encode(Run(fork, calls).items)| <= MAX_LABEL_OFFSET
  {
    FinishSucceedsIff(fork, calls);
    RunAccepts(fork, calls);
    AcceptedSize(fork, calls, Run(fork, calls).items);
    EmittingMembers(calls, Emitting(calls)[k]);
  }

  lemma AddressDenotes(target: nat)
    requires target <= MAX_LABEL_OFFSET
    ensures BigEndian(AddressBytes(target)) == target
  {
    hide Bytes, BigEndian;
    SixteenBits();
    BytesDenote(target, 2);
  }

  lemma SixteenBits()
    ensures Pow2(8 * 2) == 0x1_0000
  {
    Pow2Byte(1);
    Pow2Byte(0);
  }
}
