/** Disassembled code fed back through the assembler. */
module Reassembly {
  import opened Isa
  import opened Immediates
  import opened Disassembler
  import opened Layout
  import opened Assembler
  import opened AssemblerRuns

  /** The call that re-emits a decoded instruction. */
  function CallFor(ins: Instruction): Call
    requires |ins.immediate| <= 32
  {
    match FormOf(ins.opcode)
    case Simple => OpCall(Listed(ins.opcode))
    case Push(_) => PushCall(Widen(ins.immediate))
    case Dup(n) => DupCall(if n < 256 then n else 0)
    case Swap(n) => SwapCall(if n < 256 then n else 0)
  }

  /** Untruncated code made only of opcodes the fork has. */
  ghost predicate Known(code: seq<Byte>, fork: Fork) {
    forall k :: 0 <= k < |Disassemble(code, 0)| ==> WellDecoded(fork, Disassemble(code, 0)[k])
  }

  ghost predicate AllKnown(list: seq<Instruction>, fork: Fork) {
    forall k :: 0 <= k < |list| ==> WellDecoded(fork, list[k]) && Faithful(list[k])
  }

  lemma FaithfulWidth(ins: Instruction)
    requires Faithful(ins) && !ins.truncated && ins.spec.Some?
    ensures |ins.immediate| <= 32
    ensures FormOf(ins.opcode).Push? ==> ins.opcode == 0x5f + |ins.immediate|
    ensures !FormOf(ins.opcode).Push? ==> ins.immediate == []
  {
  }

  function CallsFor(list: seq<Instruction>): seq<Call>
    requires forall k :: 0 <= k < |list| ==> |list[k].immediate| <= 32
  {
    seq(|list|, k requires 0 <= k < |list| => CallFor(list[k]))
  }

  ghost predicate Narrowable(code: seq<Byte>) {
    forall k :: 0 <= k < |Disassemble(code, 0)| ==> |Disassemble(code, 0)[k].immediate| <= 32
  }

  lemma AllNarrowable(list: seq<Instruction>, fork: Fork)
    requires AllKnown(list, fork)
    ensures forall k :: 0 <= k < |list| ==> |list[k].immediate| <= 32
  {
    forall k | 0 <= k < |list|
      ensures |list[k].immediate| <= 32
    {
      FaithfulWidth(list[k]);
    }
  }

  // ----- what reassembly preserves -----

  /** Same instruction up to the width of a push, with the same number pushed. */
  ghost predicate SameUpToWidth(a: Instruction, b: Instruction) {
    && BigEndian(a.immediate) == BigEndian(b.immediate)
    && (a.opcode == b.opcode || (FormOf(a.opcode).Push? && FormOf(b.opcode).Push?))
  }

  /** A push that re-emission would leave at its width. */
  ghost predicate Narrowest(fork: Fork, ins: Instruction)
    requires |ins.immediate| <= 32
  {
    FormOf(ins.opcode).Push? ==> |ins.immediate| == NarrowWidth(fork, ins)
  }

  function NarrowWidth(fork: Fork, ins: Instruction): nat
    requires |ins.immediate| <= 32
  {
    var imm := Widen(ins.immediate);
    if Width(imm) == 0 && !Shanghai.AtMost(fork) then 1 else Width(imm)
  }

  /** An immediate as a full word. */
  function Widen(b: seq<Byte>): Immediate
    requires |b| <= 32
  {
    seq(32 - |b|, i => 0) + b
  }

  lemma WidenDenotes(b: seq<Byte>)
    requires |b| <= 32
    ensures BigEndian(Widen(b)) == BigEndian(b)
    ensures Width(Widen(b)) <= |b|
  {
    hide BigEndian, FirstNonzero;
    var imm: seq<Byte> := Widen(b);
    DropLeadingZeros(imm, 32 - |b|);
    assert imm[32 - |b|..] == b;
    LeadingZeroRun(imm, 32 - |b|);
  }

  lemma LeadingZeroRun(b: seq<Byte>, n: nat)
    requires n <= |b| && forall k :: 0 <= k < n ==> b[k] == 0
    ensures n <= FirstNonzero(b)
  {
  }

  /** Re-emitting known instructions is never refused and makes no label calls. */
  lemma ReemissionAccepted(list: seq<Instruction>, fork: Fork)
    requires AllKnown(list, fork)
    requires forall k :: 0 <= k < |list| ==> |list[k].immediate| <= 32
    ensures NoneRefused(fork, CallsFor(list)) && NoReferences(CallsFor(list))
    ensures Emitting(CallsFor(list)) == CallsFor(list)
  {
    var calls := CallsFor(list);
    forall i | 0 <= i < |calls|
      ensures !Refused(fork, calls[..i], calls[i]) && !calls[i].PushLabelCall? && !calls[i].LabelCall?
    {
      assert WellDecoded(fork, list[i]) && Faithful(list[i]);
    }
    NoLabelCalls(calls);
  }

  /** One re-emitted instruction decodes to the original up to push width, and is no larger. */
  lemma ReemittedInstruction(fork: Fork, a: Instruction, b: Instruction)
    requires WellDecoded(fork, a) && Faithful(a) && |a.immediate| <= 32
    requires WellDecoded(fork, b) && Faithful(b) && Realises(fork, CallFor(a), b)
    ensures SameUpToWidth(a, b)
    ensures b.Size() <= a.Size()
    ensures Narrowest(fork, a) <==> a.Bytes() == b.Bytes()
  {
    FaithfulWidth(a);
    FaithfulWidth(b);
    if FormOf(a.opcode).Push? {
      ReemittedPush(fork, a, b);
    } else {
      assert a.immediate == b.immediate == [];
      FormsDetermine(a.opcode, b.opcode);
    }
  }

  lemma FormsDetermine(a: Byte, b: Byte)
    ensures FormOf(a) == FormOf(b) && FormOf(a) != Simple ==> a == b
  {
  }

  lemma ReemittedPush(fork: Fork, a: Instruction, b: Instruction)
    requires FormOf(a.opcode).Push? && FormOf(b.opcode).Push?
    requires |a.immediate| <= 32 && a.opcode == 0x5f + |a.immediate| && b.opcode == 0x5f + |b.immediate|
    requires a.spec.Some? && a.spec.value.minFork.AtMost(fork) && a.spec == ByByte(a.opcode)
    requires BigEndian(b.immediate) == BigEndian(Widen(a.immediate))
    requires |b.immediate| == NarrowWidth(fork, a)
    ensures SameUpToWidth(a, b) && b.Size() <= a.Size()
    ensures Narrowest(fork, a) <==> a.Bytes() == b.Bytes()
  {
    hide ByByte, BigEndian, Width, Widen, FormOf;
    WidenDenotes(a.immediate);
    if a.immediate == [] {
      ZeroPushFork(a);
    }
    if Narrowest(fork, a) {
      EqualDenotations(a.immediate, b.immediate);
    }
  }

  lemma ZeroPushFork(a: Instruction)
    requires a.opcode == PUSH0 && a.spec == ByByte(a.opcode)
    ensures a.spec.value.minFork == Shanghai
  {
  }

  /** Byte strings of one length with one value are equal. */
  lemma EqualDenotations(a: seq<Byte>, b: seq<Byte>)
    requires |a| == |b| && BigEndian(a) == BigEndian(b)
    ensures a == b
  {
    hide BigEndian;
    DenoteBytes(a);
    DenoteBytes(b);
  }

  lemma {:induction false} FlattenNoLarger(a: seq<Instruction>, b: seq<Instruction>)
    requires |a| == |b|
    requires forall k :: 0 <= k < |a| ==> b[k].Size() <= a[k].Size()
    ensures |Flatten(b)| <= |Flatten(a)|
  {
    if a == [] {
    } else {
      FlattenNoLarger(a[1..], b[1..]);
    }
  }

  lemma {:induction false} FlattenSame(a: seq<Instruction>, b: seq<Instruction>)
    requires |a| == |b|
    requires forall k :: 0 <= k < |a| ==> b[k].Bytes() == a[k].Bytes()
    ensures Flatten(b) == Flatten(a)
  {
    if a == [] {
    } else {
      FlattenSame(a[1..], b[1..]);
    }
  }

  /**
   Reassembly succeeds on known code, gives the same instructions up to push
   width, and never more bytes; the bytes are the same exactly when every push was
   the narrowest already.
   */
  lemma ReassemblyPreserves(code: seq<Byte>, fork: Fork) returns (again: seq<Byte>)
    requires Known(code, fork)
    ensures Narrowable(code)
    ensures Encodable(Run(fork, CallsFor(Disassemble(code, 0))).items)
    ensures Finished(Run(fork, CallsFor(Disassemble(code, 0)))) == Ok(again)
    ensures |Disassemble(again, 0)| == |Disassemble(code, 0)|
    ensures forall k :: 0 <= k < |Disassemble(code, 0)| ==>
              SameUpToWidth(Disassemble(code, 0)[k], Disassemble(again, 0)[k])
    ensures |again| <= |code|
    ensures (forall k :: 0 <= k < |Disassemble(code, 0)| ==> Narrowest(fork, Disassemble(code, 0)[k])) <==>
              again == code
  {
    DisassembleTiles(code, 0);
    var list := Disassemble(code, 0);
    var calls := CallsForKnown(code, fork);
    FinishSucceedsIff(fork, calls);
    again := Finished(Run(fork, calls)).value;
    FinishRoundTrips(fork, calls, again);
    DisassembleTiles(again, 0);
    var relist := Disassemble(again, 0);
    forall k | 0 <= k < |list|
      ensures SameUpToWidth(list[k], relist[k]) && relist[k].Size() <= list[k].Size()
      ensures Narrowest(fork, list[k]) <==> list[k].Bytes() == relist[k].Bytes()
    {
      assert Emitting(calls)[k] == CallFor(list[k]);
      ReemittedInstruction(fork, list[k], relist[k]);
    }
    FlattenNoLarger(list, relist);
    assert code[0..] == code && again[0..] == again;
    if forall k :: 0 <= k < |list| ==> Narrowest(fork, list[k]) {
      FlattenSame(list, relist);
    } else {
      var k :| 0 <= k < |list| && !Narrowest(fork, list[k]);
      assert list[k].Bytes() != relist[k].Bytes();
    }
  }

  lemma CallsForKnown(code: seq<Byte>, fork: Fork) returns (calls: seq<Call>)
    requires Known(code, fork)
    ensures Narrowable(code) && calls == CallsFor(Disassemble(code, 0))
    ensures NoneRefused(fork, calls) && NoReferences(calls) && Emitting(calls) == calls
  {
    DisassembleTiles(code, 0);
    AllNarrowable(Disassemble(code, 0), fork);
    calls := CallsFor(Disassemble(code, 0));
    ReemissionAccepted(Disassemble(code, 0), fork);
  }

  // ----- the loop -----

  method EmitAgain(a: Asm, ins: Instruction)
    requires a.Valid() && |ins.immediate| <= 32
    modifies a
    ensures a.Valid() && a.View() == Step(old(a.View()), CallFor(ins))
  {
    match FormOf(ins.opcode)
    case Simple => a.Op(Listed(ins.opcode));
    case Push(_) => a.Push(Widen(ins.immediate));
    case Dup(n) => a.Dup(if n < 256 then n else 0);
    case Swap(n) => a.Swap(if n < 256 then n else 0);
  }

  /** Decodes code and re-emits every instruction into a fresh assembler. */
  method Reemit(code: seq<Byte>, fork: Fork) returns (r: Result<seq<Byte>>)
    requires Narrowable(code)
    ensures Encodable(Run(fork, CallsFor(Disassemble(code, 0))).items)
    ensures r == Finished(Run(fork, CallsFor(Disassemble(code, 0))))
  {
    ghost var calls := CallsFor(Disassemble(code, 0));
    ghost var n := 0;
    var decoder := new Instructions(code);
    var a := new Asm(fork);
    var next := decoder.Next();
    while next.Some?
      invariant a.Valid() && fresh(a) && fresh(decoder) && decoder.code == code
      invariant n <= |calls|
      invariant Disassemble(code, 0)[n..] == if next.Some? then [next.value] + decoder.Remaining() else []
      invariant a.View() == Run(fork, calls[..n])
      decreases |calls| - n
    {
      ghost var rest := Disassemble(code, 0)[n..];
      assert next.value == rest[0] == Disassemble(code, 0)[n];
      EmitAgain(a, next.value);
      RunOneMore(fork, calls, n);
      assert Disassemble(code, 0)[n + 1..] == rest[1..] == decoder.Remaining();
      n := n + 1;
      next := decoder.Next();
    }
    assert |Disassemble(code, 0)[n..]| == 0;
    assert calls[..n] == calls;
    r := a.Finish();
  }

  /** Reassembling known code, as `ReassemblyPreserves` describes. */
  method Reassemble(code: seq<Byte>, fork: Fork) returns (r: Result<seq<Byte>>)
    requires Known(code, fork)
    ensures r.Ok? && |r.value| <= |code|
    ensures |Disassemble(r.value, 0)| == |Disassemble(code, 0)|
    ensures forall k :: 0 <= k < |Disassemble(code, 0)| ==>
              SameUpToWidth(Disassemble(code, 0)[k], Disassemble(r.value, 0)[k])
    ensures Narrowable(code)
    ensures (forall k :: 0 <= k < |Disassemble(code, 0)| ==> Narrowest(fork, Disassemble(code, 0)[k])) <==>
              r.value == code
  {
    ghost var again := ReassemblyPreserves(code, fork);
    r := Reemit(code, fork);
  }
}
