/**
 The assembler: opcodes and labels in, bytecode out.

 `Step` says what each call does to the list of emitted items; the class `Asm`
 carries it out on a byte buffer with labels and fixups.
 */
module Assembler {
  import opened Sequences
  import opened Isa
  import opened Immediates
  import opened Layout

  /** The greatest offset two bytes can hold. */
  const MAX_LABEL_OFFSET: nat := 0xffff

  datatype Helper = PushHelper | DupHelper | SwapHelper

  datatype AsmError =
    | UnknownMnemonic(name: Mnemonic)
    | OpcodeTooNew(mnemonic: Mnemonic, minFork: Fork, target: Fork)
    | UseHelperInstead(mnemonic: Mnemonic, helper: Helper)
    | BadStackDepth(helper: Helper, n: Byte)
    | UnboundLabel(l: Label)
    | LabelAlreadyBound(l: Label)
    | CodeTooLargeToAddress(len: nat)

  datatype Result<+T> = Ok(value: T) | Err(error: AsmError)

  // ----- one call at a time -----

  datatype Call =
    | OpCall(m: Mnemonic) | PushCall(imm: Immediate) | DupCall(n: Byte) | SwapCall(n: Byte)
    | LabelCall | BindCall(l: Label) | PushLabelCall(l: Label)

  datatype State = State(fork: Fork, items: seq<Item>, nextLabel: Label, error: Option<AsmError>)

  function HelperFor(form: OpForm): Option<Helper> {
    match form
    case Simple => None
    case Push(_) => Some(PushHelper)
    case Dup(_) => Some(DupHelper)
    case Swap(_) => Some(SwapHelper)
  }

  /** Why a call is refused when `bound` are the labels already placed. */
  function Rejection(fork: Fork, bound: set<Label>, call: Call): Option<AsmError> {
    match call
    case OpCall(m) => (
      match ByMnemonic(m)
      case None => Some(UnknownMnemonic(m))
      case Some(spec) =>
        match HelperFor(FormOf(spec.byte))
        case Some(helper) => Some(UseHelperInstead(spec.Mnemonic(), helper))
        case None =>
          if spec.minFork.AtMost(fork) then None
          else Some(OpcodeTooNew(spec.Mnemonic(), spec.minFork, fork)))
    case DupCall(n) => if 1 <= n <= 16 then None else Some(BadStackDepth(DupHelper, n))
    case SwapCall(n) => if 1 <= n <= 16 then None else Some(BadStackDepth(SwapHelper, n))
    case BindCall(l) => if l in bound then Some(LabelAlreadyBound(l)) else None
    case _ => None
  }

  /** The item pushing a constant with the narrowest `PUSH` the fork has. */
  function PushedItem(fork: Fork, imm: Immediate): Item {
    if Width(imm) > 0 then PushItem(Significant(imm))
    else if Shanghai.AtMost(fork) then OpItem(PUSH0)
    else PushItem([0])
  }

  /** What an accepted call emits. */
  function Emission(fork: Fork, call: Call): Item
    requires !call.LabelCall? && Rejection(fork, {}, call).None?
  {
    match call
    case OpCall(m) => OpItem(ByMnemonic(m).value.byte)
    case PushCall(imm) => PushedItem(fork, imm)
    case DupCall(n) => OpItem(0x7f + n)
    case SwapCall(n) => OpItem(0x8f + n)
    case BindCall(l) => BindItem(l)
    case PushLabelCall(l) => RefItem(l)
  }

  function Bound(items: seq<Item>): set<Label> {
    set i | 0 <= i < |items| && items[i].BindItem? :: items[i].dest
  }

  /** After a refusal only `LabelCall` still has an effect. */
  function Step(s: State, call: Call): State {
    if call.LabelCall? then s.(nextLabel := s.nextLabel + 1)
    else if s.error.Some? then s
    else match Rejection(s.fork, Bound(s.items), call) {
      case Some(e) => s.(error := Some(e))
      case None => s.(items := s.items + [Emission(s.fork, call)])
    }
  }

  lemma OpcodeFits(fork: Fork, b: Byte)
    requires ByByte(b).Some? && ByByte(b).value.minFork.AtMost(fork)
    requires match FormOf(b) { case Push(n) => n == 0 case _ => true }
    ensures OpItem(b).Fits(fork)
  {
  }

  lemma PushFits(fork: Fork, bytes: seq<Byte>)
    requires 1 <= |bytes| <= 32
    ensures PushItem(bytes).Fits(fork)
  {
  }

  lemma EmissionFits(fork: Fork, call: Call)
    requires !call.LabelCall? && Rejection(fork, {}, call).None?
    ensures Emission(fork, call).Fits(fork)
  {
    hide BigEndian;
    match call
    case OpCall(m) => OpcodeFits(fork, ByMnemonic(m).value.byte);
    case PushCall(imm) =>
      SignificantDenotes(imm);
      if Width(imm) > 0 {
        PushFits(fork, Significant(imm));
      } else if Shanghai.AtMost(fork) {
        OpcodeFits(fork, PUSH0);
      } else {
        PushFits(fork, [0]);
      }
    case DupCall(n) => OpcodeFits(fork, 0x7f + n);
    case SwapCall(n) => OpcodeFits(fork, 0x8f + n);
    case BindCall(_) => OpcodeFits(fork, JUMPDEST);
    case PushLabelCall(_) =>
  }

  lemma BoundIsLabels(items: seq<Item>)
    requires Encodable(items)
    ensures LabelsOf(items).Keys == Bound(items)
  {
    LabelsInside(items);
  }

  /** Resolving a finished buffer: the size check, then the first unbound reference, then the bytes. */
  function Finished(s: State): Result<seq<Byte>>
    requires Encodable(s.items)
  {
    var labels, fixups := LabelsOf(s.items), FixupsOf(s.items);
    if s.error.Some? then Err(s.error.value)
    else if |Encode(s.items)| > MAX_LABEL_OFFSET && fixups != [] then
      Err(CodeTooLargeToAddress(|Encode(s.items)|))
    else
      var k := FirstUnbound(fixups, labels);
      if k < |fixups| then Err(UnboundLabel(fixups[k].dest)) else Ok(Encode(Resolve(s.items, labels)))
  }

  function FirstUnbound(fixups: seq<Fixup>, labels: map<Label, nat>): (k: nat)
    ensures k <= |fixups|
    ensures k < |fixups| ==> fixups[k].dest !in labels
    ensures forall i :: 0 <= i < k ==> fixups[i].dest in labels
  {
    if fixups == [] || fixups[0].dest !in labels then 0 else 1 + FirstUnbound(fixups[1..], labels)
  }

  /** The resolution loop: patches every fixup, or stops at the first unbound label. */
  method PatchFixups(code: seq<Byte>, fixups: seq<Fixup>, labels: map<Label, nat>) returns (r: Result<seq<Byte>>)
    requires forall i :: 0 <= i < |fixups| ==> fixups[i].at + 2 <= |code|
    ensures r.Ok? <==> FirstUnbound(fixups, labels) == |fixups|
    ensures r.Ok? ==> Patchable(code, fixups, labels) && r.value == PatchAll(code, fixups, labels)
    ensures r.Err? ==> r.error == UnboundLabel(fixups[FirstUnbound(fixups, labels)].dest)
  {
    var patched, i := code, 0;
    while i < |fixups|
      invariant i <= |fixups|
      invariant forall j :: 0 <= j < i ==> fixups[j].dest in labels
      invariant Patchable(code, fixups[..i], labels) && patched == PatchAll(code, fixups[..i], labels)
    {
      var fixup := fixups[i];
      if fixup.dest !in labels {
        return Err(UnboundLabel(fixup.dest));
      }
      assert Init(fixups[..i + 1]) == fixups[..i] && Last(fixups[..i + 1]) == fixup;
      patched := patched[..fixup.at] + AddressBytes(labels[fixup.dest]) + patched[fixup.at + 2..];
      i := i + 1;
    }
    assert fixups[..i] == fixups;
    return Ok(patched);
  }

  // ----- the assembler object -----

  class Asm {
    const fork: Fork
    var code: seq<Byte>
    var labels: map<Label, nat>
    var fixups: seq<Fixup>
    var nextLabel: Label
    var error: Option<AsmError>
    ghost var items: seq<Item>

    /** The buffer lays out exactly the items emitted so far. */
    ghost predicate Valid()
      reads this
    {
      && AllFit(items, fork)
      && code == Encode(items)
      && labels == LabelsOf(items)
      && fixups == FixupsOf(items)
    }

    ghost function View(): State
      reads this
    {
      State(fork, items, nextLabel, error)
    }

    constructor (fork: Fork)
      ensures Valid() && View() == State(fork, [], 0, None)
    {
      this.fork := fork;
      code, labels, fixups, nextLabel, error := [], map[], [], 0, None;
      items := [];
    }

    method Op(m: Mnemonic)
      requires Valid()
      modifies this
      ensures Valid() && View() == Step(old(View()), OpCall(m))
    {
      if error.Some? {
        return;
      }
      var row := ByMnemonic(m);
      if row.None? {
        Fail(UnknownMnemonic(m));
        return;
      }
      var spec := row.value;
      var helper := HelperFor(FormOf(spec.byte));
      if helper.Some? {
        Fail(UseHelperInstead(spec.Mnemonic(), helper.value));
        return;
      }
      EmitByte(spec.byte, spec.minFork);
      if error.None? { EmissionFits(fork, OpCall(m)); }
      Record(OpCall(m));
    }

    method Push(imm: Immediate)
      requires Valid()
      modifies this
      ensures Valid() && View() == Step(old(View()), PushCall(imm))
    {
      if error.Some? {
        return;
      }
      SignificantDenotes(imm);
      var width := Width(imm);
      if width == 0 && !Shanghai.AtMost(fork) {
        PushBytes([0]);
      } else if width == 0 {
        EmitByte(PUSH0, Shanghai);
      } else {
        PushBytes(imm[32 - width..]);
      }
      EmissionFits(fork, PushCall(imm));
      Record(PushCall(imm));
    }

    method Dup(n: Byte)
      requires Valid()
      modifies this
      ensures Valid() && View() == Step(old(View()), DupCall(n))
    {
      if error.Some? {
        return;
      }
      if !(1 <= n <= 16) {
        Fail(BadStackDepth(DupHelper, n));
        return;
      }
      EmitFamilyByte(0x7f + n);
      EmissionFits(fork, DupCall(n));
      Record(DupCall(n));
    }

    method Swap(n: Byte)
      requires Valid()
      modifies this
      ensures Valid() && View() == Step(old(View()), SwapCall(n))
    {
      if error.Some? {
        return;
      }
      if !(1 <= n <= 16) {
        Fail(BadStackDepth(SwapHelper, n));
        return;
      }
      EmitFamilyByte(0x8f + n);
      EmissionFits(fork, SwapCall(n));
      Record(SwapCall(n));
    }

    /** Hands out the next unused label. */
    method NewLabel() returns (l: Label)
      requires Valid()
      modifies this
      ensures Valid() && View() == Step(old(View()), LabelCall)
      ensures l == old(nextLabel)
    {
      l := nextLabel;
      nextLabel := nextLabel + 1;
    }

    /** Gives a label the current offset, where a `JUMPDEST` then goes. */
    method Bind(l: Label)
      requires Valid()
      modifies this
      ensures Valid() && View() == Step(old(View()), BindCall(l))
    {
      hide Encode, LabelsOf, FixupsOf, ByByte;
      BoundIsLabels(items);
      if error.Some? {
        return;
      }
      if l in labels {
        Fail(LabelAlreadyBound(l));
        return;
      }
      labels := labels[l := |code|];
      EmitByte(JUMPDEST, Frontier);
      EmissionFits(fork, BindCall(l));
      Record(BindCall(l));
    }

    /** Pushes a label's address, always as a `PUSH2`. */
    method PushLabel(l: Label)
      requires Valid()
      modifies this
      ensures Valid() && View() == Step(old(View()), PushLabelCall(l))
    {
      if error.Some? {
        return;
      }
      code := code + [PUSH2];
      fixups := fixups + [Fixup(l, |code|)];
      code := code + [0, 0];
      EmissionFits(fork, PushLabelCall(l));
      Record(PushLabelCall(l));
    }

    /** Resolves the label references and returns the bytecode. */
    method Finish() returns (r: Result<seq<Byte>>)
      requires Valid()
      ensures r == Finished(View())
    {
      if error.Some? {
        return Err(error.value);
      }
      if |code| > MAX_LABEL_OFFSET && fixups != [] {
        return Err(CodeTooLargeToAddress(|code|));
      }
      FixupsInside(items);
      r := PatchFixups(code, fixups, labels);
      if r.Ok? {
        LabelsInside(items);
        PatchingResolves(items, labels);
      }
    }

    // ----- internals -----

    /** One opcode byte, refused when the fork is older than the opcode. */
    method EmitByte(byte: Byte, minFork: Fork)
      requires error.None?
      modifies this`code, this`error
      ensures minFork.AtMost(fork) ==> code == old(code) + [byte] && error == None
      ensures !minFork.AtMost(fork) ==>
                code == old(code) && error == Some(OpcodeTooNew(Listed(byte), minFork, fork))
    {
      if !minFork.AtMost(fork) {
        Fail(OpcodeTooNew(Listed(byte), minFork, fork));
        return;
      }
      code := code + [byte];
    }

    method EmitFamilyByte(byte: Byte)
      requires error.None? && 0x80 <= byte <= 0x9f
      modifies this`code, this`error
      ensures code == old(code) + [byte] && error == None
    {
      var spec := ByByte(byte).value;
      EmitByte(spec.byte, spec.minFork);
    }

    method PushBytes(bytes: seq<Byte>)
      requires error.None? && 1 <= |bytes| <= 32
      modifies this`code, this`error
      ensures code == old(code) + ItemBytes(PushItem(bytes)) && error == None
    {
      var spec := ByByte(0x5f + |bytes|).value;
      EmitByte(spec.byte, spec.minFork);
      if error.None? {
        code := code + bytes;
      }
    }

    /** Keeps the first failure. */
    method Fail(e: AsmError)
      modifies this`error
      ensures error == if old(error).Some? then old(error) else Some(e)
    {
      if error.None? {
        error := Some(e);
      }
    }

    /** Accounts for the item an accepted call has just put in the buffer. */
    ghost method Record(call: Call)
      requires !call.LabelCall? && AllFit(items, fork)
      requires error.Some? ==> code == Encode(items) && labels == LabelsOf(items) && fixups == FixupsOf(items)
      requires error.None? ==>
                 && Rejection(fork, {}, call).None?
                 && Emission(fork, call).Fits(fork)
                 && var item := Emission(fork, call);
                 && code == Encode(items) + ItemBytes(item)
                 && labels == (if item.BindItem? then LabelsOf(items)[item.dest := |Encode(items)|] else LabelsOf(items))
                 && fixups == (if item.RefItem? then FixupsOf(items) + [Fixup(item.dest, |Encode(items)| + 1)]
                               else FixupsOf(items))
      modifies this`items
      ensures Valid()
      ensures items == if error.None? then old(items) + [Emission(fork, call)] else old(items)
    {
      hide Rejection, Emission, ItemBytes, Encode, LabelsOf, FixupsOf;
      if error.None? {
        Extend(items, Emission(fork, call));
        items := items + [Emission(fork, call)];
      }
    }
  }
}
