/** What an assembler buffer means: a list of emitted items and the bytes, labels and fixups it lays out. */
module Layout {
  import opened Sequences
  import opened Isa
  import opened Immediates
  import opened Disassembler

  type Label = nat

  /** One emitted instruction. A reference is a `PUSH2` whose immediate is patched later. */
  datatype Item = OpItem(byte: Byte) | PushItem(bytes: seq<Byte>) | RefItem(dest: Label) | BindItem(dest: Label) {
    function Opcode(): Byte
      requires PushItem? ==> 1 <= |bytes| <= 32
    {
      match this
      case OpItem(b) => b
      case PushItem(bytes) => 0x5f + |bytes|
      case RefItem(_) => PUSH2
      case BindItem(_) => JUMPDEST
    }

    function Immediate(): seq<Byte> {
      match this
      case PushItem(bytes) => bytes
      case RefItem(_) => [0, 0]
      case _ => []
    }

    /** Legal on the fork, with an immediate exactly as wide as the opcode calls for. */
    predicate Fits(fork: Fork) {
      && (PushItem? ==> 1 <= |bytes| <= 32)
      && ByByte(Opcode()).Some?
      && ByByte(Opcode()).value.minFork.AtMost(fork)
      && WidthOf(ByByte(Opcode())) == |Immediate()|
    }
  }

  /** A reference to patch: the label meant, and where its two bytes start. */
  datatype Fixup = Fixup(dest: Label, at: nat)

  predicate AllFit(items: seq<Item>, fork: Fork) {
    forall i :: 0 <= i < |items| ==> items[i].Fits(fork)
  }

  function ItemBytes(item: Item): seq<Byte>
    requires item.PushItem? ==> 1 <= |item.bytes| <= 32
  {
    [item.Opcode()] + item.Immediate()
  }

  ghost predicate Encodable(items: seq<Item>) {
    forall i :: 0 <= i < |items| && items[i].PushItem? ==> 1 <= |items[i].bytes| <= 32
  }

  function Encode(items: seq<Item>): seq<Byte>
    requires Encodable(items)
  {
    if items == [] then [] else Encode(Init(items)) + ItemBytes(Last(items))
  }

  /** Where each bound label sits. */
  function LabelsOf(items: seq<Item>): map<Label, nat>
    requires Encodable(items)
  {
    if items == [] then map[]
    else
      var rest := LabelsOf(Init(items));
      if Last(items).BindItem? then rest[Last(items).dest := |Encode(Init(items))|] else rest
  }

  function FixupsOf(items: seq<Item>): seq<Fixup>
    requires Encodable(items)
  {
    if items == [] then []
    else
      var rest := FixupsOf(Init(items));
      if Last(items).RefItem? then rest + [Fixup(Last(items).dest, |Encode(Init(items))| + 1)] else rest
  }

  /** What appending one item does to the bytes, labels and fixups. */
  lemma Extend(items: seq<Item>, item: Item)
    requires Encodable(items) && (item.PushItem? ==> 1 <= |item.bytes| <= 32)
    ensures Encodable(items + [item])
    ensures Encode(items + [item]) == Encode(items) + ItemBytes(item)
    ensures LabelsOf(items + [item])
         == if item.BindItem? then LabelsOf(items)[item.dest := |Encode(items)|] else LabelsOf(items)
    ensures FixupsOf(items + [item])
         == if item.RefItem? then FixupsOf(items) + [Fixup(item.dest, |Encode(items)| + 1)] else FixupsOf(items)
  {
    assert Init(items + [item]) == items && Last(items + [item]) == item;
  }

  // ----- resolution -----

  /** Two big-endian bytes of an offset truncated to 16 bits. */
  function AddressBytes(target: nat): seq<Byte> {
    Bytes(target % 0x1_0000, 2)
  }

  function ResolveItem(item: Item, labels: map<Label, nat>): Item {
    if item.RefItem? && item.dest in labels then PushItem(AddressBytes(labels[item.dest])) else item
  }

  /** The items with every reference replaced by a push of the label's offset. */
  function Resolve(items: seq<Item>, labels: map<Label, nat>): (r: seq<Item>)
    requires Encodable(items)
    ensures |r| == |items| && Encodable(r)
    ensures forall i :: 0 <= i < |items| ==> r[i] == ResolveItem(items[i], labels)
  {
    if items == [] then [] else Resolve(Init(items), labels) + [ResolveItem(Last(items), labels)]
  }

  /** Patching one reference into the finished bytes. */
  function PatchOne(code: seq<Byte>, fixup: Fixup, target: nat): (r: seq<Byte>)
    requires fixup.at + 2 <= |code|
    ensures |r| == |code|
  {
    code[..fixup.at] + AddressBytes(target) + code[fixup.at + 2..]
  }

  predicate Patchable(code: seq<Byte>, fixups: seq<Fixup>, labels: map<Label, nat>) {
    forall i :: 0 <= i < |fixups| ==> fixups[i].at + 2 <= |code| && fixups[i].dest in labels
  }

  function PatchAll(code: seq<Byte>, fixups: seq<Fixup>, labels: map<Label, nat>): (r: seq<Byte>)
    requires Patchable(code, fixups, labels)
    ensures |r| == |code|
  {
    if fixups == [] then code
    else PatchOne(PatchAll(code, Init(fixups), labels), Last(fixups), labels[Last(fixups).dest])
  }

  lemma {:induction false} FixupsInside(items: seq<Item>)
    requires Encodable(items)
    ensures forall i :: 0 <= i < |FixupsOf(items)| ==> FixupsOf(items)[i].at + 2 <= |Encode(items)|
    ensures forall i :: 0 <= i < |FixupsOf(items)| ==> RefItem(FixupsOf(items)[i].dest) in items
    ensures forall l :: RefItem(l) in items ==> exists i :: 0 <= i < |FixupsOf(items)| && FixupsOf(items)[i].dest == l
  {
    if items == [] {
    } else {
      var init, last := Init(items), Last(items);
      assert items == init + [last];
      FixupsInside(init);
      if last.RefItem? {
        assert FixupsOf(items)[|FixupsOf(init)|].dest == last.dest;
      }
      forall l | RefItem(l) in items
        ensures exists i :: 0 <= i < |FixupsOf(items)| && FixupsOf(items)[i].dest == l
      {
        if RefItem(l) in init {
          var i :| 0 <= i < |FixupsOf(init)| && FixupsOf(init)[i].dest == l;
          assert FixupsOf(items)[i].dest == l;
        }
      }
    }
  }

  lemma {:induction false} LabelsInside(items: seq<Item>)
    requires Encodable(items)
    ensures forall l :: l in LabelsOf(items) <==> BindItem(l) in items
    ensures forall l :: l in LabelsOf(items) ==> LabelsOf(items)[l] < |Encode(items)|
  {
    if items == [] {
    } else {
      LabelsInside(Init(items));
      assert items == Init(items) + [Last(items)];
    }
  }

  lemma PatchOnePrefix(code: seq<Byte>, tail: seq<Byte>, fixup: Fixup, target: nat)
    requires fixup.at + 2 <= |code|
    ensures PatchOne(code + tail, fixup, target) == PatchOne(code, fixup, target) + tail
  {
    assert (code + tail)[..fixup.at] == code[..fixup.at];
    assert (code + tail)[fixup.at + 2..] == code[fixup.at + 2..] + tail;
  }

  /** Patches before a suffix leave the suffix alone. */
  lemma {:induction false} PatchPrefix(code: seq<Byte>, tail: seq<Byte>, fixups: seq<Fixup>, labels: map<Label, nat>)
    requires Patchable(code, fixups, labels)
    ensures Patchable(code + tail, fixups, labels)
    ensures PatchAll(code + tail, fixups, labels) == PatchAll(code, fixups, labels) + tail
  {
    if fixups == [] {
      assert PatchAll(code, fixups, labels) == code;
    } else {
      var init, last := Init(fixups), Last(fixups);
      PatchPrefix(code, tail, init, labels);
      PatchOnePrefix(PatchAll(code, init, labels), tail, last, labels[last.dest]);
    }
  }

  /** Patching the laid-out bytes is laying out the resolved items. */
  lemma {:induction false} PatchingResolves(items: seq<Item>, labels: map<Label, nat>)
    requires Encodable(items)
    requires forall l :: RefItem(l) in items ==> l in labels
    ensures Patchable(Encode(items), FixupsOf(items), labels)
    ensures PatchAll(Encode(items), FixupsOf(items), labels) == Encode(Resolve(items, labels))
  {
    if items == [] {
    } else {
      assert items == Init(items) + [Last(items)];
      PatchingResolves(Init(items), labels);
      PatchStep(Init(items), Last(items), labels);
    }
  }

  lemma PatchStep(items: seq<Item>, item: Item, labels: map<Label, nat>)
    requires Encodable(items) && (item.PushItem? ==> 1 <= |item.bytes| <= 32)
    requires Patchable(Encode(items), FixupsOf(items), labels)
    requires PatchAll(Encode(items), FixupsOf(items), labels) == Encode(Resolve(items, labels))
    requires item.RefItem? ==> item.dest in labels
    ensures Encodable(items + [item])
    ensures Patchable(Encode(items + [item]), FixupsOf(items + [item]), labels)
    ensures PatchAll(Encode(items + [item]), FixupsOf(items + [item]), labels)
         == Encode(Resolve(items + [item], labels))
  {
    var fixups, code := FixupsOf(items), Encode(items);
    Extend(items, item);
    ResolveStep(items, item, labels);
    if item.RefItem? {
      ReferenceBytes(item, labels);
      PatchLast(code, item.dest, fixups, labels);
      assert Encode(items + [item]) == code + [PUSH2, 0, 0];
    } else {
      PatchPrefix(code, ItemBytes(item), fixups, labels);
      assert Encode(items + [item]) == code + ItemBytes(item);
    }
  }

  lemma ReferenceBytes(item: Item, labels: map<Label, nat>)
    requires item.RefItem? && item.dest in labels
    ensures ItemBytes(item) == [PUSH2, 0, 0]
    ensures ItemBytes(ResolveItem(item, labels)) == [PUSH2] + AddressBytes(labels[item.dest])
  {
  }

  lemma ResolveStep(items: seq<Item>, item: Item, labels: map<Label, nat>)
    requires Encodable(items) && (item.PushItem? ==> 1 <= |item.bytes| <= 32)
    ensures Encodable(items + [item])
    ensures Resolve(items + [item], labels) == Resolve(items, labels) + [ResolveItem(item, labels)]
    ensures Encode(Resolve(items + [item], labels))
         == Encode(Resolve(items, labels)) + ItemBytes(ResolveItem(item, labels))
  {
    assert Init(items + [item]) == items && Last(items + [item]) == item;
    Extend(Resolve(items, labels), ResolveItem(item, labels));
  }

  lemma PatchLast(code: seq<Byte>, l: Label, fixups: seq<Fixup>, labels: map<Label, nat>)
    requires l in labels && Patchable(code, fixups, labels)
    ensures Patchable(code + [PUSH2, 0, 0], fixups + [Fixup(l, |code| + 1)], labels)
    ensures PatchAll(code + [PUSH2, 0, 0], fixups + [Fixup(l, |code| + 1)], labels)
         == PatchAll(code, fixups, labels) + ([PUSH2] + AddressBytes(labels[l]))
  {
    hide AddressBytes;
    var all := fixups + [Fixup(l, |code| + 1)];
    PatchPrefix(code, [PUSH2, 0, 0], fixups, labels);
    assert Init(all) == fixups && Last(all) == Fixup(l, |code| + 1);
    PatchTail(PatchAll(code, fixups, labels), l, labels[l]);
  }

  lemma PatchTail(code: seq<Byte>, l: Label, target: nat)
    ensures PatchOne(code + [PUSH2, 0, 0], Fixup(l, |code| + 1), target) == code + ([PUSH2] + AddressBytes(target))
  {
    hide AddressBytes;
    var p := code + [PUSH2, 0, 0];
    assert p[..|code| + 1] == code + [PUSH2];
    assert p[|code| + 3..] == [];
  }

  lemma {:induction false} ResolveKeepsOffsets(items: seq<Item>, labels: map<Label, nat>)
    requires Encodable(items)
    ensures |Encode(Resolve(items, labels))| == |Encode(items)|
  {
    if items == [] {
    } else {
      assert items == Init(items) + [Last(items)];
      ResolveKeepsOffsets(Init(items), labels);
      ResolveStep(Init(items), Last(items), labels);
    }
  }

  // ----- decoding the layout -----

  /** The instruction an item decodes to at an offset. */
  function InstructionAt(item: Item, pc: nat): Instruction
    requires item.PushItem? ==> 1 <= |item.bytes| <= 32
  {
    Instruction(pc, item.Opcode(), ByByte(item.Opcode()), item.Immediate(), false)
  }

  function InstructionsOf(items: seq<Item>): seq<Instruction>
    requires Encodable(items)
  {
    if items == [] then []
    else InstructionsOf(Init(items)) + [InstructionAt(Last(items), |Encode(Init(items))|)]
  }

  lemma {:induction false} FlattenAppend(list: seq<Instruction>, ins: Instruction)
    ensures Flatten(list + [ins]) == Flatten(list) + ins.Bytes()
  {
    if list == [] {
      assert list + [ins] == [ins];
      assert Flatten([ins]) == ins.Bytes() + Flatten([ins][1..]);
    } else {
      FlattenAppend(list[1..], ins);
      assert (list + [ins])[1..] == list[1..] + [ins];
    }
  }

  lemma {:induction false} InstructionPcs(items: seq<Item>, k: nat)
    requires Encodable(items) && k < |items|
    ensures |InstructionsOf(items)| == |items|
    ensures InstructionsOf(items)[k] == InstructionAt(items[k], |Encode(items[..k])|)
  {
    var init := Init(items);
    if k < |init| {
      InstructionPcs(init, k);
      assert init[..k] == items[..k];
    } else if init != [] {
      InstructionPcs(init, 0);
    }
  }

  /** Laying items out and decoding the bytes gives exactly the items' instructions. */
  lemma EncodeDecodes(items: seq<Item>, fork: Fork)
    requires AllFit(items, fork)
    ensures Disassemble(Encode(items), 0) == InstructionsOf(items)
  {
    LayoutIsDecoding(items, fork);
    assert Encode(items)[0..] == Encode(items);
    DecodingIsUnique(Encode(items), 0, InstructionsOf(items));
  }

  /** A faithful instruction placed at the end extends an untruncated decoding. */
  lemma AppendDecoding(code: seq<Byte>, list: seq<Instruction>, ins: Instruction)
    requires IsDecoding(code, 0, list)
    requires list != [] ==> !Last(list).truncated && Last(list).pc + Last(list).Size() == |code|
    requires Faithful(ins) && ins.pc == |code|
    ensures IsDecoding(code + ins.Bytes(), 0, list + [ins])
  {
    hide Faithful, Instruction.Bytes;
    FlattenAppend(list, ins);
    assert (code + ins.Bytes())[0..] == code[0..] + ins.Bytes();
  }

  lemma {:induction false} LayoutIsDecoding(items: seq<Item>, fork: Fork)
    requires AllFit(items, fork)
    ensures IsDecoding(Encode(items), 0, InstructionsOf(items))
    ensures items != [] ==>
              var last := Last(InstructionsOf(items));
              !last.truncated && last.pc + last.Size() == |Encode(items)|
  {
    if items == [] {
    } else {
      var init, last := Init(items), Last(items);
      var ins := InstructionAt(last, |Encode(init)|);
      LayoutIsDecoding(init, fork);
      assert init == [] <==> InstructionsOf(init) == [];
      assert last.Fits(fork);
      AppendDecoding(Encode(init), InstructionsOf(init), ins);
    }
  }
}
