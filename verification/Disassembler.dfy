/**
 Bytecode in, instructions out.

 Decoding starts at offset zero and walks forwards; the bytes after a `PUSH` are its immediate
 whatever its bytes look like.
 */
module Disassembler {
  import opened Isa

  /** One decoded instruction; `truncated` when the code ended inside its immediate. */
  datatype Instruction = Instruction(
    pc: nat, opcode: Byte, spec: Option<OpSpec>, immediate: seq<Byte>, truncated: bool)
  {
    /** Bytes occupied. */
    function Size(): nat { 1 + |immediate| }

    /** Immediate width the opcode calls for. */
    function ImmediateWidth(): nat { WidthOf(spec) }

    function Missing(): int { ImmediateWidth() - |immediate| }

    function Bytes(): seq<Byte> { [opcode] + immediate }

    predicate IsJumpdest() { spec.Some? && spec.value.Mnemonic() == Listed(JUMPDEST) }
  }

  function WidthOf(spec: Option<OpSpec>): nat {
    match spec
    case None => 0
    case Some(s) => match FormOf(s.byte) {
      case Push(n) => n
      case _ => 0
    }
  }

  function Min(a: nat, b: nat): nat { if a < b then a else b }

  /** The instruction whose opcode byte sits at `pc`. */
  function DecodeAt(code: seq<Byte>, pc: nat): Instruction
    requires pc < |code|
  {
    var spec := ByByte(code[pc]);
    var wanted := WidthOf(spec);
    var taken := Min(wanted, |code| - (pc + 1));
    Instruction(pc, code[pc], spec, code[pc + 1..pc + 1 + taken], taken < wanted)
  }

  /** Every instruction from `pc` on. */
  function Disassemble(code: seq<Byte>, pc: nat): seq<Instruction>
    decreases |code| - pc
  {
    if pc >= |code| then []
    else
      var ins := DecodeAt(code, pc);
      [ins] + Disassemble(code, pc + ins.Size())
  }

  /** The decoding iterator: `pc` advances past each instruction handed out. */
  class Instructions {
    const code: seq<Byte>
    var pc: nat

    constructor (code: seq<Byte>)
      ensures this.code == code && pc == 0
      ensures Remaining() == Disassemble(code, 0)
    {
      this.code := code;
      pc := 0;
    }

    /** What the iterator has still to produce. */
    ghost function Remaining(): seq<Instruction>
      reads this
    {
      Disassemble(code, pc)
    }

    method Next() returns (r: Option<Instruction>)
      modifies this`pc
      ensures r.None? <==> old(Remaining()) == []
      ensures r.None? ==> pc == old(pc)
      ensures r.Some? ==> old(Remaining()) == [r.value] + Remaining()
      ensures r.Some? ==> r.value.pc == old(pc) && pc == old(pc) + r.value.Size()
    {
      if pc >= |code| {
        return None;
      }
      var opcode, at := code[pc], pc;
      var spec := ByByte(opcode);
      var wanted := WidthOf(spec);
      var from := at + 1;
      var taken := Min(wanted, |code| - from);
      pc := from + taken;
      r := Some(Instruction(at, opcode, spec, code[from..from + taken], taken < wanted));
    }
  }

  /** Offsets that are legal jump targets, in order. */
  function Jumpdests(code: seq<Byte>): seq<nat> {
    JumpdestPcs(Disassemble(code, 0))
  }

  function JumpdestPcs(list: seq<Instruction>): seq<nat> {
    if list == [] then []
    else (if list[0].IsJumpdest() then [list[0].pc] else []) + JumpdestPcs(list[1..])
  }

  // ----- decoding tiles the code, in exactly one way -----

  function Flatten(list: seq<Instruction>): seq<Byte> {
    if list == [] then [] else list[0].Bytes() + Flatten(list[1..])
  }

  /** An instruction that reads its opcode's row and takes no more than its width. */
  predicate Faithful(ins: Instruction) {
    && ins.spec == ByByte(ins.opcode)
    && |ins.immediate| <= ins.ImmediateWidth()
    && ins.truncated == (|ins.immediate| < ins.ImmediateWidth())
  }

  /** A list of instructions laid end to end over `code` from `pc`. */
  ghost predicate IsDecoding(code: seq<Byte>, pc: nat, list: seq<Instruction>) {
    && pc <= |code|
    && Flatten(list) == code[pc..]
    && (list != [] ==> list[0].pc == pc)
    && (forall k :: 0 <= k < |list| ==> Faithful(list[k]))
    && (forall k :: 0 <= k < |list| - 1 ==> list[k + 1].pc == list[k].pc + list[k].Size())
    && (forall k :: 0 <= k < |list| - 1 ==> !list[k].truncated)
  }

  /** One decoding step takes the opcode and what is there of its immediate. */
  lemma DecodedTiles(code: seq<Byte>, pc: nat)
    requires pc < |code|
    ensures var ins := DecodeAt(code, pc);
            && Faithful(ins) && ins.pc == pc && pc + ins.Size() <= |code|
            && code[pc..] == ins.Bytes() + code[pc + ins.Size()..]
            && (ins.truncated ==> pc + ins.Size() == |code|)
  {
    hide ByByte;
  }

  /** An instruction in front of a decoding of what follows it. */
  lemma PrependDecoding(code: seq<Byte>, pc: nat, ins: Instruction, rest: seq<Instruction>)
    requires pc < |code| && Faithful(ins) && ins.pc == pc && pc + ins.Size() <= |code|
    requires code[pc..] == ins.Bytes() + code[pc + ins.Size()..]
    requires ins.truncated ==> rest == []
    requires IsDecoding(code, pc + ins.Size(), rest)
    ensures IsDecoding(code, pc, [ins] + rest)
  {
    hide Faithful, Instruction.Bytes;
    var list := [ins] + rest;
    assert list[1..] == rest;
    forall k | 0 <= k < |list|
      ensures Faithful(list[k])
    {
      if k > 0 { assert list[k] == rest[k - 1]; }
    }
    forall k | 0 <= k < |list| - 1
      ensures list[k + 1].pc == list[k].pc + list[k].Size() && !list[k].truncated
    {
      assert list[k + 1] == rest[k];
      if k > 0 { assert list[k] == rest[k - 1]; }
    }
  }

  /** Decoding tiles arbitrary bytes exactly; only the last instruction can be truncated. */
  lemma {:induction false} DisassembleTiles(code: seq<Byte>, pc: nat)
    requires pc <= |code|
    ensures IsDecoding(code, pc, Disassemble(code, pc))
    decreases |code| - pc
  {
    if pc == |code| {
    } else {
      hide IsDecoding, DecodeAt;
      var ins := DecodeAt(code, pc);
      DecodedTiles(code, pc);
      DisassembleTiles(code, pc + ins.Size());
      PrependDecoding(code, pc, ins, Disassemble(code, pc + ins.Size()));
    }
  }

  /** Two faithful instructions that start the same bytes are the same instruction. */
  lemma HeadsAgree(a: Instruction, b: Instruction, restA: seq<Byte>, restB: seq<Byte>)
    requires a.Bytes() + restA == b.Bytes() + restB && a.pc == b.pc
    requires Faithful(a) && Faithful(b)
    requires (a.truncated ==> restA == []) && (b.truncated ==> restB == [])
    ensures a == b && restA == restB
  {
    var all := a.Bytes() + restA;
    assert a.opcode == all[0] == b.opcode;
    assert |all| == 1 + |a.immediate| + |restA| == 1 + |b.immediate| + |restB|;
    assert a.immediate == all[1..1 + |a.immediate|];
    assert b.immediate == all[1..1 + |b.immediate|];
    assert restA == all[1 + |a.immediate|..] && restB == all[1 + |b.immediate|..];
  }

  lemma TailTiles(code: seq<Byte>, pc: nat, list: seq<Instruction>)
    requires IsDecoding(code, pc, list) && list != []
    ensures pc + list[0].Size() <= |code|
    ensures code[pc..] == list[0].Bytes() + Flatten(list[1..])
    ensures list[0].truncated ==> list[1..] == []
    ensures IsDecoding(code, pc + list[0].Size(), list[1..])
  {
    var ins, rest := list[0], list[1..];
    assert |code[pc..]| == ins.Size() + |Flatten(rest)|;
    assert code[pc + ins.Size()..] == code[pc..][ins.Size()..] == Flatten(rest);
    forall k | 0 <= k < |rest| - 1
      ensures rest[k + 1].pc == rest[k].pc + rest[k].Size() && !rest[k].truncated
    {
      assert rest[k] == list[k + 1] && rest[k + 1] == list[k + 2];
    }
    if rest != [] {
      assert rest[0] == list[0 + 1];
    }
  }

  /** Any two tilings of the same bytes are equal. */
  lemma {:induction false} DecodingsAgree(code: seq<Byte>, pc: nat, a: seq<Instruction>, b: seq<Instruction>)
    requires IsDecoding(code, pc, a) && IsDecoding(code, pc, b)
    ensures a == b
    decreases |a|
  {
    if a == [] || b == [] {
      assert |code[pc..]| == 0;
      assert a != [] ==> |Flatten(a)| >= 1;
      assert b != [] ==> |Flatten(b)| >= 1;
    } else {
      TailTiles(code, pc, a);
      TailTiles(code, pc, b);
      HeadsAgree(a[0], b[0], Flatten(a[1..]), Flatten(b[1..]));
      DecodingsAgree(code, pc + a[0].Size(), a[1..], b[1..]);
      assert a == [a[0]] + a[1..] && b == [b[0]] + b[1..];
    }
  }

  /** The decoding is the only such tiling. */
  lemma DecodingIsUnique(code: seq<Byte>, pc: nat, list: seq<Instruction>)
    requires IsDecoding(code, pc, list)
    ensures list == Disassemble(code, pc)
  {
    DisassembleTiles(code, pc);
    DecodingsAgree(code, pc, list, Disassemble(code, pc));
  }

  // ----- valid jump destinations -----

  /** Next instruction position, `N(i, w)` of section 9.4.3 of the Ethereum Yellow Paper. */
  function NextPosition(i: nat, w: Byte): nat {
    if 0x60 <= w <= 0x7f then i + w - 0x60 + 2 else i + 1
  }

  /** Valid jump destinations from position `i`, `D_J(c, i)` of the same section. */
  function ValidDestinations(code: seq<Byte>, i: nat): set<nat>
    decreases |code| - i
  {
    if i >= |code| then {}
    else
      (if code[i] == JUMPDEST then {i} else {}) + ValidDestinations(code, NextPosition(i, code[i]))
  }

  lemma WidthMatchesYellowPaper(code: seq<Byte>, pc: nat)
    requires pc < |code|
    ensures Min(NextPosition(pc, code[pc]), |code|) == pc + DecodeAt(code, pc).Size()
    ensures DecodeAt(code, pc).IsJumpdest() <==> code[pc] == JUMPDEST
  {
  }

  lemma {:induction false} JumpdestPcsAreValid(code: seq<Byte>, pc: nat)
    ensures (set p | p in JumpdestPcs(Disassemble(code, pc))) == ValidDestinations(code, pc)
    decreases |code| - pc
  {
    if pc >= |code| {
    } else {
      var ins := DecodeAt(code, pc);
      var next := pc + ins.Size();
      WidthMatchesYellowPaper(code, pc);
      JumpdestPcsAreValid(code, next);
      assert Disassemble(code, pc)[1..] == Disassemble(code, next);
      assert ValidDestinations(code, next) == ValidDestinations(code, NextPosition(pc, code[pc]));
    }
  }

  /** `jumpdests` is the set `D(c)`. */
  lemma JumpdestsAreTheValidDestinations(code: seq<Byte>)
    ensures (set p | p in Jumpdests(code)) == ValidDestinations(code, 0)
  {
    JumpdestPcsAreValid(code, 0);
  }

  /** A position is listed exactly when a decoded `JUMPDEST` sits there. */
  lemma {:induction false} JumpdestMembership(list: seq<Instruction>, p: nat)
    ensures p in JumpdestPcs(list) <==> exists k :: 0 <= k < |list| && list[k].IsJumpdest() && list[k].pc == p
  {
    if list == [] {
    } else {
      JumpdestMembership(list[1..], p);
      if p in JumpdestPcs(list[1..]) {
        var k :| 0 <= k < |list[1..]| && list[1..][k].IsJumpdest() && list[1..][k].pc == p;
        assert list[k + 1].IsJumpdest() && list[k + 1].pc == p;
      }
      if exists k :: 0 < k < |list| && list[k].IsJumpdest() && list[k].pc == p {
        var k :| 0 < k < |list| && list[k].IsJumpdest() && list[k].pc == p;
        assert list[1..][k - 1].IsJumpdest() && list[1..][k - 1].pc == p;
      }
    }
  }
}
