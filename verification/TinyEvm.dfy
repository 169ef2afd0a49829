/** Enough of the EVM to run a deployment prologue: pushes, `DUP`, `CODECOPY` and `RETURN`. */
module TinyEvm {
  import opened Isa
  import opened Immediates
  import opened Disassembler

  /** The stack grows at its end; memory beyond what was written reads as zero. */
  datatype State = State(pc: nat, stack: seq<nat>, memory: seq<Byte>)

  datatype Outcome = Running(s: State) | Returned(data: seq<Byte>) | Halted

  /** Bytes `at..at+n`, zero beyond the end. */
  function Read(bytes: seq<Byte>, at: nat, n: nat): seq<Byte> {
    seq(n, i requires 0 <= i < n => if at + i < |bytes| then bytes[at + i] else 0)
  }

  /** Memory with `data` stored at `at`. */
  function Write(memory: seq<Byte>, at: nat, data: seq<Byte>): seq<Byte> {
    Read(memory, 0, at) + data + (if at + |data| < |memory| then memory[at + |data|..] else [])
  }

  /** Executes one decoded instruction; anything outside the modelled set halts. */
  function Exec(code: seq<Byte>, ins: Instruction, s: State): Outcome {
    var n, next := |s.stack|, s.pc + ins.Size();
    match FormOf(ins.opcode)
    case Push(_) =>
      var missing := seq(if ins.Missing() > 0 then ins.Missing() else 0, i => 0);
      Running(State(next, s.stack + [BigEndian(ins.immediate + missing)], s.memory))
    case Dup(d) =>
      if 1 <= d <= n then Running(State(next, s.stack + [s.stack[n - d]], s.memory)) else Halted
    case _ =>
      if ins.opcode == CODECOPY && n >= 3 then
        var dest, from, len := s.stack[n - 1], s.stack[n - 2], s.stack[n - 3];
        Running(State(next, s.stack[..n - 3], Write(s.memory, dest, Read(code, from, len))))
      else if ins.opcode == RETURN && n >= 2 then
        Returned(Read(s.memory, s.stack[n - 1], s.stack[n - 2]))
      else Halted
  }

  /** Runs code until it returns or halts. */
  function Execute(code: seq<Byte>, s: State): Outcome
    decreases |code| - s.pc
  {
    if s.pc >= |code| then Halted
    else match Exec(code, DecodeAt(code, s.pc), s) {
      case Running(next) => if next.pc > s.pc then Execute(code, next) else Halted
      case stopped => stopped
    }
  }

  /** Runs a list of instructions one after another. */
  function ExecList(code: seq<Byte>, list: seq<Instruction>, s: State): Outcome {
    if list == [] then Running(s)
    else match Exec(code, list[0], s) {
      case Running(next) => ExecList(code, list[1..], next)
      case stopped => stopped
    }
  }

  lemma ExecStep(code: seq<Byte>, list: seq<Instruction>, k: nat, s: State, next: State)
    requires k < |list| && Exec(code, list[k], s) == Running(next)
    ensures ExecList(code, list[k..], s) == ExecList(code, list[k + 1..], next)
  {
    assert list[k..][1..] == list[k + 1..];
  }

  lemma ExecStop(code: seq<Byte>, list: seq<Instruction>, k: nat, s: State)
    requires k < |list| && !Exec(code, list[k], s).Running?
    ensures ExecList(code, list[k..], s) == Exec(code, list[k], s)
  {
    assert list[k..][0] == list[k];
  }

  lemma DecodeInPrefix(a: seq<Byte>, b: seq<Byte>, pc: nat)
    requires pc < |a| && !DecodeAt(a, pc).truncated
    ensures DecodeAt(a + b, pc) == DecodeAt(a, pc)
  {
    var n := DecodeAt(a, pc).Size();
    assert (a + b)[pc] == a[pc];
    assert (a + b)[pc + 1..pc + n] == a[pc + 1..pc + n];
  }

  /** Code that starts with a returning prologue returns what the prologue's instructions return. */
  lemma {:induction false} ExecutePrefix(a: seq<Byte>, b: seq<Byte>, s: State)
    requires forall k :: 0 <= k < |Disassemble(a, s.pc)| ==> !Disassemble(a, s.pc)[k].truncated
    requires ExecList(a + b, Disassemble(a, s.pc), s).Returned?
    ensures Execute(a + b, s) == ExecList(a + b, Disassemble(a, s.pc), s)
    decreases |a| - s.pc
  {
    var list := Disassemble(a, s.pc);
    if s.pc >= |a| {
    } else {
      var ins := DecodeAt(a, s.pc);
      assert list[0] == ins && list[1..] == Disassemble(a, s.pc + ins.Size());
      DecodeInPrefix(a, b, s.pc);
      match Exec(a + b, ins, s)
      case Running(next) =>
        assert next.pc == s.pc + ins.Size();
        forall k | 0 <= k < |list[1..]|
          ensures !list[1..][k].truncated
        {
          assert list[1..][k] == list[k + 1];
        }
        ExecutePrefix(a, b, next);
      case _ =>
    }
  }
}
