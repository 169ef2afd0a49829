/** Operations, instructions and terminators of the IR. */
module Instructions {
  import opened Isa
  import opened Immediates
  import opened Types
  import opened Effects

  type Value = nat
  type Inst = nat
  type Block = nat
  type FuncRef = nat

  /** The six relations; the operands' type says which order is meant. */
  datatype Cmp = Eq | Ne | Lt | Le | Gt | Ge

  datatype Op =
    | Const(literal: Immediate)
    | Add | Sub | Mul | Div | Rem | AddMod | MulMod | Exp
    | AddOverflow | SubOverflow | MulOverflow
    | And | Or | Xor | Not | Shl | Shr | Sar | ExtractByte
    | Convert | Icmp(cmp: Cmp) | Select
    | Alloca(bytes: nat) | Load | Store | MemCopy
    | SLoad | SStore | TLoad | TStore
    | Opcode(spec: OpSpec)
    | CallFn(callee: FuncRef)
  {
    /** The repair stored for a result of type `ty`, conversions aside. */
    function DefaultRepair(ty: Type): Repair {
      var target := ty.AsInt();
      match this
      case Icmp(_) => NoRepair
      case Const(_) => NoRepair
      case Select => NoRepair
      case CallFn(_) => NoRepair
      case Alloca(_) => NoRepair
      case And => NoRepair
      case Or => NoRepair
      case Xor => NoRepair
      case Not => if target.signed then NoRepair else RepairTo(target)
      case Div => if !target.signed then NoRepair else RepairTo(target)
      case Rem => if !target.signed then NoRepair else RepairTo(target)
      case Shr => if !target.signed then NoRepair else RepairTo(target)
      case _ => RepairTo(target)
    }

    /** The declared effect set. */
    function OpEffects(): Effects {
      match this
      case Alloca(_) => WRITES_MEMORY
      case Load => READS_MEMORY
      case Store => WRITES_MEMORY
      case MemCopy => READS_MEMORY.Union(WRITES_MEMORY)
      case SLoad => READS_STORAGE
      case SStore => WRITES_STORAGE
      case TLoad => READS_TRANSIENT
      case TStore => WRITES_TRANSIENT
      case Opcode(spec) => OfOpcode(spec)
      case CallFn(_) => ALL
      case _ => PURE
    }

    /** How many results; a call's depend on its callee. */
    function ResultCount(): Option<nat> {
      match this
      case AddOverflow => Some(2)
      case SubOverflow => Some(2)
      case MulOverflow => Some(2)
      case Store => Some(0)
      case SStore => Some(0)
      case TStore => Some(0)
      case MemCopy => Some(0)
      case Opcode(spec) => Some(spec.stackOut)
      case CallFn(_) => None
      case _ => Some(1)
    }
  }

  /** An operation with its type, stored repair, operands and results. */
  datatype InstData = InstData(op: Op, ty: Type, repair: Repair, args: seq<Value>, results: seq<Value>)

  datatype BlockCall = BlockCall(block: Block, args: seq<Value>)

  datatype Terminator =
    | Jump(dest: BlockCall)
    | Brif(cond: Value, thenCall: BlockCall, elseCall: BlockCall)
    | Switch(on: Value, cases: seq<(Immediate, BlockCall)>, default: BlockCall)
    | Return(values: seq<Value>)
    | Stop
    | ReturnData(ptr: Value, len: Value)
    | Revert(ptr: Value, len: Value)
    | SelfDestruct(beneficiary: Value)
    | Invalid
    | Unreachable
  {
    /** Values read by the terminator itself, edges aside. */
    function OwnArgs(): seq<Value> {
      match this
      case Brif(cond, _, _) => [cond]
      case Switch(on, _, _) => [on]
      case Return(values) => values
      case ReturnData(ptr, len) => [ptr, len]
      case Revert(ptr, len) => [ptr, len]
      case SelfDestruct(beneficiary) => [beneficiary]
      case _ => []
    }
  }

  /** Whether control can leave through this edge. */
  ghost predicate HasEdge(term: Terminator, call: BlockCall) {
    match term
    case Jump(dest) => call == dest
    case Brif(_, thenCall, elseCall) => call == thenCall || call == elseCall
    case Switch(_, cases, default) => call == default || exists i :: 0 <= i < |cases| && cases[i].1 == call
    case _ => false
  }

  /** The edges in branch order. */
  function EdgeList(term: Terminator): seq<BlockCall> {
    match term
    case Jump(dest) => [dest]
    case Brif(_, thenCall, elseCall) => [thenCall, elseCall]
    case Switch(_, cases, default) => seq(|cases|, i requires 0 <= i < |cases| => cases[i].1) + [default]
    case _ => []
  }

  lemma EdgeListIsEdges(term: Terminator, call: BlockCall)
    ensures call in EdgeList(term) <==> HasEdge(term, call)
  {
    if term.Switch? && exists i :: 0 <= i < |term.cases| && term.cases[i].1 == call {
      var i :| 0 <= i < |term.cases| && term.cases[i].1 == call;
      assert EdgeList(term)[i] == call;
    }
  }

  /** Collects the edges out of a block in branch order. */
  method BlockCalls(term: Terminator) returns (calls: seq<BlockCall>)
    ensures calls == EdgeList(term)
    ensures forall call :: call in calls <==> HasEdge(term, call)
  {
    match term {
      case Jump(dest) => calls := [dest];
      case Brif(_, thenCall, elseCall) => calls := [thenCall, elseCall];
      case Switch(_, cases, default) =>
        calls := seq(|cases|, i requires 0 <= i < |cases| => cases[i].1);
        calls := calls + [default];
      case _ => calls := [];
    }
    forall call
      ensures call in EdgeList(term) <==> HasEdge(term, call)
    {
      EdgeListIsEdges(term, call);
    }
  }

  /** Whether executing the terminator can read this value. */
  ghost predicate ReadsValue(term: Terminator, v: Value) {
    v in term.OwnArgs() || exists call :: HasEdge(term, call) && v in call.args
  }

  /** Edge arguments, edge after edge. */
  function EdgeArgs(calls: seq<BlockCall>): seq<Value> {
    if calls == [] then [] else EdgeArgs(calls[..|calls| - 1]) + calls[|calls| - 1].args
  }

  lemma {:induction false} EdgeArgsMembers(calls: seq<BlockCall>, v: Value)
    ensures v in EdgeArgs(calls) <==> exists call :: call in calls && v in call.args
  {
    if calls == [] {
    } else {
      var init, last := calls[..|calls| - 1], calls[|calls| - 1];
      EdgeArgsMembers(init, v);
      assert calls == init + [last];
      assert last in calls;
    }
  }

  /** Every value the terminator reads: its own operands, then the edge arguments in branch order. */
  method TerminatorArgs(term: Terminator) returns (args: seq<Value>)
    ensures args == term.OwnArgs() + EdgeArgs(EdgeList(term))
    ensures forall v :: v in args <==> ReadsValue(term, v)
  {
    args := term.OwnArgs();
    var calls := BlockCalls(term);
    for i := 0 to |calls|
      invariant args == term.OwnArgs() + EdgeArgs(calls[..i])
    {
      assert calls[..i + 1][..i] == calls[..i];
      args := args + calls[i].args;
    }
    assert calls[..|calls|] == calls;
    forall v
      ensures v in args <==> ReadsValue(term, v)
    {
      EdgeArgsMembers(calls, v);
    }
  }

  /** The arguments of all edges but the last, then those of the last. */
  lemma EdgeArgsAppend(calls: seq<BlockCall>, last: BlockCall)
    ensures EdgeArgs(calls + [last]) == EdgeArgs(calls) + last.args
  {
    assert (calls + [last])[..|calls|] == calls;
  }

  /** The cases' arguments in the order the cases are tried. */
  function CaseArgs(cases: seq<(Immediate, BlockCall)>): seq<Value> {
    if cases == [] then [] else cases[0].1.args + CaseArgs(cases[1..])
  }

  lemma {:induction false} CaseArgsAppend(cases: seq<(Immediate, BlockCall)>, last: (Immediate, BlockCall))
    ensures CaseArgs(cases + [last]) == CaseArgs(cases) + last.1.args
    decreases |cases|
  {
    if cases == [] {
      assert [last][1..] == [];
    } else {
      assert (cases + [last])[1..] == cases[1..] + [last] && (cases + [last])[0] == cases[0];
      CaseArgsAppend(cases[1..], last);
    }
  }

  function Destinations(cases: seq<(Immediate, BlockCall)>): seq<BlockCall> {
    seq(|cases|, i requires 0 <= i < |cases| => cases[i].1)
  }

  lemma {:induction false} CaseArgsAreEdgeArgs(cases: seq<(Immediate, BlockCall)>)
    ensures EdgeArgs(Destinations(cases)) == CaseArgs(cases)
  {
    if cases == [] {
    } else {
      var init, last := cases[..|cases| - 1], cases[|cases| - 1];
      assert cases == init + [last] && Destinations(cases) == Destinations(init) + [last.1];
      CaseArgsAreEdgeArgs(init);
      EdgeArgsAppend(Destinations(init), last.1);
      CaseArgsAppend(init, last);
    }
  }

  /** The edges themselves come in that order too. */
  lemma EdgesInOrder(term: Terminator)
    ensures match term
            case Jump(dest) => EdgeList(term) == [dest]
            case Brif(_, thenCall, elseCall) => EdgeList(term) == [thenCall, elseCall]
            case Switch(_, cases, default) => EdgeList(term) == Destinations(cases) + [default]
            case _ => EdgeList(term) == []
  {
  }

  lemma BranchArgs(thenCall: BlockCall, elseCall: BlockCall)
    ensures EdgeArgs([thenCall, elseCall]) == thenCall.args + elseCall.args
  {
    OneEdge(thenCall);
    EdgeArgsAppend([thenCall], elseCall);
    assert [thenCall] + [elseCall] == [thenCall, elseCall];
  }

  lemma OneEdge(call: BlockCall)
    ensures EdgeArgs([call]) == call.args
  {
    EdgeArgsAppend([], call);
    assert [] + [call] == [call];
  }

  /** What a terminator reads, word for word: a condition before the edges, the then edge before the else edge. */
  lemma ArgsInOrder(term: Terminator)
    ensures var args := term.OwnArgs() + EdgeArgs(EdgeList(term));
            match term
            case Jump(dest) => args == dest.args
            case Brif(cond, thenCall, elseCall) => args == [cond] + (thenCall.args + elseCall.args)
            case Switch(on, cases, default) => args == [on] + (CaseArgs(cases) + default.args)
            case Return(values) => args == values
            case ReturnData(ptr, len) => args == [ptr, len]
            case Revert(ptr, len) => args == [ptr, len]
            case SelfDestruct(beneficiary) => args == [beneficiary]
            case _ => args == []
  {
    assert EdgeArgs([]) == [];
    hide EdgeArgs, CaseArgs;
    EdgesInOrder(term);
    match term
    case Jump(dest) => OneEdge(dest);
    case Brif(_, thenCall, elseCall) => BranchArgs(thenCall, elseCall);
    case Switch(_, cases, default) =>
      CaseArgsAreEdgeArgs(cases);
      EdgeArgsAppend(Destinations(cases), default);
    case _ =>
  }
}
