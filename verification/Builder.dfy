/**
 The function builder, one call at a time.

 `Step` says what each builder call does; the class `FunctionBuilder` carries the
 calls out on the arenas. Once a call fails, later ones record nothing, and `Finish` reports that failure.
 */
module Builder {
  import opened Isa
  import opened Types
  import opened Instructions
  import opened Arena
  import WidthRepair

  datatype Reason = OwnsStack | OwnsControlFlow | IsTerminator

  datatype IrError =
    | NoCurrentBlock
    | AlreadyTerminated(block: Block)
    | UnknownMnemonic(name: Mnemonic)
    | ReservedOpcode(mnemonic: Mnemonic, reason: Reason)

  datatype Result<+T> = Ok(value: T) | Err(error: IrError)

  /** One call on the instruction builder. */
  datatype Ins =
    | Single(op: Op, ty: Type, args: seq<Value>)
    | Checked(op: Op, ty: Type, a: Value, b: Value)
    | ConvertTo(to: Type, value: Value)
    | Put(op: Op, place: Value, value: Value)
    | Copy(dst: Value, src: Value, len: Value)
    | Raw(name: Mnemonic, ty: Type, args: seq<Value>, results: nat)
    | Call(callee: FuncRef, sig: Signature, args: seq<Value>)

  datatype BuilderCall =
    | NewBlock(params: seq<Type>)
    | SwitchTo(block: Block)
    | Emit(ins: Ins)
    | Terminate(term: Terminator)

  datatype State = State(func: Arena.Func, current: Option<Block>, error: Option<IrError>)

  /** What an instruction call asks to append. */
  datatype Request = Request(op: Op, ty: Type, repair: Repair, args: seq<Value>, results: seq<Type>)

  /** The single-result operations the builder has a method for, with their arity and fixed types. */
  predicate HasMethod(op: Op, ty: Type, arity: nat) {
    if op.Const? then arity == 0
    else if op.Alloca? then arity == 0 && ty == Ptr
    else if op.Icmp? then arity == 2 && ty == BOOL
    else if op.Select? then arity == 3
    else if op.Not? || op.Load? || op.SLoad? || op.TLoad? then arity == 1
    else arity == 2 && WidthRepair.IsBinary(op) && !op.ExtractByte?
  }

  predicate IsChecked(op: Op) { op.AddOverflow? || op.SubOverflow? || op.MulOverflow? }

  predicate IsPut(op: Op) { op.Store? || op.SStore? || op.TStore? }

  /** Handles in range, and an operation the builder has a method for. */
  predicate InsReady(f: Arena.Func, ins: Ins) {
    match ins
    case Single(op, ty, args) => HasMethod(op, ty, |args|)
    case Checked(op, _, _, _) => IsChecked(op)
    case ConvertTo(_, v) => v < |f.values|
    case Put(op, _, v) => IsPut(op) && v < |f.values|
    case Raw(_, _, _, n) => n <= 1
    case _ => true
  }

  predicate Ready(s: State, call: BuilderCall) {
    match call
    case SwitchTo(b) => b < |s.func.blocks|
    case Emit(ins) => InsReady(s.func, ins)
    case _ => true
  }

  /** Why the raw escape hatch refuses an opcode. */
  function Reserved(spec: OpSpec): Option<Reason> {
    if FormOf(spec.byte) != Simple || spec.category == StackManip then Some(OwnsStack)
    else if spec.category == Control then Some(OwnsControlFlow)
    else if spec.terminating then Some(IsTerminator)
    else None
  }

  function RequestOf(f: Arena.Func, ins: Ins): Result<Request>
    requires InsReady(f, ins)
  {
    match ins
    case Single(op, ty, args) => Ok(Request(op, ty, op.DefaultRepair(ty), args, [ty]))
    case Checked(op, ty, a, b) => Ok(Request(op, ty, op.DefaultRepair(ty), [a, b], [ty, BOOL]))
    case ConvertTo(to, v) => Ok(Request(Convert, to, ForConvert(f.TypeOf(v), to), [v], [to]))
    case Put(op, place, v) => Ok(Request(op, f.TypeOf(v), NoRepair, [place, v], []))
    case Copy(dst, src, len) => Ok(Request(MemCopy, Ptr, NoRepair, [dst, src, len], []))
    case Call(callee, sig, args) =>
      Ok(Request(CallFn(callee), if sig.rets == [] then U256 else sig.rets[0], NoRepair, args, sig.rets))
    case Raw(name, ty, args, n) =>
      match ByMnemonic(name)
      case None => Err(UnknownMnemonic(name))
      case Some(spec) =>
        match Reserved(spec)
        case Some(reason) => Err(ReservedOpcode(spec.Mnemonic(), reason))
        case None => Ok(Request(Opcode(spec), ty, NoRepair, args, seq(n, i => ty)))
  }

  function Fail(s: State, e: IrError): State {
    if s.error.Some? then s else s.(error := Some(e))
  }

  predicate CurrentOk(s: State) {
    s.current.Some? ==> s.current.value < |s.func.blocks|
  }

  /** The block an append goes to, or the reason there is none. */
  function Target(s: State): Result<Block>
    requires CurrentOk(s)
  {
    match s.current
    case None => Err(NoCurrentBlock)
    case Some(b) => if s.func.blocks[b].term.Some? then Err(AlreadyTerminated(b)) else Ok(b)
  }

  function AppendRequest(s: State, r: Request): State
    requires CurrentOk(s)
  {
    if s.error.Some? then s
    else match Target(s) {
      case Err(e) => Fail(s, e)
      case Ok(b) => s.(func := WithInst(s.func, b, InstData(r.op, r.ty, r.repair, r.args, []), r.results))
    }
  }

  function Step(s: State, call: BuilderCall): State
    requires CurrentOk(s) && Ready(s, call)
  {
    match call
    case NewBlock(params) => s.(func := WithParams(WithBlock(s.func), |s.func.blocks|, params))
    case SwitchTo(b) => s.(current := Some(b))
    case Emit(ins) => (
      match RequestOf(s.func, ins)
      case Err(e) => Fail(s, e)
      case Ok(r) => AppendRequest(s, r))
    case Terminate(term) =>
      if s.error.Some? then s
      else match Target(s) {
        case Err(e) => Fail(s, e)
        case Ok(b) => State(WithTerminator(s.func, b, term), None, None)
      }
  }

  // ----- the builder object -----

  /** Handles that stand for nothing: `Finish` refuses whatever was built around them. */
  function Placeholder(n: nat): seq<Value> { seq(n, i => 0) }

  /** The handles a call gives back: fresh consecutive ones, or placeholders once there is an error. */
  function Returned(error: Option<IrError>, first: nat, n: nat): (r: seq<Value>)
    ensures |r| == n
  {
    if error.None? then Handles(first, n) else Placeholder(n)
  }

  class FunctionBuilder {
    const func: Function
    var current: Option<Block>
    var error: Option<IrError>

    ghost predicate Valid()
      reads this, func
    {
      current.Some? ==> current.value < |func.blocks|
    }

    ghost function View(): State
      reads this, func
    {
      State(func.View(), current, error)
    }

    constructor (sig: Signature)
      ensures Valid() && fresh(func) && View() == State(NewFunc(sig), Some(0), None)
    {
      func := new Function(sig);
      current := Some(0);
      error := None;
      new;
      NewFuncOk(sig);
    }

    method CreateBlockWith(params: seq<Type>) returns (b: Block)
      requires Valid()
      modifies func
      ensures Valid() && View() == Step(old(View()), NewBlock(params))
      ensures b == old(|func.blocks|)
    {
      b := func.CreateBlock();
      func.AppendParams(b, params);
    }

    /** Directs subsequent instructions into `b`. */
    method SwitchTo(b: Block)
      requires Valid() && b < |func.blocks|
      modifies this
      ensures Valid() && View() == Step(old(View()), BuilderCall.SwitchTo(b))
    {
      current := Some(b);
    }

    method Terminate(term: Terminator)
      requires Valid()
      modifies this, func
      ensures Valid() && View() == Step(old(View()), BuilderCall.Terminate(term))
    {
      if error.Some? {
        return;
      }
      if current.None? {
        Fail(NoCurrentBlock);
        return;
      }
      var b := current.value;
      if func.blocks[b].term.Some? {
        Fail(AlreadyTerminated(b));
        return;
      }
      func.SetTerminator(b, term);
      current := None;
    }

    /** The one place where instructions enter a block. */
    method Emit(r: Request) returns (values: seq<Value>)
      requires Valid()
      modifies this, func
      ensures Valid() && View() == AppendRequest(old(View()), r)
      ensures values == Returned(error, old(|func.values|), |r.results|)
    {
      if error.Some? {
        return Placeholder(|r.results|);
      }
      if current.None? {
        Fail(NoCurrentBlock);
        return Placeholder(|r.results|);
      }
      var b := current.value;
      if func.blocks[b].term.Some? {
        Fail(AlreadyTerminated(b));
        return Placeholder(|r.results|);
      }
      var inst := func.AppendInst(b, InstData(r.op, r.ty, r.repair, r.args, []), r.results);
      values := func.insts[inst].results;
    }

    /** Operations with one result; the repair is a function of operation and type. */
    method SingleResult(op: Op, ty: Type, args: seq<Value>) returns (v: Value)
      requires Valid() && HasMethod(op, ty, |args|)
      modifies this, func
      ensures Valid() && View() == Step(old(View()), BuilderCall.Emit(Single(op, ty, args)))
      ensures v == Returned(error, old(|func.values|), 1)[0]
    {
      var repair := op.DefaultRepair(ty);
      var results := Emit(Request(op, ty, repair, args, [ty]));
      v := results[0];
    }

    method CheckedArithmetic(op: Op, ty: Type, a: Value, b: Value) returns (v: Value, overflow: Value)
      requires Valid() && IsChecked(op)
      modifies this, func
      ensures Valid() && View() == Step(old(View()), BuilderCall.Emit(Checked(op, ty, a, b)))
      ensures [v, overflow] == Returned(error, old(|func.values|), 2)
    {
      var repair := op.DefaultRepair(ty);
      var results := Emit(Request(op, ty, repair, [a, b], [ty, BOOL]));
      v, overflow := results[0], results[1];
    }

    /** The repair of a conversion comes from both types. */
    method ConvertValue(to: Type, value: Value) returns (v: Value)
      requires Valid() && value < |func.values|
      modifies this, func
      ensures Valid() && View() == Step(old(View()), BuilderCall.Emit(ConvertTo(to, value)))
      ensures v == Returned(error, old(|func.values|), 1)[0]
    {
      var from := func.values[value].ty;
      var repair := ForConvert(from, to);
      var results := Emit(Request(Convert, to, repair, [value], [to]));
      v := results[0];
    }

    /** `store`, `sstore` and `tstore`. */
    method PutValue(op: Op, place: Value, value: Value)
      requires Valid() && IsPut(op) && value < |func.values|
      modifies this, func
      ensures Valid() && View() == Step(old(View()), BuilderCall.Emit(Put(op, place, value)))
    {
      var ty := func.values[value].ty;
      var results := Emit(Request(op, ty, NoRepair, [place, value], []));
    }

    method MemCopyValue(dst: Value, src: Value, len: Value)
      requires Valid()
      modifies this, func
      ensures Valid() && View() == Step(old(View()), BuilderCall.Emit(Copy(dst, src, len)))
    {
      var results := Emit(Request(MemCopy, Ptr, NoRepair, [dst, src, len], []));
    }

    /** The escape hatch: refuses the families the IR reserves to itself. */
    method RawOpcode(name: Mnemonic, ty: Type, args: seq<Value>, n: nat) returns (values: Option<seq<Value>>)
      requires Valid() && n <= 1
      modifies this, func
      ensures Valid() && View() == Step(old(View()), BuilderCall.Emit(Raw(name, ty, args, n)))
      ensures values == if ByMnemonic(name).Some? && Reserved(ByMnemonic(name).value).None?
                        then Some(Returned(error, old(|func.values|), n)) else None
    {
      var row := ByMnemonic(name);
      if row.None? {
        Fail(UnknownMnemonic(name));
        return None;
      }
      var spec := row.value;
      var reason := Reserved(spec);
      if reason.Some? {
        Fail(ReservedOpcode(spec.Mnemonic(), reason.value));
        return None;
      }
      var results := Emit(Request(Opcode(spec), ty, NoRepair, args, seq(n, i => ty)));
      return Some(results);
    }

    method CallFunction(callee: FuncRef, sig: Signature, args: seq<Value>) returns (values: seq<Value>)
      requires Valid()
      modifies this, func
      ensures Valid() && View() == Step(old(View()), BuilderCall.Emit(Ins.Call(callee, sig, args)))
      ensures values == Returned(error, old(|func.values|), |sig.rets|)
    {
      var ty := if sig.rets == [] then U256 else sig.rets[0];
      values := Emit(Request(CallFn(callee), ty, NoRepair, args, sig.rets));
    }

    /** Hands out the function of a history without errors. */
    method Finish() returns (r: Result<Arena.Func>)
      requires Valid()
      ensures r == Finished(View())
    {
      if error.Some? {
        return Err(error.value);
      }
      return Ok(Arena.Func(func.sig, func.insts, func.values, func.blocks));
    }

    /** Keeps the first failure. */
    method Fail(e: IrError)
      modifies this`error
      ensures error == if old(error).Some? then old(error) else Some(e)
    {
      if error.None? {
        error := Some(e);
      }
    }
  }

  function Finished(s: State): Result<Arena.Func> {
    match s.error
    case Some(e) => Err(e)
    case None => Ok(s.func)
  }
}
