/**
 From a builder call to what a run does with it, for the calls that reach memory,
 storage, raw opcodes and other functions.
 */
module Transfers {
  import opened Sequences
  import opened Isa
  import opened Immediates
  import opened Types
  import opened Instructions
  import opened WidthRepair
  import opened Machine
  import opened MachineLaws
  import opened Arena
  import opened Builder
  import opened Computation
  import BuilderRuns
  import Control

  lemma NamedRuns(
    env: Env, types: seq<Type>, slot: Word, inst: InstData, vals: Values, words: seq<Word>, w: World,
    raw: seq<Word>, u: World)
    requires Carry(vals, inst.args, words) && Cost(env, inst, words, w) <= w.gas && inst.repair.Fits()
    requires IsNamed(inst.op) && NamedEffect(inst.op, slot, words, Paid(env, inst, words, w)) == Some((raw, u))
    requires |raw| == |inst.results| <= 1
    ensures ExecInst(env, types, slot, inst, vals, w)
         == Some((if raw == [] then vals else vals[inst.results[0] := inst.repair.Apply(raw[0])],
                  Grown(u, Touched(inst.op, words))))
  {
    hide Cost, Bind, NamedEffect, Touched, Touch, Repair.Apply;
    CarriedOperands(vals, inst.args, words);
    if raw == [] {
      NoResults(vals, inst.results);
    } else {
      assert RepairFirst(inst.repair, raw) == [inst.repair.Apply(raw[0])];
      OneResult(vals, inst.results, inst.repair.Apply(raw[0]));
    }
  }

  lemma NoResults(vals: Values, names: seq<Value>)
    requires names == []
    ensures Bind(vals, names, []) == vals
  {
  }

  // ----- reading -----

  predicate IsGet(op: Op) { op.Load? || op.SLoad? || op.TLoad? }

  /** The word a read finds at a place. */
  function Kept(op: Op, w: World, at: Word): Word
    requires IsGet(op) || IsPut(op)
  {
    if op.Load? || op.Store? then LoadWord(w.memory, at)
    else if op.SLoad? || op.SStore? then Lookup(w.storage, at)
    else Lookup(w.transient, at)
  }

  /** Nothing but the size of memory has changed, and that only to cover `n` bytes at `at`. */
  predicate OnlyGrown(w: World, w': World, at: nat, n: nat) {
    w' == w.(size := Touch(w.size, at, n))
  }

  /** A read binds its handle to the word kept at the place its argument names, brought to the type. */
  lemma GetReads(
    s: State, op: Op, ty: Type, place: Value, inst: InstData,
    env: Env, types: seq<Type>, slot: Word, vals: Values, at: Word, w: World) returns (r: Word, w': World)
    requires Appends(s, Single(op, ty, [place]), inst) && IsGet(op) && ty.IsWellFormed()
    requires Carry(vals, [place], [at]) && Cost(env, inst, [at], w) <= w.gas
    ensures Denotes(ty, r, Kept(op, w, at))
    ensures OnlyGrown(Paid(env, inst, [at], w), w', at, if op.Load? then 32 else 0)
    ensures ExecInst(env, types, slot, inst, vals, w) == Some((vals[|s.func.values| := r], w'))
  {
    hide Cost, ExecInst, LoadWord, Lookup, Repair.Apply, WellFormed, Wrap, Op.DefaultRepair;
    SingleAppends(s, op, ty, [place], inst);
    var raw, paid := Kept(op, w, at), Paid(env, inst, [at], w);
    GetStores(op, ty);
    RepairWraps(ty, raw);
    r := RepairTo(ty.AsInt()).Apply(raw);
    w' := Grown(paid, Touched(op, [at]));
    NamedRuns(env, types, slot, inst, vals, [at], w, [raw], paid);
  }

  lemma GetStores(op: Op, ty: Type)
    requires IsGet(op) && ty.IsWellFormed()
    ensures op.DefaultRepair(ty) == RepairTo(ty.AsInt())
  {
  }

  /** An alloca binds its handle to the address the frame layout gives it. */
  lemma AllocaReserves(
    s: State, bytes: nat, inst: InstData, env: Env, types: seq<Type>, slot: Word, vals: Values, w: World)
    requires Appends(s, Single(Alloca(bytes), Ptr, []), inst) && Cost(env, inst, [], w) <= w.gas
    ensures ExecInst(env, types, slot, inst, vals, w)
         == Some((vals[|s.func.values| := slot], Paid(env, inst, [], w)))
  {
    hide Cost, ExecInst, HasMethod;
    SingleAppends(s, Alloca(bytes), Ptr, [], inst);
    NamedRuns(env, types, slot, inst, vals, [], w, [slot], Paid(env, inst, [], w));
  }

  // ----- writing -----

  /** `w'` keeps `x` at the place and has nothing else changed but the size of memory. */
  ghost predicate Written(op: Op, w: World, w': World, at: Word, x: Word)
    requires IsPut(op)
  {
    && Kept(op, w', at) == x
    && (op.Store? ==>
          && (forall i: nat :: i < at || at + 32 <= i ==> Fetch(w'.memory, i) == Fetch(w.memory, i))
          && OnlyGrown(w.(memory := w'.memory), w', at, 32))
    && (op.SStore? ==> w' == w.(storage := w'.storage) && w'.storage == w.storage[at := x])
    && (op.TStore? ==> w' == w.(transient := w'.transient) && w'.transient == w.transient[at := x])
  }

  /** A write puts the word its second argument holds at the place its first argument names. */
  lemma PutWrites(
    s: State, op: Op, place: Value, value: Value, inst: InstData,
    env: Env, types: seq<Type>, slot: Word, vals: Values, at: Word, x: Word, w: World) returns (w': World)
    requires Appends(s, Ins.Put(op, place, value), inst) && IsPut(op)
    requires Carry(vals, [place, value], [at, x]) && Cost(env, inst, [at, x], w) <= w.gas
    ensures Written(op, Paid(env, inst, [at, x], w), w', at, x)
    ensures ExecInst(env, types, slot, inst, vals, w) == Some((vals, w'))
  {
    hide Cost, ExecInst, Touch, LoadWord, Bytes, Machine.Put, Fetch;
    PutAppends(s, op, place, value, inst);
    var paid := Paid(env, inst, [at, x], w);
    LoadAfterStore(w.memory, at, x);
    var u := NamedEffect(op, slot, [at, x], paid).value.1;
    w' := Grown(u, Touched(op, [at, x]));
    NamedRuns(env, types, slot, inst, vals, [at, x], w, [], u);
    assert !op.Store? ==> w' == u by {
      NothingTouched(w.size);
    }
  }

  lemma NothingTouched(size: nat)
    ensures Touch(size, 0, 0) == size
  {
  }

  lemma PutAppends(s: State, op: Op, place: Value, value: Value, inst: InstData)
    requires Appends(s, Ins.Put(op, place, value), inst)
    ensures IsPut(op) && value < |s.func.values|
    ensures inst == InstData(op, s.func.values[value].ty, NoRepair, [place, value], [])
  {
    assert Handles(|s.func.values|, 0) == [];
    assert inst == Last(s.func.insts + [inst]);
  }

  predicate Matches(put: Op, get: Op) {
    (put.Store? && get.Load?) || (put.SStore? && get.SLoad?) || (put.TStore? && get.TLoad?)
  }

  /**
   What is written at a place is read back: the handle of a read at the type of the
   value written holds that very word.
   */
  lemma ReadBack(
    s: State, put: Op, place: Value, value: Value, store: InstData,
    t: State, get: Op, ty: Type, again: Value, load: InstData,
    env: Env, types: seq<Type>, slot: Word, vals: Values, at: Word, x: Word, w: World) returns (w': World)
    requires Matches(put, get) && ty.IsWellFormed() && WellFormed(ty, x)
    requires Appends(s, Ins.Put(put, place, value), store) && Appends(t, Single(get, ty, [again]), load)
    requires Carry(vals, [place, value], [at, x]) && Carry(vals, [again], [at])
    requires Cost(env, store, [at, x], w) <= w.gas
    ensures ExecInst(env, types, slot, store, vals, w) == Some((vals, w'))
    ensures Cost(env, load, [at], w') <= w'.gas ==>
              && ExecInst(env, types, slot, load, vals, w').Some?
              && ExecInst(env, types, slot, load, vals, w').value.0 == vals[|t.func.values| := x]
  {
    hide Appends, Carry, Cost, ExecInst, Written, WellFormed, Wrap;
    w' := PutWrites(s, put, place, value, store, env, types, slot, vals, at, x, w);
    if Cost(env, load, [at], w') <= w'.gas {
      var r, w'' := GetReads(t, get, ty, again, load, env, types, slot, vals, at, w');
      KeptIs(put, get, Paid(env, store, [at, x], w), w', at, x);
      DenotesItself(ty, r, x);
    }
  }

  lemma KeptIs(put: Op, get: Op, w: World, w': World, at: Word, x: Word)
    requires Matches(put, get) && Written(put, w, w', at, x)
    ensures Kept(get, w', at) == x
  {
  }

  lemma DenotesItself(ty: Type, r: Word, x: Word)
    requires ty.IsWellFormed() && WellFormed(ty, x) && Denotes(ty, r, x)
    ensures r == x
  {
    ValueDetermines(ty, r, x);
  }

  /** A copy moves `len` bytes from the place its second argument names to the one its first names. */
  lemma CopyCopies(
    s: State, dst: Value, src: Value, len: Value, inst: InstData,
    env: Env, types: seq<Type>, slot: Word, vals: Values, to: Word, from: Word, n: Word, w: World) returns (w': World)
    requires Appends(s, Copy(dst, src, len), inst)
    requires Carry(vals, [dst, src, len], [to, from, n]) && Cost(env, inst, [to, from, n], w) <= w.gas
    ensures ExecInst(env, types, slot, inst, vals, w) == Some((vals, w'))
    ensures forall i: nat ::
              Fetch(w'.memory, i) == if to <= i < to + n then Fetch(w.memory, from + (i - to)) else Fetch(w.memory, i)
    ensures OnlyGrown(Paid(env, inst, [to, from, n], w).(memory := w'.memory), w', Max(to, from), n)
  {
    hide Cost, ExecInst, Touch, Range, Machine.Put, Fetch;
    CopyAppends(s, dst, src, len, inst);
    var u := NamedEffect(MemCopy, slot, [to, from, n], Paid(env, inst, [to, from, n], w)).value.1;
    w' := Grown(u, Touched(MemCopy, [to, from, n]));
    NamedRuns(env, types, slot, inst, vals, [to, from, n], w, [], u);
    forall i: nat
      ensures Fetch(w'.memory, i) == if to <= i < to + n then Fetch(w.memory, from + (i - to)) else Fetch(w.memory, i)
    {
      CopyMoves(w.memory, to, from, n, i);
    }
  }

  lemma CopyAppends(s: State, dst: Value, src: Value, len: Value, inst: InstData)
    requires Appends(s, Copy(dst, src, len), inst)
    ensures inst == InstData(MemCopy, Ptr, NoRepair, [dst, src, len], [])
  {
    assert Handles(|s.func.values|, 0) == [];
    assert inst == Last(s.func.insts + [inst]);
  }

  // ----- raw opcodes and calls -----

  lemma RawAppends(s: State, name: Mnemonic, ty: Type, args: seq<Value>, n: nat, inst: InstData)
    requires Appends(s, Raw(name, ty, args, n), inst)
    ensures name.Listed? && ByByte(name.byte).Some?
    ensures inst == InstData(Opcode(ByByte(name.byte).value), ty, NoRepair, args, Handles(|s.func.values|, n))
    ensures Admitted(ByByte(name.byte).value)
  {
    assert inst == Last(s.func.insts + [inst]);
    hide ByByte;
    BuilderRuns.ReservedIsNotAdmitted(ByByte(name.byte).value);
  }

  /**
   A raw opcode is executed with its arguments as operands, the first topmost, and its
   results go to the handles returned.
   */
  lemma RawRuns(
    s: State, name: Mnemonic, ty: Type, args: seq<Value>, n: nat, inst: InstData,
    env: Env, types: seq<Type>, slot: Word, vals: Values, words: seq<Word>, w: World)
    requires Appends(s, Raw(name, ty, args, n), inst)
    requires Carry(vals, args, words) && Cost(env, inst, words, w) <= w.gas
    ensures name.Listed? && ByByte(name.byte).Some?
    ensures |words| != ByByte(name.byte).value.stackIn ==> ExecInst(env, types, slot, inst, vals, w).None?
    ensures |words| == ByByte(name.byte).value.stackIn ==>
              var (r, w') := OpcodeEffect(env, name.byte, words, Paid(env, inst, words, w));
              var grown := if IsExternal(name.byte) then w' else Grown(w', OpcodeTouched(name.byte, words));
              if |r| != n then ExecInst(env, types, slot, inst, vals, w).None?
              else
                && ExecInst(env, types, slot, inst, vals, w).Some?
                && var (after, end) := ExecInst(env, types, slot, inst, vals, w).value;
                   Control.Holds(vals, after, Handles(|s.func.values|, n), r) && end == grown
  {
    hide Cost, Bind, ByByte, OpcodeEffect, OpcodeTouched, Control.Holds, Admitted, Exec;
    RawAppends(s, name, ty, args, n, inst);
    CarriedOperands(vals, args, words);
    RawExec(env, inst, OperandType(types, inst), slot, words, w);
    hide IsExternal, Grown, Appends;
    var r := OpcodeEffect(env, name.byte, words, Paid(env, inst, words, w)).0;
    assert RepairFirst(NoRepair, r) == r;
    HandlesDiffer(|s.func.values|, n);
    if |r| == n {
      Control.BindHolds(vals, Handles(|s.func.values|, n), r);
    }
  }

  lemma RawExec(env: Env, inst: InstData, operand: Type, slot: Word, words: seq<Word>, w: World)
    requires inst.op.Opcode? && Admitted(inst.op.spec) && Cost(env, inst, words, w) <= w.gas
    ensures var (b, done) := (inst.op.spec.byte, Exec(env, inst, operand, slot, words, w));
            if |words| != inst.op.spec.stackIn then done.None?
            else
              var (r, w') := OpcodeEffect(env, b, words, Paid(env, inst, words, w));
              done == Some((r, if IsExternal(b) then w' else Grown(w', OpcodeTouched(b, words))))
  {
    hide Cost, ByByte, OpcodeEffect, OpcodeTouched, Admitted, Grown, IsExternal;
  }

  lemma HandlesDiffer(first: nat, n: nat)
    ensures Control.Distinct(Handles(first, n))
  {
  }

  /** An internal call hands over its arguments in order and binds the results in order to the handles returned. */
  lemma CallRuns(
    s: State, callee: FuncRef, sig: Signature, args: seq<Value>, inst: InstData,
    env: Env, types: seq<Type>, slot: Word, vals: Values, words: seq<Word>, w: World)
    requires Appends(s, Ins.Call(callee, sig, args), inst)
    requires Carry(vals, args, words) && Cost(env, inst, words, w) <= w.gas
    ensures var (paid, done) := (Paid(env, inst, words, w), ExecInst(env, types, slot, inst, vals, w));
            match env.internal(callee, words, paid)
            case None => done.None?
            case Some((r, w')) =>
              if |r| != |sig.rets| then done.None?
              else
                && done.Some? && done.value.1 == w'.Capped(paid.gas)
                && Control.Holds(vals, done.value.0, Handles(|s.func.values|, |sig.rets|), r)
  {
    hide Cost, Bind, Control.Holds;
    CallMade(s, callee, sig, args, inst);
    CarriedOperands(vals, args, words);
    HandlesDiffer(|s.func.values|, |sig.rets|);
    match env.internal(callee, words, Paid(env, inst, words, w))
    case None =>
    case Some((r, w')) =>
      assert RepairFirst(NoRepair, r) == r;
      if |r| == |sig.rets| {
        Control.BindHolds(vals, Handles(|s.func.values|, |sig.rets|), r);
      }
  }

  lemma CallMade(s: State, callee: FuncRef, sig: Signature, args: seq<Value>, inst: InstData)
    requires Appends(s, Ins.Call(callee, sig, args), inst)
    ensures inst.op == CallFn(callee) && inst.repair == NoRepair && inst.args == args
    ensures inst.results == Handles(|s.func.values|, |sig.rets|)
  {
    assert inst == Last(s.func.insts + [inst]);
  }
}
