/** Which operations may swap: what the effect classification licenses, and where it does not. */
module Reordering {
  import opened Powers
  import opened Isa
  import opened Types
  import opened Effects
  import opened Instructions
  import opened WidthRepair
  import opened Machine
  import W = Words

  predicate Touches(read: Flag, write: Flag, a: Effects, b: Effects) {
    a.Has(write) && (b.Has(read) || b.Has(write))
  }

  /** One side writes what the other reads or writes, or either hands control away; logs count as writes. */
  predicate Conflicts(a: Effects, b: Effects) {
    || a.Has(External) || b.Has(External)
    || Touches(ReadsMemory, WritesMemory, a, b) || Touches(ReadsMemory, WritesMemory, b, a)
    || Touches(ReadsStorage, WritesStorage, a, b) || Touches(ReadsStorage, WritesStorage, b, a)
    || Touches(ReadsTransient, WritesTransient, a, b) || Touches(ReadsTransient, WritesTransient, b, a)
    || (a.Has(Logs) && b.Has(Logs))
  }

  /** An instruction together with its operand words. */
  datatype Action = Action(inst: InstData, operand: Type, slot: Word, args: seq<Word>) {
    const op: Op := inst.op

    /** What the action does once it is paid for. */
    function Do(env: Env, w: World): Option<(seq<Word>, World)> {
      Effect(env, op, inst.ty, operand, slot, args, w)
    }

    /** The action, paid for and then done. */
    function Run(env: Env, w: World): Option<(seq<Word>, World)> {
      Exec(env, inst, operand, slot, args, w)
    }

    function Price(env: Env, w: World): nat { Cost(env, inst, args, w) }

    /** Whether running this enlarges the active memory. */
    predicate Grows(w: World) {
      Touch(w.size, Touched(op, args).0, Touched(op, args).1) != w.size
    }
  }

  /** The effects as one boolean per component and direction. */
  datatype Footprint = Footprint(
    rMemory: bool, wMemory: bool, rStorage: bool, wStorage: bool, rTransient: bool, wTransient: bool,
    rContext: bool, logs: bool)

  function FootprintOf(e: Effects): Footprint {
    Footprint(e.Has(ReadsMemory), e.Has(WritesMemory), e.Has(ReadsStorage), e.Has(WritesStorage),
              e.Has(ReadsTransient), e.Has(WritesTransient), e.Has(ReadsContext), e.Has(Logs))
  }

  /** The worlds agree on every component the footprint mentions. */
  predicate SameOn(f: Footprint, v: World, w: World) {
    && (f.rMemory || f.wMemory ==> v.memory == w.memory)
    && (f.rStorage || f.wStorage ==> v.storage == w.storage)
    && (f.rTransient || f.wTransient ==> v.transient == w.transient)
    && (f.logs ==> v.logs == w.logs)
    && (f.rContext ==> v.context == w.context)
  }

  /** The worlds agree on every component the footprint writes. */
  predicate SameWritten(f: Footprint, v: World, w: World) {
    && (f.wMemory ==> v.memory == w.memory)
    && (f.wStorage ==> v.storage == w.storage)
    && (f.wTransient ==> v.transient == w.transient)
    && (f.logs ==> v.logs == w.logs)
  }

  /** From `before` to `after`, only components the footprint writes have changed, active memory aside. */
  predicate OnlyWrites(f: Footprint, before: World, after: World) {
    && (!f.wMemory ==> after.memory == before.memory)
    && (!f.wStorage ==> after.storage == before.storage)
    && (!f.wTransient ==> after.transient == before.transient)
    && (!f.logs ==> after.logs == before.logs)
    && after.context == before.context && after.gas == before.gas
  }

  /** Two runs of one action stay within a footprint. */
  ghost predicate ConfinedTo(f: Footprint, env: Env, a: Action, v: World, w: World) {
    && (a.Do(env, v).Some? <==> a.Do(env, w).Some?)
    && (a.Do(env, v).Some? ==>
          && OnlyWrites(f, v, a.Do(env, v).value.1)
          && a.Do(env, v).value.1.size == Touch(v.size, Touched(a.op, a.args).0, Touched(a.op, a.args).1)
          && (SameOn(f, v, w) ==>
                && SameWritten(f, a.Do(env, v).value.1, a.Do(env, w).value.1)
                && (!IsMsize(a.op) && (IsGas(a.op) ==> v.gas == w.gas) ==>
                      a.Do(env, v).value.0 == a.Do(env, w).value.0)))
  }

  // ----- footprints -----

  lemma FlagsOfNamed(op: Op)
    requires !op.Opcode? && !op.CallFn?
    ensures !op.OpEffects().Has(External) && !op.OpEffects().Has(Logs) && !op.OpEffects().Has(ReadsContext)
    ensures op.OpEffects().Has(WritesMemory) <==> op.Alloca? || op.Store? || op.MemCopy?
    ensures op.OpEffects().Has(ReadsMemory) <==> op.Load? || op.MemCopy?
    ensures op.OpEffects().Has(ReadsStorage) <==> op.SLoad?
    ensures op.OpEffects().Has(WritesStorage) <==> op.SStore?
    ensures op.OpEffects().Has(ReadsTransient) <==> op.TLoad?
    ensures op.OpEffects().Has(WritesTransient) <==> op.TStore?
  {
  }

  lemma NamedConfined(f: Footprint, env: Env, a: Action, v: World, w: World)
    requires !a.op.Opcode? && !a.op.CallFn?
    requires f.wMemory <==> a.op.Alloca? || a.op.Store? || a.op.MemCopy?
    requires f.rMemory <==> a.op.Load? || a.op.MemCopy?
    requires f.rStorage <==> a.op.SLoad?
    requires f.wStorage <==> a.op.SStore?
    requires f.rTransient <==> a.op.TLoad?
    requires f.wTransient <==> a.op.TStore?
    ensures ConfinedTo(f, env, a, v, w)
  {
    hide NamedEffect, EvalPure, Fetch;
    if IsNamed(a.op) {
      hide Touch, Touched;
      NamedEffectConfined(f, a.op, a.slot, a.args, v, w);
    } else {
      assert Touched(a.op, a.args) == (0, 0);
    }
  }

  lemma NamedEffectConfined(f: Footprint, op: Op, slot: Word, args: seq<Word>, v: World, w: World)
    requires IsNamed(op)
    requires f.wMemory <==> op.Alloca? || op.Store? || op.MemCopy?
    requires f.rMemory <==> op.Load? || op.MemCopy?
    requires f.rStorage <==> op.SLoad?
    requires f.wStorage <==> op.SStore?
    requires f.rTransient <==> op.TLoad?
    requires f.wTransient <==> op.TStore?
    ensures NamedEffect(op, slot, args, v).Some? <==> NamedEffect(op, slot, args, w).Some?
    ensures NamedEffect(op, slot, args, v).Some? ==>
              var (rv, v') := NamedEffect(op, slot, args, v).value;
              var (rw, w') := NamedEffect(op, slot, args, w).value;
              && OnlyWrites(f, v, v') && v'.size == v.size
              && (SameOn(f, v, w) ==> SameWritten(f, v', w') && rv == rw)
  {
  }

  /** The flags of a table row, by what the opcode does. */
  lemma FlagsOfOpcode(b: Byte)
    requires ByByte(b).Some? && Admitted(ByByte(b).value)
    ensures var e := OfOpcode(ByByte(b).value);
            && (e.Has(External) <==> IsExternal(b))
            && (e.Has(Logs) <==> IsLog(b))
            && (!IsExternal(b) ==>
              && (e.Has(ReadsMemory) <==> IsLog(b) || b in {0x20, 0x51, 0x59, 0x5e})
              && (e.Has(WritesMemory) <==> b in {0x52, 0x53, 0x5e, 0x37, 0x39, 0x3c, 0x3e})
              && (e.Has(ReadsStorage) <==> b == 0x54)
              && (e.Has(WritesStorage) <==> b == 0x55)
              && (e.Has(ReadsTransient) <==> b == 0x5c)
              && (e.Has(WritesTransient) <==> b == 0x5d)
              && (Computes(b) || IsLog(b) || b in {0x20, 0x51, 0x52, 0x53, 0x54, 0x55, 0x59, 0x5c, 0x5d, 0x5e}
                  || e.Has(ReadsContext)))
  {
  }

  lemma OpcodeConfined(f: Footprint, b: Byte, env: Env, a: Action, v: World, w: World)
    requires a.op.Opcode? && a.op.spec.byte == b && Admitted(a.op.spec) && !IsExternal(b)
    requires f.logs <==> IsLog(b)
    requires f.rMemory <==> IsLog(b) || b in {0x20, 0x51, 0x59, 0x5e}
    requires f.wMemory <==> b in {0x52, 0x53, 0x5e, 0x37, 0x39, 0x3c, 0x3e}
    requires f.rStorage <==> b == 0x54
    requires f.wStorage <==> b == 0x55
    requires f.rTransient <==> b == 0x5c
    requires f.wTransient <==> b == 0x5d
    requires Computes(b) || IsLog(b) || b in {0x20, 0x51, 0x52, 0x53, 0x54, 0x55, 0x59, 0x5c, 0x5d, 0x5e} || f.rContext
    ensures ConfinedTo(f, env, a, v, w)
  {
    hide OpcodeEffect, ByByte, Touch;
    if |a.args| == a.op.spec.stackIn {
      EffectConfined(f, b, env, a.args, v, w);
      assert Touched(a.op, a.args) == OpcodeTouched(b, a.args);
    }
  }

  lemma EffectConfined(f: Footprint, b: Byte, env: Env, args: seq<Word>, v: World, w: World)
    requires !IsExternal(b)
    requires f.logs <==> IsLog(b)
    requires f.rMemory <==> IsLog(b) || b in {0x20, 0x51, 0x59, 0x5e}
    requires f.wMemory <==> b in {0x52, 0x53, 0x5e, 0x37, 0x39, 0x3c, 0x3e}
    requires f.rStorage <==> b == 0x54
    requires f.wStorage <==> b == 0x55
    requires f.rTransient <==> b == 0x5c
    requires f.wTransient <==> b == 0x5d
    requires Computes(b) || IsLog(b) || b in {0x20, 0x51, 0x52, 0x53, 0x54, 0x55, 0x59, 0x5c, 0x5d, 0x5e} || f.rContext
    ensures EffectWithin(f, b, env, args, v, w)
  {
    if !Computes(b) && !IsLog(b) {
      StateWithin(f, b, env, args, v, w);
    }
  }

  /** Two runs of an opcode's effect stay within a footprint. */
  ghost predicate EffectWithin(f: Footprint, b: Byte, env: Env, args: seq<Word>, v: World, w: World) {
    var (rv, v') := OpcodeEffect(env, b, args, v);
    var (rw, w') := OpcodeEffect(env, b, args, w);
    && OnlyWrites(f, v, v') && v'.size == v.size
    && (SameOn(f, v, w) ==> SameWritten(f, v', w') && (b != 0x59 && (b == 0x5a ==> v.gas == w.gas) ==> rv == rw))
  }

  lemma MemoryWritten(f: Footprint, b: Byte, env: Env, args: seq<Word>, v: World, w: World)
    requires f.wMemory && b in {0x52, 0x53, 0x5e, 0x37, 0x39, 0x3c, 0x3e}
    requires !f.wStorage && !f.wTransient && !f.logs
    requires b in {0x52, 0x53, 0x5e} || f.rContext
    ensures var (rv, v') := StateOpcode(env, b, args, v);
            var (rw, w') := StateOpcode(env, b, args, w);
            && OnlyWrites(f, v, v') && v'.size == v.size
            && (SameOn(f, v, w) ==>
                  SameWritten(f, v', w') && (b != 0x59 && (b == 0x5a ==> v.gas == w.gas) ==> rv == rw))
  {
    hide Range, LoadWord, Put, Lookup, CopiedBytes, W.Encode;
  }

  lemma NoMemoryWritten(f: Footprint, b: Byte, env: Env, args: seq<Word>, v: World, w: World)
    requires b !in {0x52, 0x53, 0x5e, 0x37, 0x39, 0x3c, 0x3e}
    requires !f.wMemory && !f.logs
    requires b in {0x20, 0x51} ==> f.rMemory
    requires f.rStorage <==> b == 0x54
    requires f.wStorage <==> b == 0x55
    requires f.rTransient <==> b == 0x5c
    requires f.wTransient <==> b == 0x5d
    requires b in {0x20, 0x51, 0x54, 0x55, 0x59, 0x5c, 0x5d} || f.rContext
    ensures var (rv, v') := StateOpcode(env, b, args, v);
            var (rw, w') := StateOpcode(env, b, args, w);
            && OnlyWrites(f, v, v') && v'.size == v.size
            && (SameOn(f, v, w) ==>
                  SameWritten(f, v', w') && (b != 0x59 && (b == 0x5a ==> v.gas == w.gas) ==> rv == rw))
  {
    hide Range, LoadWord, Put, Lookup, CopiedBytes, W.Encode;
  }

  lemma StateWithin(f: Footprint, b: Byte, env: Env, args: seq<Word>, v: World, w: World)
    requires f.rMemory <==> b in {0x20, 0x51, 0x59, 0x5e}
    requires f.wMemory <==> b in {0x52, 0x53, 0x5e, 0x37, 0x39, 0x3c, 0x3e}
    requires f.rStorage <==> b == 0x54
    requires f.wStorage <==> b == 0x55
    requires f.rTransient <==> b == 0x5c
    requires f.wTransient <==> b == 0x5d
    requires !f.logs
    requires b in {0x20, 0x51, 0x52, 0x53, 0x54, 0x55, 0x59, 0x5c, 0x5d, 0x5e} || f.rContext
    ensures var (rv, v') := StateOpcode(env, b, args, v);
            var (rw, w') := StateOpcode(env, b, args, w);
            && OnlyWrites(f, v, v') && v'.size == v.size
            && (SameOn(f, v, w) ==>
                  SameWritten(f, v', w') && (b != 0x59 && (b == 0x5a ==> v.gas == w.gas) ==> rv == rw))
  {
    hide StateOpcode;
    if b in {0x52, 0x53, 0x5e, 0x37, 0x39, 0x3c, 0x3e} {
      MemoryWritten(f, b, env, args, v, w);
    } else {
      NoMemoryWritten(f, b, env, args, v, w);
    }
  }

  /** Every action that keeps control stays within the footprint its effects declare. */
  lemma ActionConfined(env: Env, a: Action, v: World, w: World)
    requires !a.op.OpEffects().Has(External)
    ensures ConfinedTo(FootprintOf(a.op.OpEffects()), env, a, v, w)
  {
    var f := FootprintOf(a.op.OpEffects());
    if a.op.Opcode? {
      hide OpcodeEffect, ByByte, OfOpcode, Effects.Has;
      if Admitted(a.op.spec) {
        FlagsOfOpcode(a.op.spec.byte);
        OpcodeConfined(f, a.op.spec.byte, env, a, v, w);
      }
    } else if a.op.CallFn? {
      assert false;
    } else {
      hide Effect, ConfinedTo, Op.OpEffects, Effects.Has;
      FlagsOfNamed(a.op);
      NamedConfined(f, env, a, v, w);
    }
  }

  // ----- swapping -----

  lemma ConflictsBothWays(a: Effects, b: Effects)
    ensures Conflicts(a, b) == Conflicts(b, a)
    ensures a.Has(External) || b.Has(External) ==> Conflicts(a, b)
  {
    hide Effects.Has;
  }

  lemma TouchCommutes(size: nat, p: (nat, nat), q: (nat, nat))
    ensures Touch(Touch(size, p.0, p.1), q.0, q.1) == Touch(Touch(size, q.0, q.1), p.0, p.1)
    ensures Touch(size, p.0, p.1) >= size
  {
  }

  /** Actions whose footprints do not meet, component by component. */
  predicate Apart(f: Footprint, g: Footprint) {
    && (f.wMemory ==> !g.rMemory && !g.wMemory) && (g.wMemory ==> !f.rMemory && !f.wMemory)
    && (f.wStorage ==> !g.rStorage && !g.wStorage) && (g.wStorage ==> !f.rStorage && !f.wStorage)
    && (f.wTransient ==> !g.rTransient && !g.wTransient) && (g.wTransient ==> !f.rTransient && !f.wTransient)
    && !(f.logs && g.logs)
  }

  lemma WritesApart(f: Footprint, g: Footprint, before: World, after: World)
    requires Apart(f, g) && OnlyWrites(f, before, after)
    ensures SameOn(g, before, after)
  {
  }

  /** The world with a given amount of gas. */
  function At(w: World, gas: nat): World { w.(gas := gas) }

  /**
   Doing the two in either order, with whatever gas each finds: the final world is
   the same, and so is every result but those of `MSIZE` and of a `GAS` that finds
   another amount.
   */
  lemma EffectsCommute(env: Env, a: Action, b: Action, w: World, g1: nat, g2: nat, g3: nat, g4: nat)
    requires !Conflicts(a.op.OpEffects(), b.op.OpEffects())
    requires a.Do(env, At(w, g1)).Some? && b.Do(env, At(w, g3)).Some?
    ensures var (ra, wa) := a.Do(env, At(w, g1)).value;
            var (rb, wb) := b.Do(env, At(w, g3)).value;
            && b.Do(env, At(wa, g2)).Some? && a.Do(env, At(wb, g4)).Some?
            && var (rb', wab) := b.Do(env, At(wa, g2)).value;
               var (ra', wba) := a.Do(env, At(wb, g4)).value;
               && wab.Bare() == wba.Bare()
               && (!IsMsize(a.op) && (IsGas(a.op) ==> g1 == g4) ==> ra == ra')
               && (!IsMsize(b.op) && (IsGas(b.op) ==> g2 == g3) ==> rb == rb')
  {
    hide Effect, Touched, Touch, Effects.Has;
    var f, g := FootprintOf(a.op.OpEffects()), FootprintOf(b.op.OpEffects());
    assert Apart(f, g);
    var wa, wb := a.Do(env, At(w, g1)).value.1, b.Do(env, At(w, g3)).value.1;
    Confined(env, a, At(w, g1), At(wb, g4));
    Confined(env, b, At(w, g3), At(wa, g2));
    WritesApart(f, g, At(w, g1), wa);
    WritesApart(g, f, At(w, g3), wb);
    TouchCommutes(w.size, Touched(a.op, a.args), Touched(b.op, b.args));
    Meet(f, g, w, wa, wb, b.Do(env, At(wa, g2)).value.1, a.Do(env, At(wb, g4)).value.1);
  }

  lemma Confined(env: Env, a: Action, v: World, w: World)
    requires !a.op.OpEffects().Has(External)
    ensures ConfinedTo(FootprintOf(a.op.OpEffects()), env, a, v, w)
    ensures ConfinedTo(FootprintOf(a.op.OpEffects()), env, a, w, v)
  {
    ActionConfined(env, a, v, w);
    ActionConfined(env, a, w, v);
  }

  /** Two writes to disjoint components end in one world, component by component. */
  lemma Meet(f: Footprint, g: Footprint, w: World, wa: World, wb: World, wab: World, wba: World)
    requires Apart(f, g) && wab.size == wba.size
    requires OnlyWrites(f, At(w, wa.gas), wa) && OnlyWrites(g, At(w, wb.gas), wb)
    requires OnlyWrites(g, At(wa, wab.gas), wab) && OnlyWrites(f, At(wb, wba.gas), wba)
    requires SameWritten(f, wa, wba) && SameWritten(g, wb, wab)
    ensures wab.Bare() == wba.Bare()
  {
  }

  /** Running `a` then `b`: both result lists and the final world. */
  function Both(env: Env, a: Action, b: Action, w: World): Option<(seq<Word>, seq<Word>, World)> {
    match a.Run(env, w)
    case None => None
    case Some((ra, wa)) =>
      match b.Run(env, wa)
      case None => None
      case Some((rb, wab)) => Some((ra, rb, wab))
  }

  /** Swapping the two actions changes no result and nothing in the world but the gas. */
  predicate Swappable(env: Env, a: Action, b: Action, w: World)
    requires Both(env, a, b, w).Some? && Both(env, b, a, w).Some?
  {
    && Both(env, a, b, w).value.0 == Both(env, b, a, w).value.1
    && Both(env, a, b, w).value.1 == Both(env, b, a, w).value.0
    && Both(env, a, b, w).value.2.Bare() == Both(env, b, a, w).value.2.Bare()
  }

  lemma PaidRun(env: Env, a: Action, w: World)
    requires a.Run(env, w).Some?
    ensures a.Price(env, w) <= w.gas
    ensures a.Run(env, w) == a.Do(env, At(w, w.gas - a.Price(env, w)))
  {
  }

  /**
   Actions whose declared effects do not conflict, both orders of which can be paid
   for: the final world is the same but for the gas, and so is every result but
   those of `MSIZE` and `GAS`.
   */
  lemma WorldsCommute(env: Env, a: Action, b: Action, w: World)
    requires !Conflicts(a.op.OpEffects(), b.op.OpEffects())
    requires Both(env, a, b, w).Some? && Both(env, b, a, w).Some?
    ensures Both(env, a, b, w).value.2.Bare() == Both(env, b, a, w).value.2.Bare()
    ensures !IsMsize(a.op) && !IsGas(a.op) ==> Both(env, a, b, w).value.0 == Both(env, b, a, w).value.1
    ensures !IsMsize(b.op) && !IsGas(b.op) ==> Both(env, a, b, w).value.1 == Both(env, b, a, w).value.0
  {
    hide Exec, Effect, Conflicts;
    var wa, wb := a.Run(env, w).value.1, b.Run(env, w).value.1;
    PaidRun(env, a, w);
    PaidRun(env, b, w);
    PaidRun(env, b, wa);
    PaidRun(env, a, wb);
    EffectsCommute(env, a, b, w, w.gas - a.Price(env, w), wa.gas - b.Price(env, wa),
                   w.gas - b.Price(env, w), wb.gas - a.Price(env, wb));
  }

  lemma MsizeReads(env: Env, a: Action, w: World)
    requires IsMsize(a.op) && a.Run(env, w).Some?
    ensures a.Run(env, w).value.0 == [W.Encode(w.size)]
    ensures !a.Grows(w)
  {
    hide ByByte, W.Encode;
    assert OpcodeEffect(env, 0x59, a.args, At(w, w.gas - a.Price(env, w))).0 == [W.Encode(w.size)];
  }

  lemma GasReads(env: Env, a: Action, w: World)
    requires IsGas(a.op) && a.Run(env, w).Some?
    ensures a.args == [] && a.op == Opcode(GAS)
    ensures a.Price(env, w) <= w.gas
    ensures a.Run(env, w).value == ([W.Encode(w.gas - a.Price(env, w))], At(w, w.gas - a.Price(env, w)))
  {
    hide W.Encode;
    var paid := At(w, w.gas - a.Price(env, w));
    assert OpcodeEffect(env, 0x5a, a.args, paid) == ([W.Encode(paid.gas)], paid);
  }

  lemma EncodeDistinguishes(m: nat, n: nat)
    requires m < Pow2(W.WORD_BITS) && n < Pow2(W.WORD_BITS)
    ensures W.Encode(m) == W.Encode(n) <==> m == n
  {
    W.EncodeCongruent(m);
    W.EncodeCongruent(n);
  }

  /** The price of `GAS` is the same everywhere. */
  ghost predicate GasPriceFixed(env: Env) {
    forall inst: InstData, v, w :: inst.op == Opcode(GAS) ==> env.cost(inst, [], v) == env.cost(inst, [], w)
  }

  /** What stands in the way of swapping: `MSIZE` beside growth, or `GAS` beside a cost. */
  predicate Hinders(env: Env, a: Action, b: Action, w: World) {
    (IsMsize(a.op) && b.Grows(w)) || (IsGas(a.op) && b.Price(env, w) > 0)
  }

  /**
   Actions whose declared effects do not conflict may swap exactly when neither is
   an `MSIZE` beside one that enlarges memory, nor a `GAS` beside one that costs
   anything: growth by reads and gas are outside the lattice.
   */
  lemma SwappableIff(env: Env, a: Action, b: Action, w: World)
    requires !Conflicts(a.op.OpEffects(), b.op.OpEffects()) && GasPriceFixed(env)
    requires Both(env, a, b, w).Some? && Both(env, b, a, w).Some? && w.gas < Pow2(W.WORD_BITS)
    requires a.Run(env, w).value.1.size < Pow2(W.WORD_BITS) && b.Run(env, w).value.1.size < Pow2(W.WORD_BITS)
    ensures Swappable(env, a, b, w) <==> !Hinders(env, a, b, w) && !Hinders(env, b, a, w)
  {
    hide Exec, Conflicts;
    ConflictsBothWays(a.op.OpEffects(), b.op.OpEffects());
    WorldsCommute(env, a, b, w);
    ResultStays(env, a, b, w);
    ResultStays(env, b, a, w);
  }

  /** The result of `a` survives running `b` first exactly when nothing hinders it. */
  lemma ResultStays(env: Env, a: Action, b: Action, w: World)
    requires !Conflicts(a.op.OpEffects(), b.op.OpEffects()) && GasPriceFixed(env)
    requires Both(env, a, b, w).Some? && Both(env, b, a, w).Some? && w.gas < Pow2(W.WORD_BITS)
    requires a.Run(env, w).value.1.size < Pow2(W.WORD_BITS) && b.Run(env, w).value.1.size < Pow2(W.WORD_BITS)
    ensures Both(env, a, b, w).value.0 == Both(env, b, a, w).value.1 <==> !Hinders(env, a, b, w)
  {
    hide Exec, Effect, Conflicts;
    var wb := b.Run(env, w).value.1;
    ConflictsBothWays(a.op.OpEffects(), b.op.OpEffects());
    if IsMsize(a.op) {
      SizesAfter(env, a, w);
      SizesAfter(env, b, w);
      MsizeReads(env, a, w);
      MsizeReads(env, a, wb);
      EncodeDistinguishes(w.size, wb.size);
    } else if IsGas(a.op) {
      GasReads(env, a, w);
      GasReads(env, a, wb);
      GasAfter(env, b, w);
      EncodeDistinguishes(w.gas - a.Price(env, w), wb.gas - a.Price(env, wb));
    } else {
      WorldsCommute(env, a, b, w);
    }
  }

  lemma GasAfter(env: Env, a: Action, w: World)
    requires !a.op.OpEffects().Has(External) && a.Run(env, w).Some?
    ensures a.Run(env, w).value.1.gas == w.gas - a.Price(env, w)
  {
    hide Effect;
    PaidRun(env, a, w);
    var paid := At(w, w.gas - a.Price(env, w));
    ActionConfined(env, a, paid, paid);
  }

  lemma SizesAfter(env: Env, a: Action, w: World)
    requires !a.op.OpEffects().Has(External) && a.Run(env, w).Some?
    ensures a.Run(env, w).value.1.size == Touch(w.size, Touched(a.op, a.args).0, Touched(a.op, a.args).1)
    ensures w.size <= a.Run(env, w).value.1.size
  {
    hide Effect, Touched;
    PaidRun(env, a, w);
    var paid := At(w, w.gas - a.Price(env, w));
    ActionConfined(env, a, paid, paid);
  }

  lemma DeclaredReads(load: Op, msize: Op, gas: Op)
    requires load == Load && msize == Opcode(MSIZE) && gas == Opcode(GAS)
    ensures !Conflicts(load.OpEffects(), msize.OpEffects()) && !Conflicts(gas.OpEffects(), load.OpEffects())
  {
    hide Conflicts, ByByte;
    ReadsDoNotConflict(READS_MEMORY);
    ReadsDoNotConflict(READS_CONTEXT);
    assert gas.OpEffects() == READS_CONTEXT;
  }

  lemma ReadsDoNotConflict(e: Effects)
    requires e == READS_MEMORY || e == READS_CONTEXT
    ensures !Conflicts(e, READS_MEMORY)
  {
    assert !e.Has(External) && !e.Has(WritesMemory) && !e.Has(WritesStorage) && !e.Has(WritesTransient) && !e.Has(Logs);
    var m := READS_MEMORY;
    assert !m.Has(External) && !m.Has(WritesMemory) && !m.Has(WritesStorage) && !m.Has(WritesTransient);
    hide Effects.Has;
  }

  /** A load of any address and a size query declare no conflict, yet do not swap on fresh memory. */
  lemma LoadAndMsizeDoNotSwap(env: Env, w: World, load: Action, msize: Action)
    requires load.op == Load && |load.args| == 1 && load.args[0] + 64 < Pow2(W.WORD_BITS)
    requires msize.op == Opcode(MSIZE) && msize.args == [] && GasPriceFixed(env)
    requires Both(env, load, msize, w).Some? && Both(env, msize, load, w).Some?
    requires w.size == 0 && w.gas < Pow2(W.WORD_BITS)
    ensures !Conflicts(load.op.OpEffects(), msize.op.OpEffects())
    ensures !Swappable(env, load, msize, w)
  {
    hide Exec, Swappable, Conflicts, ByByte;
    DeclaredReads(load.op, msize.op, Opcode(GAS));
    LoadTouches(load.op, load.args, msize.op, msize.args);
    SizesAfter(env, load, w);
    SizesAfter(env, msize, w);
    SwappableIff(env, load, msize, w);
  }

  lemma LoadTouches(load: Op, at: seq<Word>, msize: Op, none: seq<Word>)
    requires load == Load && |at| == 1 && msize == Opcode(MSIZE)
    ensures Touched(load, at) == (at[0], 32) && Touched(msize, none) == (0, 0)
    ensures !load.OpEffects().Has(External) && !msize.OpEffects().Has(External)
  {
  }

  /** `GAS` and a load declare no conflict, yet do not swap wherever a load costs anything. */
  lemma GasAndLoadDoNotSwap(env: Env, w: World, gas: Action, load: Action)
    requires gas.op == Opcode(GAS) && load.op == Load && |load.args| == 1 && GasPriceFixed(env)
    requires Both(env, gas, load, w).Some? && Both(env, load, gas, w).Some?
    requires load.Price(env, w) > 0 && w.gas < Pow2(W.WORD_BITS)
    ensures !Conflicts(gas.op.OpEffects(), load.op.OpEffects())
    ensures !Swappable(env, gas, load, w)
  {
    hide Exec, Conflicts, ByByte, W.Encode, Cost;
    DeclaredReads(load.op, Opcode(MSIZE), gas.op);
    var wl := load.Run(env, w).value.1;
    GasReads(env, gas, w);
    GasReads(env, gas, wl);
    GasAfterLoad(env, load, w);
    GasCostsTheSame(env, gas, w, wl);
    EncodeDistinguishes(w.gas - gas.Price(env, w), wl.gas - gas.Price(env, wl));
  }

  lemma GasCostsTheSame(env: Env, gas: Action, v: World, w: World)
    requires gas.op == Opcode(GAS) && gas.args == [] && GasPriceFixed(env)
    ensures gas.Price(env, v) == gas.Price(env, w)
  {
  }

  lemma GasAfterLoad(env: Env, load: Action, w: World)
    requires load.op == Load && load.Run(env, w).Some?
    ensures load.Run(env, w).value.1.gas == w.gas - load.Price(env, w)
  {
    LoadTouches(load.op, [0], Opcode(MSIZE), []);
    GasAfter(env, load, w);
  }

  // ----- swapping inside a block -----

  /** Neither instruction reads or rebinds what the other binds. */
  ghost predicate Independent(x: InstData, y: InstData) {
    && (forall v :: v in x.results ==> v !in y.args && v !in y.results)
    && (forall v :: v in y.results ==> v !in x.args)
  }

  /** Instructions the effect classification and the two exceptions let change places. */
  ghost predicate MayExchange(x: InstData, y: InstData) {
    && Independent(x, y) && !Conflicts(x.op.OpEffects(), y.op.OpEffects())
    && !IsGas(x.op) && !IsGas(y.op) && !IsMsize(x.op) && !IsMsize(y.op)
  }

  function ActionOf(types: seq<Type>, slot: Word, inst: InstData, vals: Values): Action
    requires AllBound(vals, inst.args)
  {
    Action(inst, OperandType(types, inst), slot, Operands(vals, inst.args))
  }

  lemma InstIsAction(env: Env, types: seq<Type>, slot: Word, inst: InstData, vals: Values, w: World)
    requires ExecInst(env, types, slot, inst, vals, w).Some?
    ensures AllBound(vals, inst.args) && inst.repair.Fits()
    ensures ActionOf(types, slot, inst, vals).Run(env, w).Some?
    ensures var (raw, w') := ActionOf(types, slot, inst, vals).Run(env, w).value;
            && |raw| == |inst.results|
            && ExecInst(env, types, slot, inst, vals, w)
               == Some((Bind(vals, inst.results, RepairFirst(inst.repair, raw)), w'))
  {
  }

  lemma {:induction false} BindKeepsOthers(vals: Values, names: seq<Value>, words: seq<Word>, args: seq<Value>)
    requires |names| == |words| && AllBound(Bind(vals, names, words), args) && forall v :: v in names ==> v !in args
    ensures AllBound(vals, args) && Operands(Bind(vals, names, words), args) == Operands(vals, args)
    decreases |names|
  {
    if names == [] {
    } else {
      BindKeepsOthers(vals[names[0] := words[0]], names[1..], words[1..], args);
      assert names[0] in names;
      assert forall i :: 0 <= i < |args| ==> args[i] in args;
    }
  }

  lemma {:induction false} BindPast(vals: Values, x: Value, word: Word, names: seq<Value>, words: seq<Word>)
    requires |names| == |words| && x !in names
    ensures Bind(vals[x := word], names, words) == Bind(vals, names, words)[x := word]
    decreases |names|
  {
    if names == [] {
    } else {
      assert vals[x := word][names[0] := words[0]] == vals[names[0] := words[0]][x := word];
      BindPast(vals[names[0] := words[0]], x, word, names[1..], words[1..]);
    }
  }

  lemma {:induction false} BindsCommute(
    vals: Values, xs: seq<Value>, xw: seq<Word>, ys: seq<Value>, yw: seq<Word>)
    requires |xs| == |xw| && |ys| == |yw| && forall v :: v in xs ==> v !in ys
    ensures Bind(Bind(vals, xs, xw), ys, yw) == Bind(Bind(vals, ys, yw), xs, xw)
    decreases |xs|
  {
    if xs == [] {
    } else {
      BindPast(vals, xs[0], xw[0], ys, yw);
      BindsCommute(vals[xs[0] := xw[0]], xs[1..], xw[1..], ys, yw);
    }
  }

  /** Two instructions in a row. */
  function Two(
    env: Env, types: seq<Type>, slotX: Word, slotY: Word, x: InstData, y: InstData, vals: Values, w: World)
    : Option<(Values, World)>
  {
    match ExecInst(env, types, slotX, x, vals, w)
    case None => None
    case Some((vals', w')) => ExecInst(env, types, slotY, y, vals', w')
  }

  lemma TwoRun(
    env: Env, types: seq<Type>, slotX: Word, slotY: Word, x: InstData, y: InstData, vals: Values, w: World)
    requires Two(env, types, slotX, slotY, x, y, vals, w).Some? && Independent(x, y)
    ensures AllBound(vals, x.args) && AllBound(vals, y.args) && x.repair.Fits() && y.repair.Fits()
    ensures var both := Both(env, ActionOf(types, slotX, x, vals), ActionOf(types, slotY, y, vals), w);
            && both.Some? && |both.value.0| == |x.results| && |both.value.1| == |y.results|
            && Two(env, types, slotX, slotY, x, y, vals, w)
               == Some((Bind(Bind(vals, x.results, RepairFirst(x.repair, both.value.0)),
                             y.results, RepairFirst(y.repair, both.value.1)), both.value.2))
  {
    hide ExecInst, Exec;
    InstIsAction(env, types, slotX, x, vals, w);
    var (raw, w') := ActionOf(types, slotX, x, vals).Run(env, w).value;
    var words := RepairFirst(x.repair, raw);
    var vals' := Bind(vals, x.results, words);
    InstIsAction(env, types, slotY, y, vals', w');
    BindKeepsOthers(vals, x.results, words, y.args);
  }

  /** Two instructions that may change places end with the same values and, gas aside, the same world. */
  lemma PairExchanges(
    env: Env, types: seq<Type>, slotX: Word, slotY: Word, x: InstData, y: InstData, vals: Values, w: World)
    requires MayExchange(x, y)
    requires Two(env, types, slotX, slotY, x, y, vals, w).Some? && Two(env, types, slotY, slotX, y, x, vals, w).Some?
    ensures Two(env, types, slotY, slotX, y, x, vals, w).value.0 == Two(env, types, slotX, slotY, x, y, vals, w).value.0
    ensures Two(env, types, slotY, slotX, y, x, vals, w).value.1.Bare()
         == Two(env, types, slotX, slotY, x, y, vals, w).value.1.Bare()
  {
    hide ExecInst, Exec, Conflicts, Two, Both;
    TwoRun(env, types, slotX, slotY, x, y, vals, w);
    TwoRun(env, types, slotY, slotX, y, x, vals, w);
    var a, b := ActionOf(types, slotX, x, vals), ActionOf(types, slotY, y, vals);
    WorldsCommute(env, a, b, w);
    var both := Both(env, a, b, w).value;
    BindsCommute(vals, x.results, RepairFirst(x.repair, both.0), y.results, RepairFirst(y.repair, both.1));
  }

  lemma TwoIsBody(
    env: Env, types: seq<Type>, slotOf: seq<Value> -> Word, x: InstData, y: InstData, vals: Values, w: World)
    ensures RunBody(env, types, slotOf, [x, y], vals, w)
         == Two(env, types, slotOf(x.results), slotOf(y.results), x, y, vals, w)
  {
    hide ExecInst, RunBody;
    assert [x, y] == [x] + [y];
    RunConcat(env, types, slotOf, [x], [y], vals, w);
    OneIsBody(env, types, slotOf, x, vals, w);
    match ExecInst(env, types, slotOf(x.results), x, vals, w)
    case None =>
    case Some((v, u)) => OneIsBody(env, types, slotOf, y, v, u);
  }

  lemma OneIsBody(
    env: Env, types: seq<Type>, slotOf: seq<Value> -> Word, x: InstData, vals: Values, w: World)
    ensures RunBody(env, types, slotOf, [x], vals, w) == ExecInst(env, types, slotOf(x.results), x, vals, w)
  {
    hide ExecInst;
    assert [x][1..] == [];
  }

  /** A body that does not observe gas runs the same from worlds that differ only in it. */
  lemma RunBare(
    env: Env, types: seq<Type>, slotOf: seq<Value> -> Word, body: seq<InstData>, vals: Values, v: World, w: World)
    requires forall i :: 0 <= i < |body| ==> !ObservesGas(env, body[i].op)
    requires v.Bare() == w.Bare()
    requires RunBody(env, types, slotOf, body, vals, v).Some? && RunBody(env, types, slotOf, body, vals, w).Some?
    ensures RunBody(env, types, slotOf, body, vals, v).value.0 == RunBody(env, types, slotOf, body, vals, w).value.0
    ensures RunBody(env, types, slotOf, body, vals, v).value.1.Bare()
         == RunBody(env, types, slotOf, body, vals, w).value.1.Bare()
  {
    hide RunBody;
    if v.gas <= w.gas {
      assert w == v.Richer(w.gas - v.gas);
      RunShift(env, types, slotOf, body, vals, v, w.gas - v.gas);
    } else {
      assert v == w.Richer(v.gas - w.gas);
      RunShift(env, types, slotOf, body, vals, w, v.gas - w.gas);
    }
  }

  /**
   Exchanging two neighbours in a block. When both orders can be paid for and
   nothing behind the pair observes gas, the block ends with the same values and,
   gas aside, the same world.
   */
  lemma ExchangeKeepsBlock(
    env: Env, types: seq<Type>, slotOf: seq<Value> -> Word,
    before: seq<InstData>, x: InstData, y: InstData, after: seq<InstData>, vals: Values, w: World)
    requires MayExchange(x, y) && forall i :: 0 <= i < |after| ==> !ObservesGas(env, after[i].op)
    requires RunBody(env, types, slotOf, before + ([x, y] + after), vals, w).Some?
    requires RunBody(env, types, slotOf, before + ([y, x] + after), vals, w).Some?
    ensures var (v1, w1) := RunBody(env, types, slotOf, before + ([x, y] + after), vals, w).value;
            var (v2, w2) := RunBody(env, types, slotOf, before + ([y, x] + after), vals, w).value;
            v2 == v1 && w2.Bare() == w1.Bare()
  {
    hide RunBody, Two, MayExchange;
    RunConcat(env, types, slotOf, before, [x, y] + after, vals, w);
    RunConcat(env, types, slotOf, before, [y, x] + after, vals, w);
    var (v, u) := RunBody(env, types, slotOf, before, vals, w).value;
    RunConcat(env, types, slotOf, [x, y], after, v, u);
    RunConcat(env, types, slotOf, [y, x], after, v, u);
    TwoIsBody(env, types, slotOf, x, y, v, u);
    TwoIsBody(env, types, slotOf, y, x, v, u);
    PairExchanges(env, types, slotOf(x.results), slotOf(y.results), x, y, v, u);
    var (v', u1) := RunBody(env, types, slotOf, [x, y], v, u).value;
    var u2 := RunBody(env, types, slotOf, [y, x], v, u).value.1;
    RunBare(env, types, slotOf, after, v', u1, u2);
  }
}
