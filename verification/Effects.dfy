/** Effect sets: nine flags in a 16-bit word, and the set of each opcode. */
module Effects {
  import opened Isa

  datatype Flag =
    | ReadsMemory | WritesMemory | ReadsStorage | WritesStorage | ReadsTransient | WritesTransient
    | ReadsContext | Logs | External
  {
    function Bit(): bv16 {
      match this
      case ReadsMemory => 0x001
      case WritesMemory => 0x002
      case ReadsStorage => 0x004
      case WritesStorage => 0x008
      case ReadsTransient => 0x010
      case WritesTransient => 0x020
      case ReadsContext => 0x040
      case Logs => 0x080
      case External => 0x100
    }
  }

  datatype Effects = Effects(bits: bv16) {
    predicate Has(f: Flag) { bits & f.Bit() != 0 }

    function Union(other: Effects): Effects { Effects(bits | other.bits) }

    /** Inclusion of `other` in `this`. */
    predicate Contains(other: Effects) { bits & other.bits == other.bits }

    /** A common flag with `other`. */
    predicate Intersects(other: Effects) { bits & other.bits != 0 }

    predicate IsPure() { bits == 0 }

    /** The verdict the removal rule asks for. */
    predicate IsRemovable() { IsPure() }
  }

  const PURE: Effects := Effects(0)
  const READS_MEMORY: Effects := Effects(0x001)
  const WRITES_MEMORY: Effects := Effects(0x002)
  const READS_STORAGE: Effects := Effects(0x004)
  const WRITES_STORAGE: Effects := Effects(0x008)
  const READS_TRANSIENT: Effects := Effects(0x010)
  const WRITES_TRANSIENT: Effects := Effects(0x020)
  const READS_CONTEXT: Effects := Effects(0x040)
  const LOGS: Effects := Effects(0x080)
  const EXTERNAL: Effects := Effects(0x100)
  const ALL: Effects := Effects(0x1ff)

  /** By byte for memory and storage opcodes, by category for the others. */
  function OfOpcode(spec: OpSpec): Effects {
    match spec.byte
    case 0x20 => READS_MEMORY // KECCAK256
    case 0x51 => READS_MEMORY // MLOAD
    case 0x52 => WRITES_MEMORY // MSTORE
    case 0x53 => WRITES_MEMORY // MSTORE8
    case 0x59 => READS_MEMORY // MSIZE
    case 0x5e => READS_MEMORY.Union(WRITES_MEMORY) // MCOPY
    case 0x37 => READS_CONTEXT.Union(WRITES_MEMORY) // CALLDATACOPY
    case 0x39 => READS_CONTEXT.Union(WRITES_MEMORY) // CODECOPY
    case 0x3c => READS_CONTEXT.Union(WRITES_MEMORY) // EXTCODECOPY
    case 0x3e => READS_CONTEXT.Union(WRITES_MEMORY) // RETURNDATACOPY
    case 0x54 => READS_STORAGE // SLOAD
    case 0x55 => WRITES_STORAGE // SSTORE
    case 0x5c => READS_TRANSIENT // TLOAD
    case 0x5d => WRITES_TRANSIENT // TSTORE
    case _ => OfCategory(spec.category)
  }

  function OfCategory(category: OpCategory): Effects {
    match category
    case Arithmetic => PURE
    case Comparison => PURE
    case Bitwise => PURE
    case StackManip => PURE
    case Context => READS_CONTEXT
    case Block => READS_CONTEXT
    case Memory => READS_MEMORY.Union(WRITES_MEMORY)
    case Storage => READS_STORAGE.Union(WRITES_STORAGE)
    case Log => LOGS.Union(READS_MEMORY)
    case Call => EXTERNAL.Union(READS_MEMORY).Union(WRITES_MEMORY)
    case Control => ALL
    case Terminating => ALL
  }

  // ----- the bit operations are set operations -----

  lemma UnionIsUnion(a: Effects, b: Effects, f: Flag)
    ensures a.Union(b).Has(f) <==> a.Has(f) || b.Has(f)
  {
    OrMask(a.bits, b.bits, f.Bit());
  }

  lemma OrMask(x: bv16, y: bv16, mask: bv16)
    ensures (x | y) & mask != 0 <==> x & mask != 0 || y & mask != 0
  {
    assert (x | y) & mask == (x & mask) | (y & mask);
  }

  lemma ContainsIsSubset(a: Effects, b: Effects)
    requires ALL.Contains(b)
    ensures a.Contains(b) <==> forall f: Flag :: b.Has(f) ==> a.Has(f)
  {
    if a.Contains(b) {
      forall f: Flag | b.Has(f)
        ensures a.Has(f)
      {
        match f
        case _ =>
      }
    }
    if forall f: Flag :: b.Has(f) ==> a.Has(f) {
      EveryFlag(a, b);
    }
  }

  lemma EveryFlag(a: Effects, b: Effects)
    requires ALL.Contains(b) && forall f: Flag :: b.Has(f) ==> a.Has(f)
    ensures a.Contains(b)
  {
    assert b.Has(ReadsMemory) ==> a.Has(ReadsMemory);
    assert b.Has(WritesMemory) ==> a.Has(WritesMemory);
    assert b.Has(ReadsStorage) ==> a.Has(ReadsStorage);
    assert b.Has(WritesStorage) ==> a.Has(WritesStorage);
    assert b.Has(ReadsTransient) ==> a.Has(ReadsTransient);
    assert b.Has(WritesTransient) ==> a.Has(WritesTransient);
    assert b.Has(ReadsContext) ==> a.Has(ReadsContext);
    assert b.Has(Logs) ==> a.Has(Logs);
    assert b.Has(External) ==> a.Has(External);
  }

  lemma IntersectsIsOverlap(a: Effects, b: Effects)
    requires ALL.Contains(b)
    ensures a.Intersects(b) <==> exists f: Flag :: a.Has(f) && b.Has(f)
  {
    var both := Effects(a.bits & b.bits);
    AndBelow(a.bits, b.bits);
    hide Effects.Has;
    if forall f: Flag :: !(a.Has(f) && b.Has(f)) {
      NoFlagShared(a, b, both);
    } else {
      var f: Flag :| a.Has(f) && b.Has(f);
      FlagShared(a, b, both, f);
    }
  }

  lemma FlagShared(a: Effects, b: Effects, both: Effects, f: Flag)
    requires both.bits == a.bits & b.bits && a.Has(f) && b.Has(f)
    ensures both != PURE
  {
    match f
    case _ =>
  }

  lemma SharedBit(x: bv16, y: bv16, z: bv16, f: Flag)
    requires z == x & y && z & f.Bit() != 0
    ensures x & f.Bit() != 0 && y & f.Bit() != 0
  {
    match f
    case _ =>
  }

  lemma NoFlagShared(a: Effects, b: Effects, both: Effects)
    requires both.bits == a.bits & b.bits && ALL.Contains(both)
    requires forall f: Flag :: !(a.Has(f) && b.Has(f))
    ensures both == PURE
  {
    hide Effects.Has;
    forall f: Flag
      ensures !both.Has(f)
    {
      NotShared(a, b, both, f);
    }
    NoFlags(both);
  }

  lemma NotShared(a: Effects, b: Effects, both: Effects, f: Flag)
    requires both.bits == a.bits & b.bits
    requires !(a.Has(f) && b.Has(f))
    ensures !both.Has(f)
  {
    if both.Has(f) {
      SharedBit(a.bits, b.bits, both.bits, f);
    }
  }

  lemma AndBelow(x: bv16, y: bv16)
    requires 0x1ff & y == y
    ensures 0x1ff & (x & y) == x & y
  {
  }

  lemma NoFlags(e: Effects)
    requires ALL.Contains(e) && forall f: Flag :: !e.Has(f)
    ensures e == PURE
  {
    assert !e.Has(ReadsMemory) && !e.Has(WritesMemory) && !e.Has(ReadsStorage);
    assert !e.Has(WritesStorage) && !e.Has(ReadsTransient) && !e.Has(WritesTransient);
    assert !e.Has(ReadsContext) && !e.Has(Logs) && !e.Has(External);
  }

  /** The row belongs to a family the escape hatch keeps out, so it is answered with every flag. */
  predicate OutOfReach(category: OpCategory) { category.Control? || category.Terminating? }

  /** Each flag of each row, by what the opcode touches; calls and creations read and write memory besides. */
  lemma FlagsOfRow(b: Byte)
    requires ByByte(b).Some?
    ensures var (e, logs) := (OfOpcode(ByByte(b).value), 0xa0 <= b <= 0xa4);
            var calls := b in {0xf0, 0xf1, 0xf2, 0xf4, 0xf5, 0xfa};
            if OutOfReach(ByByte(b).value.category) then forall f: Flag :: e.Has(f)
            else
              && (e.Has(External) <==> calls)
              && (e.Has(Logs) <==> logs)
              && (e.Has(ReadsMemory) <==> calls || logs || b in {0x20, 0x51, 0x59, 0x5e})
              && (e.Has(WritesMemory) <==> calls || b in {0x37, 0x39, 0x3c, 0x3e, 0x52, 0x53, 0x5e})
              && (e.Has(ReadsStorage) <==> b == 0x54) && (e.Has(WritesStorage) <==> b == 0x55)
              && (e.Has(ReadsTransient) <==> b == 0x5c) && (e.Has(WritesTransient) <==> b == 0x5d)
              && (e.Has(ReadsContext) <==> 0x30 <= b < 0x50 || b == 0x5a)
  {
    MemoryFlagsOfRow(b);
    hide Effects.Has;
    if !OutOfReach(ByByte(b).value.category) {
      StateFlagsOfRow(b);
      ContextFlagsOfRow(b);
    }
  }

  lemma MemoryFlagsOfRow(b: Byte)
    requires ByByte(b).Some?
    ensures var (e, calls) := (OfOpcode(ByByte(b).value), b in {0xf0, 0xf1, 0xf2, 0xf4, 0xf5, 0xfa});
            if OutOfReach(ByByte(b).value.category) then forall f: Flag :: e.Has(f)
            else
              && (e.Has(External) <==> calls)
              && (e.Has(ReadsMemory) <==> calls || 0xa0 <= b <= 0xa4 || b in {0x20, 0x51, 0x59, 0x5e})
              && (e.Has(WritesMemory) <==> calls || b in {0x37, 0x39, 0x3c, 0x3e, 0x52, 0x53, 0x5e})
  {
  }

  lemma StateFlagsOfRow(b: Byte)
    requires ByByte(b).Some? && !OutOfReach(ByByte(b).value.category)
    ensures var e := OfOpcode(ByByte(b).value);
            && (e.Has(ReadsStorage) <==> b == 0x54) && (e.Has(WritesStorage) <==> b == 0x55)
            && (e.Has(ReadsTransient) <==> b == 0x5c) && (e.Has(WritesTransient) <==> b == 0x5d)
  {
  }

  lemma ContextFlagsOfRow(b: Byte)
    requires ByByte(b).Some? && !OutOfReach(ByByte(b).value.category)
    ensures var e := OfOpcode(ByByte(b).value);
            && (e.Has(Logs) <==> 0xa0 <= b <= 0xa4)
            && (e.Has(ReadsContext) <==> 0x30 <= b < 0x50 || b == 0x5a)
  {
  }

  /** An opcode comes back pure exactly when its category says it computes from its operands alone. */
  lemma PureOpcodes(b: Byte)
    requires ByByte(b).Some?
    ensures OfOpcode(ByByte(b).value).IsPure() <==>
            ByByte(b).value.category in {Arithmetic, Comparison, Bitwise, StackManip}
    ensures ALL.Contains(OfOpcode(ByByte(b).value))
  {
  }
}
