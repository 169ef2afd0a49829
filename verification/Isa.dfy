/**
 The canonical opcode table: byte values, arities, categories and fork gates.

 Mnemonics are interned: a spelling the table lists is represented by the byte
 of the row that lists it, and every other spelling is `Unlisted`.
 */
module Isa {

  type Byte = x: int | 0 <= x < 256 witness 0

  datatype Option<+T> = None | Some(value: T)

  /** Hardforks in chronological order. */
  datatype Fork =
    | Frontier | Homestead | Byzantium | Constantinople | Istanbul
    | Berlin | London | Shanghai | Cancun | Prague
  {
    function Rank(): nat {
      match this
      case Frontier => 0
      case Homestead => 1
      case Byzantium => 2
      case Constantinople => 3
      case Istanbul => 4
      case Berlin => 5
      case London => 6
      case Shanghai => 7
      case Cancun => 8
      case Prague => 9
    }

    predicate AtMost(other: Fork) { Rank() <= other.Rank() }
  }

  datatype OpCategory =
    | Arithmetic | Comparison | Bitwise | Storage | Memory | Context
    | Block | Control | StackManip | Call | Log | Terminating

  datatype Mnemonic = Listed(byte: Byte) | Unlisted(text: string)

  datatype OpSpec = OpSpec(
    byte: Byte, stackIn: nat, stackOut: nat, terminating: bool, category: OpCategory, minFork: Fork)
  {
    function Mnemonic(): Mnemonic { Listed(byte) }
  }

  const JUMPDEST: Byte := 0x5b
  const PUSH0: Byte := 0x5f
  const PUSH2: Byte := 0x61
  const CODECOPY: Byte := 0x39
  const RETURN: Byte := 0xf3

  /** The table row for a byte, if it has one. */
  function ByByte(b: Byte): (r: Option<OpSpec>)
    ensures r.Some? ==> r.value.byte == b
  {
    if 0x60 <= b <= 0x7f then // PUSH1-PUSH32
      Some(OpSpec(b, 0, 1, false, StackManip, Frontier))
    else if 0x80 <= b <= 0x8f then // DUP1-DUP16
      Some(OpSpec(b, b - 0x7f, b - 0x7f + 1, false, StackManip, Frontier))
    else if 0x90 <= b <= 0x9f then // SWAP1-SWAP16
      Some(OpSpec(b, b - 0x8f + 1, b - 0x8f + 1, false, StackManip, Frontier))
    else if b < 0x20 then ArithmeticRow(b)
    else if b < 0x50 then EnvironmentRow(b)
    else if b < 0x60 then StateRow(b)
    else SystemRow(b)
  }

  /** 0x00-0x1f: stop, arithmetic, comparison and bitwise. */
  function ArithmeticRow(b: Byte): (r: Option<OpSpec>)
    ensures r.Some? ==> r.value.byte == b
  {
    match b
    case 0x00 => Some(OpSpec(0x00, 0, 0, true, Terminating, Frontier)) // STOP
    case 0x01 => Some(OpSpec(0x01, 2, 1, false, Arithmetic, Frontier)) // ADD
    case 0x02 => Some(OpSpec(0x02, 2, 1, false, Arithmetic, Frontier)) // MUL
    case 0x03 => Some(OpSpec(0x03, 2, 1, false, Arithmetic, Frontier)) // SUB
    case 0x04 => Some(OpSpec(0x04, 2, 1, false, Arithmetic, Frontier)) // DIV
    case 0x05 => Some(OpSpec(0x05, 2, 1, false, Arithmetic, Frontier)) // SDIV
    case 0x06 => Some(OpSpec(0x06, 2, 1, false, Arithmetic, Frontier)) // MOD
    case 0x07 => Some(OpSpec(0x07, 2, 1, false, Arithmetic, Frontier)) // SMOD
    case 0x08 => Some(OpSpec(0x08, 3, 1, false, Arithmetic, Frontier)) // ADDMOD
    case 0x09 => Some(OpSpec(0x09, 3, 1, false, Arithmetic, Frontier)) // MULMOD
    case 0x0a => Some(OpSpec(0x0a, 2, 1, false, Arithmetic, Frontier)) // EXP
    case 0x0b => Some(OpSpec(0x0b, 2, 1, false, Arithmetic, Frontier)) // SIGNEXTEND
    case 0x10 => Some(OpSpec(0x10, 2, 1, false, Comparison, Frontier)) // LT
    case 0x11 => Some(OpSpec(0x11, 2, 1, false, Comparison, Frontier)) // GT
    case 0x12 => Some(OpSpec(0x12, 2, 1, false, Comparison, Frontier)) // SLT
    case 0x13 => Some(OpSpec(0x13, 2, 1, false, Comparison, Frontier)) // SGT
    case 0x14 => Some(OpSpec(0x14, 2, 1, false, Comparison, Frontier)) // EQ
    case 0x15 => Some(OpSpec(0x15, 1, 1, false, Comparison, Frontier)) // ISZERO
    case 0x16 => Some(OpSpec(0x16, 2, 1, false, Bitwise, Frontier)) // AND
    case 0x17 => Some(OpSpec(0x17, 2, 1, false, Bitwise, Frontier)) // OR
    case 0x18 => Some(OpSpec(0x18, 2, 1, false, Bitwise, Frontier)) // XOR
    case 0x19 => Some(OpSpec(0x19, 1, 1, false, Bitwise, Frontier)) // NOT
    case 0x1a => Some(OpSpec(0x1a, 2, 1, false, Bitwise, Frontier)) // BYTE
    case 0x1b => Some(OpSpec(0x1b, 2, 1, false, Bitwise, Constantinople)) // SHL
    case 0x1c => Some(OpSpec(0x1c, 2, 1, false, Bitwise, Constantinople)) // SHR
    case 0x1d => Some(OpSpec(0x1d, 2, 1, false, Bitwise, Constantinople)) // SAR
    case _ => None
  }

  /** 0x20-0x4f: hashing, environment and block information. */
  function EnvironmentRow(b: Byte): (r: Option<OpSpec>)
    ensures r.Some? ==> r.value.byte == b
  {
    match b
    case 0x20 => Some(OpSpec(0x20, 2, 1, false, Memory, Frontier)) // KECCAK256
    case 0x30 => Some(OpSpec(0x30, 0, 1, false, Context, Frontier)) // ADDRESS
    case 0x31 => Some(OpSpec(0x31, 1, 1, false, Context, Frontier)) // BALANCE
    case 0x32 => Some(OpSpec(0x32, 0, 1, false, Context, Frontier)) // ORIGIN
    case 0x33 => Some(OpSpec(0x33, 0, 1, false, Context, Frontier)) // CALLER
    case 0x34 => Some(OpSpec(0x34, 0, 1, false, Context, Frontier)) // CALLVALUE
    case 0x35 => Some(OpSpec(0x35, 1, 1, false, Context, Frontier)) // CALLDATALOAD
    case 0x36 => Some(OpSpec(0x36, 0, 1, false, Context, Frontier)) // CALLDATASIZE
    case 0x37 => Some(OpSpec(0x37, 3, 0, false, Context, Frontier)) // CALLDATACOPY
    case 0x38 => Some(OpSpec(0x38, 0, 1, false, Context, Frontier)) // CODESIZE
    case 0x39 => Some(OpSpec(0x39, 3, 0, false, Context, Frontier)) // CODECOPY
    case 0x3a => Some(OpSpec(0x3a, 0, 1, false, Context, Frontier)) // GASPRICE
    case 0x3b => Some(OpSpec(0x3b, 1, 1, false, Context, Frontier)) // EXTCODESIZE
    case 0x3c => Some(OpSpec(0x3c, 4, 0, false, Context, Frontier)) // EXTCODECOPY
    case 0x3d => Some(OpSpec(0x3d, 0, 1, false, Context, Byzantium)) // RETURNDATASIZE
    case 0x3e => Some(OpSpec(0x3e, 3, 0, false, Context, Byzantium)) // RETURNDATACOPY
    case 0x3f => Some(OpSpec(0x3f, 1, 1, false, Context, Constantinople)) // EXTCODEHASH
    case 0x40 => Some(OpSpec(0x40, 1, 1, false, Block, Frontier)) // BLOCKHASH
    case 0x41 => Some(OpSpec(0x41, 0, 1, false, Block, Frontier)) // COINBASE
    case 0x42 => Some(OpSpec(0x42, 0, 1, false, Block, Frontier)) // TIMESTAMP
    case 0x43 => Some(OpSpec(0x43, 0, 1, false, Block, Frontier)) // NUMBER
    case 0x44 => Some(OpSpec(0x44, 0, 1, false, Block, Frontier)) // PREVRANDAO
    case 0x45 => Some(OpSpec(0x45, 0, 1, false, Block, Frontier)) // GASLIMIT
    case 0x46 => Some(OpSpec(0x46, 0, 1, false, Block, Istanbul)) // CHAINID
    case 0x47 => Some(OpSpec(0x47, 0, 1, false, Context, Istanbul)) // SELFBALANCE
    case 0x48 => Some(OpSpec(0x48, 0, 1, false, Block, London)) // BASEFEE
    case 0x49 => Some(OpSpec(0x49, 1, 1, false, Block, Cancun)) // BLOBHASH
    case 0x4a => Some(OpSpec(0x4a, 0, 1, false, Block, Cancun)) // BLOBBASEFEE
    case _ => None
  }

  /** 0x50-0x5f: stack, memory, storage and flow, and `PUSH0`. */
  function StateRow(b: Byte): (r: Option<OpSpec>)
    ensures r.Some? ==> r.value.byte == b
  {
    match b
    case 0x50 => Some(OpSpec(0x50, 1, 0, false, StackManip, Frontier)) // POP
    case 0x51 => Some(OpSpec(0x51, 1, 1, false, Memory, Frontier)) // MLOAD
    case 0x52 => Some(OpSpec(0x52, 2, 0, false, Memory, Frontier)) // MSTORE
    case 0x53 => Some(OpSpec(0x53, 2, 0, false, Memory, Frontier)) // MSTORE8
    case 0x54 => Some(OpSpec(0x54, 1, 1, false, Storage, Frontier)) // SLOAD
    case 0x55 => Some(OpSpec(0x55, 2, 0, false, Storage, Frontier)) // SSTORE
    case 0x56 => Some(OpSpec(0x56, 1, 0, false, Control, Frontier)) // JUMP
    case 0x57 => Some(OpSpec(0x57, 2, 0, false, Control, Frontier)) // JUMPI
    case 0x58 => Some(OpSpec(0x58, 0, 1, false, Control, Frontier)) // PC
    case 0x59 => Some(OpSpec(0x59, 0, 1, false, Memory, Frontier)) // MSIZE
    case 0x5a => Some(OpSpec(0x5a, 0, 1, false, Context, Frontier)) // GAS
    case 0x5b => Some(OpSpec(0x5b, 0, 0, false, Control, Frontier)) // JUMPDEST
    case 0x5c => Some(OpSpec(0x5c, 1, 1, false, Storage, Cancun)) // TLOAD
    case 0x5d => Some(OpSpec(0x5d, 2, 0, false, Storage, Cancun)) // TSTORE
    case 0x5e => Some(OpSpec(0x5e, 3, 0, false, Memory, Cancun)) // MCOPY
    case 0x5f => Some(OpSpec(0x5f, 0, 1, false, StackManip, Shanghai)) // PUSH0
    case _ => None
  }

  /** 0xa0-0xff: logging and system operations. */
  function SystemRow(b: Byte): (r: Option<OpSpec>)
    ensures r.Some? ==> r.value.byte == b
  {
    match b
    case 0xa0 => Some(OpSpec(0xa0, 2, 0, false, Log, Frontier)) // LOG0
    case 0xa1 => Some(OpSpec(0xa1, 3, 0, false, Log, Frontier)) // LOG1
    case 0xa2 => Some(OpSpec(0xa2, 4, 0, false, Log, Frontier)) // LOG2
    case 0xa3 => Some(OpSpec(0xa3, 5, 0, false, Log, Frontier)) // LOG3
    case 0xa4 => Some(OpSpec(0xa4, 6, 0, false, Log, Frontier)) // LOG4
    case 0xf0 => Some(OpSpec(0xf0, 3, 1, false, Call, Frontier)) // CREATE
    case 0xf1 => Some(OpSpec(0xf1, 7, 1, false, Call, Frontier)) // CALL
    case 0xf2 => Some(OpSpec(0xf2, 7, 1, false, Call, Frontier)) // CALLCODE
    case 0xf3 => Some(OpSpec(0xf3, 2, 0, true, Terminating, Frontier)) // RETURN
    case 0xf4 => Some(OpSpec(0xf4, 6, 1, false, Call, Homestead)) // DELEGATECALL
    case 0xf5 => Some(OpSpec(0xf5, 4, 1, false, Call, Constantinople)) // CREATE2
    case 0xfa => Some(OpSpec(0xfa, 6, 1, false, Call, Byzantium)) // STATICCALL
    case 0xfd => Some(OpSpec(0xfd, 2, 0, true, Terminating, Byzantium)) // REVERT
    case 0xfe => Some(OpSpec(0xfe, 0, 0, true, Terminating, Frontier)) // INVALID
    case 0xff => Some(OpSpec(0xff, 1, 0, true, Terminating, Frontier)) // SELFDESTRUCT
    case _ => None
  }

  function ByMnemonic(m: Mnemonic): Option<OpSpec> {
    match m
    case Listed(b) => ByByte(b)
    case Unlisted(_) => None
  }

  datatype OpForm = Simple | Push(width: nat) | Dup(depth: nat) | Swap(depth: nat)

  /** Whether a byte pushes, duplicates or swaps, and how wide or deep. */
  function FormOf(b: Byte): OpForm {
    if b == 0x5f then Push(0)
    else if 0x60 <= b <= 0x7f then Push(b - 0x5f)
    else if 0x80 <= b <= 0x8f then Dup(b - 0x7f)
    else if 0x90 <= b <= 0x9f then Swap(b - 0x8f)
    else Simple
  }
}
