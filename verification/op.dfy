/**
 * The instruction set of the stack VM and its byte encoding
 * (src/bytecode/op.rs): one tag byte per instruction kind, followed by
 * no operand, one unsigned byte, or one big-endian signed 16-bit offset.
 */
module Ops {
  import opened Wrappers

  /** An unsigned byte (`u8`). */
  type u8 = x: int | 0 <= x < 0x100

  /** A two's-complement 16-bit signed integer (`i16`). */
  type i16 = x: int | -0x8000 <= x < 0x8000

  /**
   * The 33 instruction kinds. The byte-operand kinds share the destructor
   * `arg` (an index into the constant pool, the globals or the locals, or a
   * count); the five jumps share `offset`, a relative byte distance.
   */
  datatype Op =
    | Return
    | Pop
    | PopN(arg: u8)
    | Constant(arg: u8)
    | Nil
    | False
    | True
    | Call(arg: u8)
    | Index
    | Func(arg: u8)
    | LocalGet(arg: u8)
    | LocalSet(arg: u8)
    | GlobalDefine(arg: u8)
    | GlobalGet(arg: u8)
    | GlobalSet(arg: u8)
    | Not
    | Eq
    | Ne
    | Gt
    | Ge
    | Lt
    | Le
    | Neg
    | Add
    | Sub
    | Mul
    | Div
    | Rem
    | Jump(offset: i16)
    | JumpFalsePeek(offset: i16)
    | JumpFalsePop(offset: i16)
    | JumpTruePeek(offset: i16)
    | JumpTruePop(offset: i16)

  /** Decoding failures: an unmapped tag, or operand bytes cut off by the end of the slice. */
  datatype OpError =
    | UnknownOpcode(opcode: u8)
    | MissingByte(op: Op, b: nat)

  /** The three operand shapes. */
  datatype Shape = NoOperand | ByteOperand | WordOperand

  function ShapeOf(op: Op): Shape {
    if op.PopN? || op.Constant? || op.Call? || op.Func? || op.LocalGet? || op.LocalSet?
       || op.GlobalDefine? || op.GlobalGet? || op.GlobalSet?
    then ByteOperand
    else if op.Jump? || op.JumpFalsePeek? || op.JumpFalsePop? || op.JumpTruePeek? || op.JumpTruePop?
    then WordOperand
    else NoOperand
  }

  /** The wire discriminant of each kind (the enum's `#[repr(u8)]` values). */
  function Tag(op: Op): u8 {
    match op
    case Return => 0x00
    case Pop => 0x01
    case PopN(_) => 0x02
    case Constant(_) => 0x03
    case Nil => 0x04
    case False => 0x05
    case True => 0x06
    case Call(_) => 0x10
    case Index => 0x11
    case Func(_) => 0x12
    case LocalGet(_) => 0x20
    case LocalSet(_) => 0x21
    case GlobalDefine(_) => 0x22
    case GlobalGet(_) => 0x23
    case GlobalSet(_) => 0x24
    case Not => 0x30
    case Eq => 0x31
    case Ne => 0x32
    case Gt => 0x33
    case Ge => 0x34
    case Lt => 0x35
    case Le => 0x36
    case Neg => 0x37
    case Add => 0x38
    case Sub => 0x39
    case Mul => 0x3a
    case Div => 0x3b
    case Rem => 0x3c
    case Jump(_) => 0x60
    case JumpFalsePeek(_) => 0x61
    case JumpFalsePop(_) => 0x62
    case JumpTruePeek(_) => 0x63
    case JumpTruePop(_) => 0x64
  }

  /** The kind of `op` with its operand, if any, set to zero. */
  function Zeroed(op: Op): (k: Op)
    ensures Tag(k) == Tag(op) && ShapeOf(k) == ShapeOf(op)
    ensures ShapeOf(op) == NoOperand ==> k == op
    ensures ShapeOf(op) == ByteOperand ==> k.arg == 0
    ensures ShapeOf(op) == WordOperand ==> k.offset == 0
  {
    match op
    case PopN(_) => PopN(0)
    case Constant(_) => Constant(0)
    case Call(_) => Call(0)
    case Func(_) => Func(0)
    case LocalGet(_) => LocalGet(0)
    case LocalSet(_) => LocalSet(0)
    case GlobalDefine(_) => GlobalDefine(0)
    case GlobalGet(_) => GlobalGet(0)
    case GlobalSet(_) => GlobalSet(0)
    case Jump(_) => Jump(0)
    case JumpFalsePeek(_) => JumpFalsePeek(0)
    case JumpFalsePop(_) => JumpFalsePop(0)
    case JumpTruePeek(_) => JumpTruePeek(0)
    case JumpTruePop(_) => JumpTruePop(0)
    case _ => op
  }

  /**
   * The partial inverse of `Tag`: the kind a tag byte names, its operand
   * zeroed (the operand is filled with its default value), or None for an
   * unmapped byte.
   */
  function FromTag(t: u8): Option<Op> {
    match t
    case 0x00 => Some(Return)
    case 0x01 => Some(Pop)
    case 0x02 => Some(PopN(0))
    case 0x03 => Some(Constant(0))
    case 0x04 => Some(Nil)
    case 0x05 => Some(False)
    case 0x06 => Some(True)
    case 0x10 => Some(Call(0))
    case 0x11 => Some(Index)
    case 0x12 => Some(Func(0))
    case 0x20 => Some(LocalGet(0))
    case 0x21 => Some(LocalSet(0))
    case 0x22 => Some(GlobalDefine(0))
    case 0x23 => Some(GlobalGet(0))
    case 0x24 => Some(GlobalSet(0))
    case 0x30 => Some(Not)
    case 0x31 => Some(Eq)
    case 0x32 => Some(Ne)
    case 0x33 => Some(Gt)
    case 0x34 => Some(Ge)
    case 0x35 => Some(Lt)
    case 0x36 => Some(Le)
    case 0x37 => Some(Neg)
    case 0x38 => Some(Add)
    case 0x39 => Some(Sub)
    case 0x3a => Some(Mul)
    case 0x3b => Some(Div)
    case 0x3c => Some(Rem)
    case 0x60 => Some(Jump(0))
    case 0x61 => Some(JumpFalsePeek(0))
    case 0x62 => Some(JumpFalsePop(0))
    case 0x63 => Some(JumpTruePeek(0))
    case 0x64 => Some(JumpTruePop(0))
    case _ => None
  }

  /** The tags of the no-operand, byte-operand and jump kinds, each list in increasing order. */
  const NoOperandTags: seq<u8> :=
    [0x00, 0x01, 0x04, 0x05, 0x06, 0x11, 0x30, 0x31, 0x32, 0x33, 0x34, 0x35, 0x36,
     0x37, 0x38, 0x39, 0x3a, 0x3b, 0x3c]
  const ByteOperandTags: seq<u8> := [0x02, 0x03, 0x10, 0x12, 0x20, 0x21, 0x22, 0x23, 0x24]
  const WordOperandTags: seq<u8> := [0x60, 0x61, 0x62, 0x63, 0x64]

  /** `i16::to_be_bytes`: high byte, then low byte, of the two's-complement value. */
  function BeBytes(w: i16): (r: seq<u8>)
    ensures |r| == 2
    ensures (r[0] as int * 0x100 + r[1]) % 0x1_0000 == w % 0x1_0000
    ensures r[0] >= 0x80 <==> w < 0
  {
    var u := if w < 0 then w + 0x1_0000 else w;
    [u / 0x100, u % 0x100]
  }

  /** `i16::from_be_bytes`: reassemble a two's-complement value from its high and low bytes. */
  function FromBeBytes(hi: u8, lo: u8): (w: i16)
    ensures w % 0x1_0000 == (hi as int * 0x100 + lo) % 0x1_0000
    ensures w < 0 <==> hi >= 0x80
  {
    var u := hi as int * 0x100 + lo;
    if u >= 0x8000 then u - 0x1_0000 else u
  }

  /** `Op::to_bytes`: the tag followed by the operand bytes. */
  function ToBytes(op: Op): seq<u8> {
    [Tag(op)] +
    match ShapeOf(op)
    case NoOperand => []
    case ByteOperand => [op.arg]
    case WordOperand => BeBytes(op.offset)
  }

  /** `Op::size_bytes`: the length of the encoding, fixed by the operand shape. */
  function SizeBytes(op: Op): (n: nat)
    ensures n == match ShapeOf(op)
                 case NoOperand => 1
                 case ByteOperand => 2
                 case WordOperand => 3
  {
    |ToBytes(op)|
  }

  /**
   * `Op::scan`: decode one instruction from the front of `code`. An empty
   * slice is the end of the stream, not an error. A successful decode is
   * sound: the bytes it read are exactly the encoding of what it returns.
   */
  function Scan(code: seq<u8>): (r: Result<Option<Op>, OpError>)
    ensures r == Ok(None) <==> code == []
    ensures |code| > 0 && FromTag(code[0]).None? ==> r == Err(UnknownOpcode(code[0]))
    ensures r.Err? && r.error.UnknownOpcode? ==> FromTag(code[0]).None? && r.error.opcode == code[0]
    ensures r.Ok? && r.value.Some? ==>
      SizeBytes(r.value.value) <= |code| && code[..SizeBytes(r.value.value)] == ToBytes(r.value.value)
    ensures r.Err? && r.error.MissingByte? ==>
      FromTag(code[0]) == Some(r.error.op) && r.error.b == |code| < SizeBytes(r.error.op)
  {
    if |code| == 0 then Ok(None)
    else
      match FromTag(code[0])
      case None => Err(UnknownOpcode(code[0]))
      case Some(op) =>
        TagOfFromTag(code[0]);
        match ShapeOf(op)
        case NoOperand => Ok(Some(op))
        case ByteOperand =>
          if |code| < 2 then Err(MissingByte(op, 1))
          else Ok(Some(op.(arg := code[1])))
        case WordOperand =>
          if |code| < 2 then Err(MissingByte(op, 1))
          else if |code| < 3 then Err(MissingByte(op, 2))
          else
            var w := FromBeBytes(code[1], code[2]);
            assert BeBytes(w) == code[1..3] by { BeBytesOfFromBeBytes(code[1], code[2]); }
            Ok(Some(op.(offset := w)))
  }

  // ---------------------------------------------------------------------------
  // The tag table

  /** Every kind's tag leads back to that kind. */
  lemma FromTagOfTag(op: Op)
    ensures FromTag(Tag(op)) == Some(Zeroed(op))
  {
  }

  /** A mapped tag names a kind whose tag it is. */
  lemma TagOfFromTag(t: u8)
    ensures FromTag(t).Some? ==> Tag(FromTag(t).value) == t
  {
  }

  /** Two instructions have the same tag exactly when they are of the same kind. */
  lemma TagInjective(a: Op, b: Op)
    ensures Tag(a) == Tag(b) <==> Zeroed(a) == Zeroed(b)
  {
    FromTagOfTag(a);
    FromTagOfTag(b);
  }

  /** The no-operand tags, spelled out one by one. */
  lemma NoOperandTagCases(t: u8)
    requires t in NoOperandTags
    ensures t == 0x00 || t == 0x01 || t == 0x04 || t == 0x05 || t == 0x06 || t == 0x11
         || t == 0x30 || t == 0x31 || t == 0x32 || t == 0x33 || t == 0x34 || t == 0x35
         || t == 0x36 || t == 0x37 || t == 0x38 || t == 0x39 || t == 0x3a || t == 0x3b
         || t == 0x3c
  {
  }

  /** Each of the spelled-out no-operand tags names a kind without operand. */
  lemma NoOperandTagsMapped(t: u8)
    requires t == 0x00 || t == 0x01 || t == 0x04 || t == 0x05 || t == 0x06 || t == 0x11
          || t == 0x30 || t == 0x31 || t == 0x32 || t == 0x33 || t == 0x34 || t == 0x35
          || t == 0x36 || t == 0x37 || t == 0x38 || t == 0x39 || t == 0x3a || t == 0x3b
          || t == 0x3c
    ensures FromTag(t).Some? && ShapeOf(FromTag(t).value) == NoOperand
  {
  }

  /** The tag table: the no-operand kinds are exactly those with a tag in `NoOperandTags`. */
  lemma NoOperandTagTable(t: u8)
    ensures FromTag(t).Some? && ShapeOf(FromTag(t).value) == NoOperand <==> t in NoOperandTags
  {
    if t in NoOperandTags {
      NoOperandTagCases(t);
      NoOperandTagsMapped(t);
    }
  }

  /** The byte-operand kinds are exactly those with a tag in `ByteOperandTags`. */
  lemma ByteOperandTagTable(t: u8)
    ensures FromTag(t).Some? && ShapeOf(FromTag(t).value) == ByteOperand <==> t in ByteOperandTags
  {
  }

  /** The jumps are exactly the kinds with a tag in `WordOperandTags`. */
  lemma WordOperandTagTable(t: u8)
    ensures FromTag(t).Some? && ShapeOf(FromTag(t).value) == WordOperand <==> t in WordOperandTags
  {
  }

  /** A tag list in strictly increasing order, so without repetitions. */
  predicate Increasing(s: seq<u8>) {
    forall i, j :: 0 <= i < j < |s| ==> s[i] < s[j]
  }

  /** 19 kinds without operand, 9 with a byte operand, 5 jumps: 33 distinct tags. */
  lemma TagTableCounts()
    ensures |NoOperandTags| == 19 && Increasing(NoOperandTags)
    ensures |ByteOperandTags| == 9 && Increasing(ByteOperandTags)
    ensures |WordOperandTags| == 5 && Increasing(WordOperandTags)
    ensures forall t :: t in NoOperandTags ==> t !in ByteOperandTags && t !in WordOperandTags
    ensures forall t :: t in ByteOperandTags ==> t !in WordOperandTags
  {
    forall t | t in NoOperandTags
      ensures t !in ByteOperandTags && t !in WordOperandTags
    {
      NoOperandTagTable(t);
      ByteOperandTagTable(t);
      WordOperandTagTable(t);
    }
    forall t | t in ByteOperandTags
      ensures t !in WordOperandTags
    {
      ByteOperandTagTable(t);
      WordOperandTagTable(t);
    }
  }

  // ---------------------------------------------------------------------------
  // The jump operand

  /** Decoding the big-endian bytes of a jump offset gives the offset back. */
  lemma FromBeBytesOfBeBytes(w: i16)
    ensures FromBeBytes(BeBytes(w)[0], BeBytes(w)[1]) == w
  {
  }

  /** Every pair of bytes is the big-endian encoding of exactly one offset. */
  lemma BeBytesOfFromBeBytes(hi: u8, lo: u8)
    ensures BeBytes(FromBeBytes(hi, lo)) == [hi, lo]
  {
  }

  // ---------------------------------------------------------------------------
  // Encoding and decoding

  /** The wire layout: the kind's tag, then nothing, the `u8` operand, or the offset's big-endian bytes. */
  lemma ToBytesStartsWithTag(op: Op)
    ensures 1 <= |ToBytes(op)| && ToBytes(op)[0] == Tag(op)
    ensures ShapeOf(op) == NoOperand ==> |ToBytes(op)| == 1
    ensures ShapeOf(op) == ByteOperand ==> ToBytes(op)[1] == op.arg
    ensures ShapeOf(op) == WordOperand ==> ToBytes(op)[1..] == BeBytes(op.offset)
  {
  }

  /**
   * Round trip: scanning an encoding returns the instruction, whatever
   * follows it, so scanning reads no further than `SizeBytes(op)` bytes.
   */
  lemma ScanToBytes(op: Op, suffix: seq<u8>)
    ensures Scan(ToBytes(op) + suffix) == Ok(Some(op))
  {
    var code := ToBytes(op) + suffix;
    FromTagOfTag(op);
    assert code[0] == Tag(op);
    match ShapeOf(op)
    case NoOperand =>
    case ByteOperand =>
      assert code[1] == op.arg;
    case WordOperand =>
      FromBeBytesOfBeBytes(op.offset);
      assert code[1..3] == BeBytes(op.offset);
  }

  /** Cutting an encoding short after `k` bytes reports the first missing byte, `k`. */
  lemma ScanTruncated(op: Op, k: nat)
    requires 1 <= k < SizeBytes(op)
    ensures Scan(ToBytes(op)[..k]) == Err(MissingByte(Zeroed(op), k))
  {
    FromTagOfTag(op);
    assert ToBytes(op)[..k][0] == Tag(op);
  }

  /** An unmapped leading byte is reported, carrying that byte, whatever follows it. */
  lemma ScanUnknown(t: u8, rest: seq<u8>)
    requires t !in NoOperandTags && t !in ByteOperandTags && t !in WordOperandTags
    ensures Scan([t] + rest) == Err(UnknownOpcode(t))
  {
    NoOperandTagTable(t);
    ByteOperandTagTable(t);
    WordOperandTagTable(t);
  }
}
