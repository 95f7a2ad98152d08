/**
 * The bytecode chunk (src/bytecode/chunk.rs): a code buffer of encoded
 * instructions and an append-only constant pool, built by a compiler one
 * call at a time.
 */
module Chunks {
  import opened Wrappers
  import opened Ops

  /** An unsigned 64-bit integer (`u64`). */
  type u64 = x: int | 0 <= x < 0x1_0000_0000_0000_0000

  /** A 64-bit float, kept as its bit pattern: the model does no float arithmetic. */
  datatype F64 = F64(bits: u64)

  /** A literal in the constant pool. */
  datatype Constant =
    | Integer(n: u64)
    | Float(f: F64)
    | String(s: string)

  // ---------------------------------------------------------------------------
  // Stepping through a code buffer

  /** The code buffer that pushing `ops`, in order, onto an empty chunk produces. */
  function Encode(ops: seq<Op>): seq<u8> {
    if ops == [] then [] else ToBytes(ops[0]) + Encode(ops[1..])
  }

  /**
   * Decode a whole code buffer by scanning one instruction at the front and
   * advancing by its size, until the buffer is used up. The first decoding
   * error ends the walk: nothing after it is skipped or resynchronised.
   */
  function ScanAll(code: seq<u8>): Result<seq<Op>, OpError>
    decreases |code|
  {
    match Scan(code)
    case Err(e) => Err(e)
    case Ok(None) => Ok([])
    case Ok(Some(op)) =>
      match ScanAll(code[SizeBytes(op)..])
      case Err(e) => Err(e)
      case Ok(rest) => Ok([op] + rest)
  }

  /** The byte offset at which the `i`-th of `ops` starts in `Encode(ops)`. */
  function Offset(ops: seq<Op>, i: nat): nat
    requires i <= |ops|
  {
    |Encode(ops[..i])|
  }

  /** Encoding distributes over concatenation: pushes only ever append. */
  lemma {:induction false} EncodeAppend(a: seq<Op>, b: seq<Op>)
    ensures Encode(a + b) == Encode(a) + Encode(b)
  {
    if a == [] {
      assert a + b == b;
    } else {
      assert (a + b)[0] == a[0] && (a + b)[1..] == a[1..] + b;
      EncodeAppend(a[1..], b);
    }
  }

  /** Stepping through the encoding of `ops` yields exactly `ops`. */
  lemma {:induction false} ScanAllEncode(ops: seq<Op>)
    ensures ScanAll(Encode(ops)) == Ok(ops)
  {
    if ops != [] {
      var code := Encode(ops);
      ScanToBytes(ops[0], Encode(ops[1..]));
      assert code[SizeBytes(ops[0])..] == Encode(ops[1..]);
      ScanAllEncode(ops[1..]);
      assert [ops[0]] + ops[1..] == ops;
    }
  }

  /**
   * A buffer decodes to `ops` exactly when it is their encoding: decoding
   * neither loses nor invents instructions, and a buffer that decodes
   * cleanly holds no stray bytes.
   */
  lemma {:induction false} ScanAllIffEncode(code: seq<u8>, ops: seq<Op>)
    ensures ScanAll(code) == Ok(ops) <==> code == Encode(ops)
  {
    if ScanAll(code) == Ok(ops) && code != [] {
      var op := Scan(code).value.value;
      var n := SizeBytes(op);
      var rest := ScanAll(code[n..]).value;
      ScanAllIffEncode(code[n..], rest);
      assert ops == [op] + rest && ops[1..] == rest;
      assert code == code[..n] + code[n..];
    }
    if code == Encode(ops) {
      ScanAllEncode(ops);
    }
  }

  /**
   * The `i`-th instruction starts at `Offset(ops, i)`, is scanned back from
   * there, and the next one starts `SizeBytes` bytes later; past the last
   * instruction the scan reports the end of the stream.
   */
  lemma ScanAtOffset(ops: seq<Op>, i: nat)
    requires i < |ops|
    ensures Offset(ops, i + 1) == Offset(ops, i) + SizeBytes(ops[i]) <= |Encode(ops)|
    ensures Scan(Encode(ops)[Offset(ops, i)..]) == Ok(Some(ops[i]))
  {
    var before, op, after := ops[..i], ops[i], ops[i + 1..];
    assert ops == before + ([op] + after);
    EncodeAppend(before, [op] + after);
    assert Encode([op] + after) == ToBytes(op) + Encode(after);
    ScanToBytes(op, Encode(after));
    assert ops[..i + 1] == before + [op];
    EncodeAppend(before, [op]);
    assert Encode([op]) == ToBytes(op) + Encode([]);
  }

  /** After the last instruction the buffer is used up and the scan reports the end. */
  lemma ScanAtEnd(ops: seq<Op>)
    ensures Offset(ops, |ops|) == |Encode(ops)|
    ensures Scan(Encode(ops)[Offset(ops, |ops|)..]) == Ok(None)
  {
    assert ops[..|ops|] == ops;
  }

  // ---------------------------------------------------------------------------
  // The chunk

  class Chunk {
    /** The constant pool; an instruction refers to an entry by its `u8` index. */
    var constants: seq<Constant>
    /** The code buffer: encoded instructions, back to back. */
    var code: seq<u8>
    /** The instructions pushed so far, in order. */
    ghost var ops: seq<Op>

    /**
     * The code buffer is the encoding of the pushed instructions, so it
     * decodes back to them (`ScanAllIffEncode`), and every constant index
     * fits in a byte.
     */
    ghost predicate Valid()
      reads this
    {
      code == Encode(ops) && |constants| <= 0xff
    }

    /** The empty chunk (`Chunk::default`). */
    constructor ()
      ensures constants == [] && code == [] && ops == []
      ensures Valid()
    {
      constants := [];
      code := [];
      ops := [];
    }

    /** `Chunk::push`: append the encoding of `op`; the pool is untouched. */
    method Push(op: Op)
      modifies this
      ensures code == old(code) + ToBytes(op)
      ensures constants == old(constants)
      ensures ops == old(ops) + [op]
      ensures old(Valid()) ==> Valid()
    {
      code := code + ToBytes(op);
      ops := ops + [op];
      EncodeAppend(old(ops), [op]);
      assert Encode([op]) == ToBytes(op) + Encode([]);
    }

    /**
     * `Chunk::add_constant`: append `c` to the pool and return its index.
     * The source aborts unless fewer than 255 constants are present, so
     * the index never wraps; equal constants are not merged.
     */
    method AddConstant(c: Constant) returns (idx: u8)
      requires |constants| < 0xff
      modifies this
      ensures idx == |old(constants)|
      ensures constants == old(constants) + [c] && constants[idx] == c
      ensures code == old(code) && ops == old(ops)
      ensures old(Valid()) ==> Valid()
    {
      idx := |constants|;
      constants := constants + [c];
    }
  }

  /**
   * What a sequence of pushes leaves in a chunk: stepping through its code
   * buffer gives back the pushed instructions, in order, the `i`-th one
   * scanned from its cumulative offset.
   */
  lemma PushedDecode(chunk: Chunk)
    requires chunk.Valid()
    ensures ScanAll(chunk.code) == Ok(chunk.ops)
    ensures forall i :: 0 <= i < |chunk.ops| ==>
      Offset(chunk.ops, i) + SizeBytes(chunk.ops[i]) <= |chunk.code| &&
      Scan(chunk.code[Offset(chunk.ops, i)..]) == Ok(Some(chunk.ops[i]))
  {
    ScanAllIffEncode(chunk.code, chunk.ops);
    forall i | 0 <= i < |chunk.ops|
      ensures Offset(chunk.ops, i) + SizeBytes(chunk.ops[i]) <= |chunk.code|
      ensures Scan(chunk.code[Offset(chunk.ops, i)..]) == Ok(Some(chunk.ops[i]))
    {
      ScanAtOffset(chunk.ops, i);
    }
  }

  /**
   * A compiler emitting `5 + 3; return`: two constants, two loads, an add
   * and a return. The buffer decodes back to the four instructions.
   */
  method CompileAddition() returns (code: seq<u8>, constants: seq<Constant>)
    ensures constants == [Integer(5), Integer(3)]
    ensures code == [0x03, 0x00, 0x03, 0x01, 0x38, 0x00]
    ensures ScanAll(code) == Ok([Op.Constant(0), Op.Constant(1), Add, Return])
  {
    var chunk := new Chunk();
    var five := chunk.AddConstant(Integer(5));
    var three := chunk.AddConstant(Integer(3));
    chunk.Push(Op.Constant(five));
    chunk.Push(Op.Constant(three));
    chunk.Push(Add);
    chunk.Push(Return);
    assert chunk.ops == [Op.Constant(0), Op.Constant(1), Add, Return];
    PushedDecode(chunk);
    AdditionEncoding();
    code, constants := chunk.code, chunk.constants;
  }

  /** The buffer for `5 + 3; return`. */
  lemma AdditionEncoding()
    ensures Encode([Op.Constant(0), Op.Constant(1), Add, Return]) == [0x03, 0x00, 0x03, 0x01, 0x38, 0x00]
  {
    var ops := [Op.Constant(0), Op.Constant(1), Add, Return];
    assert Encode(ops[3..]) == [0x00] by {
      assert ops[3..][1..] == [];
    }
    assert Encode(ops[2..]) == [0x38, 0x00] by {
      assert ops[2..][1..] == ops[3..];
    }
    assert Encode(ops[1..]) == [0x03, 0x01, 0x38, 0x00] by {
      assert ops[1..][1..] == ops[2..];
    }
  }

  /** Adding the same constant twice gives two entries at consecutive indices. */
  method AddConstantTwice(c: Constant) returns (first: u8, second: u8, constants: seq<Constant>)
    ensures first == 0 && second == 1
    ensures constants == [c, c]
  {
    var chunk := new Chunk();
    first := chunk.AddConstant(c);
    second := chunk.AddConstant(c);
    constants := chunk.constants;
  }
}
