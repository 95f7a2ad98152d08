# Bytecode instructions and chunks of the blis stack VM, in Dafny

This project models the bytecode layer of the blis compiler back end. That
layer is made of two parts:

- **Instruction codec** (`src/bytecode/op.rs`). `Op` is a closed set of 33
  instruction kinds. Each kind has a fixed one-byte tag. 19 kinds have no
  operand, 9 carry one `u8` operand (a constant, local or global index, or a
  count), and the 5 jumps carry one big-endian `i16` relative offset.
  `to_bytes` writes the tag and the operand bytes. `size_bytes` is the length
  of that encoding. `scan` decodes one instruction from the front of a byte
  slice: an empty slice is the end of the stream (`Ok(None)`), an unmapped tag
  is `UnknownOpcode`, and a slice that ends inside the operand is
  `MissingByte`, which carries the kind and the position of the first missing
  byte.
- **Chunk** (`src/bytecode/chunk.rs`). A code buffer and an append-only
  constant pool. `push` appends the encoding of one instruction. `add_constant`
  appends a literal and returns its `u8` index. It aborts when the pool
  already holds 255 entries, so an index never wraps.

Files:

- `wrappers.dfy`: `Option` and `Result`.
- `op.dfy`, module `Ops`: the `Op` datatype, the tag table (`Tag`, and its
  partial inverse `FromTag`), the big-endian offset bytes, `ToBytes`,
  `SizeBytes` and `Scan`, with lemmas for the round trip, truncation, unknown
  tags and the shape of the tag table.
- `chunk.dfy`, module `Chunks`: the `Constant` datatype and the `Chunk` class
  with `Push` and `AddConstant`. It also holds `Encode`, `ScanAll` and
  `Offset`. These specification functions describe stepping through a code
  buffer in `SizeBytes` increments, and the lemmas beside them show that a
  buffer built by pushes decodes back to the pushed instructions, each at its
  cumulative offset.

Modelling choices:

- The tag of an instruction is an explicit total function, `Tag`. The
  source reads the `#[repr(u8)]` discriminant through a pointer cast.
  `FromTag` stands for the derived `from_repr`: it gives the kind with its
  operand set to the default value, zero (`Zeroed`). That zeroed kind is what
  `MissingByte` carries.
- `u8`, `i16` and `u64` are subset types of `int`. The two's-complement
  conversion of a jump offset is written out in `BeBytes` and `FromBeBytes`.
- The chunk's `code` and `constants` are `seq` fields that the methods
  reassign. A ghost field `ops` records the instructions pushed so far.
  `Valid()` says that `code` is their encoding and that the pool has at most
  255 entries. The source has no such field; it exists only to state what a
  sequence of pushes leaves in `code`: `PushedDecode` turns `Valid()` into
  "stepping through `code` gives back the pushed instructions", and
  `CompileAddition` obtains its decoding that way.
- `add_constant`'s `assert!` becomes a precondition of `AddConstant`.
- `CompileAddition` and `AddConstantTwice` are two small clients of the
  chunk. The first emits two constant loads, an add and a return. The second
  adds one constant twice, to show that the pool does not deduplicate.
- `scan` (src/bytecode/op.rs:58-111) returns the instruction alone, not a
  count of consumed bytes; a caller advances by `size_bytes`. A truncated
  operand is reported as `MissingByte { op, b }`.
- src/bytecode/chunk.rs has `push` and `add_constant`, plus `read` and
  `write` (see "Left out"); the chunk has no other operations, so the model
  has none either.

## Model

| member | source | states |
|---|---|---|
| `Ops.Tag` | src/bytecode/op.rs:6-45 | the `#[repr(u8)]` discriminant of each kind, read at op.rs:122; no contract of its own: it is inverted by `FromTag` (`FromTagOfTag`, `TagOfFromTag`) and is injective on kinds (`TagInjective`) |
| `Ops.FromTag` | src/bytecode/op.rs:63 | the derived `from_repr`: a byte maps to the kind whose discriminant it is, operand zeroed, or to nothing; no contract of its own: its relation to `Tag` is stated by `FromTagOfTag`, `TagOfFromTag` and `TagInjective` |
| `Ops.Zeroed` | src/bytecode/op.rs:63 | the kind that `from_repr` returns for an instruction's tag keeps the tag and the operand shape; a no-operand kind is unchanged, a `u8` operand becomes 0, a jump offset becomes 0 |
| `Ops.FromTagOfTag` | src/bytecode/op.rs:6-46 | the tag of every instruction maps back to that instruction's kind |
| `Ops.TagOfFromTag` | src/bytecode/op.rs:6-46 | every mapped byte is the tag of the kind it maps to |
| `Ops.TagInjective` | src/bytecode/op.rs:5-46 | two instructions share a tag if and only if they are of the same kind |
| `Ops.NoOperandTagsMapped` | src/bytecode/op.rs:67-85 | each of the 19 no-operand tag values decodes to a kind without operand |
| `Ops.NoOperandTagTable` | src/bytecode/op.rs:67-85 | a byte maps to a no-operand kind if and only if it is one of the 19 no-operand tags |
| `Ops.ByteOperandTagTable` | src/bytecode/op.rs:87-97 | a byte maps to a `u8`-operand kind if and only if it is one of the 9 byte-operand tags |
| `Ops.WordOperandTagTable` | src/bytecode/op.rs:99-107 | a byte maps to a jump if and only if it is one of the 5 jump tags |
| `Ops.TagTableCounts` | src/bytecode/op.rs:5-46 | there are 19 no-operand, 9 byte-operand and 5 jump tags, all distinct; no tag has two shapes |
| `Ops.BeBytes` | src/bytecode/op.rs:164 | the two bytes are the two's-complement value, high byte first; the high byte's top bit is the sign |
| `Ops.FromBeBytes` | src/bytecode/op.rs:106 | the result is congruent to `hi * 256 + lo` modulo 2^16 and is negative exactly when the top bit of `hi` is set |
| `Ops.FromBeBytesOfBeBytes` | src/bytecode/op.rs:104-106 | decoding the big-endian bytes of an offset gives the offset back |
| `Ops.BeBytesOfFromBeBytes` | src/bytecode/op.rs:164 | every byte pair is the encoding of the offset decoded from it |
| `Ops.SizeBytes` | src/bytecode/op.rs:113-115 | the encoded length is 1 without an operand, 2 with a `u8` operand and 3 for a jump |
| `Ops.ToBytes` | src/bytecode/op.rs:117-169 | the encoder `to_bytes`; no contract of its own: its layout is stated by `ToBytesStartsWithTag`, its length by `SizeBytes`, and its inverse by `Scan` and `ScanToBytes` |
| `Ops.ToBytesStartsWithTag` | src/bytecode/op.rs:117-169 | the encoding starts with the kind's tag; it is that byte alone for a no-operand kind, is followed by the `u8` operand, or by the offset's big-endian bytes for a jump |
| `Ops.Scan` | src/bytecode/op.rs:58-111 | an empty slice, and only an empty one, gives `Ok(None)`; an unmapped first byte gives `UnknownOpcode` with that byte, and that error has no other cause; a decoded instruction's encoding is exactly the first `SizeBytes` bytes of the slice; `MissingByte` carries the zeroed kind and the slice length, which is shorter than the kind's size |
| `Ops.ScanToBytes` | src/bytecode/op.rs:58-169 | round trip: scanning the encoding of any instruction, followed by any bytes, returns that instruction |
| `Ops.ScanTruncated` | src/bytecode/op.rs:96-105 | an encoding cut after `k` bytes (1 <= k < size) reports `MissingByte` with the zeroed kind and `b == k` |
| `Ops.ScanUnknown` | src/bytecode/op.rs:63 | a slice led by a byte outside the tag table reports `UnknownOpcode` carrying that byte, whatever follows |
| `Chunks.EncodeAppend` | src/bytecode/chunk.rs:19-21 | the buffer for two runs of pushes is the first run's buffer followed by the second's |
| `Chunks.ScanAllEncode` | src/bytecode/op.rs:58-111 | stepping through a buffer of pushed instructions by `SizeBytes` yields exactly those instructions |
| `Chunks.ScanAllIffEncode` | src/bytecode/op.rs:58-111 | a buffer steps through cleanly to `ops` if and only if it is the encoding of `ops` |
| `Chunks.ScanAtOffset` | src/bytecode/chunk.rs:19-21 | the i-th pushed instruction is scanned back from its cumulative offset, and the next offset is `SizeBytes` further |
| `Chunks.ScanAtEnd` | src/bytecode/op.rs:59-61 | after the last pushed instruction the buffer is used up and the scan reports the end of the stream |
| `Chunks.Chunk.constructor` | src/bytecode/chunk.rs:12-16 | the default chunk has an empty pool and an empty buffer |
| `Chunks.Chunk.Push` | src/bytecode/chunk.rs:19-21 | the buffer grows by the instruction's encoding and nothing else changes; a buffer that was the encoding of the pushed instructions stays so |
| `Chunks.Chunk.AddConstant` | src/bytecode/chunk.rs:23-29 | requires fewer than 255 constants; returns the old pool length, appends the constant at that index, leaves the code unchanged |
| `Chunks.PushedDecode` | src/bytecode/chunk.rs:19-21 | for a chunk built by pushes, stepping through `code` gives back exactly the pushed instructions, the i-th one scanned from its cumulative offset, which lies within the buffer |
| `Chunks.CompileAddition` | src/bytecode/chunk.rs:19-28 | two constants, two loads, an add and a return give the pool `[5, 3]` and the buffer `03 00 03 01 38 00`, which decodes back to those four instructions |
| `Chunks.AdditionEncoding` | src/bytecode/op.rs:117-169 | the four instructions of that example encode to `03 00 03 01 38 00` |
| `Chunks.AddConstantTwice` | src/bytecode/chunk.rs:23-29 | adding one constant twice to an empty chunk gives indices 0 and 1 and a pool holding it twice |

## Left out

- `Chunk::read` and `Chunk::write` (src/bytecode/chunk.rs:47-64), and the `ExtraBytes` and serializer errors: they wrap the `postcard` serializer and `std::io`, a foreign library plus I/O. The wire format is not modelled.
- `Constant::Float` arithmetic and IEEE equality: the payload is kept as an opaque 64-bit pattern, so two floats are equal here exactly when their bits are. `f64`'s `PartialEq` differs in two ways: NaN is unequal to itself, and `0.0 == -0.0` although their bits differ.
- The `strum::Display` derive and the `thiserror` message formats of `OpError` and the chunk errors.
- The pointer-cast discriminant read in `to_bytes` is replaced by the explicit `Tag` table; the model does not reason about enum memory layout.
- Allocation failure when a `Vec` grows is not modelled; `push` and `add_constant` always succeed within their preconditions.
