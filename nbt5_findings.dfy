/// Where the earlier generation's writer and reader (shen-nbt5) disagree:
/// for each mismatch, a document the writer produces that its own reader
/// misreads, and the corrected behaviour with what is proved about it.
module Nbt5Findings {
  import opened NbtBase
  import opened VarInt
  import opened Nbt5Value
  import E = Nbt5Encode
  import D = Nbt5Decode
  import R = Nbt5RoundTrip

  // ---------------------------------------------------------------------
  // What holds as written
  // ---------------------------------------------------------------------

  /// The Java dialect reads back what it writes, as long as no Compound
  /// holds a Compound (whose key the writer leaves out).
  lemma {:induction false} JavaRoundTrip(v: Value)
    requires R.RootFits(Java, WriteLayout(Java), v) && |E.ToBytes(Java, v).out| < U64_MOD
    ensures E.ToBytes(Java, v).status.Done?
    ensures D.FromReader(Java, E.ToBytes(Java, v).out) == D.Got(v, |E.ToBytes(Java, v).out|)
  {
    R.RootRoundTrip(Java, WriteLayout(Java), v);
  }

  /// The Java network dialect reads back what it writes, without the root
  /// name.
  lemma {:induction false} JavaNetRoundTrip(v: Value)
    requires R.RootFits(JavaNet, WriteLayout(JavaNet), v) && |E.ToBytes(JavaNet, v).out| < U64_MOD
    ensures E.ToBytes(JavaNet, v).status.Done?
    ensures D.FromReader(JavaNet, E.ToBytes(JavaNet, v).out)
         == D.Got(Compound(None, v.members), |E.ToBytes(JavaNet, v).out|)
  {
    R.RootRoundTrip(JavaNet, WriteLayout(JavaNet), v);
  }

  // ---------------------------------------------------------------------
  // Documents the writer produces and its own reader misreads
  // ---------------------------------------------------------------------

  /// Java drops the key of a Compound-valued member: the reader takes the
  /// nested Compound's End byte and the outer one as a key length of 0 and
  /// then runs off the end.
  lemma {:induction false} JavaNestedKeyLost()
    ensures E.ToBytes(Java, Compound(Some([]), [Member([], Compound(None, []))])) == E.Written([10, 0, 0, 10, 0, 0], E.Done)
    ensures D.FromReader(Java, [10, 0, 0, 10, 0, 0]) == D.Panic
  {
    var l, data: seq<byte> := ReadLayout(Java), [10, 0, 0, 10, 0, 0];
    var zero: seq<byte> := [0, 0];
    assert data[1..3] == zero;
    assert data[4..6] == zero;
    assert zero[..1] == [0];
    assert data[3..3] == [] && data[6..6] == [];
    assert D.Members(l, data, 6, []) == D.Panic;
    assert D.NbtStringAt(l, data, 4) == D.Got([], 6);
    assert D.Members(l, data, 3, []) == D.Panic;
    assert D.NbtStringAt(l, data, 1) == D.Got([], 3);
  }

  /// Both Bedrock writers give an empty list its End tag and no length;
  /// both readers read a length after it and run off the end.
  lemma {:induction false} BedrockEmptyListLost()
    ensures E.ToBytes(BedrockDisk, List([])) == E.Written([TAG_LIST, TAG_END], E.Done)
    ensures E.ToBytes(BedrockNet, List([])) == E.Written([TAG_LIST, TAG_END], E.Done)
    ensures D.FromReader(BedrockDisk, [TAG_LIST, TAG_END]) == D.Panic
    ensures D.FromReader(BedrockNet, [TAG_LIST, TAG_END]) == D.Panic
  {
  }

  /// The Bedrock disk writer puts Int array elements little-endian; the
  /// reader decodes them big-endian, so 1 comes back as 2^24.
  lemma {:induction false} BedrockDiskArraySwapped()
    ensures E.ToBytes(BedrockDisk, List([IntArray([1])]))
         == E.Written([TAG_LIST, TAG_INT_ARRAY, 1, 0, 0, 0, 1, 0, 0, 0, 1, 0, 0, 0], E.Done)
    ensures D.FromReader(BedrockDisk, [TAG_LIST, TAG_INT_ARRAY, 1, 0, 0, 0, 1, 0, 0, 0, 1, 0, 0, 0])
         == D.Got(List([IntArray([0x100_0000])]), 14)
  {
    DiskArrayRead();
  }

  lemma {:induction false} DiskArrayRead()
    ensures D.FromReader(BedrockDisk, [TAG_LIST, TAG_INT_ARRAY, 1, 0, 0, 0, 1, 0, 0, 0, 1, 0, 0, 0])
         == D.Got(List([IntArray([0x100_0000])]), 14)
  {
    var l, data: seq<byte> := ReadLayout(BedrockDisk), [TAG_LIST, TAG_INT_ARRAY, 1, 0, 0, 0, 1, 0, 0, 0, 1, 0, 0, 0];
    var one: seq<byte> := [1, 0, 0, 0];
    assert data[2..6] == one && data[6..10] == one && data[10..14] == one;
    assert one[1..] == [0, 0, 0] && one[..4] == one && one[4..] == [];
    assert LeUnsigned(one) == 1;
    WidthRanges();
    assert D.LengthAt(l, data, 2) == D.Got(1, 6);
    assert D.LengthAt(l, data, 6) == D.Got(1, 10);
    OneBigWord();
    assert D.WordsAt(data, 10, 1, 4, Big) == D.Got([0x100_0000], 14);
    assert D.Payload(l, data, 6, TAG_INT_ARRAY) == D.Got(IntArray([0x100_0000]), 14);
    var got: seq<Value> := [IntArray([0x100_0000])];
    assert [] + got == got;
    assert D.Items(l, data, 14, TAG_INT_ARRAY, 0, [] + got) == D.Got(List(got), 14);
    assert D.Items(l, data, 6, TAG_INT_ARRAY, 1, []) == D.Got(List([IntArray([0x100_0000])]), 14);
    assert D.ListAt(l, data, 1) == D.Got(List([IntArray([0x100_0000])]), 14);
  }

  /// `[1, 0, 0, 0]` read big-endian.
  /// The word `[1, 0, 0, 0]` read big-endian as an `i32` is 2^24.
  lemma {:induction false} OneBigWord()
    ensures D.Chunks([1, 0, 0, 0], 4, Big) == [0x100_0000]
  {
    var one: seq<byte> := [1, 0, 0, 0];
    assert one[..4] == one && one[4..] == [];
    BeOneThenZeros();
    WidthRanges();
    assert Decode(one, Big, true) == ToSigned(0x100_0000, U32_MOD) == 0x100_0000;
  }

  lemma {:induction false} BeOneThenZeros()
    ensures BeUnsigned([1, 0, 0, 0]) == 0x100_0000
  {
    var b1, b2, b3, b4: seq<byte> := [1], [1, 0], [1, 0, 0], [1, 0, 0, 0];
    assert b1 == [] + [1] && b2 == b1 + [0] && b3 == b2 + [0] && b4 == b3 + [0];
    BeUnsignedAppend([], 1);
    BeUnsignedAppend(b1, 0);
    BeUnsignedAppend(b2, 0);
    BeUnsignedAppend(b3, 0);
  }

  /// A byte below 0x80 is a whole varint.
  lemma {:induction false} OneByteVar(data: seq<byte>, at: nat, wide: bool)
    requires at < |data| && data[at] < 128
    ensures D.VarAt(data, at, wide) == D.Got(data[at], at + 1)
  {
    var b := data[at];
    assert VarBytes(b) == [b];
    assert data[at..at + 1] == [b];
    R.EmbeddedSlice(data, at, [b]);
    R.VarRead(data, at, b, wide);
  }

  /// The Bedrock network writer puts an Int as four little-endian bytes;
  /// the reader takes a zigzag varint, so 1 comes back as -1 and three
  /// bytes are left over.
  lemma {:induction false} BedrockNetIntFixed()
    ensures E.ToBytes(BedrockNet, List([Int(1)])) == E.Written([TAG_LIST, TAG_INT, 2, 1, 0, 0, 0], E.Done)
    ensures D.FromReader(BedrockNet, [TAG_LIST, TAG_INT, 2, 1, 0, 0, 0]) == D.Got(List([Int(-1)]), 4)
  {
    var l, data: seq<byte> := ReadLayout(BedrockNet), [TAG_LIST, TAG_INT, 2, 1, 0, 0, 0];
    OneByteVar(data, 2, false);
    OneByteVar(data, 3, false);
    assert D.LengthAt(l, data, 2) == D.Got(1, 3);
    assert D.Payload(l, data, 3, TAG_INT) == D.Got(Int(-1), 4);
    var got: seq<Value> := [Int(-1)];
    assert [] + got == got;
    assert D.Items(l, data, 4, TAG_INT, 0, [] + got) == D.Got(List(got), 4);
    assert D.Items(l, data, 3, TAG_INT, 1, []) == D.Got(List([Int(-1)]), 4);
    assert D.ListAt(l, data, 1) == D.Got(List([Int(-1)]), 4);
  }

  /// The Bedrock network writer gives a string length as a zigzag varint
  /// (1 as 2); the reader takes a plain varint and asks for 2 bytes where
  /// 1 is left.
  lemma {:induction false} BedrockNetStringLength()
    ensures E.ToBytes(BedrockNet, List([String([0x61])])) == E.Written([TAG_LIST, TAG_STRING, 2, 2, 0x61], E.Done)
    ensures D.FromReader(BedrockNet, [TAG_LIST, TAG_STRING, 2, 2, 0x61]) == D.Fail(CursorOverflow(4, 2, 5))
  {
    var l, data: seq<byte> := ReadLayout(BedrockNet), [TAG_LIST, TAG_STRING, 2, 2, 0x61];
    OneByteVar(data, 2, false);
    OneByteVar(data, 3, false);
    assert D.LengthAt(l, data, 2) == D.Got(1, 3);
    assert D.StringLengthAt(l, data, 3) == D.Got(2, 4);
    assert D.Payload(l, data, 3, TAG_STRING) == D.Fail(CursorOverflow(4, 2, 5));
    assert D.ListAt(l, data, 1) == D.Fail(CursorOverflow(4, 2, 5));
  }

  /// `var_i32_to_bytes(-1)` never returns, however many turns it is given.
  lemma {:induction false} NegativeVarHangs(budget: nat)
    ensures E.PlainVarBytes(-1, false).status == E.Hangs
    ensures ShiftedBy(-1, budget) != 0
  {
    NegativeNeverReachesZero(-1, budget);
  }

  /// `zigzag_var_i32_to_bytes(2^30)` never returns: the mapped value
  /// `2^30 << 1` is `i32::MIN`. A list, array or string of 2^30 elements
  /// or bytes has that length.
  lemma {:induction false} ZigZagVarHangs(budget: nat)
    ensures ZigEncodeI32(0x4000_0000) == -0x8000_0000
    ensures E.ZigVarBytes(0x4000_0000, false, false).status == E.Hangs
    ensures ShiftedBy(ZigEncodeI32(0x4000_0000), budget) != 0
  {
    NegativeNeverReachesZero(-0x8000_0000, budget);
  }

  /// The readers' `(value >> 1) ^ -(value & 1)` on the `i32` the varint
  /// read gave: the zigzag number 2^31 (the one of 2^30) comes back
  /// as -2^30.
  lemma {:induction false} ZigZagDecodeSign()
    ensures VarBytes(ZigZag(0x4000_0000)) == [0x80, 0x80, 0x80, 0x80, 0x08]
    ensures D.ZigAt(ReadLayout(BedrockNet), [0x80, 0x80, 0x80, 0x80, 0x08], 0, false) == D.Got(-0x4000_0000, 5)
  {
    assert ZigZag(0x4000_0000) == 0x8000_0000;
    VarBytesOfPow31();
    VarReadOfPow31();
    assert ZigDecodeSigned(-0x8000_0000) == -0x4000_0000;
  }

  /// `read_var_i32` on the varint of 2^31 gives `i32::MIN`.
  lemma {:induction false} VarReadOfPow31()
    ensures D.VarAt([0x80, 0x80, 0x80, 0x80, 0x08], 0, false) == D.Got(-0x8000_0000, 5)
  {
    var data: seq<byte> := [0x80, 0x80, 0x80, 0x80, 0x08];
    VarBytesOfPow31();
    R.EmbeddedSlice(data, 0, VarBytes(0x8000_0000));
    R.VarRead(data, 0, 0x8000_0000, false);
    assert ToSigned(0x8000_0000, U32_MOD) == -0x8000_0000;
  }

  /// The varint of 2^31: four groups of seven zero bits, then 8.
  lemma {:induction false} VarBytesOfPow31()
    ensures VarBytes(0x8000_0000) == [0x80, 0x80, 0x80, 0x80, 0x08]
  {
    VarBytesOfPow24();
  }

  lemma {:induction false} VarBytesOfPow24()
    ensures VarBytes(0x100_0000) == [0x80, 0x80, 0x80, 0x08]
  {
    VarBytesOfPow17();
  }

  lemma {:induction false} VarBytesOfPow17()
    ensures VarBytes(0x2_0000) == [0x80, 0x80, 0x08]
  {
    VarBytesOfPow10();
  }

  lemma {:induction false} VarBytesOfPow10()
    ensures VarBytes(0x400) == [0x80, 0x08]
  {
    assert VarBytes(0x8) == [0x08];
  }

  // ---------------------------------------------------------------------
  // The corrected behaviour
  // ---------------------------------------------------------------------

  /// With the layout each dialect evidently intends on both sides (keys
  /// before every member, a length for every list, little-endian Bedrock
  /// array elements, zigzag Int, Long and lengths coded exactly, plain
  /// string lengths on the Bedrock network), every document the dialect
  /// accepts reads back.
  lemma {:induction false} IntendedRoundTrip(d: Dialect, v: Value)
    requires R.RootFits(d, IntendedLayout(d), v) && |E.WriteTo(d, IntendedLayout(d), v).out| < U64_MOD
    ensures E.WriteTo(d, IntendedLayout(d), v).status.Done?
    ensures D.Root(d, IntendedLayout(d), E.WriteTo(d, IntendedLayout(d), v).out)
         == D.Got(R.Readback(d, v), |E.WriteTo(d, IntendedLayout(d), v).out|)
  {
    R.RootRoundTrip(d, IntendedLayout(d), v);
  }

  /// Encoding the bit pattern of an `i32` as unsigned always ends, and
  /// `read_var_i32` gives the value back.
  lemma {:induction false} ExactVarRoundTrip(v: int, rest: seq<byte>)
    requires IsI32(v)
    ensures E.PlainVarBytes(v, true).status.Done?
    ensures ReadVarI32(E.PlainVarBytes(v, true).out + rest, 0) == VarOk(v, |E.PlainVarBytes(v, true).out|)
  {
    ReadVarI32OfVarBytes(ToUnsigned(v, U32_MOD), rest);
  }

  /// Zigzag coding with the mapped value taken as unsigned always ends,
  /// and the logical-shift decoding gives the value back.
  lemma {:induction false} ExactZigZagRoundTrip(l: Layout, v: int, wide: bool, rest: seq<byte>)
    requires l.exactZigZag && (if wide then IsI64(v) else IsI32(v))
    ensures E.ZigVarBytes(v, wide, true) == E.Bytes(VarBytes(ZigZag(v)))
    ensures D.ZigAt(l, VarBytes(ZigZag(v)) + rest, 0, wide) == D.Got(v, |VarBytes(ZigZag(v))|)
  {
    var data := VarBytes(ZigZag(v)) + rest;
    assert data[0..|VarBytes(ZigZag(v))|] == VarBytes(ZigZag(v));
    R.EmbeddedSlice(data, 0, VarBytes(ZigZag(v)));
    R.ZigRead(l, data, 0, v, wide);
  }
}
