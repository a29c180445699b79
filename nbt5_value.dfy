/// The value tree, the errors and the four wire dialects of the earlier
/// generation (shen-nbt5): Java, Java network (1.20.2 and later), Bedrock
/// disk and Bedrock network. The dialects differ only in how each primitive
/// is laid out, so a dialect is described here by a `Layout` record that
/// both the reader and the writer are parameterised by.
module Nbt5Value {
  import opened NbtBase

  type I8 = x: int | IsI8(x)
  type I16 = x: int | IsI16(x)
  type I32 = x: int | IsI32(x)
  type I64 = x: int | IsI64(x)
  /// The bit pattern of an `f32` / `f64`; floating point is not modelled.
  type Bits32 = x: nat | x < U32_MOD
  type Bits64 = x: nat | x < U64_MOD

  /// `NbtValue` as the reader builds it: strings are their bytes, and a
  /// Compound carries an optional name of its own besides its members.
  datatype Value =
    | Byte(b: I8)
    | Short(s: I16)
    | Int(i: I32)
    | Long(l: I64)
    | Float(fbits: Bits32)
    | Double(dbits: Bits64)
    | ByteArray(bytes: seq<I8>)
    | IntArray(ints: seq<I32>)
    | LongArray(longs: seq<I64>)
    | String(text: seq<byte>)
    | List(items: seq<Value>)
    | Compound(name: Option<seq<byte>>, members: seq<Member>)

  /// A Compound member: its key and its value, in wire order.
  datatype Member = Member(key: seq<byte>, value: Value)

  /// The errors the earlier generation raises.
  datatype NbtError =
    | UnknownType(id: byte)
    | WrongRootType(id: byte)
    | CursorOverflow(cursor: nat, len: nat, dataLen: nat)
    | VarIntTooBig(size: nat)
    | VarlongTooBig(size: nat)
    | ListTypeNotSame(tags: seq<byte>)

  /// `value.tag()`: the tag id of each variant.
  function Tag(v: Value): (t: byte)
    ensures 1 <= t <= 12 && t != TAG_END
  {
    match v
      case Byte(_) => TAG_BYTE
      case Short(_) => TAG_SHORT
      case Int(_) => TAG_INT
      case Long(_) => TAG_LONG
      case Float(_) => TAG_FLOAT
      case Double(_) => TAG_DOUBLE
      case ByteArray(_) => TAG_BYTE_ARRAY
      case String(_) => TAG_STRING
      case List(_) => TAG_LIST
      case Compound(_, _) => TAG_COMPOUND
      case IntArray(_) => TAG_INT_ARRAY
      case LongArray(_) => TAG_LONG_ARRAY
  }

  // ---------------------------------------------------------------------
  // Dialects
  // ---------------------------------------------------------------------

  datatype Dialect = Java | JavaNet | BedrockDisk | BedrockNet

  /// How array and list lengths are laid out: a 4-byte `i32` in the layout's
  /// byte order, or a zigzag varint.
  datatype LengthCode = Fixed32 | ZigZagVar32

  /// How string lengths are laid out: a 2-byte `u16` in the layout's byte
  /// order, a plain varint, or a zigzag varint.
  datatype StringCode = U16Length | PlainVarLength | ZigZagVarLength

  /// One side of a dialect.
  /// - `order`: byte order of Short, Float, Double, fixed Int and Long,
  ///   fixed lengths and `u16` string lengths;
  /// - `varInts`: Int and Long are zigzag varints instead;
  /// - `lengths`, `strings`: the length codes above;
  /// - `elements`: byte order of IntArray and LongArray elements;
  /// - `exactZigZag`: zigzag decoding shifts logically and zigzag encoding
  ///   treats the mapped value as unsigned (instead of the arithmetic shifts
  ///   of the source);
  /// - `compoundKeys`: the writer puts the key before a Compound-valued
  ///   member;
  /// - `emptyListLength`: the writer gives an empty list its zero length.
  datatype Layout = Layout(order: Endian, varInts: bool, lengths: LengthCode, strings: StringCode,
                           elements: Endian, exactZigZag: bool, compoundKeys: bool, emptyListLength: bool)

  /// The layout each dialect's reader uses
  /// (shen-nbt5/src/reader.rs:17-332). The reader never consults
  /// `compoundKeys` or `emptyListLength`, so the two Java readers share the
  /// layout of their writers. Both Bedrock readers decode the elements of
  /// Int and Long arrays big-endian, through the shared `read_i32_array` /
  /// `read_i64_array`.
  function ReadLayout(d: Dialect): Layout
  {
    match d
      case Java => WriteLayout(Java)
      case JavaNet => WriteLayout(JavaNet)
      case BedrockDisk => Layout(Little, false, Fixed32, U16Length, Big, false, true, true)
      case BedrockNet => Layout(Little, true, ZigZagVar32, PlainVarLength, Big, false, true, true)
  }

  /// The layout each dialect's writer uses
  /// (shen-nbt5/src/writer.rs:5-546). Java leaves out the key of a
  /// Compound-valued member; the Bedrock writers give an empty list no
  /// length; the Bedrock network writer writes Int and Long as fixed
  /// little-endian and string lengths as zigzag varints.
  function WriteLayout(d: Dialect): Layout
  {
    match d
      case Java => Layout(Big, false, Fixed32, U16Length, Big, false, false, true)
      case JavaNet => Layout(Big, false, Fixed32, U16Length, Big, false, false, true)
      case BedrockDisk => Layout(Little, false, Fixed32, U16Length, Little, false, true, false)
      case BedrockNet => Layout(Little, false, ZigZagVar32, ZigZagVarLength, Little, false, true, false)
  }

  /// The layout both sides of each dialect evidently intend: keys before
  /// every member, a length for every list, little-endian Bedrock array
  /// elements, and the Bedrock network choices of the reader (zigzag Int,
  /// Long and lengths, plain string lengths) with exact zigzag coding.
  function IntendedLayout(d: Dialect): Layout
  {
    match d
      case Java => Layout(Big, false, Fixed32, U16Length, Big, true, true, true)
      case JavaNet => Layout(Big, false, Fixed32, U16Length, Big, true, true, true)
      case BedrockDisk => Layout(Little, false, Fixed32, U16Length, Little, true, true, true)
      case BedrockNet => Layout(Little, true, ZigZagVar32, PlainVarLength, Little, true, true, true)
  }

  /// The layout codes some number as a zigzag varint.
  predicate UsesZigZag(l: Layout)
  {
    l.varInts || l.lengths == ZigZagVar32 || l.strings == ZigZagVarLength
  }

  /// A layout whose writer keeps everything its reader needs: every list
  /// has a length, and zigzag numbers are coded exactly where there are any.
  predicate Coherent(l: Layout)
  {
    l.emptyListLength && (l.exactZigZag || !UsesZigZag(l))
  }

  // ---------------------------------------------------------------------
  // Values a layout can carry
  // ---------------------------------------------------------------------

  /// A string length the layout's length field can express.
  predicate StringFits(l: Layout, n: nat)
  {
    match l.strings
      case U16Length => n < U16_MOD
      case PlainVarLength => n < 0x8000_0000
      case ZigZagVarLength => n < 0x8000_0000
  }

  /// An array or list length an `i32` length field can express.
  predicate LengthFits(n: nat)
  {
    n < 0x8000_0000
  }

  /// A value that can sit inside a Compound or a List: the reader gives
  /// nested Compounds no name of their own, and every List holds children
  /// of one tag.
  predicate Nested(l: Layout, v: Value)
    decreases v, 2
  {
    (v.Compound? ==> v.name.None?) && Fits(l, v)
  }

  /// Every length, name, key and child of `v` fits the layout.
  predicate Fits(l: Layout, v: Value)
    decreases v, 1
  {
    match v
      case ByteArray(a) => LengthFits(|a|)
      case IntArray(a) => LengthFits(|a|)
      case LongArray(a) => LengthFits(|a|)
      case String(s) => StringFits(l, |s|)
      case List(items) =>
        LengthFits(|items|)
        && (forall i :: 0 <= i < |items| ==> Tag(items[i]) == Tag(items[0]))
        && (forall i :: 0 <= i < |items| ==> Nested(l, items[i]))
      case Compound(name, _) =>
        (name.Some? ==> StringFits(l, |name.value|)) && MembersFit(l, v, false)
      case _ => true
  }

  /// The members of the Compound `v` fit the layout; where the layout
  /// leaves out the key of a Compound-valued member (and `forceKey` does
  /// not put it back), no member is a Compound.
  predicate MembersFit(l: Layout, v: Value, forceKey: bool)
    requires v.Compound?
    decreases v, 0
  {
    forall i :: 0 <= i < |v.members| ==>
      StringFits(l, |v.members[i].key|) && Nested(l, v.members[i].value)
      && (l.compoundKeys || forceKey || !v.members[i].value.Compound?)
  }
}
