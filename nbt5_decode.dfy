/// What the earlier generation's reader (shen-nbt5/src/reader.rs) yields,
/// as functions of the bytes, the position and the layout. Its primitives
/// index past the end of the slice and panic instead of failing, so every
/// read ends in one of three ways: a value and the next position, an
/// error, or a panic.
module Nbt5Decode {
  import opened NbtBase
  import opened VarInt
  import opened Nbt5Value

  datatype Read<T> = Got(value: T, next: nat) | Fail(error: NbtError) | Panic
  {
    predicate IsFailure() { !Got? }

    function PropagateFailure<U>(): Read<U>
      requires IsFailure()
    {
      if Fail? then Fail(error) else Panic
    }

    function Extract(): (T, nat)
      requires Got?
    {
      (value, next)
    }
  }

  /// Every length read from the wire is an `i32` or a varint `i32` cast to
  /// `usize`: below 2^31, or at least 2^64 - 2^31 when it was negative. A
  /// `Vec::with_capacity` of the latter overflows `isize::MAX` bytes and
  /// panics; one of the former is taken as allocated.
  const CAPACITY_LIMIT: nat := 0x8000_0000_0000_0000

  // ---------------------------------------------------------------------
  // Primitives (shen-nbt5/src/reader.rs:380-797)
  // ---------------------------------------------------------------------

  /// `read_u8`: indexes the slice, so it panics at the end.
  function U8At(data: seq<byte>, at: nat): (r: Read<byte>)
    ensures r.Panic? <==> at >= |data|
    ensures r.Got? ==> r.value == data[at] && r.next == at + 1
  {
    if at < |data| then Got(data[at], at + 1) else Panic
  }

  /// `read_be_*` / `read_le_*` of a `w`-byte integer: indexes each byte.
  function FixedAt(data: seq<byte>, at: nat, w: nat, e: Endian, signed: bool): (r: Read<int>)
    requires w > 0
    ensures r.Panic? <==> at + w > |data|
    ensures r.Got? ==> r.next == at + w
    ensures r.Got? && signed ==> -(Pow256(w) / 2) <= r.value < Pow256(w) / 2
    ensures r.Got? && !signed ==> 0 <= r.value < Pow256(w)
  {
    if at + w <= |data| then Got(Decode(data[at..at + w], e, signed), at + w) else Panic
  }

  /// `read_var_i32` (`wide` false) or `read_var_i64` (`wide` true): the
  /// too-big error reports the accumulated value cast to `usize`.
  function VarAt(data: seq<byte>, at: nat, wide: bool): (r: Read<int>)
    requires at <= |data|
    ensures r.Got? ==> at < r.next <= |data| && r.next - at <= (if wide then 10 else 5)
    ensures r.Got? ==> if wide then IsI64(r.value) else IsI32(r.value)
    ensures r.Fail? ==> if wide then r.error.VarlongTooBig? else r.error.VarIntTooBig?
  {
    Pow2Facts();
    var bits, limit := if wide then 64 else 32, if wide then 10 else 5;
    ReadVarShape(data, at, 0, 0, bits, limit);
    ReadVarRange(data, at, 0, 0, bits, limit);
    match ReadVarFrom(data, at, 0, 0, bits, limit)
      case VarOk(v, next) => Got(v, next)
      case VarTooBig(p) => Fail(if wide then VarlongTooBig(p) else VarIntTooBig(p))
      case VarEof(_) => Panic
  }

  /// `(value >> 1) ^ (-(value & 1))` on the signed value the varint read
  /// gave; with `exact`, the same on its unsigned bit pattern.
  function ZigDecode(x: int, wide: bool, exact: bool): (r: int)
    requires if wide then IsI64(x) else IsI32(x)
    ensures if wide then IsI64(r) else IsI32(r)
  {
    if exact then UnZigZag(ToUnsigned(x, if wide then U64_MOD else U32_MOD)) else ZigDecodeSigned(x)
  }

  /// `read_zigzag_var_i32` / `read_zigzag_var_i64`.
  function ZigAt(l: Layout, data: seq<byte>, at: nat, wide: bool): (r: Read<int>)
    requires at <= |data|
    ensures r.Got? ==> at < r.next <= |data| && if wide then IsI64(r.value) else IsI32(r.value)
  {
    var x :- VarAt(data, at, wide);
    Got(ZigDecode(x.0, wide, l.exactZigZag), x.1)
  }

  /// `v as usize` for a signed value on a 64-bit target.
  function Usize(v: int): (n: nat)
    requires IsI64(v)
    ensures v >= 0 ==> n == v
    ensures v < 0 ==> n >= CAPACITY_LIMIT
  {
    if v >= 0 then v else v + U64_MOD
  }

  /// `read_string(len)`: the only primitive with an error path. The sum
  /// `len + cursor` wraps at 2^64; when the wrapped end lies before the
  /// cursor, the slice panics.
  function StringAt(data: seq<byte>, at: nat, len: nat): (r: Read<seq<byte>>)
    requires at <= |data|
    ensures at + len <= |data| < U64_MOD ==> r == Got(data[at..at + len], at + len)
    ensures at + len > |data| && len < U64_MOD - at ==> r == Fail(CursorOverflow(at, len, |data|))
    ensures r.Got? ==> at <= r.next <= |data|
  {
    var end := (at + len) % U64_MOD;
    if end > |data| then Fail(CursorOverflow(at, len, |data|))
    else if at > end then Panic
    else Got(data[at..end], end)
  }

  /// The slice `data[at..at + span]` with `at + span` wrapping at 2^64:
  /// its end, or nothing when the slice panics.
  function SliceEnd(data: seq<byte>, at: nat, span: nat): (r: Option<nat>)
    ensures r.Some? ==> at <= r.value <= |data|
    ensures at + span <= |data| < U64_MOD ==> r == Some(at + span)
  {
    var end := (at + span % U64_MOD) % U64_MOD;
    if at <= end <= |data| then Some(end) else None
  }

  /// `read_i8_array(len)`.
  function ByteArrayAt(data: seq<byte>, at: nat, len: nat): (r: Read<seq<I8>>)
    ensures r.Got? ==> at <= r.next <= |data| && |r.value| == r.next - at
    ensures at + len <= |data| < U64_MOD ==> r.Got? && r.next == at + len
  {
    match SliceEnd(data, at, len)
      case None => Panic
      case Some(end) => Got(AsI8s(data[at..end]), end)
  }

  /// Each byte `as i8`.
  function AsI8s(s: seq<byte>): (r: seq<I8>)
    ensures |r| == |s| && forall i :: 0 <= i < |s| ==> r[i] == ToSigned(s[i], U8_MOD)
  {
    if s == [] then [] else [ToSigned(s[0], U8_MOD) as I8] + AsI8s(s[1..])
  }

  /// `chunks_exact(w)` of `s`, each chunk decoded as a signed integer in
  /// order `e`; a shorter tail is dropped.
  function Chunks(s: seq<byte>, w: nat, e: Endian): (r: seq<int>)
    requires w == 4 || w == 8
    ensures |r| == |s| / w
    ensures forall i :: 0 <= i < |r| ==> -(Pow256(w) / 2) <= r[i] < Pow256(w) / 2
    decreases |s|
  {
    if |s| < w then [] else [Decode(s[..w], e, true)] + Chunks(s[w..], w, e)
  }

  /// `read_i32_array(len)` (`w` = 4) or `read_i64_array(len)` (`w` = 8):
  /// the slice of `len * w` bytes (both the product and the sum wrapping at
  /// 2^64), in `w`-byte chunks decoded in order `e`.
  function WordsAt(data: seq<byte>, at: nat, len: nat, w: nat, e: Endian): (r: Read<seq<int>>)
    requires w == 4 || w == 8
    ensures r.Got? ==> at <= r.next <= |data|
    ensures r.Got? ==> forall i :: 0 <= i < |r.value| ==> -(Pow256(w) / 2) <= r.value[i] < Pow256(w) / 2
    ensures at + len * w <= |data| < U64_MOD ==> r.Got? && r.next == at + len * w && |r.value| == len
  {
    match SliceEnd(data, at, len * w)
      case None => Panic
      case Some(end) => Got(Chunks(data[at..end], w, e), end)
  }

  // ---------------------------------------------------------------------
  // The primitives a layout picks
  // ---------------------------------------------------------------------

  /// `read_nbt_string`'s length: `read_be_u16`/`read_le_u16`, or a plain or
  /// zigzag varint cast to `usize`.
  function StringLengthAt(l: Layout, data: seq<byte>, at: nat): (r: Read<nat>)
    requires at <= |data|
    ensures r.Got? ==> at < r.next <= |data|
  {
    match l.strings
      case U16Length => FixedAt(data, at, 2, l.order, false)
      case PlainVarLength =>
        var x :- VarAt(data, at, false);
        Got(Usize(x.0), x.1)
      case ZigZagVarLength =>
        var x :- ZigAt(l, data, at, false);
        Got(Usize(x.0), x.1)
  }

  /// `read_nbt_string`: the length, then that many bytes.
  function NbtStringAt(l: Layout, data: seq<byte>, at: nat): (r: Read<seq<byte>>)
    requires at <= |data|
    ensures r.Got? ==> at < r.next <= |data|
  {
    var n :- StringLengthAt(l, data, at);
    StringAt(data, n.1, n.0)
  }

  /// An array or list length: an `i32` in the layout's order or a zigzag
  /// varint, cast to `usize`.
  function LengthAt(l: Layout, data: seq<byte>, at: nat): (r: Read<nat>)
    requires at <= |data|
    ensures r.Got? ==> at < r.next <= |data| && (r.value < 0x8000_0000 || r.value >= CAPACITY_LIMIT)
  {
    match l.lengths
      case Fixed32 =>
        var x :- FixedAt(data, at, 4, l.order, true);
        WidthRanges();
        Got(Usize(x.0), x.1)
      case ZigZagVar32 =>
        var x :- ZigAt(l, data, at, false);
        Got(Usize(x.0), x.1)
  }

  /// The six scalar payloads (tags 1 to 6).
  function ScalarAt(l: Layout, data: seq<byte>, at: nat, tag: byte): (r: Read<Value>)
    requires at <= |data| && TAG_BYTE <= tag <= TAG_DOUBLE
    ensures r.Got? ==> at < r.next <= |data| && Tag(r.value) == tag
  {
    WidthRanges();
    if tag == TAG_BYTE then
      var x :- U8At(data, at);
      Got(Byte(ToSigned(x.0, U8_MOD)), x.1)
    else if tag == TAG_SHORT then
      var x :- FixedAt(data, at, 2, l.order, true);
      Got(Short(x.0), x.1)
    else if tag == TAG_INT then
      var x :- if l.varInts then ZigAt(l, data, at, false) else FixedAt(data, at, 4, l.order, true);
      Got(Int(x.0), x.1)
    else if tag == TAG_LONG then
      var x :- if l.varInts then ZigAt(l, data, at, true) else FixedAt(data, at, 8, l.order, true);
      Got(Long(x.0), x.1)
    else if tag == TAG_FLOAT then
      var x :- FixedAt(data, at, 4, l.order, false);
      Got(Float(x.0), x.1)
    else
      var x :- FixedAt(data, at, 8, l.order, false);
      Got(Double(x.0), x.1)
  }

  // ---------------------------------------------------------------------
  // The tree (read_compound / read_list / from_reader)
  // ---------------------------------------------------------------------

  /// The payload of tag `tag` at `at`, as the `match tag_id` arms of
  /// `read_compound` and `read_list` read it.
  function Payload(l: Layout, data: seq<byte>, at: nat, tag: byte): (r: Read<Value>)
    requires at <= |data|
    ensures r.Got? ==> at < r.next <= |data| && Tag(r.value) == tag
    ensures tag == TAG_END || tag > TAG_LONG_ARRAY ==> r == Fail(UnknownType(tag))
    decreases |data| - at, 3
  {
    if TAG_BYTE <= tag <= TAG_DOUBLE then ScalarAt(l, data, at, tag)
    else if tag in {TAG_BYTE_ARRAY, TAG_INT_ARRAY, TAG_LONG_ARRAY} then ArrayAt(l, data, at, tag)
    else if tag == TAG_STRING then
      var s :- NbtStringAt(l, data, at);
      Got(String(s.0), s.1)
    else if tag == TAG_LIST then ListAt(l, data, at)
    else if tag == TAG_COMPOUND then CompoundAt(l, data, at)
    else Fail(UnknownType(tag))
  }

  /// The three array payloads: the length, then the elements; bytes as
  /// `i8`, Int and Long elements in the layout's element order.
  function ArrayAt(l: Layout, data: seq<byte>, at: nat, tag: byte): (r: Read<Value>)
    requires at <= |data| && tag in {TAG_BYTE_ARRAY, TAG_INT_ARRAY, TAG_LONG_ARRAY}
    ensures r.Got? ==> at < r.next <= |data| && Tag(r.value) == tag
  {
    var n :- LengthAt(l, data, at);
    WidthRanges();
    if tag == TAG_BYTE_ARRAY then
      var a :- ByteArrayAt(data, n.1, n.0);
      Got(ByteArray(a.0), a.1)
    else if tag == TAG_INT_ARRAY then
      var a :- WordsAt(data, n.1, n.0, 4, l.elements);
      Got(IntArray(a.0), a.1)
    else
      var a :- WordsAt(data, n.1, n.0, 8, l.elements);
      Got(LongArray(a.0), a.1)
  }

  /// A Compound payload: its members up to the End tag; no name of its own.
  function CompoundAt(l: Layout, data: seq<byte>, at: nat): (r: Read<Value>)
    requires at <= |data|
    ensures r.Got? ==> at < r.next <= |data| && r.value.Compound? && r.value.name.None?
    decreases |data| - at, 2
  {
    var ms :- Members(l, data, at, []);
    Got(Compound(None, ms.0), ms.1)
  }

  /// `read_list`: the element tag, the length, `Vec::with_capacity`, then
  /// exactly that many payloads of the element tag.
  function ListAt(l: Layout, data: seq<byte>, at: nat): (r: Read<Value>)
    requires at <= |data|
    ensures r.Got? ==> at < r.next <= |data| && r.value.List?
    decreases |data| - at, 2
  {
    var t :- U8At(data, at);
    var n :- LengthAt(l, data, t.1);
    if n.0 >= CAPACITY_LIMIT then Panic else Items(l, data, n.1, t.0, n.0, [])
  }

  /// The rest of a list: `remaining` more payloads of tag `tag` after the
  /// children `acc` read so far.
  function Items(l: Layout, data: seq<byte>, at: nat, tag: byte, remaining: nat, acc: seq<Value>): (r: Read<Value>)
    requires at <= |data|
    ensures r.Got? ==> at <= r.next <= |data| && r.value.List?
    decreases |data| - at, 4, remaining
  {
    if remaining == 0 then Got(List(acc), at)
    else
      var v :- Payload(l, data, at, tag);
      Items(l, data, v.1, tag, remaining - 1, acc + [v.0])
  }

  /// The rest of `read_compound` after the members `acc`: a tag, 0 ending
  /// the Compound; otherwise the key, then the payload of that tag.
  function Members(l: Layout, data: seq<byte>, at: nat, acc: seq<Member>): (r: Read<seq<Member>>)
    requires at <= |data|
    ensures r.Got? ==> at < r.next <= |data|
    decreases |data| - at, 1
  {
    var t :- U8At(data, at);
    if t.0 == TAG_END then Got(acc, t.1)
    else
      var key :- NbtStringAt(l, data, t.1);
      var v :- Payload(l, data, key.1, t.0);
      Members(l, data, v.1, acc + [Member(key.0, v.0)])
  }

  /// `from_reader` of dialect `d` reading with layout `l`: the root tag; a
  /// Compound (named, except on the Java network), or on Bedrock a List.
  function Root(d: Dialect, l: Layout, data: seq<byte>): (r: Read<Value>)
    ensures r.Got? ==> r.value.Compound? || (r.value.List? && d in {BedrockDisk, BedrockNet})
    ensures r.Got? && r.value.Compound? ==> (r.value.name.None? <==> d == JavaNet)
    ensures 0 < |data| && data[0] != TAG_COMPOUND && (data[0] != TAG_LIST || d in {Java, JavaNet})
            ==> r == Fail(WrongRootType(data[0]))
  {
    var t :- U8At(data, 0);
    if t.0 == TAG_LIST && d in {BedrockDisk, BedrockNet} then ListAt(l, data, 1)
    else if t.0 == TAG_COMPOUND && d == JavaNet then
      var ms :- Members(l, data, 1, []);
      Got(Compound(None, ms.0), ms.1)
    else if t.0 == TAG_COMPOUND then
      var name :- NbtStringAt(l, data, 1);
      var ms :- Members(l, data, name.1, []);
      Got(Compound(Some(name.0), ms.0), ms.1)
    else Fail(WrongRootType(t.0))
  }

  /// `from_reader` as each dialect reads.
  function FromReader(d: Dialect, data: seq<byte>): Read<Value>
  {
    Root(d, ReadLayout(d), data)
  }
}
