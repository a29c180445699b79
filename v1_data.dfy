/// The values of the first `Cursor` prototype (v1/src/data.rs) and the reads
/// of one tagged value, with or without a name. It differs from the later
/// one (src/data.rs) in two reads: a Byte is read as an `i8`, and a
/// String's length (`StringLength` is `u16`) is read by `from_i16` and cast
/// to `u16`. The tag byte and its give-back are the same.
module V1Data {
  import opened NbtBase
  import opened StdCursor
  import SrcData

  /// The width of a String's length.
  const STRING_LENGTH_WIDTH: nat := 2

  datatype NbtValue =
    | NbtEnd
    | NbtByte(b: int)
    | NbtShort(s: int)
    | NbtInt(i: int)
    | NbtLong(l: int)
    | NbtFloat(fbits: int)
    | NbtDouble(dbits: int)
    | NbtString(text: seq<byte>)

  /// The containers; a Compound carries its own name. The
  /// `Rc<RefCell<..>>` around its map is not modelled.
  datatype NbtList =
    | BoolArray(bytes: seq<int>)
    | IntArray(ints: seq<int>)
    | LongArray(longs: seq<int>)
    | List(items: seq<NbtItem>)
    | Compound(name: seq<byte>, entries: map<seq<byte>, NbtItem>)

  datatype NbtItem = Value(value: NbtValue) | Array(array: NbtList)

  /// `NbtItem::as_value`.
  function AsValue(item: NbtItem): (r: Option<NbtValue>)
    ensures r.Some? <==> item.Value?
    ensures r.Some? ==> item == Value(r.value)
  {
    match item
      case Value(v) => Some(v)
      case Array(_) => None
  }

  /// `NbtItem::as_array`.
  function AsArray(item: NbtItem): (r: Option<NbtList>)
    ensures r.Some? <==> item.Array?
    ensures r.Some? ==> item == Array(r.value)
  {
    match item
      case Value(_) => None
      case Array(a) => Some(a)
  }

  /// The tag id each value is read for.
  function TagOf(v: NbtValue): byte
  {
    match v
      case NbtEnd => TAG_END
      case NbtByte(_) => TAG_BYTE
      case NbtShort(_) => TAG_SHORT
      case NbtInt(_) => TAG_INT
      case NbtLong(_) => TAG_LONG
      case NbtFloat(_) => TAG_FLOAT
      case NbtDouble(_) => TAG_DOUBLE
      case NbtString(_) => TAG_STRING
  }

  /// `as_end`, `as_i8`, `as_i16`, `as_i32`, `as_i64`, `as_f32`, `as_f64`,
  /// `as_string`: the value when it is the variant of tag `t`.
  function As(v: NbtValue, t: byte): (r: Option<NbtValue>)
    ensures r.Some? <==> TagOf(v) == t
    ensures r.Some? ==> r.value == v
  {
    if TagOf(v) == t then Some(v) else None
  }

  // ---------------------------------------------------------------------
  // The reads as functions of the input and the position
  // ---------------------------------------------------------------------

  /// `from_string`: a 2-byte length read signed, cast to `u16`.
  function StringAt(data: seq<byte>, at: nat): (r: (NbtValue, nat))
    ensures r.0.NbtString? && at <= r.1
  {
    var (s, next) := TextValue(data, at, STRING_LENGTH_WIDTH);
    (NbtString(s), next)
  }

  /// The value of a known tag `t` without tag or name: `from_i8` (the byte
  /// cast to `i8`), `from_i16`, `from_i32`, `from_i64`, `from_f32`,
  /// `from_f64`, `from_string`.
  function ValueAt(data: seq<byte>, at: nat, t: byte): (r: (NbtValue, nat))
    requires SrcData.Known(t)
    ensures TagOf(r.0) == t && at <= r.1
  {
    if t == TAG_BYTE then var (v, n) := BeValue(data, at, 1); (NbtByte(v), n)
    else if t == TAG_SHORT then var (v, n) := BeValue(data, at, 2); (NbtShort(v), n)
    else if t == TAG_INT then var (v, n) := BeValue(data, at, 4); (NbtInt(v), n)
    else if t == TAG_LONG then var (v, n) := BeValue(data, at, 8); (NbtLong(v), n)
    else if t == TAG_FLOAT then var (v, n) := BitsValue(data, at, 4); (NbtFloat(v), n)
    else if t == TAG_DOUBLE then var (v, n) := BitsValue(data, at, 8); (NbtDouble(v), n)
    else StringAt(data, at)
  }

  /// `try_read_value`: a tag, then its value; an unknown tag is given back.
  function TryValueAt(data: seq<byte>, at: nat): (r: (Option<NbtValue>, nat))
    ensures r.0.None? <==> at < |data| && data[at] != 0 && !SrcData.Known(data[at])
    ensures r.0.None? ==> r.1 == at
    ensures r.0.Some? ==> at <= r.1
  {
    var (t, p) := SrcData.TagAt(data, at);
    if t == 0 then (Some(NbtEnd), p)
    else if SrcData.Known(t) then
      var (v, next) := ValueAt(data, p, t);
      (Some(v), next)
    else (None, p - 1)
  }

  /// `try_read_value_with_name`: a tag, a name, then the value; End has an
  /// empty name and nothing after it.
  function TryNamedValueAt(data: seq<byte>, at: nat): (r: (Option<(NbtValue, seq<byte>)>, nat))
    ensures r.0.None? <==> at < |data| && data[at] != 0 && !SrcData.Known(data[at])
    ensures r.0.None? ==> r.1 == at
    ensures r.0.Some? ==> at <= r.1
  {
    var (t, p) := SrcData.TagAt(data, at);
    if t == 0 then (Some((NbtEnd, [])), p)
    else if SrcData.Known(t) then
      var (name, q) := TextValue(data, p, STRING_LENGTH_WIDTH);
      var (v, next) := ValueAt(data, q, t);
      (Some((v, name)), next)
    else (None, p - 1)
  }

  // ---------------------------------------------------------------------
  // The reads as the prototype runs them on a `Cursor`
  // ---------------------------------------------------------------------

  /// `from_string`.
  method FromString(c: Cursor) returns (v: NbtValue)
    modifies c
    ensures (v, c.pos) == StringAt(c.data, old(c.pos))
  {
    var s := ReadText(c, STRING_LENGTH_WIDTH);
    v := NbtString(s);
  }

  /// The `match` arms of `try_read_value` for a known tag `t`.
  method ReadValue(c: Cursor, t: byte) returns (v: NbtValue)
    requires SrcData.Known(t)
    modifies c
    ensures (v, c.pos) == ValueAt(c.data, old(c.pos), t)
  {
    if t == TAG_BYTE || t == TAG_SHORT || t == TAG_INT || t == TAG_LONG {
      var w := if t == TAG_BYTE then 1 else if t == TAG_SHORT then 2 else if t == TAG_INT then 4 else 8;
      var x := ReadBe(c, w);
      v := if t == TAG_BYTE then NbtByte(x) else if t == TAG_SHORT then NbtShort(x)
        else if t == TAG_INT then NbtInt(x) else NbtLong(x);
    } else if t == TAG_FLOAT || t == TAG_DOUBLE {
      var x := ReadBits(c, if t == TAG_FLOAT then 4 else 8);
      v := if t == TAG_FLOAT then NbtFloat(x) else NbtDouble(x);
    } else {
      v := FromString(c);
    }
  }

  /// `try_read_value`; the `seek` back cannot fail, as a tag byte other
  /// than 0 was read.
  method TryReadValue(c: Cursor) returns (r: Option<NbtValue>)
    modifies c
    ensures (r, c.pos) == TryValueAt(c.data, old(c.pos))
  {
    var tag := c.Read(1);
    var t := tag[0];
    if t == 0 {
      return Some(NbtEnd);
    }
    if SrcData.Known(t) {
      var v := ReadValue(c, t);
      return Some(v);
    }
    var ok := c.SeekBack();
    if !ok {
      assert false;
    }
    r := None;
  }

  /// `try_read_value_with_name`.
  method TryReadValueWithName(c: Cursor) returns (r: Option<(NbtValue, seq<byte>)>)
    modifies c
    ensures (r, c.pos) == TryNamedValueAt(c.data, old(c.pos))
  {
    var tag := c.Read(1);
    var t := tag[0];
    if t == 0 {
      return Some((NbtEnd, []));
    }
    if SrcData.Known(t) {
      var name := FromString(c);
      var v := ReadValue(c, t);
      return Some((v, name.text));
    }
    var ok := c.SeekBack();
    if !ok {
      assert false;
    }
    r := None;
  }

  // ---------------------------------------------------------------------
  // What the reads promise
  // ---------------------------------------------------------------------

  /// At the end of the input both reads return End without moving.
  lemma EndOfInputIsEnd(data: seq<byte>, at: nat)
    requires at >= |data|
    ensures TryValueAt(data, at) == (Some(NbtEnd), at)
    ensures TryNamedValueAt(data, at) == (Some((NbtEnd, [])), at)
  {
  }

  /// A Byte keeps its sign: 0xFF reads as -1, where the later prototype
  /// reads it as true.
  lemma ByteIsSigned()
    ensures ValueAt([0xFF], 0, TAG_BYTE) == (NbtByte(-1), 1)
    ensures SrcData.ValueAt([0xFF], 0, TAG_BYTE) == (SrcData.NbtByte(true), 1)
  {
    var buf := Fill([0xFF], 0, 1);
    assert buf == [0xFF];
    assert BeUnsigned(buf) == 0xFF by {
      assert buf[..0] == [];
    }
  }

  /// A String's length is read signed and cast back: a 2-byte length of
  /// 0xFFFF is 65535 bytes, not -1.
  lemma LengthIsUnsigned(data: seq<byte>, at: nat)
    requires at + 2 <= |data| && data[at] == 0xFF && data[at + 1] == 0xFF
    ensures |StringAt(data, at).0.text| == 0xFFFF
  {
    StringLength(data, at);
    WidthRanges();
    FillWhole(data, at, 2);
    assert data[at..at + 2] == BeBytes(0xFFFF, 2);
    BeSignedRoundTrip(-1, 2);
  }

  /// A string is as long as its 2-byte length, read signed and cast to
  /// `u16`, says.
  lemma StringLength(data: seq<byte>, at: nat)
    ensures |StringAt(data, at).0.text| == ToUnsigned(BeValue(data, at, STRING_LENGTH_WIDTH).0, U16_MOD)
  {
    WidthRanges();
    TextLength(data, at, STRING_LENGTH_WIDTH);
  }

  /// Whether the value fits its Rust type (strings: their `u16` length):
  /// its number lies in the range of that type.
  predicate Fits(v: NbtValue)
  {
    Low(v) <= Number(v) < High(v)
  }

  /// The number a value holds (a string: its length); 0 for End.
  function Number(v: NbtValue): int
  {
    match v
      case NbtByte(b) => b
      case NbtShort(s) => s
      case NbtInt(i) => i
      case NbtLong(l) => l
      case NbtFloat(b) => b
      case NbtDouble(b) => b
      case NbtString(t) => |t|
      case _ => 0
  }

  /// The least value of the Rust type the number is held in.
  function Low(v: NbtValue): int
  {
    match v
      case NbtByte(_) => -0x80
      case NbtShort(_) => -0x8000
      case NbtInt(_) => -0x8000_0000
      case NbtLong(_) => -0x8000_0000_0000_0000
      case _ => 0
  }

  /// One more than the greatest value of that type.
  function High(v: NbtValue): int
  {
    match v
      case NbtByte(_) => 0x80
      case NbtShort(_) => 0x8000
      case NbtInt(_) => 0x8000_0000
      case NbtLong(_) => 0x8000_0000_0000_0000
      case NbtFloat(_) => U32_MOD
      case NbtDouble(_) => U64_MOD
      case NbtString(_) => U16_MOD
      case _ => 1
  }

  /// A string or a name as `from_string` reads it: its length in 2 bytes,
  /// then its bytes.
  function StringBytes(s: seq<byte>): (r: seq<byte>)
    requires |s| < U16_MOD
    ensures |r| == STRING_LENGTH_WIDTH + |s|
  {
    WidthRanges();
    BeBytes(|s|, STRING_LENGTH_WIDTH) + s
  }

  /// The bytes a value is read from, after its tag and name.
  function Payload(v: NbtValue): (r: seq<byte>)
    requires Fits(v)
  {
    WidthRanges();
    match v
      case NbtEnd => []
      case NbtByte(b) => BeBytes(ToUnsigned(b, U8_MOD), 1)
      case NbtShort(s) => BeBytes(ToUnsigned(s, U16_MOD), 2)
      case NbtInt(i) => BeBytes(ToUnsigned(i, U32_MOD), 4)
      case NbtLong(l) => BeBytes(ToUnsigned(l, U64_MOD), 8)
      case NbtFloat(b) => BeBytes(b, 4)
      case NbtDouble(b) => BeBytes(b, 8)
      case NbtString(t) => StringBytes(t)
  }

  /// Each known value reads back from its payload.
  lemma ValueReadsBack(data: seq<byte>, at: nat, v: NbtValue)
    requires Fits(v) && !v.NbtEnd?
    requires at + |Payload(v)| <= |data| && data[at..at + |Payload(v)|] == Payload(v)
    ensures SrcData.Known(TagOf(v)) && ValueAt(data, at, TagOf(v)) == (v, at + |Payload(v)|)
  {
    WidthRanges();
    match v
      case NbtByte(b) => BeValueReadsBack(data, at, b, 1);
      case NbtShort(s) => BeValueReadsBack(data, at, s, 2);
      case NbtInt(i) => BeValueReadsBack(data, at, i, 4);
      case NbtLong(l) => BeValueReadsBack(data, at, l, 8);
      case NbtFloat(b) =>
        FillWhole(data, at, 4);
        BeRoundTrip(b, 4);
      case NbtDouble(b) =>
        FillWhole(data, at, 8);
        BeRoundTrip(b, 8);
      case NbtString(t) =>
        assert StringBytes(t) == BeBytes(|t|, STRING_LENGTH_WIDTH) + t;
        TextReadsBack(data, at, t, STRING_LENGTH_WIDTH);
  }

  /// `try_read_value` reads back a tagged value: its tag byte, then its
  /// payload.
  lemma TryValueReadsBack(data: seq<byte>, at: nat, v: NbtValue)
    requires Fits(v) && !v.NbtEnd? && at < |data| && data[at] == TagOf(v)
    requires at + 1 + |Payload(v)| <= |data| && data[at + 1..at + 1 + |Payload(v)|] == Payload(v)
    ensures TryValueAt(data, at) == (Some(v), at + 1 + |Payload(v)|)
  {
    ValueReadsBack(data, at + 1, v);
    TaggedValueOf(data, at, TagOf(v), v, at + 1 + |Payload(v)|);
  }

  /// `try_read_value_with_name` reads back a tagged, named value: its tag
  /// byte, the name behind its 2-byte length, then its payload.
  lemma TryNamedValueReadsBack(data: seq<byte>, at: nat, v: NbtValue, name: seq<byte>)
    requires Fits(v) && !v.NbtEnd? && |name| < U16_MOD && at < |data| && data[at] == TagOf(v)
    requires var q := at + 1 + |StringBytes(name)|;
      q + |Payload(v)| <= |data| && data[at + 1..q] == StringBytes(name) && data[q..q + |Payload(v)|] == Payload(v)
    ensures TryNamedValueAt(data, at) == (Some((v, name)), at + 1 + |StringBytes(name)| + |Payload(v)|)
  {
    var q := at + 1 + |StringBytes(name)|;
    ValueReadsBack(data, q, v);
    NamedValueOf(data, at, TagOf(v), name, v, q + |Payload(v)|);
  }

  /// A known tag and a value read after it make one tagged value.
  lemma TaggedValueOf(data: seq<byte>, at: nat, t: byte, v: NbtValue, next: nat)
    requires at < |data| && data[at] == t && SrcData.Known(t) && ValueAt(data, at + 1, t) == (v, next)
    ensures TryValueAt(data, at) == (Some(v), next)
  {
  }

  /// A known tag, a name behind its length and a value read after the
  /// name make one named value.
  lemma NamedValueOf(data: seq<byte>, at: nat, t: byte, name: seq<byte>, v: NbtValue, next: nat)
    requires at < |data| && data[at] == t && SrcData.Known(t) && |name| < U16_MOD
    requires var q := at + 1 + STRING_LENGTH_WIDTH + |name|;
      q <= |data| && data[at + 1..q] == StringBytes(name) && ValueAt(data, q, t) == (v, next)
    ensures TryNamedValueAt(data, at) == (Some((v, name)), next)
  {
    assert |name| < Pow256(STRING_LENGTH_WIDTH) && StringBytes(name) == BeBytes(|name|, STRING_LENGTH_WIDTH) + name by {
      WidthRanges();
    }
    TextReadsBack(data, at + 1, name, STRING_LENGTH_WIDTH);
  }
}
