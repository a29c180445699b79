/// The values of the `Cursor` prototype (src/data.rs) and the reads of one
/// tagged value, with or without a name. A String carries a 4-byte length
/// (`StringLength` is `u32`, read by `from_i32`); a tag the reader does not
/// know is given back to the input by seeking one byte back.
module SrcData {
  import opened NbtBase
  import opened StdCursor

  /// The width of a String's length.
  const STRING_LENGTH_WIDTH: nat := 4

  datatype NbtValue =
    | NbtEnd
    | NbtByte(truth: bool)
    | NbtShort(s: int)
    | NbtInt(i: int)
    | NbtLong(l: int)
    | NbtFloat(fbits: int)
    | NbtDouble(dbits: int)
    | NbtString(text: seq<byte>)

  /// The containers; the `Rc<RefCell<..>>` sharing around each is not
  /// modelled.
  datatype NbtList =
    | BoolArray(bools: seq<bool>)
    | IntArray(ints: seq<int>)
    | LongArray(longs: seq<int>)
    | List(items: seq<NbtItem>)
    | Compound(entries: map<seq<byte>, NbtItem>)

  datatype NbtItem = Value(value: NbtValue) | Array(array: NbtList)

  /// `NbtItem::as_value`.
  function AsValue(item: NbtItem): (r: Option<NbtValue>)
    ensures r.Some? <==> item.Value?
    ensures r.Some? ==> item == Value(r.value)
  {
    match item
      case Value(v) => Some(v)
      case Array(_) => None
  }

  /// `NbtItem::as_array`.
  function AsArray(item: NbtItem): (r: Option<NbtList>)
    ensures r.Some? <==> item.Array?
    ensures r.Some? ==> item == Array(r.value)
  {
    match item
      case Value(_) => None
      case Array(a) => Some(a)
  }

  /// The tag id each value is read for.
  function TagOf(v: NbtValue): byte
  {
    match v
      case NbtEnd => TAG_END
      case NbtByte(_) => TAG_BYTE
      case NbtShort(_) => TAG_SHORT
      case NbtInt(_) => TAG_INT
      case NbtLong(_) => TAG_LONG
      case NbtFloat(_) => TAG_FLOAT
      case NbtDouble(_) => TAG_DOUBLE
      case NbtString(_) => TAG_STRING
  }

  /// `as_end`, `as_bool`, `as_i16`, `as_i32`, `as_i64`, `as_f32`, `as_f64`,
  /// `as_string`: the value when it is the variant of tag `t`.
  function As(v: NbtValue, t: byte): (r: Option<NbtValue>)
    ensures r.Some? <==> TagOf(v) == t
    ensures r.Some? ==> r.value == v
  {
    if TagOf(v) == t then Some(v) else None
  }

  /// The tags `try_read_value` reads a value for, besides End.
  predicate Known(t: byte)
  {
    1 <= t <= 6 || t == TAG_STRING
  }

  // ---------------------------------------------------------------------
  // The reads as functions of the input and the position
  // ---------------------------------------------------------------------

  /// `from_end`: one byte read and dropped.
  function EndAt(data: seq<byte>, at: nat): (r: (NbtValue, nat))
    ensures r.0 == NbtEnd && r.1 == at + Available(data, at, 1)
  {
    (NbtEnd, at + Available(data, at, 1))
  }

  /// `from_bool`: one byte, true when it is not zero.
  function BoolAt(data: seq<byte>, at: nat): (r: (NbtValue, nat))
    ensures r.0.NbtByte? && r.1 == at + Available(data, at, 1)
    ensures r.0.truth <==> at < |data| && data[at] != 0
  {
    FillIndex(data, at, 1, 0);
    (NbtByte(Fill(data, at, 1)[0] != 0), at + Available(data, at, 1))
  }

  /// `from_string`.
  function StringAt(data: seq<byte>, at: nat): (r: (NbtValue, nat))
    ensures r.0.NbtString? && at <= r.1
  {
    var (s, next) := TextValue(data, at, STRING_LENGTH_WIDTH);
    (NbtString(s), next)
  }

  /// A string is as long as its 4-byte length, read signed and cast to
  /// `u32`, says.
  lemma StringLength(data: seq<byte>, at: nat)
    ensures |StringAt(data, at).0.text| == ToUnsigned(BeValue(data, at, STRING_LENGTH_WIDTH).0, U32_MOD)
  {
    WidthRanges();
    TextLength(data, at, STRING_LENGTH_WIDTH);
  }

  /// The value of a known tag `t` without tag or name: `from_bool`,
  /// `from_i16`, `from_i32`, `from_i64`, `from_f32`, `from_f64`,
  /// `from_string`.
  function ValueAt(data: seq<byte>, at: nat, t: byte): (r: (NbtValue, nat))
    requires Known(t)
    ensures TagOf(r.0) == t && at <= r.1
  {
    if t == TAG_BYTE then BoolAt(data, at)
    else if t == TAG_SHORT then var (v, n) := BeValue(data, at, 2); (NbtShort(v), n)
    else if t == TAG_INT then var (v, n) := BeValue(data, at, 4); (NbtInt(v), n)
    else if t == TAG_LONG then var (v, n) := BeValue(data, at, 8); (NbtLong(v), n)
    else if t == TAG_FLOAT then var (v, n) := BitsValue(data, at, 4); (NbtFloat(v), n)
    else if t == TAG_DOUBLE then var (v, n) := BitsValue(data, at, 8); (NbtDouble(v), n)
    else StringAt(data, at)
  }

  /// The tag byte `try_read_value` reads at `at` (0 at the end of the
  /// input) and the position after it.
  function TagAt(data: seq<byte>, at: nat): (r: (byte, nat))
    ensures r.0 != 0 ==> at < |data| && r.0 == data[at] && r.1 == at + 1
    ensures at >= |data| ==> r == (0, at)
    ensures at < |data| ==> r == (data[at], at + 1)
  {
    FillIndex(data, at, 1, 0);
    (Fill(data, at, 1)[0], at + Available(data, at, 1))
  }

  /// `try_read_value`: a tag, then its value; an unknown tag is given back.
  function TryValueAt(data: seq<byte>, at: nat): (r: (Option<NbtValue>, nat))
    ensures r.0.None? <==> at < |data| && data[at] != 0 && !Known(data[at])
    ensures r.0.None? ==> r.1 == at
    ensures r.0.Some? ==> at <= r.1
  {
    var (t, p) := TagAt(data, at);
    if t == 0 then (Some(NbtEnd), p)
    else if Known(t) then
      var (v, next) := ValueAt(data, p, t);
      (Some(v), next)
    else (None, p - 1)
  }

  /// `try_read_value_with_name`: a tag, a name, then the value; End has an
  /// empty name and nothing after it.
  function TryNamedValueAt(data: seq<byte>, at: nat): (r: (Option<(NbtValue, seq<byte>)>, nat))
    ensures r.0.None? <==> at < |data| && data[at] != 0 && !Known(data[at])
    ensures r.0.None? ==> r.1 == at
    ensures r.0.Some? ==> at <= r.1
  {
    var (t, p) := TagAt(data, at);
    if t == 0 then (Some((NbtEnd, [])), p)
    else if Known(t) then
      var (name, q) := TextValue(data, p, STRING_LENGTH_WIDTH);
      var (v, next) := ValueAt(data, q, t);
      (Some((v, name)), next)
    else (None, p - 1)
  }

  // ---------------------------------------------------------------------
  // The reads as the prototype runs them on a `Cursor`
  // ---------------------------------------------------------------------

  /// `from_end`.
  method FromEnd(c: Cursor) returns (v: NbtValue)
    modifies c
    ensures (v, c.pos) == EndAt(c.data, old(c.pos))
  {
    var buf := c.Read(1);
    v := NbtEnd;
  }

  /// `from_bool`.
  method FromBool(c: Cursor) returns (v: NbtValue)
    modifies c
    ensures (v, c.pos) == BoolAt(c.data, old(c.pos))
  {
    var buf := c.Read(1);
    v := NbtByte(buf[0] != 0);
  }

  /// `from_string`.
  method FromString(c: Cursor) returns (v: NbtValue)
    modifies c
    ensures (v, c.pos) == StringAt(c.data, old(c.pos))
  {
    var s := ReadText(c, STRING_LENGTH_WIDTH);
    v := NbtString(s);
  }

  /// The `match` arms of `try_read_value` for a known tag `t`.
  method ReadValue(c: Cursor, t: byte) returns (v: NbtValue)
    requires Known(t)
    modifies c
    ensures (v, c.pos) == ValueAt(c.data, old(c.pos), t)
  {
    if t == TAG_BYTE {
      v := FromBool(c);
    } else if t == TAG_SHORT || t == TAG_INT || t == TAG_LONG {
      var x := ReadBe(c, if t == TAG_SHORT then 2 else if t == TAG_INT then 4 else 8);
      v := if t == TAG_SHORT then NbtShort(x) else if t == TAG_INT then NbtInt(x) else NbtLong(x);
    } else if t == TAG_FLOAT || t == TAG_DOUBLE {
      var x := ReadBits(c, if t == TAG_FLOAT then 4 else 8);
      v := if t == TAG_FLOAT then NbtFloat(x) else NbtDouble(x);
    } else {
      v := FromString(c);
    }
  }

  /// `try_read_value`; the `seek` back that `unwrap` would turn into a
  /// panic cannot fail, as a tag byte other than 0 was read.
  method TryReadValue(c: Cursor) returns (r: Option<NbtValue>)
    modifies c
    ensures (r, c.pos) == TryValueAt(c.data, old(c.pos))
  {
    var tag := c.Read(1);
    var t := tag[0];
    if t == 0 {
      return Some(NbtEnd);
    }
    if Known(t) {
      var v := ReadValue(c, t);
      return Some(v);
    }
    var ok := c.SeekBack();
    if !ok {
      assert false;
    }
    r := None;
  }

  /// `try_read_value_with_name`.
  method TryReadValueWithName(c: Cursor) returns (r: Option<(NbtValue, seq<byte>)>)
    modifies c
    ensures (r, c.pos) == TryNamedValueAt(c.data, old(c.pos))
  {
    var tag := c.Read(1);
    var t := tag[0];
    if t == 0 {
      return Some((NbtEnd, []));
    }
    if Known(t) {
      var name := FromString(c);
      var v := ReadValue(c, t);
      return Some((v, name.text));
    }
    var ok := c.SeekBack();
    if !ok {
      assert false;
    }
    r := None;
  }

  // ---------------------------------------------------------------------
  // What the reads promise
  // ---------------------------------------------------------------------

  /// At the end of the input both reads return End without moving, so a
  /// loop that stops at End stops there.
  lemma EndOfInputIsEnd(data: seq<byte>, at: nat)
    requires at >= |data|
    ensures TryValueAt(data, at) == (Some(NbtEnd), at)
    ensures TryNamedValueAt(data, at) == (Some((NbtEnd, [])), at)
  {
  }

  /// Whether the value fits its Rust type (strings: their `u32` length):
  /// its number lies in the range of that type.
  predicate Fits(v: NbtValue)
  {
    Low(v) <= Number(v) < High(v)
  }

  /// The number a value holds (a string: its length); 0 for End and Byte.
  function Number(v: NbtValue): int
  {
    match v
      case NbtShort(s) => s
      case NbtInt(i) => i
      case NbtLong(l) => l
      case NbtFloat(b) => b
      case NbtDouble(b) => b
      case NbtString(t) => |t|
      case _ => 0
  }

  /// The least value of the Rust type the number is held in.
  function Low(v: NbtValue): int
  {
    match v
      case NbtShort(_) => -0x8000
      case NbtInt(_) => -0x8000_0000
      case NbtLong(_) => -0x8000_0000_0000_0000
      case _ => 0
  }

  /// One more than the greatest value of that type.
  function High(v: NbtValue): int
  {
    match v
      case NbtShort(_) => 0x8000
      case NbtInt(_) => 0x8000_0000
      case NbtLong(_) => 0x8000_0000_0000_0000
      case NbtFloat(_) => U32_MOD
      case NbtDouble(_) => U64_MOD
      case NbtString(_) => U32_MOD
      case _ => 1
  }

  /// The bytes a value is read from, after its tag and name: true as 1.
  function Payload(v: NbtValue): (r: seq<byte>)
    requires Fits(v)
  {
    WidthRanges();
    match v
      case NbtEnd => []
      case NbtByte(b) => [if b then 1 else 0]
      case NbtShort(s) => BeBytes(ToUnsigned(s, U16_MOD), 2)
      case NbtInt(i) => BeBytes(ToUnsigned(i, U32_MOD), 4)
      case NbtLong(l) => BeBytes(ToUnsigned(l, U64_MOD), 8)
      case NbtFloat(b) => BeBytes(b, 4)
      case NbtDouble(b) => BeBytes(b, 8)
      case NbtString(t) => StringBytes(t)
  }

  /// Each known value reads back from its payload.
  lemma ValueReadsBack(data: seq<byte>, at: nat, v: NbtValue)
    requires Fits(v) && !v.NbtEnd?
    requires at + |Payload(v)| <= |data| && data[at..at + |Payload(v)|] == Payload(v)
    ensures Known(TagOf(v)) && ValueAt(data, at, TagOf(v)) == (v, at + |Payload(v)|)
  {
    WidthRanges();
    match v
      case NbtByte(b) =>
        assert data[at] == Payload(v)[0];
      case NbtShort(s) => BeValueReadsBack(data, at, s, 2);
      case NbtInt(i) => BeValueReadsBack(data, at, i, 4);
      case NbtLong(l) => BeValueReadsBack(data, at, l, 8);
      case NbtFloat(b) =>
        FillWhole(data, at, 4);
        BeRoundTrip(b, 4);
      case NbtDouble(b) =>
        FillWhole(data, at, 8);
        BeRoundTrip(b, 8);
      case NbtString(t) =>
        assert StringBytes(t) == BeBytes(|t|, STRING_LENGTH_WIDTH) + t;
        TextReadsBack(data, at, t, STRING_LENGTH_WIDTH);
  }

  /// `try_read_value` reads back a tagged value: its tag byte, then its
  /// payload.
  lemma TryValueReadsBack(data: seq<byte>, at: nat, v: NbtValue)
    requires Fits(v) && !v.NbtEnd? && at < |data| && data[at] == TagOf(v)
    requires at + 1 + |Payload(v)| <= |data| && data[at + 1..at + 1 + |Payload(v)|] == Payload(v)
    ensures TryValueAt(data, at) == (Some(v), at + 1 + |Payload(v)|)
  {
    ValueReadsBack(data, at + 1, v);
    TaggedValueOf(data, at, TagOf(v), v, at + 1 + |Payload(v)|);
  }

  /// `try_read_value_with_name` reads back a tagged, named value: its tag
  /// byte, the name behind its 4-byte length, then its payload.
  lemma TryNamedValueReadsBack(data: seq<byte>, at: nat, v: NbtValue, name: seq<byte>)
    requires Fits(v) && !v.NbtEnd? && |name| < U32_MOD && at < |data| && data[at] == TagOf(v)
    requires var q := at + 1 + |StringBytes(name)|;
      q + |Payload(v)| <= |data| && data[at + 1..q] == StringBytes(name) && data[q..q + |Payload(v)|] == Payload(v)
    ensures TryNamedValueAt(data, at) == (Some((v, name)), at + 1 + |StringBytes(name)| + |Payload(v)|)
  {
    var q := at + 1 + |StringBytes(name)|;
    ValueReadsBack(data, q, v);
    NamedValueOf(data, at, TagOf(v), name, v, q + |Payload(v)|);
  }

  /// A string or a name as `from_string` reads it: its length in 4 bytes,
  /// then its bytes.
  function StringBytes(s: seq<byte>): (r: seq<byte>)
    requires |s| < U32_MOD
    ensures |r| == STRING_LENGTH_WIDTH + |s|
  {
    WidthRanges();
    BeBytes(|s|, STRING_LENGTH_WIDTH) + s
  }

  /// A known tag and a value read after it make one tagged value.
  lemma TaggedValueOf(data: seq<byte>, at: nat, t: byte, v: NbtValue, next: nat)
    requires at < |data| && data[at] == t && Known(t) && ValueAt(data, at + 1, t) == (v, next)
    ensures TryValueAt(data, at) == (Some(v), next)
  {
  }

  /// A known tag, a name behind its length and a value read after the
  /// name make one named value.
  lemma NamedValueOf(data: seq<byte>, at: nat, t: byte, name: seq<byte>, v: NbtValue, next: nat)
    requires at < |data| && data[at] == t && Known(t) && |name| < U32_MOD
    requires var q := at + 1 + STRING_LENGTH_WIDTH + |name|;
      q <= |data| && data[at + 1..q] == StringBytes(name) && ValueAt(data, q, t) == (v, next)
    ensures TryNamedValueAt(data, at) == (Some((v, name)), next)
  {
    assert |name| < Pow256(STRING_LENGTH_WIDTH) && StringBytes(name) == BeBytes(|name|, STRING_LENGTH_WIDTH) + name by {
      WidthRanges();
    }
    TextReadsBack(data, at + 1, name, STRING_LENGTH_WIDTH);
  }
}
