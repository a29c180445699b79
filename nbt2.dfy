/// The first prototype (shen-nbt2/src/lib.rs): `NbtData`, a byte vector
/// and a `head` that every read moves forward, and `Value::read_*`, a
/// recursive descent over it for the big-endian Java layout. Every read
/// indexes the vector, so an input that ends early panics; here the panic
/// is an outcome of its own.
///
/// Two of its readings disagree with the format: the `slice_as_*` helpers
/// reinterpret the bytes in the host's order, and the strings of a list
/// carry a 4-byte length. `Variant` selects the reader as written (with the
/// host's byte order) or with both corrected.
module Nbt2 {
  import opened NbtBase

  /// How a read ends: a value and the position after it, or a panic.
  datatype Read<T> = Got(value: T, next: nat) | Panic
  {
    predicate IsFailure() { Panic? }

    function PropagateFailure<U>(): Read<U>
      requires Panic?
    {
      Panic
    }

    function Extract(): (T, nat)
      requires Got?
    {
      (value, next)
    }
  }

  /// The reader as written on a host whose memory order is `host`, or the
  /// reader with big-endian slices and 2-byte string lengths in lists.
  datatype Variant = AsWritten(host: Endian) | Corrected

  /// The order `slice_as_*` reads `w`-byte values in.
  function Order(variant: Variant): Endian
  {
    if variant.AsWritten? then variant.host else Big
  }

  /// The width of the length of a string inside a list.
  function ListStringWidth(variant: Variant): nat
  {
    if variant.AsWritten? then 4 else 2
  }

  // ---------------------------------------------------------------------
  // Values (shen-nbt2/src/lib.rs:163-206); floats are their bit patterns
  // ---------------------------------------------------------------------

  datatype Value =
    | Byte(b: int)
    | Short(s: int)
    | Int(i: int)
    | Long(l: int)
    | Float(fbits: int)
    | Double(dbits: int)
    | String(text: seq<byte>)
    | ByteArray(bytes: seq<int>)
    | IntArray(ints: seq<int>)
    | LongArray(longs: seq<int>)
    | List(content: ListContent)
    | Compound(members: seq<Entry>)

  datatype ListContent =
    | ByteList(byteItems: seq<int>)
    | ShortList(shortItems: seq<int>)
    | IntList(intItems: seq<int>)
    | LongList(longItems: seq<int>)
    | FloatList(floatItems: seq<int>)
    | DoubleList(doubleItems: seq<int>)
    | StringList(stringItems: seq<seq<byte>>)
    | ByteArrayList(byteArrays: seq<seq<int>>)
    | IntArrayList(intArrays: seq<seq<int>>)
    | LongArrayList(longArrays: seq<seq<int>>)
    | CompoundList(compounds: seq<seq<Entry>>)
    | ListList(lists: seq<ListContent>)

  /// A member of a Compound: its name and its value.
  datatype Entry = Entry(name: seq<byte>, value: Value)

  /// The tag id each variant is read for.
  function TagOf(v: Value): byte
  {
    match v
      case Byte(_) => TAG_BYTE
      case Short(_) => TAG_SHORT
      case Int(_) => TAG_INT
      case Long(_) => TAG_LONG
      case Float(_) => TAG_FLOAT
      case Double(_) => TAG_DOUBLE
      case ByteArray(_) => TAG_BYTE_ARRAY
      case String(_) => TAG_STRING
      case List(_) => TAG_LIST
      case Compound(_) => TAG_COMPOUND
      case IntArray(_) => TAG_INT_ARRAY
      case LongArray(_) => TAG_LONG_ARRAY
  }

  /// The number of elements a list holds.
  function Count(c: ListContent): nat
  {
    match c
      case ByteList(xs) => |xs|
      case ShortList(xs) => |xs|
      case IntList(xs) => |xs|
      case LongList(xs) => |xs|
      case FloatList(xs) => |xs|
      case DoubleList(xs) => |xs|
      case StringList(xs) => |xs|
      case ByteArrayList(xs) => |xs|
      case IntArrayList(xs) => |xs|
      case LongArrayList(xs) => |xs|
      case CompoundList(xs) => |xs|
      case ListList(xs) => |xs|
  }

  // ---------------------------------------------------------------------
  // `NbtData` reads (shen-nbt2/src/lib.rs:18-84) as functions of the
  // bytes and the head
  // ---------------------------------------------------------------------

  /// `read_byte`: the byte at the head `as i8`.
  function ByteAt(data: seq<byte>, at: nat): (r: Read<int>)
    ensures r.Panic? <==> at >= |data|
    ensures r.Got? ==> r.next == at + 1 && IsI8(r.value) && ToUnsigned(r.value, U8_MOD) == data[at]
  {
    if at < |data| then Got(ToSigned(data[at], U8_MOD), at + 1) else Panic
  }

  /// `read_short` / `read_int` / `read_long`: `from_be_bytes` of the next
  /// `w` bytes as a signed integer.
  function BeAt(data: seq<byte>, at: nat, w: nat): (r: Read<int>)
    requires w > 0
    ensures r.Panic? <==> at + w > |data|
    ensures r.Got? ==> r.next == at + w && -(Pow256(w) / 2) <= r.value < Pow256(w) / 2
  {
    if at + w <= |data| then Got(BeSigned(data[at..at + w]), at + w) else Panic
  }

  /// `read_float` / `read_double`: the bit pattern of the next `w` bytes,
  /// most significant first.
  function BitsAt(data: seq<byte>, at: nat, w: nat): (r: Read<int>)
    requires w > 0
    ensures r.Panic? <==> at + w > |data|
    ensures r.Got? ==> r.next == at + w && 0 <= r.value < Pow256(w)
  {
    if at + w <= |data| then Got(BeUnsigned(data[at..at + w]), at + w) else Panic
  }

  /// `read_bytes(n)`: the slice `data[head..head + n]`. When `head + n`
  /// overflows `usize` the sum panics in a debug build and wraps below the
  /// head in a release build, where the slice panics; either way the read
  /// panics exactly when the bytes are not there.
  function BytesAt(data: seq<byte>, at: nat, n: nat): (r: Read<seq<byte>>)
    ensures r.Panic? <==> at + n > |data|
    ensures r.Got? ==> r.next == at + n && |r.value| == n
    ensures r.Got? ==> forall i | 0 <= i < n :: r.value[i] == data[at + i]
  {
    if at + n <= |data| then Got(data[at..at + n], at + n) else Panic
  }

  /// `length as usize` of an `i16` or `i32` length on a 64-bit target: a
  /// negative length becomes at least 2^64 - 2^31.
  function Usize(v: int): (n: nat)
    requires IsI64(v)
    ensures v >= 0 ==> n == v
    ensures v < 0 ==> n >= U64_MOD - 0x8000_0000_0000_0000
  {
    if v >= 0 then v else v + U64_MOD
  }

  // ---------------------------------------------------------------------
  // `raw_reading` (shen-nbt2/src/lib.rs:87-161)
  // ---------------------------------------------------------------------

  /// `slice_as_byte_array`: each byte `as i8`.
  function SliceAsByteArray(s: seq<byte>): (r: seq<int>)
    ensures |r| == |s|
    ensures forall i | 0 <= i < |s| :: IsI8(r[i]) && ToUnsigned(r[i], U8_MOD) == s[i]
  {
    seq(|s|, i requires 0 <= i < |s| => ToSigned(s[i], U8_MOD))
  }

  /// The `w`-byte values of `s` in order `e`, a shorter tail dropped.
  function Words(s: seq<byte>, w: nat, e: Endian, signed: bool): (r: seq<int>)
    requires w == 2 || w == 4 || w == 8
    ensures |r| == |s| / w
    decreases |s|
  {
    if |s| < w then []
    else
      var rest := Words(s[w..], w, e, signed);
      DivStep(|s|, w);
      [Decode(s[..w], e, signed)] + rest
  }

  /// One more chunk of `w` bytes is one more word.
  lemma DivStep(n: nat, w: nat)
    requires (w == 2 || w == 4 || w == 8) && n >= w
    ensures (n - w) / w + 1 == n / w && (n % w == 0 <==> (n - w) % w == 0)
  {
  }

  /// `slice_as_short_array` (2 bytes), `slice_as_int_array` and
  /// `slice_as_float_array` (4), `slice_as_long_array` and
  /// `slice_as_double_array` (8): the bytes reinterpreted in place through
  /// `from_raw_parts`, so each value is read in the host's order `e`;
  /// nothing when the length is not a multiple of the width.
  function SliceAs(s: seq<byte>, w: nat, e: Endian, signed: bool): (r: Option<seq<int>>)
    requires w == 2 || w == 4 || w == 8
    ensures r.None? <==> |s| % w != 0
    ensures r.Some? ==> |r.value| == |s| / w
  {
    if |s| % w != 0 then None else Some(Words(s, w, e, signed))
  }

  /// One value written as `w` bytes in order `e`.
  function EncodeOne(x: int, w: nat, e: Endian): (r: seq<byte>)
    requires w == 2 || w == 4 || w == 8
    requires -(Pow256(w) / 2) <= x < Pow256(w) / 2
    ensures |r| == w
  {
    var u := ToUnsigned(x, Pow256(w));
    if e == Big then BeBytes(u, w) else LeBytes(u, w)
  }

  /// A value written in order `e` is read back in order `e`.
  lemma DecodeOne(x: int, w: nat, e: Endian)
    requires w == 2 || w == 4 || w == 8
    requires -(Pow256(w) / 2) <= x < Pow256(w) / 2
    ensures Decode(EncodeOne(x, w, e), e, true) == x
  {
    if e == Big {
      BeSignedRoundTrip(x, w);
    } else {
      LeSignedRoundTrip(x, w);
    }
  }

  /// The bytes of `xs`, each value written as `w` bytes in order `e`: what
  /// `SliceAs` reads back.
  function Unslice(xs: seq<int>, w: nat, e: Endian): (r: seq<byte>)
    requires w == 2 || w == 4 || w == 8
    requires forall i | 0 <= i < |xs| :: -(Pow256(w) / 2) <= xs[i] < Pow256(w) / 2
    ensures |r| == w * |xs|
  {
    if xs == [] then [] else EncodeOne(xs[0], w, e) + Unslice(xs[1..], w, e)
  }

  /// `slice_as_*` reads back the values written in the same order.
  lemma {:induction false} SliceAsRoundTrip(xs: seq<int>, w: nat, e: Endian)
    requires w == 2 || w == 4 || w == 8
    requires forall i | 0 <= i < |xs| :: -(Pow256(w) / 2) <= xs[i] < Pow256(w) / 2
    ensures SliceAs(Unslice(xs, w, e), w, e, true) == Some(xs)
  {
    WordsRoundTrip(xs, w, e);
    MultipleOf(|xs|, w);
    assert w * |xs| == |xs| * w;
  }

  lemma {:induction false} WordsRoundTrip(xs: seq<int>, w: nat, e: Endian)
    requires w == 2 || w == 4 || w == 8
    requires forall i | 0 <= i < |xs| :: -(Pow256(w) / 2) <= xs[i] < Pow256(w) / 2
    ensures Words(Unslice(xs, w, e), w, e, true) == xs
    decreases |xs|
  {
    if xs != [] {
      var head := EncodeOne(xs[0], w, e);
      var s := Unslice(xs, w, e);
      assert s[..w] == head && s[w..] == Unslice(xs[1..], w, e);
      WordsRoundTrip(xs[1..], w, e);
      DecodeOne(xs[0], w, e);
      assert Words(s, w, e, true) == [xs[0]] + xs[1..];
    }
  }

  /// `n` values of `w` bytes fill a whole number of `w`-byte slots.
  lemma MultipleOf(n: nat, w: nat)
    requires w == 1 || w == 2 || w == 4 || w == 8
    ensures (n * w) % w == 0 && (n * w) / w == n
  {
  }

  // ---------------------------------------------------------------------
  // `Value::read_*` (shen-nbt2/src/lib.rs:208-387) as functions
  // ---------------------------------------------------------------------

  /// `read_string` (`w` = 2) and the String elements of `read_list`
  /// (`w` = 4 as written): a signed `w`-byte length, then that many bytes.
  function TextAt(data: seq<byte>, at: nat, w: nat): (r: Read<Value>)
    requires w == 2 || w == 4
    ensures r.Got? ==> r.value.String? && r.next == at + w + |r.value.text| <= |data|
  {
    var len :- BeAt(data, at, w);
    var s :- BytesAt(data, len.1, Usize(len.0));
    Got(String(s.0), s.1)
  }

  /// `read_byte_array`: an `i32` length, then that many bytes `as i8`.
  function ByteArrayAt(data: seq<byte>, at: nat): (r: Read<Value>)
    ensures r.Got? ==> r.value.ByteArray? && r.next == at + 4 + |r.value.bytes| <= |data|
  {
    var len :- BeAt(data, at, 4);
    var raw :- BytesAt(data, len.1, Usize(len.0));
    Got(ByteArray(SliceAsByteArray(raw.0)), raw.1)
  }

  /// `read_int_array` (`w` = 4) and `read_long_array` (`w` = 8): an `i32`
  /// length, `length as usize * w` bytes, then `slice_as_*().unwrap()`,
  /// which cannot fail on a whole number of values.
  function WordArrayAt(data: seq<byte>, at: nat, w: nat, variant: Variant): (r: Read<Value>)
    requires w == 4 || w == 8
    ensures r.Got? ==> (if w == 4 then r.value.IntArray? else r.value.LongArray?)
    ensures r.Got? ==> at + 4 <= r.next <= |data|
  {
    var len :- BeAt(data, at, 4);
    var n := Usize(len.0);
    var raw :- BytesAt(data, len.1, n * w);
    MultipleOf(n, w);
    var xs := SliceAs(raw.0, w, Order(variant), true).value;
    Got(if w == 4 then IntArray(xs) else LongArray(xs), raw.1)
  }

  /// The width of an element of a primitive list of tag `t`.
  function ElemWidth(t: int): nat
    requires 1 <= t <= 6
  {
    if t == 1 then 1 else if t == 2 then 2 else if t == 3 || t == 5 then 4 else 8
  }

  /// The primitive list of tag `t` held in `raw`.
  function Primitives(t: int, raw: seq<byte>, e: Endian): (c: ListContent)
    requires 1 <= t <= 6 && |raw| % ElemWidth(t) == 0
    ensures Count(c) == |raw| / ElemWidth(t)
  {
    if t == 1 then ByteList(SliceAsByteArray(raw))
    else if t == 2 then ShortList(SliceAs(raw, 2, e, true).value)
    else if t == 3 then IntList(SliceAs(raw, 4, e, true).value)
    else if t == 4 then LongList(SliceAs(raw, 8, e, true).value)
    else if t == 5 then FloatList(SliceAs(raw, 4, e, false).value)
    else DoubleList(SliceAs(raw, 8, e, false).value)
  }

  /// The list of tag `t` (7 to 12) holding the values `vs`.
  function Collect(t: int, vs: seq<Value>): (c: ListContent)
    requires 7 <= t <= 12 && forall i | 0 <= i < |vs| :: TagOf(vs[i]) as int == t
    ensures Count(c) == |vs|
  {
    if t == 7 then ByteArrayList(seq(|vs|, i requires 0 <= i < |vs| => assert TagOf(vs[i]) as int == t; vs[i].bytes))
    else if t == 8 then StringList(seq(|vs|, i requires 0 <= i < |vs| => assert TagOf(vs[i]) as int == t; vs[i].text))
    else if t == 9 then ListList(seq(|vs|, i requires 0 <= i < |vs| => assert TagOf(vs[i]) as int == t; vs[i].content))
    else if t == 10 then CompoundList(seq(|vs|, i requires 0 <= i < |vs| => assert TagOf(vs[i]) as int == t; vs[i].members))
    else if t == 11 then IntArrayList(seq(|vs|, i requires 0 <= i < |vs| => assert TagOf(vs[i]) as int == t; vs[i].ints))
    else LongArrayList(seq(|vs|, i requires 0 <= i < |vs| => assert TagOf(vs[i]) as int == t; vs[i].longs))
  }

  /// `read_list`: the element tag (`as i8`), an `i32` length, then the
  /// elements. Tag 0 and tags outside 1..12 panic. Tags 1 to 6 take
  /// `length * width` bytes at once; tags 7 to 12 first call
  /// `Vec::with_capacity(length as usize)`, which panics on a negative
  /// length, then read `length` elements one by one.
  function ListAt(data: seq<byte>, at: nat, variant: Variant): (r: Read<ListContent>)
    requires at <= |data|
    ensures r.Got? ==> at + 5 <= r.next <= |data|
    decreases |data| - at, 1
  {
    var t :- ByteAt(data, at);
    var len :- BeAt(data, t.1, 4);
    var n := Usize(len.0);
    if 1 <= t.0 <= 6 then
      var w := ElemWidth(t.0);
      var raw :- BytesAt(data, len.1, n * w);
      MultipleOf(n, w);
      Got(Primitives(t.0, raw.0, Order(variant)), raw.1)
    else if 7 <= t.0 <= 12 && len.0 >= 0 then
      var items :- Items(data, len.1, t.0, n, [], variant);
      Got(Collect(t.0, items.0), items.1)
    else Panic
  }

  /// The rest of a list of tag `t` after the elements `acc`: `remaining`
  /// more elements.
  function Items(data: seq<byte>, at: nat, t: int, remaining: nat, acc: seq<Value>, variant: Variant): (r: Read<seq<Value>>)
    requires 7 <= t <= 12 && at <= |data|
    requires forall i | 0 <= i < |acc| :: TagOf(acc[i]) as int == t
    ensures r.Got? ==> at <= r.next <= |data| && |r.value| == |acc| + remaining
    ensures r.Got? ==> forall i | 0 <= i < |r.value| :: TagOf(r.value[i]) as int == t
    decreases |data| - at, 4, remaining
  {
    if remaining == 0 then Got(acc, at)
    else
      var v :- ElementAt(data, at, t, variant);
      Items(data, v.1, t, remaining - 1, acc + [v.0], variant)
  }

  /// One element of a list of tag `t` (7 to 12): a String with a length of
  /// `ListStringWidth` bytes, otherwise what `read_compound` reads for `t`.
  function ElementAt(data: seq<byte>, at: nat, t: int, variant: Variant): (r: Read<Value>)
    requires 7 <= t <= 12 && at <= |data|
    ensures r.Got? ==> at < r.next <= |data| && TagOf(r.value) as int == t
    decreases |data| - at, 3
  {
    if t == TAG_STRING as int then TextAt(data, at, ListStringWidth(variant))
    else PayloadAt(data, at, t, variant)
  }

  /// The value `read_compound` reads for a member of tag `t`; tags outside
  /// 1..12 panic.
  function PayloadAt(data: seq<byte>, at: nat, t: int, variant: Variant): (r: Read<Value>)
    requires at <= |data|
    ensures r.Got? ==> at < r.next <= |data| && TagOf(r.value) as int == t
    decreases |data| - at, 2
  {
    if t == 1 then
      var b :- ByteAt(data, at);
      Got(Byte(b.0), b.1)
    else if t == 2 then
      var x :- BeAt(data, at, 2);
      Got(Short(x.0), x.1)
    else if t == 3 then
      var x :- BeAt(data, at, 4);
      Got(Int(x.0), x.1)
    else if t == 4 then
      var x :- BeAt(data, at, 8);
      Got(Long(x.0), x.1)
    else if t == 5 then
      var x :- BitsAt(data, at, 4);
      Got(Float(x.0), x.1)
    else if t == 6 then
      var x :- BitsAt(data, at, 8);
      Got(Double(x.0), x.1)
    else if t == 7 then ByteArrayAt(data, at)
    else if t == 8 then TextAt(data, at, 2)
    else if t == 9 then
      var c :- ListAt(data, at, variant);
      Got(List(c.0), c.1)
    else if t == 10 then
      var ms :- Members(data, at, [], variant);
      Got(Compound(ms.0), ms.1)
    else if t == 11 then WordArrayAt(data, at, 4, variant)
    else if t == 12 then WordArrayAt(data, at, 8, variant)
    else Panic
  }

  /// The rest of `read_compound` after the members `acc`: a tag (`as i8`),
  /// 0 ending the Compound; otherwise an `i16` name length, the name (none
  /// read for length 0), then the value of that tag.
  function Members(data: seq<byte>, at: nat, acc: seq<Entry>, variant: Variant): (r: Read<seq<Entry>>)
    requires at <= |data|
    ensures r.Got? ==> at < r.next <= |data| && |acc| <= |r.value| && r.value[..|acc|] == acc
    decreases |data| - at, 1
  {
    var t :- ByteAt(data, at);
    if t.0 == 0 then Got(acc, t.1)
    else
      var len :- BeAt(data, t.1, 2);
      var name :- if len.0 != 0 then BytesAt(data, len.1, Usize(len.0)) else Got([], len.1);
      var v :- PayloadAt(data, name.1, t.0, variant);
      var r := Members(data, v.1, acc + [Entry(name.0, v.0)], variant);
      PrefixOfPrefix(acc, acc + [Entry(name.0, v.0)], if r.Got? then r.value else []);
      r
  }

  /// A prefix of a prefix is a prefix.
  lemma PrefixOfPrefix<T>(a: seq<T>, b: seq<T>, c: seq<T>)
    requires |a| <= |b| && b[..|a|] == a
    ensures |b| <= |c| && c[..|b|] == b ==> c[..|a|] == a
  {
  }

  /// `from_vec`: the root tag byte (not checked), an `i16` name length and
  /// the name are skipped, then a Compound is read.
  function FromVec(data: seq<byte>, variant: Variant): (r: Read<Value>)
    ensures r.Got? ==> r.value.Compound?
  {
    var t :- ByteAt(data, 0);
    var len :- BeAt(data, 1, 2);
    var name :- BytesAt(data, 3, Usize(len.0));
    var ms :- Members(data, name.1, [], variant);
    Got(Compound(ms.0), ms.1)
  }

  // ---------------------------------------------------------------------
  // What the readings promise
  // ---------------------------------------------------------------------

  /// `read_short` / `read_int` / `read_long` read back a value written
  /// big-endian.
  lemma BeAtReadsBack(data: seq<byte>, at: nat, v: int, w: nat)
    requires (w == 2 || w == 4 || w == 8) && -(Pow256(w) / 2) <= v < Pow256(w) / 2
    requires at + w <= |data| && data[at..at + w] == BeBytes(ToUnsigned(v, Pow256(w)), w)
    ensures BeAt(data, at, w) == Got(v, at + w)
  {
    BeSignedRoundTrip(v, w);
  }

  /// A string behind a `w`-byte length that holds its size reads back.
  lemma TextReadsBack(data: seq<byte>, at: nat, s: seq<byte>, w: nat)
    requires (w == 2 || w == 4) && |s| < Pow256(w) / 2
    requires at + w + |s| <= |data| && data[at..at + w + |s|] == BeBytes(|s|, w) + s
    ensures TextAt(data, at, w) == Got(String(s), at + w + |s|)
  {
    SplitSlice(data, at, BeBytes(|s|, w), s);
    BeAtReadsBack(data, at, |s|, w);
    BytesAtSlice(data, at + w, s);
  }

  /// Bytes that hold `a + b` hold `a`, then `b`.
  lemma SplitSlice(data: seq<byte>, at: nat, a: seq<byte>, b: seq<byte>)
    requires at + |a| + |b| <= |data| && data[at..at + |a| + |b|] == a + b
    ensures data[at..at + |a|] == a && data[at + |a|..at + |a| + |b|] == b
  {
    assert data[at..at + |a|] == data[at..at + |a| + |b|][..|a|];
    assert data[at + |a|..at + |a| + |b|] == data[at..at + |a| + |b|][|a|..];
  }

  /// `read_bytes` returns the bytes that are there.
  lemma BytesAtSlice(data: seq<byte>, at: nat, s: seq<byte>)
    requires at + |s| <= |data| && data[at..at + |s|] == s
    ensures BytesAt(data, at, |s|) == Got(s, at + |s|)
  {
  }

  /// A list read whole holds exactly as many elements as its `i32` length
  /// says; a vector holds fewer than 2^63 bytes.
  lemma ListCount(data: seq<byte>, at: nat, variant: Variant)
    requires at <= |data| < 0x8000_0000_0000_0000 && ListAt(data, at, variant).Got?
    ensures at + 5 <= |data| && Count(ListAt(data, at, variant).value) == BeSigned(data[at + 1..at + 5])
  {
    var t := ToSigned(data[at], U8_MOD);
    var len := BeSigned(data[at + 1..at + 5]);
    if 1 <= t <= 6 {
      var w := ElemWidth(t);
      MultipleOf(Usize(len), w);
    }
  }

  /// Tag 0, and any tag outside 1..12, makes `read_list` panic.
  lemma BadListTypePanics(data: seq<byte>, at: nat, variant: Variant)
    requires at < |data| && !(1 <= ToSigned(data[at], U8_MOD) <= 12)
    ensures ListAt(data, at, variant) == Panic
  {
  }

  /// A negative length makes `read_list` panic, for every element tag:
  /// tags 1 to 6 ask for more bytes than the vector holds, and tags 7 to 12
  /// overflow `Vec::with_capacity`.
  lemma NegativeListPanics(data: seq<byte>, at: nat, variant: Variant)
    requires at + 5 <= |data| < 0x8000_0000_0000_0000 && BeSigned(data[at + 1..at + 5]) < 0
    ensures ListAt(data, at, variant) == Panic
  {
    var t := ToSigned(data[at], U8_MOD);
    var n := Usize(BeSigned(data[at + 1..at + 5]));
    if 1 <= t <= 6 {
      assert n * ElemWidth(t) >= n;
    }
  }

  /// `from_vec` reads the Compound after the root header whatever the root
  /// tag byte `b` says.
  lemma FromVecSkipsHeader(data: seq<byte>, b: byte, name: seq<byte>, variant: Variant)
    requires |name| < 0x8000 && 3 + |name| <= |data|
    requires data[..3 + |name|] == [b] + BeBytes(|name|, 2) + name
    ensures FromVec(data, variant) == (
      var ms := Members(data, 3 + |name|, [], variant);
      if ms.Got? then Got(Compound(ms.value), ms.next) else Panic)
  {
    assert data[1..3] == BeBytes(|name|, 2);
    BeAtReadsBack(data, 1, |name|, 2);
  }

  // ---------------------------------------------------------------------
  // Findings: the host's byte order, and list string lengths
  // ---------------------------------------------------------------------

  /// As written on a little-endian host, `read_int_array` of the Int
  /// Array [1] reads 16777216: the element is reinterpreted in memory
  /// order, while `read_int` reads the same four bytes as 1.
  lemma HostOrderMisread()
    ensures WordArrayAt([0, 0, 0, 1, 0, 0, 0, 1], 0, 4, AsWritten(Little)) == Got(IntArray([0x0100_0000]), 8)
    ensures BeAt([0, 0, 0, 1, 0, 0, 0, 1], 4, 4) == Got(1, 8)
  {
    var data: seq<byte> := [0, 0, 0, 1, 0, 0, 0, 1];
    var raw: seq<byte> := [0, 0, 0, 1];
    WidthRanges();
    assert data[0..4] == raw == BeBytes(1, 4);
    BeAtReadsBack(data, 0, 1, 4);
    assert data[4..8] == raw;
    BeAtReadsBack(data, 4, 1, 4);
    assert raw == LeBytes(ToUnsigned(0x0100_0000, Pow256(4)), 4);
    LeSignedRoundTrip(0x0100_0000, 4);
    assert raw[4..] == [] && raw[..4] == raw;
    assert Words(raw, 4, Little, true) == [0x0100_0000];
  }

  /// With big-endian slices (the corrected reader, or the reader as written
  /// on a big-endian host) `read_int_array` and `read_long_array` read back
  /// the array written big-endian behind its length.
  lemma WordArrayReadsBack(data: seq<byte>, at: nat, xs: seq<int>, w: nat, variant: Variant)
    requires (w == 4 || w == 8) && Order(variant) == Big && |xs| < 0x8000_0000
    requires forall i | 0 <= i < |xs| :: -(Pow256(w) / 2) <= xs[i] < Pow256(w) / 2
    requires at + 4 + |Unslice(xs, w, Big)| <= |data|
    requires data[at..at + 4 + |Unslice(xs, w, Big)|] == BeBytes(|xs|, 4) + Unslice(xs, w, Big)
    ensures WordArrayAt(data, at, w, variant) == Got(if w == 4 then IntArray(xs) else LongArray(xs), at + 4 + |Unslice(xs, w, Big)|)
  {
    var body := Unslice(xs, w, Big);
    SplitSlice(data, at, BeBytes(|xs|, 4), body);
    BeAtReadsBack(data, at, |xs|, 4);
    assert Usize(|xs|) * w == |body|;
    BytesAtSlice(data, at + 4, body);
    SliceAsRoundTrip(xs, w, Big);
  }

  /// As written, a list holding the one String "a" (`[8, 0, 0, 0, 1, 0,
  /// 1, 97]`, its string behind the format's 2-byte length) panics: the
  /// string length is read as the 4 bytes `0, 1, 97, ?`.
  lemma ListStringLengthMisread(host: Endian)
    ensures ListAt([8, 0, 0, 0, 1, 0, 1, 97], 0, AsWritten(host)) == Panic
  {
    var data: seq<byte> := [8, 0, 0, 0, 1, 0, 1, 97];
    assert data[1..5] == BeBytes(1, 4);
    BeAtReadsBack(data, 1, 1, 4);
  }

  /// The String elements `ss` behind 2-byte lengths.
  function StringItems(ss: seq<seq<byte>>): (r: seq<byte>)
    requires forall i | 0 <= i < |ss| :: |ss[i]| < 0x8000
  {
    if ss == [] then [] else BeBytes(|ss[0]|, 2) + ss[0] + StringItems(ss[1..])
  }

  /// The String values holding `ss`.
  function Strings(ss: seq<seq<byte>>): (vs: seq<Value>)
    ensures |vs| == |ss| && forall i | 0 <= i < |ss| :: vs[i] == String(ss[i])
  {
    seq(|ss|, i requires 0 <= i < |ss| => String(ss[i]))
  }

  /// The corrected reader reads the String elements back one by one.
  lemma {:induction false} StringItemsRead(data: seq<byte>, at: nat, ss: seq<seq<byte>>, acc: seq<Value>)
    requires forall i | 0 <= i < |ss| :: |ss[i]| < 0x8000
    requires forall i | 0 <= i < |acc| :: TagOf(acc[i]) == TAG_STRING
    requires at + |StringItems(ss)| <= |data| && data[at..at + |StringItems(ss)|] == StringItems(ss)
    ensures Items(data, at, 8, |ss|, acc, Corrected) == Got(acc + Strings(ss), at + |StringItems(ss)|)
    decreases |ss|
  {
    if ss == [] {
      assert acc + Strings(ss) == acc;
    } else {
      var rest := StringItems(ss[1..]);
      assert StringItems(ss) == BeBytes(|ss[0]|, 2) + ss[0] + rest;
      var next := StringItemStep(data, at, ss[0], rest, acc);
      StringItemsRead(data, next, ss[1..], acc + [String(ss[0])]);
      StringsCons(acc, ss);
    }
  }

  /// A first String element `s` reads back, and the bytes `rest` follow it.
  lemma StringItemStep(data: seq<byte>, at: nat, s: seq<byte>, rest: seq<byte>, acc: seq<Value>) returns (next: nat)
    requires |s| < 0x8000 && forall i | 0 <= i < |acc| :: TagOf(acc[i]) == TAG_STRING
    requires at + 2 + |s| + |rest| <= |data| && data[at..at + 2 + |s| + |rest|] == BeBytes(|s|, 2) + s + rest
    ensures next == at + 2 + |s| && data[next..next + |rest|] == rest
    ensures forall n: nat | n > 0 :: Items(data, at, 8, n, acc, Corrected) == Items(data, next, 8, n - 1, acc + [String(s)], Corrected)
  {
    next := at + 2 + |s|;
    SplitSlice(data, at, BeBytes(|s|, 2) + s, rest);
    SplitSlice(data, at, BeBytes(|s|, 2), s);
    TextReadsBack(data, at, s, 2);
    forall n: nat | n > 0
      ensures Items(data, at, 8, n, acc, Corrected) == Items(data, next, 8, n - 1, acc + [String(s)], Corrected)
    {
      ItemsStep(data, at, 8, n, acc, Corrected, String(s), next);
    }
  }

  /// The String values of `ss` after `acc` are the first one, then the rest.
  lemma StringsCons(acc: seq<Value>, ss: seq<seq<byte>>)
    requires ss != []
    ensures (acc + [String(ss[0])]) + Strings(ss[1..]) == acc + Strings(ss)
  {
  }

  /// The corrected reader reads back a list of Strings written as the
  /// format lays it out, each behind a 2-byte length.
  lemma ListStringsReadBack(data: seq<byte>, at: nat, ss: seq<seq<byte>>)
    requires |ss| < 0x8000_0000 && forall i | 0 <= i < |ss| :: |ss[i]| < 0x8000
    requires at + 5 + |StringItems(ss)| <= |data|
    requires data[at..at + 5 + |StringItems(ss)|] == [TAG_STRING] + BeBytes(|ss|, 4) + StringItems(ss)
    ensures ListAt(data, at, Corrected) == Got(StringList(ss), at + 5 + |StringItems(ss)|)
  {
    var items := StringItems(ss);
    var len := BeBytes(|ss|, 4);
    SplitSlice(data, at, [TAG_STRING] + len, items);
    SplitSlice(data, at, [TAG_STRING], len);
    BeAtReadsBack(data, at + 1, |ss|, 4);
    ListOfItems(data, at, 8, |ss|, Corrected);
    StringItemsRead(data, at + 5, ss, []);
    StringsCollect(ss);
  }

  /// A list of tag `t` (7 to 12) and non-negative length `n` holds the `n`
  /// elements read after its header.
  lemma ListOfItems(data: seq<byte>, at: nat, t: byte, n: nat, variant: Variant)
    requires 7 <= t <= 12 && at + 5 <= |data| && data[at] == t
    requires BeAt(data, at + 1, 4) == Got(n, at + 5)
    ensures ListAt(data, at, variant) == (
      var items := Items(data, at + 5, t as int, n, [], variant);
      if items.Got? then Got(Collect(t as int, items.value), items.next) else Panic)
  {
  }

  /// A list's elements after one more element that reads as `v`.
  lemma ItemsStep(data: seq<byte>, at: nat, t: int, remaining: nat, acc: seq<Value>, variant: Variant, v: Value, next: nat)
    requires 7 <= t <= 12 && at <= |data| && remaining > 0
    requires forall i | 0 <= i < |acc| :: TagOf(acc[i]) as int == t
    requires ElementAt(data, at, t, variant) == Got(v, next)
    ensures TagOf(v) as int == t && at < next <= |data|
    ensures Items(data, at, t, remaining, acc, variant) == Items(data, next, t, remaining - 1, acc + [v], variant)
  {
  }

  /// Collecting the String values of `ss` gives the list of `ss`.
  lemma StringsCollect(ss: seq<seq<byte>>)
    ensures Collect(8, [] + Strings(ss)) == StringList(ss)
  {
    assert [] + Strings(ss) == Strings(ss);
  }

  // ---------------------------------------------------------------------
  // `as_*` and `into_*` (shen-nbt2/src/lib.rs:388-473)
  // ---------------------------------------------------------------------

  /// `as_byte` ... `as_long_array`, `into_list`, `into_compound`: the
  /// value when it is the variant of tag `t`, nothing otherwise.
  function As(v: Value, t: byte): (r: Option<Value>)
    ensures r.Some? <==> TagOf(v) == t
    ensures r.Some? ==> r.value == v
  {
    if TagOf(v) == t then Some(v) else None
  }

  /// Every value a reader returns for tag `t` is seen by the accessor of
  /// `t` and by no other.
  lemma PayloadAccessor(data: seq<byte>, at: nat, t: byte, u: byte, variant: Variant)
    requires at <= |data| && PayloadAt(data, at, t as int, variant).Got?
    ensures As(PayloadAt(data, at, t as int, variant).value, u).Some? <==> u == t
  {
  }

  // ---------------------------------------------------------------------
  // `NbtData` and `Value::read_*` as the prototype runs them
  // ---------------------------------------------------------------------

  class NbtData {
    /// The input; the reads never write to it.
    const data: seq<byte>
    /// The position of the next byte to read.
    var head: nat

    predicate Valid()
      reads this
    {
      head <= |data|
    }

    /// `NbtData::new`: the head at the first byte.
    constructor (data: seq<byte>)
      ensures this.data == data && head == 0 && Valid()
    {
      this.data := data;
      head := 0;
    }

    /// `push_head`: the head moves forward by `length`, unchecked, and the
    /// new head is returned.
    method PushHead(length: nat) returns (h: nat)
      modifies this
      ensures head == old(head) + length && h == head
    {
      head := head + length;
      h := head;
    }

    /// `read_byte`.
    method ReadByte() returns (r: Read<int>)
      requires Valid()
      modifies this
      ensures r == ByteAt(data, old(head))
      ensures Valid() && (r.Got? ==> head == r.next)
    {
      if head >= |data| {
        return Panic;
      }
      r := Got(ToSigned(data[head], U8_MOD), head + 1);
      head := head + 1;
    }

    /// `read_short` (`w` = 2), `read_int` (4), `read_long` (8).
    method ReadBe(w: nat) returns (r: Read<int>)
      requires Valid() && (w == 2 || w == 4 || w == 8)
      modifies this
      ensures r == BeAt(data, old(head), w)
      ensures Valid() && (r.Got? ==> head == r.next)
    {
      if head + w > |data| {
        return Panic;
      }
      r := Got(BeSigned(data[head..head + w]), head + w);
      head := head + w;
    }

    /// `read_float` (`w` = 4) and `read_double` (8), as bit patterns.
    method ReadBits(w: nat) returns (r: Read<int>)
      requires Valid() && (w == 4 || w == 8)
      modifies this
      ensures r == BitsAt(data, old(head), w)
      ensures Valid() && (r.Got? ==> head == r.next)
    {
      if head + w > |data| {
        return Panic;
      }
      r := Got(BeUnsigned(data[head..head + w]), head + w);
      head := head + w;
    }

    /// `read_bytes(length)`.
    method ReadBytes(length: nat) returns (r: Read<seq<byte>>)
      requires Valid()
      modifies this
      ensures r == BytesAt(data, old(head), length)
      ensures Valid() && (r.Got? ==> head == r.next)
    {
      if head + length > |data| {
        return Panic;
      }
      r := Got(data[head..head + length], head + length);
      head := head + length;
    }
  }

  /// `read_string` (`w` = 2) and a String element of `read_list` (`w` =
  /// `ListStringWidth`).
  method ReadText(d: NbtData, w: nat) returns (r: Read<Value>)
    requires d.Valid() && (w == 2 || w == 4)
    modifies d
    ensures r == TextAt(d.data, old(d.head), w)
    ensures d.Valid() && (r.Got? ==> d.head == r.next)
  {
    var len := d.ReadBe(w);
    if len.Panic? {
      return Panic;
    }
    var s := d.ReadBytes(Usize(len.value));
    if s.Panic? {
      return Panic;
    }
    r := Got(String(s.value), d.head);
  }

  /// `read_byte_array`.
  method ReadByteArray(d: NbtData) returns (r: Read<Value>)
    requires d.Valid()
    modifies d
    ensures r == ByteArrayAt(d.data, old(d.head))
    ensures d.Valid() && (r.Got? ==> d.head == r.next)
  {
    var len := d.ReadBe(4);
    if len.Panic? {
      return Panic;
    }
    var raw := d.ReadBytes(Usize(len.value));
    if raw.Panic? {
      return Panic;
    }
    r := Got(ByteArray(SliceAsByteArray(raw.value)), d.head);
  }

  /// `read_int_array` (`w` = 4) and `read_long_array` (`w` = 8).
  method ReadWordArray(d: NbtData, w: nat, variant: Variant) returns (r: Read<Value>)
    requires d.Valid() && (w == 4 || w == 8)
    modifies d
    ensures r == WordArrayAt(d.data, old(d.head), w, variant)
    ensures d.Valid() && (r.Got? ==> d.head == r.next)
  {
    var len := d.ReadBe(4);
    if len.Panic? {
      return Panic;
    }
    var n := Usize(len.value);
    var raw := d.ReadBytes(n * w);
    if raw.Panic? {
      return Panic;
    }
    MultipleOf(n, w);
    var xs := SliceAs(raw.value, w, Order(variant), true).value;
    r := Got(if w == 4 then IntArray(xs) else LongArray(xs), d.head);
  }

  /// The `match type_id` of `read_compound`: the value of a member of tag
  /// `t`.
  method ReadPayload(d: NbtData, t: int, variant: Variant) returns (r: Read<Value>)
    requires d.Valid()
    modifies d
    ensures r == PayloadAt(d.data, old(d.head), t, variant)
    ensures d.Valid() && (r.Got? ==> d.head == r.next)
    decreases |d.data| - d.head, 2
  {
    if t == 1 {
      var b := d.ReadByte();
      r := if b.Got? then Got(Byte(b.value), b.next) else Panic;
    } else if t == 2 || t == 3 || t == 4 {
      var x := d.ReadBe(if t == 2 then 2 else if t == 3 then 4 else 8);
      r := if x.Panic? then Panic
           else if t == 2 then Got(Short(x.value), x.next)
           else if t == 3 then Got(Int(x.value), x.next)
           else Got(Long(x.value), x.next);
    } else if t == 5 || t == 6 {
      var x := d.ReadBits(if t == 5 then 4 else 8);
      r := if x.Panic? then Panic else if t == 5 then Got(Float(x.value), x.next) else Got(Double(x.value), x.next);
    } else if t == 7 {
      r := ReadByteArray(d);
    } else if t == 8 {
      r := ReadText(d, 2);
    } else if t == 9 {
      var c := ReadList(d, variant);
      r := if c.Got? then Got(List(c.value), c.next) else Panic;
    } else if t == 10 {
      var ms := ReadCompound(d, variant);
      r := if ms.Got? then Got(Compound(ms.value), ms.next) else Panic;
    } else if t == 11 || t == 12 {
      r := ReadWordArray(d, if t == 11 then 4 else 8, variant);
    } else {
      r := Panic;
    }
  }

  /// The body of `read_list`'s element loops for tag `t` (7 to 12).
  method ReadElement(d: NbtData, t: int, variant: Variant) returns (r: Read<Value>)
    requires d.Valid() && 7 <= t <= 12
    modifies d
    ensures r == ElementAt(d.data, old(d.head), t, variant)
    ensures d.Valid() && (r.Got? ==> d.head == r.next)
    decreases |d.data| - d.head, 3
  {
    if t == TAG_STRING as int {
      r := ReadText(d, ListStringWidth(variant));
    } else {
      r := ReadPayload(d, t, variant);
    }
  }

  /// `read_list`.
  method ReadList(d: NbtData, variant: Variant) returns (r: Read<ListContent>)
    requires d.Valid()
    modifies d
    ensures r == ListAt(d.data, old(d.head), variant)
    ensures d.Valid() && (r.Got? ==> d.head == r.next)
    decreases |d.data| - d.head, 1
  {
    var t := d.ReadByte();
    if t.Panic? {
      return Panic;
    }
    var len := d.ReadBe(4);
    if len.Panic? {
      return Panic;
    }
    var n := Usize(len.value);
    if 1 <= t.value <= 6 {
      var w := ElemWidth(t.value);
      var raw := d.ReadBytes(n * w);
      if raw.Panic? {
        return Panic;
      }
      MultipleOf(n, w);
      return Got(Primitives(t.value, raw.value, Order(variant)), d.head);
    }
    if !(7 <= t.value <= 12 && len.value >= 0) {
      return Panic;
    }
    var items := ReadItems(d, t.value, n, variant);
    r := if items.Got? then Got(Collect(t.value, items.value), items.next) else Panic;
  }

  /// The element loops of `read_list` for tags 7 to 12: `n` elements of
  /// tag `t`, one after the other.
  method ReadItems(d: NbtData, t: int, n: nat, variant: Variant) returns (r: Read<seq<Value>>)
    requires d.Valid() && 7 <= t <= 12
    modifies d
    ensures r == Items(d.data, old(d.head), t, n, [], variant)
    ensures d.Valid() && (r.Got? ==> d.head == r.next)
    decreases |d.data| - d.head, 4
  {
    ghost var first := d.head;
    var list: seq<Value> := [];
    var i := 0;
    while i < n
      invariant d.Valid() && first <= d.head && i <= n && |list| == i
      invariant forall k | 0 <= k < |list| :: TagOf(list[k]) as int == t
      invariant Items(d.data, d.head, t, n - i, list, variant) == Items(d.data, first, t, n, [], variant)
      decreases n - i
    {
      ghost var here := d.head;
      var v := ReadElement(d, t, variant);
      if v.Panic? {
        return Panic;
      }
      ItemsStep(d.data, here, t, n - i, list, variant, v.value, v.next);
      list := list + [v.value];
      i := i + 1;
    }
    r := Got(list, d.head);
  }

  /// `read_compound`.
  method ReadCompound(d: NbtData, variant: Variant) returns (r: Read<seq<Entry>>)
    requires d.Valid()
    modifies d
    ensures r == Members(d.data, old(d.head), [], variant)
    ensures d.Valid() && (r.Got? ==> d.head == r.next)
    decreases |d.data| - d.head, 1
  {
    ghost var start := d.head;
    var list: seq<Entry> := [];
    while true
      invariant d.Valid() && start <= d.head
      invariant Members(d.data, d.head, list, variant) == Members(d.data, start, [], variant)
      decreases |d.data| - d.head
    {
      var t := d.ReadByte();
      if t.Panic? {
        return Panic;
      }
      if t.value == 0 {
        return Got(list, d.head);
      }
      var nameLen := d.ReadBe(2);
      if nameLen.Panic? {
        return Panic;
      }
      var name: seq<byte> := [];
      if nameLen.value != 0 {
        var bytes := d.ReadBytes(Usize(nameLen.value));
        if bytes.Panic? {
          return Panic;
        }
        name := bytes.value;
      }
      var v := ReadPayload(d, t.value, variant);
      if v.Panic? {
        return Panic;
      }
      list := list + [Entry(name, v.value)];
    }
  }

  /// `Value::from_vec`.
  method FromVecRead(data: seq<byte>, variant: Variant) returns (r: Read<Value>)
    ensures r == FromVec(data, variant)
  {
    var d := new NbtData(data);
    var t := d.ReadByte();
    if t.Panic? {
      return Panic;
    }
    var len := d.ReadBe(2);
    if len.Panic? {
      return Panic;
    }
    var name := d.ReadBytes(Usize(len.value));
    if name.Panic? {
      return Panic;
    }
    var ms := ReadCompound(d, variant);
    r := if ms.Got? then Got(Compound(ms.value), ms.next) else Panic;
  }
}
