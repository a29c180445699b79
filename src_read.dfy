/// The container reads of the `Cursor` prototype (src/read.rs): the three
/// arrays and a List. Each reads an `i32` count, reserves that many places
/// with `Vec::with_capacity(len as usize)`, which panics when the count is
/// negative, then reads the elements one by one with the value reads of
/// src/data.rs, so a short input fills the missing bytes with zeros. A
/// List reads its count BEFORE its element type, where NBT puts the type
/// first; the `Corrected` order reads the type first.
module SrcRead {
  import opened NbtBase
  import opened StdCursor
  import opened SrcData

  /// Why a read panics.
  datatype Cause =
    | NegativeCapacity   // `with_capacity` of a negative count cast to `usize`
    | EndList            // element type End: `todo!()`
    | UnknownType(t: byte)

  /// The outcome of a read: the value and the position after it, or a
  /// panic.
  datatype Read<T> = Got(value: T, next: nat) | Panic(cause: Cause)

  /// The order of a List's header: as written (count, then type) or as
  /// NBT lays it out (type, then count).
  datatype Order = AsWritten | Corrected

  /// The width of a count.
  const COUNT_WIDTH: nat := 4

  /// The array tags and the element each is read as: a ByteArray is read
  /// with `from_bool`.
  predicate IsArrayTag(t: byte)
  {
    t == TAG_BYTE_ARRAY || t == TAG_INT_ARRAY || t == TAG_LONG_ARRAY
  }

  function ElementTag(t: byte): (e: byte)
    requires IsArrayTag(t)
    ensures Known(e)
  {
    if t == TAG_BYTE_ARRAY then TAG_BYTE else if t == TAG_INT_ARRAY then TAG_INT else TAG_LONG
  }

  // ---------------------------------------------------------------------
  // The reads as functions of the input and the position
  // ---------------------------------------------------------------------

  /// `n` values of tag `t`, one after the other (the `for _ in 0..len`
  /// loops).
  function ValuesAt(data: seq<byte>, at: nat, t: byte, n: nat): (r: (seq<NbtValue>, nat))
    requires Known(t)
    ensures |r.0| == n && at <= r.1
    decreases n
  {
    if n == 0 then ([], at)
    else
      var (v, p) := ValueAt(data, at, t);
      var (vs, q) := ValuesAt(data, p, t, n - 1);
      ([v] + vs, q)
  }

  /// Every value read has the tag it was read as.
  lemma {:induction false} ValuesTags(data: seq<byte>, at: nat, t: byte, n: nat)
    requires Known(t)
    ensures forall i | 0 <= i < n :: TagOf(ValuesAt(data, at, t, n).0[i]) == t
    decreases n
  {
    if n > 0 {
      ValuesTags(data, ValueAt(data, at, t).1, t, n - 1);
    }
  }

  /// One value read at `at`, then `n` more read after it.
  lemma ValuesCons(data: seq<byte>, at: nat, t: byte, vs: seq<NbtValue>, p: nat, q: nat)
    requires Known(t) && vs != [] && ValueAt(data, at, t) == (vs[0], p) && ValuesAt(data, p, t, |vs[1..]|) == (vs[1..], q)
    ensures ValuesAt(data, at, t, |vs|) == (vs, q)
  {
    assert [vs[0]] + vs[1..] == vs;
  }

  /// The array of tag `t` holding the values read for it (each of which
  /// has the element tag, by `ValuesTags`).
  function Pack(t: byte, vs: seq<NbtValue>): (a: NbtList)
    requires IsArrayTag(t)
  {
    if t == TAG_BYTE_ARRAY then BoolArray(Truths(vs))
    else if t == TAG_INT_ARRAY then IntArray(Numbers(vs))
    else LongArray(Numbers(vs))
  }

  /// The truth of each Byte.
  function Truths(vs: seq<NbtValue>): (r: seq<bool>)
    ensures |r| == |vs|
  {
    if vs == [] then [] else [vs[0].NbtByte? && vs[0].truth] + Truths(vs[1..])
  }

  /// The number each Int or Long holds.
  function Numbers(vs: seq<NbtValue>): (r: seq<int>)
    ensures |r| == |vs|
  {
    if vs == [] then [] else [Number(vs[0])] + Numbers(vs[1..])
  }

  /// How many elements an array holds.
  function Size(a: NbtList): nat
  {
    match a
      case BoolArray(bools) => |bools|
      case IntArray(ints) => |ints|
      case LongArray(longs) => |longs|
      case List(items) => |items|
      case Compound(entries) => |entries|
  }

  /// `from_bool_array`, `from_i32_array`, `from_i64_array`: a count, then
  /// that many elements.
  function ArrayAt(data: seq<byte>, at: nat, t: byte): (r: Read<NbtList>)
    requires IsArrayTag(t)
  {
    var (len, p) := BeValue(data, at, COUNT_WIDTH);
    if len < 0 then Panic(NegativeCapacity)
    else
      var (vs, q) := ValuesAt(data, p, ElementTag(t), len);
      Got(Pack(t, vs), q)
  }

  /// `n` arrays of tag `t`, one after the other; the first panic ends the
  /// read.
  function ArraysAt(data: seq<byte>, at: nat, t: byte, n: nat): (r: Read<seq<NbtList>>)
    requires IsArrayTag(t)
    ensures r.Got? ==> |r.value| == n && at <= r.next
    decreases n
  {
    if n == 0 then Got([], at)
    else
      match ArrayAt(data, at, t)
        case Panic(why) => Panic(why)
        case Got(a, p) =>
          match ArraysAt(data, p, t, n - 1)
            case Panic(why) => Panic(why)
            case Got(rest, q) => Got([a] + rest, q)
  }

  /// The elements of a List once its count and type are read.
  function ElementsAt(data: seq<byte>, at: nat, t: byte, len: nat): (r: Read<seq<NbtItem>>)
  {
    if t == TAG_END then Panic(EndList)
    else if Known(t) then
      var (vs, q) := ValuesAt(data, at, t, len);
      Got(seq(len, i requires 0 <= i < len => Value(vs[i])), q)
    else if IsArrayTag(t) then
      match ArraysAt(data, at, t, len)
        case Panic(why) => Panic(why)
        case Got(arrays, q) => Got(seq(len, i requires 0 <= i < len => Array(arrays[i])), q)
    else if t == TAG_LIST || t == TAG_COMPOUND then Got([], at)
    else Panic(UnknownType(t))
  }

  /// `read_nbt_list`: the count and the element type in the given order,
  /// `with_capacity` of the count, then the elements. A List of Lists or
  /// of Compounds reads nothing more.
  function NbtListAt(data: seq<byte>, at: nat, order: Order): (r: Read<seq<NbtItem>>)
  {
    match order
      case AsWritten =>
        var (len, p) := BeValue(data, at, COUNT_WIDTH);
        if len < 0 then Panic(NegativeCapacity)
        else
          var (t, q) := TagAt(data, p);
          ElementsAt(data, q, t, len)
      case Corrected =>
        var (t, p) := TagAt(data, at);
        var (len, q) := BeValue(data, p, COUNT_WIDTH);
        if len < 0 then Panic(NegativeCapacity)
        else ElementsAt(data, q, t, len)
  }

  // ---------------------------------------------------------------------
  // The reads as the prototype runs them on a `Cursor`
  // ---------------------------------------------------------------------

  /// The `for _ in 0..len` loop of one value read.
  method ReadValues(c: Cursor, t: byte, len: nat) returns (vs: seq<NbtValue>)
    requires Known(t)
    modifies c
    ensures (vs, c.pos) == ValuesAt(c.data, old(c.pos), t, len)
  {
    ghost var start := c.pos;
    vs := [];
    var k := 0;
    assert [] + ValuesAt(c.data, start, t, len).0 == ValuesAt(c.data, start, t, len).0;
    while k < len
      invariant k <= len
      invariant ValuesAt(c.data, start, t, len) == (vs + ValuesAt(c.data, c.pos, t, len - k).0, ValuesAt(c.data, c.pos, t, len - k).1)
    {
      ghost var at := c.pos;
      var v := ReadValue(c, t);
      ghost var rest := ValuesAt(c.data, c.pos, t, len - k - 1);
      ValuesStep(c.data, at, t, len - k - 1, v, c.pos);
      assert vs + ([v] + rest.0) == (vs + [v]) + rest.0;
      vs := vs + [v];
      k := k + 1;
    }
    assert vs + [] == vs;
  }

  /// One value, then `n` more.
  lemma ValuesStep(data: seq<byte>, at: nat, t: byte, n: nat, v: NbtValue, p: nat)
    requires Known(t) && ValueAt(data, at, t) == (v, p)
    ensures ValuesAt(data, at, t, n + 1) == ([v] + ValuesAt(data, p, t, n).0, ValuesAt(data, p, t, n).1)
  {
  }

  /// `from_bool_array`, `from_i32_array`, `from_i64_array`.
  method ReadArray(c: Cursor, t: byte) returns (r: Read<NbtList>)
    requires IsArrayTag(t)
    modifies c
    ensures r == ArrayAt(c.data, old(c.pos), t)
    ensures r.Got? ==> c.pos == r.next
  {
    var len := ReadBe(c, COUNT_WIDTH);
    if len < 0 {
      return Panic(NegativeCapacity);
    }
    var vs := ReadValues(c, ElementTag(t), len);
    r := Got(Pack(t, vs), c.pos);
  }

  /// The `for _ in 0..len` loop of one array read.
  method ReadArrays(c: Cursor, t: byte, len: nat) returns (r: Read<seq<NbtList>>)
    requires IsArrayTag(t)
    modifies c
    ensures r == ArraysAt(c.data, old(c.pos), t, len)
    ensures r.Got? ==> c.pos == r.next
  {
    ghost var start := c.pos;
    var arrays := [];
    var k := 0;
    PrependNothing(ArraysAt(c.data, start, t, len));
    while k < len
      invariant k <= len
      invariant ArraysAt(c.data, start, t, len) == Prepend(arrays, ArraysAt(c.data, c.pos, t, len - k))
    {
      ghost var at := c.pos;
      var a := ReadArray(c, t);
      ArraysStep(c.data, at, t, len - k - 1);
      if a.Panic? {
        return Panic(a.cause);
      }
      PrependStep(arrays, a.value, ArraysAt(c.data, c.pos, t, len - k - 1));
      arrays := arrays + [a.value];
      k := k + 1;
    }
    assert arrays + [] == arrays;
    r := Got(arrays, c.pos);
  }

  /// The arrays read so far in front of the rest of the read.
  function Prepend(done: seq<NbtList>, rest: Read<seq<NbtList>>): Read<seq<NbtList>>
  {
    match rest
      case Panic(why) => Panic(why)
      case Got(more, q) => Got(done + more, q)
  }

  lemma PrependNothing(rest: Read<seq<NbtList>>)
    ensures Prepend([], rest) == rest
  {
    if rest.Got? {
      assert [] + rest.value == rest.value;
    }
  }

  /// One array, then `n` more.
  lemma ArraysStep(data: seq<byte>, at: nat, t: byte, n: nat)
    requires IsArrayTag(t)
    ensures ArrayAt(data, at, t).Panic? ==> ArraysAt(data, at, t, n + 1) == Panic(ArrayAt(data, at, t).cause)
    ensures ArrayAt(data, at, t).Got? ==>
      ArraysAt(data, at, t, n + 1) == Prepend([ArrayAt(data, at, t).value], ArraysAt(data, ArrayAt(data, at, t).next, t, n))
  {
  }

  lemma PrependStep(done: seq<NbtList>, a: NbtList, rest: Read<seq<NbtList>>)
    ensures Prepend(done, Prepend([a], rest)) == Prepend(done + [a], rest)
  {
    if rest.Got? {
      assert done + ([a] + rest.value) == done + [a] + rest.value;
    }
  }

  /// The elements of a List once its count and type are read.
  method ReadElements(c: Cursor, t: byte, len: nat) returns (r: Read<seq<NbtItem>>)
    modifies c
    ensures r == ElementsAt(c.data, old(c.pos), t, len)
  {
    if t == TAG_END {
      return Panic(EndList);
    }
    if Known(t) {
      var vs := ReadValues(c, t, len);
      return Got(seq(len, i requires 0 <= i < len => Value(vs[i])), c.pos);
    }
    if IsArrayTag(t) {
      var arrays := ReadArrays(c, t, len);
      if arrays.Panic? {
        return Panic(arrays.cause);
      }
      return Got(seq(len, i requires 0 <= i < len => Array(arrays.value[i])), arrays.next);
    }
    if t == TAG_LIST || t == TAG_COMPOUND {
      return Got([], c.pos);
    }
    r := Panic(UnknownType(t));
  }

  /// `read_nbt_list` in the given header order.
  method ReadNbtList(c: Cursor, order: Order) returns (r: Read<seq<NbtItem>>)
    modifies c
    ensures r == NbtListAt(c.data, old(c.pos), order)
  {
    var len: int;
    var t: byte;
    if order == AsWritten {
      len := ReadBe(c, COUNT_WIDTH);
      if len < 0 {
        return Panic(NegativeCapacity);
      }
      var tag := c.Read(1);
      t := tag[0];
    } else {
      var tag := c.Read(1);
      t := tag[0];
      len := ReadBe(c, COUNT_WIDTH);
      if len < 0 {
        return Panic(NegativeCapacity);
      }
    }
    r := ReadElements(c, t, len);
  }

  // ---------------------------------------------------------------------
  // What the reads promise
  // ---------------------------------------------------------------------

  /// An array read panics exactly when its count is negative, and
  /// otherwise holds as many elements as the count says.
  lemma ArrayCount(data: seq<byte>, at: nat, t: byte)
    requires IsArrayTag(t)
    ensures ArrayAt(data, at, t).Panic? <==> BeValue(data, at, COUNT_WIDTH).0 < 0
    ensures ArrayAt(data, at, t).Got? ==> Size(ArrayAt(data, at, t).value) == BeValue(data, at, COUNT_WIDTH).0
  {
  }

  /// What a List holds for each element type, in either order: End and an
  /// unknown type panic, a List of Lists or Compounds is empty, a value
  /// type gives `len` values of that type.
  lemma ListElements(data: seq<byte>, at: nat, t: byte, len: nat)
    ensures t == TAG_END ==> ElementsAt(data, at, t, len) == Panic(EndList)
    ensures t > TAG_LONG_ARRAY ==> ElementsAt(data, at, t, len) == Panic(UnknownType(t))
    ensures t == TAG_LIST || t == TAG_COMPOUND ==> ElementsAt(data, at, t, len) == Got([], at)
    ensures Known(t) ==> var r := ElementsAt(data, at, t, len);
      r.Got? && |r.value| == len && forall i | 0 <= i < len :: r.value[i].Value? && TagOf(r.value[i].value) == t
    ensures IsArrayTag(t) && ElementsAt(data, at, t, len).Got? ==> var r := ElementsAt(data, at, t, len);
      |r.value| == len && forall i | 0 <= i < len :: r.value[i].Array?
  {
    if Known(t) {
      ValuesTags(data, at, t, len);
    }
  }

  /// A negative count panics before anything else is read.
  lemma NegativeCountPanics(data: seq<byte>, at: nat)
    requires BeValue(data, at, COUNT_WIDTH).0 < 0
    ensures NbtListAt(data, at, AsWritten) == Panic(NegativeCapacity)
    ensures forall t | IsArrayTag(t) :: ArrayAt(data, at, t) == Panic(NegativeCapacity)
  {
  }

  /// Every value fits its Rust type.
  predicate Writable(vs: seq<NbtValue>)
  {
    forall i | 0 <= i < |vs| :: Fits(vs[i])
  }

  /// The concatenated payloads of values.
  function Payloads(vs: seq<NbtValue>): (r: seq<byte>)
    requires Writable(vs)
  {
    Concat(Chunks(vs))
  }

  /// The payload of each value.
  function Chunks(vs: seq<NbtValue>): (cs: seq<seq<byte>>)
    requires Writable(vs)
    ensures |cs| == |vs| && forall i | 0 <= i < |vs| :: cs[i] == Payload(vs[i])
  {
    seq(|vs|, i requires 0 <= i < |vs| => Payload(vs[i]))
  }

  /// Byte strings one after the other.
  function Concat(cs: seq<seq<byte>>): (r: seq<byte>)
  {
    if cs == [] then [] else cs[0] + Concat(cs[1..])
  }

  lemma {:induction false} ConcatAppend(a: seq<seq<byte>>, b: seq<seq<byte>>)
    ensures Concat(a + b) == Concat(a) + Concat(b)
    decreases |a|
  {
    if a == [] {
      assert a + b == b;
    } else {
      assert (a + b)[0] == a[0] && (a + b)[1..] == a[1..] + b;
      ConcatAppend(a[1..], b);
      calc {
        Concat(a + b);
        a[0] + Concat(a[1..] + b);
        a[0] + (Concat(a[1..]) + Concat(b));
        (a[0] + Concat(a[1..])) + Concat(b);
      }
    }
  }

  /// The `i`-th string of a concatenation lies between the lengths of the
  /// first `i` and the first `i + 1`.
  lemma ChunkAt(data: seq<byte>, at: nat, cs: seq<seq<byte>>, i: nat)
    requires i < |cs|
    requires at + |Concat(cs)| <= |data| && data[at..at + |Concat(cs)|] == Concat(cs)
    ensures |Concat(cs[..i + 1])| == |Concat(cs[..i])| + |cs[i]| <= |Concat(cs)|
    ensures data[at + |Concat(cs[..i])|..at + |Concat(cs[..i + 1])|] == cs[i]
  {
    var front, back := cs[..i], cs[i + 1..];
    assert cs[..i + 1] == front + [cs[i]];
    assert cs == front + [cs[i]] + back;
    ConcatAppend(front, [cs[i]]);
    ConcatAppend(front + [cs[i]], back);
    assert Concat([cs[i]]) == cs[i] by {
      var one: seq<seq<byte>> := [cs[i]];
      assert one[1..] == [];
    }
    SplitSlice(data, at, Concat(front + [cs[i]]), Concat(back));
    SplitSlice(data, at, Concat(front), cs[i]);
  }

  /// Reads that follow each other from positions `ends`: `n` values read
  /// from `ends[k]` are the values from `k` on.
  lemma {:induction false} ValuesFrom(data: seq<byte>, t: byte, vs: seq<NbtValue>, ends: seq<nat>, k: nat)
    requires Known(t) && |ends| == |vs| + 1 && k <= |vs|
    requires forall i | k <= i < |vs| :: ValueAt(data, ends[i], t) == (vs[i], ends[i + 1])
    ensures ValuesAt(data, ends[k], t, |vs| - k) == (vs[k..], ends[|vs|])
    decreases |vs| - k
  {
    if k < |vs| {
      ValuesFrom(data, t, vs, ends, k + 1);
      assert vs[k..][1..] == vs[k + 1..];
      ValuesCons(data, ends[k], t, vs[k..], ends[k + 1], ends[|vs|]);
    }
  }

  /// Where each string of a concatenation starts, and where the last ends.
  function Ends(at: nat, cs: seq<seq<byte>>): (r: seq<nat>)
    ensures |r| == |cs| + 1 && r[0] == at && r[|cs|] == at + |Concat(cs)|
  {
    assert cs[..0] == [] && cs[..|cs|] == cs;
    seq(|cs| + 1, i requires 0 <= i <= |cs| => at + |Concat(cs[..i])|)
  }

  /// The `i`-th value reads back from between its two ends.
  lemma EachReadsBack(data: seq<byte>, at: nat, t: byte, vs: seq<NbtValue>, i: nat)
    requires Known(t) && Writable(vs) && i < |vs| && TagOf(vs[i]) == t
    requires at + |Payloads(vs)| <= |data| && data[at..at + |Payloads(vs)|] == Payloads(vs)
    ensures ValueAt(data, Ends(at, Chunks(vs))[i], t) == (vs[i], Ends(at, Chunks(vs))[i + 1])
  {
    var ends := Ends(at, Chunks(vs));
    PayloadBetween(data, at, vs, i);
    ValueOfTag(data, ends[i], t, vs[i]);
  }

  /// The payload of the `i`-th value lies between its two ends.
  lemma PayloadBetween(data: seq<byte>, at: nat, vs: seq<NbtValue>, i: nat)
    requires Writable(vs) && i < |vs|
    requires at + |Payloads(vs)| <= |data| && data[at..at + |Payloads(vs)|] == Payloads(vs)
    ensures var ends := Ends(at, Chunks(vs));
      ends[i + 1] == ends[i] + |Payload(vs[i])| <= |data| && data[ends[i]..ends[i + 1]] == Payload(vs[i])
  {
    var cs := Chunks(vs);
    ChunkAt(data, at, cs, i);
  }

  /// Values of one known tag read back from their payloads.
  lemma ValuesReadBack(data: seq<byte>, at: nat, t: byte, vs: seq<NbtValue>)
    requires Known(t) && Writable(vs) && forall i | 0 <= i < |vs| :: TagOf(vs[i]) == t
    requires at + |Payloads(vs)| <= |data| && data[at..at + |Payloads(vs)|] == Payloads(vs)
    ensures ValuesAt(data, at, t, |vs|) == (vs, at + |Payloads(vs)|)
  {
    var ends := Ends(at, Chunks(vs));
    AllReadBack(data, at, t, vs, ends);
    ValuesFrom(data, t, vs, ends, 0);
    assert vs[0..] == vs;
  }

  /// Every value reads back from between its two ends.
  lemma AllReadBack(data: seq<byte>, at: nat, t: byte, vs: seq<NbtValue>, ends: seq<nat>)
    requires Known(t) && Writable(vs) && forall i | 0 <= i < |vs| :: TagOf(vs[i]) == t
    requires at + |Payloads(vs)| <= |data| && data[at..at + |Payloads(vs)|] == Payloads(vs)
    requires ends == Ends(at, Chunks(vs))
    ensures forall i | 0 <= i < |vs| :: ValueAt(data, ends[i], t) == (vs[i], ends[i + 1])
  {
    forall i | 0 <= i < |vs|
      ensures ValueAt(data, ends[i], t) == (vs[i], ends[i + 1])
    {
      EachReadsBack(data, at, t, vs, i);
    }
  }

  /// A value of tag `t` reads back from its payload.
  lemma ValueOfTag(data: seq<byte>, at: nat, t: byte, v: NbtValue)
    requires Known(t) && Fits(v) && TagOf(v) == t
    requires at + |Payload(v)| <= |data| && data[at..at + |Payload(v)|] == Payload(v)
    ensures ValueAt(data, at, t) == (v, at + |Payload(v)|)
  {
    ValueReadsBack(data, at, v);
  }

  /// A List of values written as NBT lays it out (type, count, payloads)
  /// reads back in the corrected order.
  lemma ListReadsBack(data: seq<byte>, at: nat, t: byte, vs: seq<NbtValue>)
    requires Known(t) && |vs| < 0x8000_0000 && Writable(vs) && forall i | 0 <= i < |vs| :: TagOf(vs[i]) == t
    requires var n := 1 + COUNT_WIDTH + |Payloads(vs)|;
      at + n <= |data| && data[at..at + n] == [t] + BeBytes(|vs|, COUNT_WIDTH) + Payloads(vs)
    ensures NbtListAt(data, at, Corrected) == Got(ValueItems(vs), at + 1 + COUNT_WIDTH + |Payloads(vs)|)
  {
    var len, p := BeBytes(|vs|, COUNT_WIDTH), Payloads(vs);
    var q, end := at + 1 + COUNT_WIDTH, at + 1 + COUNT_WIDTH + |p|;
    SliceParts(data, at, q, end, [t] + len, p);
    SliceParts(data, at, at + 1, q, [t], len);
    TagReadsBack(data, at, t);
    CountReadsBack(data, at + 1, |vs|);
    ValuesReadBack(data, q, t, vs);
    ListOfParts(data, at, t, vs, end);
  }

  /// Bytes from `at` to `end` that hold `a + b` hold `a` up to `mid` and
  /// `b` after it.
  lemma SliceParts(data: seq<byte>, at: nat, mid: nat, end: nat, a: seq<byte>, b: seq<byte>)
    requires mid == at + |a| && end == mid + |b| <= |data| && data[at..end] == a + b
    ensures data[at..mid] == a && data[mid..end] == b
  {
    SplitSlice(data, at, a, b);
  }

  /// A tag byte reads back.
  lemma TagReadsBack(data: seq<byte>, at: nat, t: byte)
    requires at + 1 <= |data| && data[at..at + 1] == [t]
    ensures TagAt(data, at) == (t, at + 1)
  {
    assert data[at] == data[at..at + 1][0];
  }

  /// A List whose type, count and values read as `t`, `|vs|` and `vs`
  /// reads as the List of `vs`.
  lemma ListOfParts(data: seq<byte>, at: nat, t: byte, vs: seq<NbtValue>, end: nat)
    requires Known(t) && TagAt(data, at) == (t, at + 1)
    requires BeValue(data, at + 1, COUNT_WIDTH) == (|vs|, at + 1 + COUNT_WIDTH)
    requires ValuesAt(data, at + 1 + COUNT_WIDTH, t, |vs|) == (vs, end)
    ensures NbtListAt(data, at, Corrected) == Got(ValueItems(vs), end)
  {
    assert ElementsAt(data, at + 1 + COUNT_WIDTH, t, |vs|) == Got(ValueItems(vs), end);
  }

  /// The List elements holding the values `vs`.
  function ValueItems(vs: seq<NbtValue>): (r: seq<NbtItem>)
    ensures |r| == |vs| && forall i | 0 <= i < |vs| :: r[i] == Value(vs[i])
  {
    seq(|vs|, i requires 0 <= i < |vs| => Value(vs[i]))
  }

  /// A count written in 4 bytes reads back.
  lemma CountReadsBack(data: seq<byte>, at: nat, n: nat)
    requires n < 0x8000_0000 && at + COUNT_WIDTH <= |data| && data[at..at + COUNT_WIDTH] == BeBytes(n, COUNT_WIDTH)
    ensures BeValue(data, at, COUNT_WIDTH) == (n, at + COUNT_WIDTH)
  {
    WidthRanges();
    BeValueReadsBack(data, at, n, COUNT_WIDTH);
  }

  /// As written, the count is read first: an empty List of Ints laid out
  /// as NBT lays it out (type 3, count 0) is read as the count 0x03000000
  /// followed by type 0, which reaches `todo!()`. Read in the corrected
  /// order it is the empty List.
  lemma CountBeforeTypeMisread()
    ensures NbtListAt([3, 0, 0, 0, 0], 0, AsWritten) == Panic(EndList)
    ensures NbtListAt([3, 0, 0, 0, 0], 0, Corrected) == Got([], 5)
  {
    var data: seq<byte> := [3, 0, 0, 0, 0];
    WidthRanges();
    assert data[0..4] == BeBytes(0x0300_0000, 4);
    BeValueReadsBack(data, 0, 0x0300_0000, 4);
    assert data[1..5] == BeBytes(0, 4);
    BeValueReadsBack(data, 1, 0, 4);
    assert TagAt(data, 0) == (3, 1);
    assert ValuesAt(data, 5, TAG_INT, 0) == ([], 5);
    ListElements(data, 5, TAG_INT, 0);
  }
}
