/// The bounds-checked byte cursor of the newest reader
/// (shen-nbt6/src/reader.rs): a borrowed byte slice and a position in it.
module Nbt6Reader {
  import opened NbtBase
  import opened VarInt
  import opened Nbt6Error

  // ---------------------------------------------------------------------
  // What each read yields, as functions of the bytes and the position
  // ---------------------------------------------------------------------

  /// The checked `w`-byte read at `at`: the overflow error carrying the
  /// position, the width and the data length, or the decoded value.
  function FixedRead(data: seq<byte>, at: nat, w: nat, e: Endian, signed: bool): Result<int, NbtError>
    requires w > 0
  {
    if at + w > |data| then Err(CursorOverflow(at, w, |data|)) else Ok(Decode(data[at..at + w], e, signed))
  }

  /// `read_u8` at `at`.
  function U8Read(data: seq<byte>, at: nat): Result<byte, NbtError>
  {
    if at >= |data| then Err(CursorOverflow(at, 1, |data|)) else Ok(data[at])
  }

  /// `roll_down(n)`: the new position.
  function AfterRollDown(at: nat, n: nat, dataLen: nat): Result<nat, NbtError>
  {
    if at + n > dataLen then Err(CursorOverflow(at, n, dataLen)) else Ok(at + n)
  }

  /// `roll_back(n)`: the new position.
  function AfterRollBack(at: nat, n: nat, dataLen: nat): Result<nat, NbtError>
  {
    if n > at then Err(CursorOverflow(at, n, dataLen)) else Ok(at - n)
  }

  /// `roll_to(p)`: the new position; the error reports the target.
  function AfterRollTo(at: nat, p: nat, dataLen: nat): Result<nat, NbtError>
  {
    if p > dataLen then Err(CursorOverflow(at, p, dataLen)) else Ok(p)
  }

  /// `read_u8_array(n)` (and the bytes behind `read_string(n)`).
  function BytesRead(data: seq<byte>, at: nat, n: nat): Result<seq<byte>, NbtError>
  {
    if n + at > |data| then Err(CursorOverflow(at, n, |data|)) else Ok(data[at..at + n])
  }

  /// What the unchecked array readers give: the elements, or the panic of
  /// `data[cursor..cursor + len * w]` when that slice passes the end.
  datatype Sliced = Values(values: seq<int>) | SlicePanic

  /// The unchecked array readers: `n` consecutive `w`-byte elements.
  function ArrayAt(data: seq<byte>, at: nat, n: nat, w: nat, e: Endian): (r: seq<int>)
    requires w > 0 && at + n * w <= |data|
    ensures |r| == n
  {
    seq(n, i requires 0 <= i < n => ElementAt(data, at, i, w, e))
  }

  function ElementAt(data: seq<byte>, at: nat, i: nat, w: nat, e: Endian): int
    requires w > 0 && at + (i + 1) * w <= |data|
  {
    Decode(data[at + i * w..at + i * w + w], e, true)
  }

  /// The error a variable-length read reports, and where it leaves the
  /// cursor: after its last byte, after the byte past the limit, or at the
  /// end of the data.
  function VarResult(r: VarRead, tooBig: nat -> NbtError, dataLen: nat): Result<int, NbtError>
  {
    match r
      case VarOk(v, _) => Ok(v)
      case VarTooBig(p) => Err(tooBig(p))
      case VarEof(at) => Err(CursorOverflow(at, 1, dataLen))
  }

  function VarCursor(r: VarRead, start: nat, limit: nat): nat
  {
    match r
      case VarOk(_, next) => next
      case VarTooBig(_) => start + limit + 1
      case VarEof(at) => at
  }

  function VarIntError(p: nat): NbtError { VarIntTooBig(p) }
  function VarlongError(p: nat): NbtError { VarlongTooBig(p) }

  // ---------------------------------------------------------------------
  // Properties of the reads
  // ---------------------------------------------------------------------

  /// A checked read fails exactly when fewer than `w` bytes remain, and then
  /// reports where and how wide it tried to read; otherwise its value fits
  /// the integer type of that width.
  lemma {:induction false} FixedReadOutcome(data: seq<byte>, at: nat, w: nat, e: Endian, signed: bool)
    requires w > 0
    ensures FixedRead(data, at, w, e, signed).Err? <==> at + w > |data|
    ensures FixedRead(data, at, w, e, signed).Err? ==> FixedRead(data, at, w, e, signed).error == CursorOverflow(at, w, |data|)
    ensures FixedRead(data, at, w, e, signed).Ok? && signed ==>
              -(Pow256(w) / 2) <= FixedRead(data, at, w, e, signed).value < Pow256(w) / 2
    ensures FixedRead(data, at, w, e, signed).Ok? && !signed ==>
              0 <= FixedRead(data, at, w, e, signed).value < Pow256(w)
  {
  }

  /// `read_le_*` is `read_be_*` of the same bytes in reverse order.
  lemma {:induction false} LittleIsReversedBig(data: seq<byte>, at: nat, w: nat, signed: bool)
    requires w > 0 && at + w <= |data|
    ensures FixedRead(data, at, w, Little, signed)
         == FixedRead(data[..at] + Reverse(data[at..at + w]) + data[at + w..], at, w, Big, signed)
  {
    var swapped := data[..at] + Reverse(data[at..at + w]) + data[at + w..];
    assert swapped[at..at + w] == Reverse(data[at..at + w]);
    LeIsReversedBe(data[at..at + w]);
  }

  /// Reading back what `to_be_bytes` / `to_le_bytes` wrote gives the value,
  /// whatever surrounds it.
  lemma {:induction false} FixedReadOfEncoded(before: seq<byte>, v: int, w: nat, e: Endian, after: seq<byte>)
    requires w > 0 && -(Pow256(w) / 2) <= v < Pow256(w) / 2
    ensures var bytes := if e == Big then BeBytes(ToUnsigned(v, Pow256(w)), w) else LeBytes(ToUnsigned(v, Pow256(w)), w);
            FixedRead(before + bytes + after, |before|, w, e, true) == Ok(v)
  {
    var bytes := if e == Big then BeBytes(ToUnsigned(v, Pow256(w)), w) else LeBytes(ToUnsigned(v, Pow256(w)), w);
    assert (before + bytes + after)[|before|..|before| + w] == bytes;
    if e == Big {
      BeSignedRoundTrip(v, w);
    } else {
      LeSignedRoundTrip(v, w);
    }
  }

  /// Bytes beyond the ones a read needs do not change it.
  lemma {:induction false} FixedReadPrefix(data: seq<byte>, more: seq<byte>, at: nat, w: nat, e: Endian, signed: bool)
    requires w > 0 && at + w <= |data|
    ensures FixedRead(data + more, at, w, e, signed) == FixedRead(data, at, w, e, signed)
  {
    assert (data + more)[at..at + w] == data[at..at + w];
  }

  /// `read_u8` is the one-byte unsigned read.
  lemma {:induction false} U8IsFixedRead(data: seq<byte>, at: nat)
    ensures U8Read(data, at).Err? <==> FixedRead(data, at, 1, Big, false).Err?
    ensures U8Read(data, at).Ok? ==> U8Read(data, at).value == FixedRead(data, at, 1, Big, false).value
    ensures U8Read(data, at).Err? ==> U8Read(data, at).error == FixedRead(data, at, 1, Big, false).error
  {
    if at < |data| {
      var bs := data[at..at + 1];
      assert bs[..0] == [];
      assert BeUnsigned(bs) == data[at];
    }
  }

  /// `roll_back(n)` undoes a successful `roll_down(n)`, and the reverse.
  lemma {:induction false} RollDownBack(at: nat, n: nat, dataLen: nat)
    requires at <= dataLen
    ensures AfterRollDown(at, n, dataLen).Ok? ==> AfterRollBack(AfterRollDown(at, n, dataLen).value, n, dataLen) == Ok(at)
    ensures AfterRollBack(at, n, dataLen).Ok? ==> AfterRollDown(AfterRollBack(at, n, dataLen).value, n, dataLen) == Ok(at)
  {
  }

  /// Every successful seek stays within the data, and the data's own end is
  /// a valid target of `roll_to`.
  lemma {:induction false} RollsStayInside(at: nat, n: nat, dataLen: nat)
    requires at <= dataLen
    ensures AfterRollDown(at, n, dataLen).Ok? ==> AfterRollDown(at, n, dataLen).value <= dataLen
    ensures AfterRollBack(at, n, dataLen).Ok? ==> AfterRollBack(at, n, dataLen).value <= dataLen
    ensures AfterRollTo(at, n, dataLen).Ok? <==> n <= dataLen
    ensures AfterRollTo(at, dataLen, dataLen) == Ok(dataLen)
  {
  }

  /// The `i`-th element of an unchecked array read is what a checked read
  /// at its offset returns; the array covers exactly `n * w` bytes.
  lemma {:induction false} ArrayElementIsCheckedRead(data: seq<byte>, at: nat, n: nat, w: nat, e: Endian, i: nat)
    requires w > 0 && at + n * w <= |data| && i < n
    ensures at + i * w + w <= at + n * w
    ensures FixedRead(data, at + i * w, w, e, true) == Ok(ArrayAt(data, at, n, w, e)[i])
  {
    assert (i + 1) * w <= n * w by {
      MulMonotone(i + 1, n, w);
    }
  }

  lemma {:induction false} ArrayAtSnoc(data: seq<byte>, at: nat, n: nat, w: nat, e: Endian)
    requires w > 0 && at + (n + 1) * w <= |data|
    ensures at + n * w <= |data|
    ensures ArrayAt(data, at, n + 1, w, e) == ArrayAt(data, at, n, w, e) + [ElementAt(data, at, n, w, e)]
  {
    MulMonotone(n, n + 1, w);
  }

  lemma {:induction false} MulMonotone(a: nat, b: nat, w: nat)
    requires a <= b
    ensures a * w <= b * w
  {
  }

  /// A successful byte read returns exactly the next `n` bytes; it fails
  /// exactly when fewer remain.
  lemma {:induction false} BytesReadOutcome(data: seq<byte>, at: nat, n: nat)
    ensures BytesRead(data, at, n).Ok? <==> at + n <= |data|
    ensures BytesRead(data, at, n).Ok? ==>
              |BytesRead(data, at, n).value| == n && data[..at] + BytesRead(data, at, n).value + data[at + n..] == data
  {
    if at + n <= |data| {
      assert data[..at] + data[at..at + n] + data[at + n..] == data;
    }
  }

  /// A variable-length read that succeeds leaves the cursor after its last
  /// byte; the other two outcomes leave it after the byte past the limit or
  /// at the end of the data.
  lemma {:induction false} VarCursorBounds(data: seq<byte>, start: nat, bits: nat, limit: nat)
    requires start <= |data| && 0 < bits <= 64
    ensures var r := ReadVarFrom(data, start, 0, 0, bits, limit);
            start <= VarCursor(r, start, limit) <= |data|
            && (r.VarOk? ==> VarCursor(r, start, limit) <= start + limit)
  {
    ReadVarShape(data, start, 0, 0, bits, limit);
  }

  // ---------------------------------------------------------------------
  // NbtReader
  // ---------------------------------------------------------------------

  class NbtReader {
    const data: seq<byte>
    var cursor: nat

    /// The cursor never passes the end of the data: every operation keeps
    /// this.
    predicate Valid()
      reads this
    {
      cursor <= |data|
    }

    /// `NbtReader::new`.
    constructor (data: seq<byte>)
      ensures this.data == data && cursor == 0 && Valid()
    {
      this.data := data;
      cursor := 0;
    }

    /// `check_cursor`: whether one more byte can be read.
    function CheckCursor(): (r: bool)
      reads this
      ensures r <==> U8Read(data, cursor).Ok?
    {
      cursor < |data|
    }

    method RollBack(len: nat) returns (r: Result<(), NbtError>)
      modifies this
      ensures var s := AfterRollBack(old(cursor), len, |data|);
              (r.Err? <==> s.Err?) && (s.Err? ==> r.error == s.error && cursor == old(cursor))
              && (s.Ok? ==> cursor == s.value)
      ensures old(Valid()) ==> Valid()
    {
      if len > cursor {
        return Err(CursorOverflow(cursor, len, |data|));
      }
      cursor := cursor - len;
      return Ok(());
    }

    method RollDown(len: nat) returns (r: Result<(), NbtError>)
      modifies this
      ensures var s := AfterRollDown(old(cursor), len, |data|);
              (r.Err? <==> s.Err?) && (s.Err? ==> r.error == s.error && cursor == old(cursor))
              && (s.Ok? ==> cursor == s.value)
      ensures old(Valid()) ==> Valid()
    {
      if cursor + len > |data| {
        return Err(CursorOverflow(cursor, len, |data|));
      }
      cursor := cursor + len;
      return Ok(());
    }

    method RollTo(pos: nat) returns (r: Result<(), NbtError>)
      modifies this
      ensures var s := AfterRollTo(old(cursor), pos, |data|);
              (r.Err? <==> s.Err?) && (s.Err? ==> r.error == s.error && cursor == old(cursor))
              && (s.Ok? ==> cursor == s.value)
      ensures old(Valid()) ==> Valid()
    {
      if pos > |data| {
        return Err(CursorOverflow(cursor, pos, |data|));
      }
      cursor := pos;
      return Ok(());
    }

    method RollTop()
      modifies this
      ensures cursor == 0 && Valid()
    {
      cursor := 0;
    }

    method RollBottom()
      modifies this
      ensures cursor == |data| && Valid()
    {
      cursor := |data|;
    }

    method ReadU8() returns (r: Result<byte, NbtError>)
      modifies this
      ensures r == U8Read(data, old(cursor))
      ensures cursor == if r.Ok? then old(cursor) + 1 else old(cursor)
      ensures old(Valid()) ==> Valid()
    {
      if cursor >= |data| {
        return Err(CursorOverflow(cursor, 1, |data|));
      }
      var value := data[cursor];
      cursor := cursor + 1;
      return Ok(value);
    }

    /// `read_i8`: the byte reinterpreted as `i8`.
    method ReadI8() returns (r: Result<int, NbtError>)
      modifies this
      ensures r.Err? <==> U8Read(data, old(cursor)).Err?
      ensures r.Err? ==> r.error == U8Read(data, old(cursor)).error
      ensures r.Ok? ==> r.value == ToSigned(U8Read(data, old(cursor)).value, U8_MOD) && IsI8(r.value)
      ensures cursor == if r.Ok? then old(cursor) + 1 else old(cursor)
      ensures old(Valid()) ==> Valid()
    {
      var b :- ReadU8();
      return Ok(ToSigned(b, U8_MOD));
    }

    /// The body shared by the twelve checked fixed-width reads.
    method ReadFixed(w: nat, e: Endian, signed: bool) returns (r: Result<int, NbtError>)
      requires w > 0
      modifies this
      ensures r == FixedRead(data, old(cursor), w, e, signed)
      ensures cursor == if r.Ok? then old(cursor) + w else old(cursor)
      ensures old(Valid()) ==> Valid()
    {
      if cursor + w > |data| {
        return Err(CursorOverflow(cursor, w, |data|));
      }
      var value := Decode(data[cursor..cursor + w], e, signed);
      cursor := cursor + w;
      return Ok(value);
    }

    method ReadBeI16() returns (r: Result<int, NbtError>)
      modifies this
      ensures r == FixedRead(data, old(cursor), 2, Big, true)
      ensures cursor == if r.Ok? then old(cursor) + 2 else old(cursor)
      ensures old(Valid()) ==> Valid()
    {
      r := ReadFixed(2, Big, true);
    }

    method ReadLeI16() returns (r: Result<int, NbtError>)
      modifies this
      ensures r == FixedRead(data, old(cursor), 2, Little, true)
      ensures cursor == if r.Ok? then old(cursor) + 2 else old(cursor)
      ensures old(Valid()) ==> Valid()
    {
      r := ReadFixed(2, Little, true);
    }

    method ReadBeU16() returns (r: Result<int, NbtError>)
      modifies this
      ensures r == FixedRead(data, old(cursor), 2, Big, false)
      ensures cursor == if r.Ok? then old(cursor) + 2 else old(cursor)
      ensures old(Valid()) ==> Valid()
    {
      r := ReadFixed(2, Big, false);
    }

    method ReadLeU16() returns (r: Result<int, NbtError>)
      modifies this
      ensures r == FixedRead(data, old(cursor), 2, Little, false)
      ensures cursor == if r.Ok? then old(cursor) + 2 else old(cursor)
      ensures old(Valid()) ==> Valid()
    {
      r := ReadFixed(2, Little, false);
    }

    method ReadBeI32() returns (r: Result<int, NbtError>)
      modifies this
      ensures r == FixedRead(data, old(cursor), 4, Big, true)
      ensures cursor == if r.Ok? then old(cursor) + 4 else old(cursor)
      ensures old(Valid()) ==> Valid()
    {
      r := ReadFixed(4, Big, true);
    }

    method ReadLeI32() returns (r: Result<int, NbtError>)
      modifies this
      ensures r == FixedRead(data, old(cursor), 4, Little, true)
      ensures cursor == if r.Ok? then old(cursor) + 4 else old(cursor)
      ensures old(Valid()) ==> Valid()
    {
      r := ReadFixed(4, Little, true);
    }

    method ReadBeU32() returns (r: Result<int, NbtError>)
      modifies this
      ensures r == FixedRead(data, old(cursor), 4, Big, false)
      ensures cursor == if r.Ok? then old(cursor) + 4 else old(cursor)
      ensures old(Valid()) ==> Valid()
    {
      r := ReadFixed(4, Big, false);
    }

    method ReadLeU32() returns (r: Result<int, NbtError>)
      modifies this
      ensures r == FixedRead(data, old(cursor), 4, Little, false)
      ensures cursor == if r.Ok? then old(cursor) + 4 else old(cursor)
      ensures old(Valid()) ==> Valid()
    {
      r := ReadFixed(4, Little, false);
    }

    method ReadBeI64() returns (r: Result<int, NbtError>)
      modifies this
      ensures r == FixedRead(data, old(cursor), 8, Big, true)
      ensures cursor == if r.Ok? then old(cursor) + 8 else old(cursor)
      ensures old(Valid()) ==> Valid()
    {
      r := ReadFixed(8, Big, true);
    }

    method ReadLeI64() returns (r: Result<int, NbtError>)
      modifies this
      ensures r == FixedRead(data, old(cursor), 8, Little, true)
      ensures cursor == if r.Ok? then old(cursor) + 8 else old(cursor)
      ensures old(Valid()) ==> Valid()
    {
      r := ReadFixed(8, Little, true);
    }

    method ReadBeU64() returns (r: Result<int, NbtError>)
      modifies this
      ensures r == FixedRead(data, old(cursor), 8, Big, false)
      ensures cursor == if r.Ok? then old(cursor) + 8 else old(cursor)
      ensures old(Valid()) ==> Valid()
    {
      r := ReadFixed(8, Big, false);
    }

    method ReadLeU64() returns (r: Result<int, NbtError>)
      modifies this
      ensures r == FixedRead(data, old(cursor), 8, Little, false)
      ensures cursor == if r.Ok? then old(cursor) + 8 else old(cursor)
      ensures old(Valid()) ==> Valid()
    {
      r := ReadFixed(8, Little, false);
    }

    /// `read_be_f32` and friends: the bit pattern of the float, which is
    /// the unsigned read of the same width.
    method ReadFloatBits(w: nat, e: Endian) returns (r: Result<int, NbtError>)
      requires w == 4 || w == 8
      modifies this
      ensures r == FixedRead(data, old(cursor), w, e, false)
      ensures cursor == if r.Ok? then old(cursor) + w else old(cursor)
      ensures old(Valid()) ==> Valid()
    {
      r := ReadFixed(w, e, false);
    }

    /// The loop of `read_var_i32` (`bits` 32, `limit` 5) and `read_var_i64`
    /// (`bits` 64, `limit` 10).
    method ReadVar(bits: nat, limit: nat, tooBig: nat -> NbtError) returns (r: Result<int, NbtError>)
      requires Valid() && 0 < bits <= 64
      modifies this
      ensures r == VarResult(ReadVarFrom(data, old(cursor), 0, 0, bits, limit), tooBig, |data|)
      ensures cursor == VarCursor(ReadVarFrom(data, old(cursor), 0, 0, bits, limit), old(cursor), limit)
      ensures Valid()
    {
      ghost var start := cursor;
      var value: nat := 0;
      var size: nat := 0;
      while true
        invariant start <= cursor <= |data| && cursor == start + size && size <= limit && value < Pow2(bits)
        invariant ReadVarFrom(data, start, 0, 0, bits, limit) == ReadVarFrom(data, cursor, value, size, bits, limit)
        decreases |data| - cursor
      {
        ghost var pos := cursor;
        var read := ReadU8();
        if read.Err? {
          assert ReadVarFrom(data, pos, value, size, bits, limit) == VarEof(|data|);
          return Err(read.error);
        }
        var byte := read.value;
        var next := ShiftIn(value, byte, size, bits);
        if size + 1 > limit {
          assert ReadVarFrom(data, pos, value, size, bits, limit) == VarTooBig(AsUsize(next, bits));
          return Err(tooBig(AsUsize(next, bits)));
        }
        if byte < 128 {
          assert ReadVarFrom(data, pos, value, size, bits, limit) == VarOk(ToSigned(next, Pow2(bits)), pos + 1);
          return Ok(ToSigned(next, Pow2(bits)));
        }
        assert ReadVarFrom(data, pos, value, size, bits, limit) == ReadVarFrom(data, pos + 1, next, size + 1, bits, limit);
        value := next;
        size := size + 1;
      }
    }

    method ReadVarI32() returns (r: Result<int, NbtError>)
      requires Valid()
      modifies this
      ensures r == VarResult(VarInt.ReadVarI32(data, old(cursor)), VarIntError, |data|)
      ensures cursor == VarCursor(VarInt.ReadVarI32(data, old(cursor)), old(cursor), 5)
      ensures Valid()
    {
      r := ReadVar(32, 5, VarIntError);
    }

    method ReadVarI64() returns (r: Result<int, NbtError>)
      requires Valid()
      modifies this
      ensures r == VarResult(VarInt.ReadVarI64(data, old(cursor)), VarlongError, |data|)
      ensures cursor == VarCursor(VarInt.ReadVarI64(data, old(cursor)), old(cursor), 10)
      ensures Valid()
    {
      r := ReadVar(64, 10, VarlongError);
    }

    method ReadZigzagVarI32() returns (r: Result<int, NbtError>)
      requires Valid()
      modifies this
      ensures var s := VarResult(VarInt.ReadVarI32(data, old(cursor)), VarIntError, |data|);
              (r.Err? <==> s.Err?) && (s.Err? ==> r.error == s.error)
              && (s.Ok? ==> r.value == ZigDecodeSigned(s.value))
      ensures cursor == VarCursor(VarInt.ReadVarI32(data, old(cursor)), old(cursor), 5)
      ensures Valid()
    {
      var value :- ReadVarI32();
      return Ok(ZigDecodeSigned(value));
    }

    method ReadZigzagVarI64() returns (r: Result<int, NbtError>)
      requires Valid()
      modifies this
      ensures var s := VarResult(VarInt.ReadVarI64(data, old(cursor)), VarlongError, |data|);
              (r.Err? <==> s.Err?) && (s.Err? ==> r.error == s.error)
              && (s.Ok? ==> r.value == ZigDecodeSigned(s.value))
      ensures cursor == VarCursor(VarInt.ReadVarI64(data, old(cursor)), old(cursor), 10)
      ensures Valid()
    {
      var value :- ReadVarI64();
      return Ok(ZigDecodeSigned(value));
    }

    method ReadU8Array(len: nat) returns (r: Result<seq<byte>, NbtError>)
      modifies this
      ensures r == BytesRead(data, old(cursor), len)
      ensures cursor == if r.Ok? then old(cursor) + len else old(cursor)
      ensures old(Valid()) ==> Valid()
    {
      if len + cursor > |data| {
        return Err(CursorOverflow(cursor, len, |data|));
      }
      var value := data[cursor..cursor + len];
      cursor := cursor + len;
      return Ok(value);
    }

    /// `read_string`: the bytes, decoded by `lossy` (`from_utf8_lossy`,
    /// which is not part of this model).
    method ReadString(len: nat, lossy: seq<byte> -> string) returns (r: Result<string, NbtError>)
      modifies this
      ensures var s := BytesRead(data, old(cursor), len);
              (r.Err? <==> s.Err?) && (s.Err? ==> r.error == s.error)
              && (s.Ok? ==> r.value == lossy(s.value))
      ensures cursor == if r.Ok? then old(cursor) + len else old(cursor)
      ensures old(Valid()) ==> Valid()
    {
      var bytes :- ReadU8Array(len);
      return Ok(lossy(bytes));
    }

    /// `read_i8_array`: the next `len` bytes as `i8`, or the panic of the
    /// slice when fewer remain.
    method ReadI8Array(len: nat) returns (r: Sliced)
      modifies this
      ensures r.SlicePanic? <==> old(cursor) + len > |data|
      ensures r.Values? ==> r.values == ArrayAt(data, old(cursor), len, 1, Big) && cursor == old(cursor) + len
      ensures r.SlicePanic? ==> cursor == old(cursor)
      ensures old(Valid()) ==> Valid()
    {
      r := ReadArray(len, 1, Big);
    }

    /// The body shared by the unchecked array readers: the slice of
    /// `len * w` bytes panics when it passes the end of the data; otherwise
    /// `len` elements of `w` bytes, collected one chunk at a time.
    method ReadArray(len: nat, w: nat, e: Endian) returns (r: Sliced)
      requires w > 0
      modifies this
      ensures r.SlicePanic? <==> old(cursor) + len * w > |data|
      ensures r.Values? ==> r.values == ArrayAt(data, old(cursor), len, w, e) && cursor == old(cursor) + len * w
      ensures r.SlicePanic? ==> cursor == old(cursor)
      ensures old(Valid()) ==> Valid()
    {
      if cursor + len * w > |data| {
        return SlicePanic;
      }
      var start := cursor;
      var values := [];
      for i := 0 to len
        invariant start + i * w <= |data|
        invariant values == ArrayAt(data, start, i, w, e)
      {
        MulMonotone(i + 1, len, w);
        ArrayAtSnoc(data, start, i, w, e);
        values := values + [ElementAt(data, start, i, w, e)];
      }
      cursor := start + len * w;
      r := Values(values);
    }

    method ReadBeI32Array(len: nat) returns (r: Sliced)
      modifies this
      ensures r.SlicePanic? <==> old(cursor) + len * 4 > |data|
      ensures r.Values? ==> r.values == ArrayAt(data, old(cursor), len, 4, Big) && cursor == old(cursor) + len * 4
      ensures r.SlicePanic? ==> cursor == old(cursor)
      ensures old(Valid()) ==> Valid()
    {
      r := ReadArray(len, 4, Big);
    }

    method ReadBeI64Array(len: nat) returns (r: Sliced)
      modifies this
      ensures r.SlicePanic? <==> old(cursor) + len * 8 > |data|
      ensures r.Values? ==> r.values == ArrayAt(data, old(cursor), len, 8, Big) && cursor == old(cursor) + len * 8
      ensures r.SlicePanic? ==> cursor == old(cursor)
      ensures old(Valid()) ==> Valid()
    {
      r := ReadArray(len, 8, Big);
    }

    method ReadLeI16Array(len: nat) returns (r: Sliced)
      modifies this
      ensures r.SlicePanic? <==> old(cursor) + len * 2 > |data|
      ensures r.Values? ==> r.values == ArrayAt(data, old(cursor), len, 2, Little) && cursor == old(cursor) + len * 2
      ensures r.SlicePanic? ==> cursor == old(cursor)
      ensures old(Valid()) ==> Valid()
    {
      r := ReadArray(len, 2, Little);
    }

    method ReadLeI32Array(len: nat) returns (r: Sliced)
      modifies this
      ensures r.SlicePanic? <==> old(cursor) + len * 4 > |data|
      ensures r.Values? ==> r.values == ArrayAt(data, old(cursor), len, 4, Little) && cursor == old(cursor) + len * 4
      ensures r.SlicePanic? ==> cursor == old(cursor)
      ensures old(Valid()) ==> Valid()
    {
      r := ReadArray(len, 4, Little);
    }

    method ReadLeI64Array(len: nat) returns (r: Sliced)
      modifies this
      ensures r.SlicePanic? <==> old(cursor) + len * 8 > |data|
      ensures r.Values? ==> r.values == ArrayAt(data, old(cursor), len, 8, Little) && cursor == old(cursor) + len * 8
      ensures r.SlicePanic? ==> cursor == old(cursor)
      ensures old(Valid()) ==> Valid()
    {
      r := ReadArray(len, 8, Little);
    }
  }
}
