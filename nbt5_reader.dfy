/// The earlier generation's `NbtReader` (shen-nbt5/src/reader.rs): a byte
/// slice and a cursor that every `read_*` moves forward, with the dialects'
/// `read_compound`, `read_list` and `from_reader` as loops over it. Each
/// method is proved to yield what the functions of `Nbt5Decode` say and to
/// leave the cursor just after what it read.
module Nbt5Reader {
  import opened NbtBase
  import opened VarInt
  import opened Nbt5Value
  import opened Nbt5Decode

  class NbtReader {
    /// The input; the reader never writes to it.
    const data: seq<byte>
    /// The position of the next byte to read.
    var cursor: nat

    predicate Valid()
      reads this
    {
      cursor <= |data|
    }

    /// `NbtReader::new`: the cursor at the first byte.
    constructor (data: seq<byte>)
      ensures this.data == data && cursor == 0 && Valid()
    {
      this.data := data;
      cursor := 0;
    }

    // -------------------------------------------------------------------
    // Primitives
    // -------------------------------------------------------------------

    /// `read_u8`: one byte, a panic past the end.
    method ReadU8() returns (r: Read<byte>)
      requires Valid()
      modifies this
      ensures r == U8At(data, old(cursor))
      ensures Valid() && cursor == if r.Got? then r.next else old(cursor)
    {
      if cursor >= |data| {
        return Panic;
      }
      r := Got(data[cursor], cursor + 1);
      cursor := cursor + 1;
    }

    /// `read_be_i16` ... `read_le_u64`: `w` indexed bytes.
    method ReadFixed(w: nat, e: Endian, signed: bool) returns (r: Read<int>)
      requires Valid() && w > 0
      modifies this
      ensures r == FixedAt(data, old(cursor), w, e, signed)
      ensures Valid() && cursor == if r.Got? then r.next else old(cursor)
    {
      if cursor + w > |data| {
        return Panic;
      }
      r := Got(Decode(data[cursor..cursor + w], e, signed), cursor + w);
      cursor := cursor + w;
    }

    /// `read_var_i32` (`wide` false: 32 bits, at most 5 bytes) and
    /// `read_var_i64` (`wide` true: 64 bits, at most 10 bytes).
    method ReadVar(wide: bool) returns (r: Read<int>)
      requires Valid()
      modifies this
      ensures r == VarAt(data, old(cursor), wide)
      ensures Valid() && (r.Got? ==> cursor == r.next)
    {
      Pow2Facts();
      var bits: nat, limit: nat := if wide then 64 else 32, if wide then 10 else 5;
      ghost var start := cursor;
      var value: nat := 0;
      var size: nat := 0;
      while true
        invariant start <= cursor <= |data| && cursor == start + size && size <= limit && value < Pow2(bits)
        invariant ReadVarFrom(data, start, 0, 0, bits, limit) == ReadVarFrom(data, cursor, value, size, bits, limit)
        decreases |data| - cursor
      {
        ghost var pos := cursor;
        var byte := ReadU8();
        if !byte.Got? {
          assert ReadVarFrom(data, pos, value, size, bits, limit) == VarEof(|data|);
          return Panic;
        }
        var next := ShiftIn(value, byte.value, size, bits);
        if size + 1 > limit {
          assert ReadVarFrom(data, pos, value, size, bits, limit) == VarTooBig(AsUsize(next, bits));
          return Fail(if wide then VarlongTooBig(AsUsize(next, bits)) else VarIntTooBig(AsUsize(next, bits)));
        }
        if byte.value < 128 {
          assert ReadVarFrom(data, pos, value, size, bits, limit) == VarOk(ToSigned(next, Pow2(bits)), pos + 1);
          return Got(ToSigned(next, Pow2(bits)), cursor);
        }
        value := next;
        size := size + 1;
      }
    }

    /// `read_zigzag_var_i32` / `read_zigzag_var_i64`.
    method ReadZigZag(l: Layout, wide: bool) returns (r: Read<int>)
      requires Valid()
      modifies this
      ensures r == ZigAt(l, data, old(cursor), wide)
      ensures Valid() && (r.Got? ==> cursor == r.next)
    {
      var x := ReadVar(wide);
      if !x.Got? {
        return x;
      }
      r := Got(ZigDecode(x.value, wide, l.exactZigZag), x.next);
    }

    /// `read_string(len)`: an error, not a panic, when the wrapped end lies
    /// past the data; the cursor stays put then.
    method ReadString(len: nat) returns (r: Read<seq<byte>>)
      requires Valid()
      modifies this
      ensures r == StringAt(data, old(cursor), len)
      ensures Valid() && cursor == if r.Got? then r.next else old(cursor)
    {
      var end := (cursor + len) % U64_MOD;
      if end > |data| {
        return Fail(CursorOverflow(cursor, len, |data|));
      }
      if cursor > end {
        return Panic;
      }
      r := Got(data[cursor..end], end);
      cursor := end;
    }

    /// `read_i8_array(len)`: the slice (its end wrapping at 2^64), each
    /// byte `as i8`.
    method ReadI8Array(len: nat) returns (r: Read<seq<I8>>)
      requires Valid()
      modifies this
      ensures r == ByteArrayAt(data, old(cursor), len)
      ensures Valid() && cursor == if r.Got? then r.next else old(cursor)
    {
      var end := (cursor + len % U64_MOD) % U64_MOD;
      if !(cursor <= end <= |data|) {
        return Panic;
      }
      var slice := data[cursor..end];
      var out: seq<I8> := [];
      var k := 0;
      while k < |slice|
        invariant k <= |slice| && |out| == k
        invariant forall i :: 0 <= i < k ==> out[i] == ToSigned(slice[i], U8_MOD)
      {
        out := out + [ToSigned(slice[k], U8_MOD) as I8];
        k := k + 1;
      }
      assert out == AsI8s(slice);
      r := Got(out, end);
      cursor := end;
    }

    /// `read_i32_array(len)` (`w` = 4) / `read_i64_array(len)` (`w` = 8):
    /// the slice of `len * w` bytes cut by `chunks_exact(w)`, each chunk
    /// decoded in order `e`.
    method ReadWords(len: nat, w: nat, e: Endian) returns (r: Read<seq<int>>)
      requires Valid() && (w == 4 || w == 8)
      modifies this
      ensures r == WordsAt(data, old(cursor), len, w, e)
      ensures Valid() && cursor == if r.Got? then r.next else old(cursor)
    {
      var end := (cursor + (len * w) % U64_MOD) % U64_MOD;
      if !(cursor <= end <= |data|) {
        return Panic;
      }
      var out := DecodeChunks(data[cursor..end], w, e);
      r := Got(out, end);
      cursor := end;
    }

    // -------------------------------------------------------------------
    // The primitives a layout picks
    // -------------------------------------------------------------------

    /// `read_nbt_string`'s length.
    method ReadStringLength(l: Layout) returns (r: Read<nat>)
      requires Valid()
      modifies this
      ensures r == StringLengthAt(l, data, old(cursor))
      ensures Valid() && (r.Got? ==> cursor == r.next)
    {
      match l.strings
      case U16Length =>
        var x := ReadFixed(2, l.order, false);
        r := if x.Got? then Got(x.value, x.next) else x.PropagateFailure();
      case PlainVarLength =>
        var x := ReadVar(false);
        r := if x.Got? then Got(Usize(x.value), x.next) else x.PropagateFailure();
      case ZigZagVarLength =>
        var x := ReadZigZag(l, false);
        r := if x.Got? then Got(Usize(x.value), x.next) else x.PropagateFailure();
    }

    /// `read_nbt_string`.
    method ReadNbtString(l: Layout) returns (r: Read<seq<byte>>)
      requires Valid()
      modifies this
      ensures r == NbtStringAt(l, data, old(cursor))
      ensures Valid() && (r.Got? ==> cursor == r.next)
    {
      var n := ReadStringLength(l);
      if !n.Got? {
        return n.PropagateFailure();
      }
      r := ReadString(n.value);
    }

    /// An array or list length.
    method ReadLength(l: Layout) returns (r: Read<nat>)
      requires Valid()
      modifies this
      ensures r == LengthAt(l, data, old(cursor))
      ensures Valid() && (r.Got? ==> cursor == r.next)
    {
      WidthRanges();
      match l.lengths
      case Fixed32 =>
        var x := ReadFixed(4, l.order, true);
        r := if x.Got? then Got(Usize(x.value), x.next) else x.PropagateFailure();
      case ZigZagVar32 =>
        var x := ReadZigZag(l, false);
        r := if x.Got? then Got(Usize(x.value), x.next) else x.PropagateFailure();
    }

    /// The scalar arms (tags 1 to 6) of the `match tag_id`.
    method ReadScalar(l: Layout, tag: byte) returns (r: Read<Value>)
      requires Valid() && TAG_BYTE <= tag <= TAG_DOUBLE
      modifies this
      ensures r == ScalarAt(l, data, old(cursor), tag)
      ensures Valid() && (r.Got? ==> cursor == r.next)
    {
      WidthRanges();
      if tag == TAG_BYTE {
        var x := ReadU8();
        r := if x.Got? then Got(Byte(ToSigned(x.value, U8_MOD)), x.next) else x.PropagateFailure();
      } else if tag == TAG_SHORT {
        var x := ReadFixed(2, l.order, true);
        r := if x.Got? then Got(Short(x.value), x.next) else x.PropagateFailure();
      } else if tag == TAG_INT {
        var x;
        if l.varInts {
          x := ReadZigZag(l, false);
        } else {
          x := ReadFixed(4, l.order, true);
        }
        r := if x.Got? then Got(Int(x.value), x.next) else x.PropagateFailure();
      } else if tag == TAG_LONG {
        var x;
        if l.varInts {
          x := ReadZigZag(l, true);
        } else {
          x := ReadFixed(8, l.order, true);
        }
        r := if x.Got? then Got(Long(x.value), x.next) else x.PropagateFailure();
      } else if tag == TAG_FLOAT {
        var x := ReadFixed(4, l.order, false);
        r := if x.Got? then Got(Float(x.value), x.next) else x.PropagateFailure();
      } else {
        var x := ReadFixed(8, l.order, false);
        r := if x.Got? then Got(Double(x.value), x.next) else x.PropagateFailure();
      }
    }

    /// The array arms: `read_i8_array`, `read_i32_array`, `read_i64_array`
    /// of the dialect.
    method ReadArray(l: Layout, tag: byte) returns (r: Read<Value>)
      requires Valid() && tag in {TAG_BYTE_ARRAY, TAG_INT_ARRAY, TAG_LONG_ARRAY}
      modifies this
      ensures r == ArrayAt(l, data, old(cursor), tag)
      ensures Valid() && (r.Got? ==> cursor == r.next)
    {
      WidthRanges();
      var n := ReadLength(l);
      if !n.Got? {
        return n.PropagateFailure();
      }
      if tag == TAG_BYTE_ARRAY {
        var a := ReadI8Array(n.value);
        r := if a.Got? then Got(ByteArray(a.value), a.next) else a.PropagateFailure();
      } else if tag == TAG_INT_ARRAY {
        var a := ReadWords(n.value, 4, l.elements);
        r := if a.Got? then Got(IntArray(a.value), a.next) else a.PropagateFailure();
      } else {
        var a := ReadWords(n.value, 8, l.elements);
        r := if a.Got? then Got(LongArray(a.value), a.next) else a.PropagateFailure();
      }
    }

    // -------------------------------------------------------------------
    // The tree
    // -------------------------------------------------------------------

    /// One arm of the `match tag_id` in `read_compound` and `read_list`.
    method ReadPayload(l: Layout, tag: byte) returns (r: Read<Value>)
      requires Valid()
      modifies this
      ensures r == Payload(l, data, old(cursor), tag)
      ensures Valid() && (r.Got? ==> cursor == r.next)
      decreases |data| - cursor, 3
    {
      if TAG_BYTE <= tag <= TAG_DOUBLE {
        r := ReadScalar(l, tag);
      } else if tag in {TAG_BYTE_ARRAY, TAG_INT_ARRAY, TAG_LONG_ARRAY} {
        r := ReadArray(l, tag);
      } else if tag == TAG_STRING {
        var s := ReadNbtString(l);
        r := if s.Got? then Got(String(s.value), s.next) else s.PropagateFailure();
      } else if tag == TAG_LIST {
        r := ReadList(l);
      } else if tag == TAG_COMPOUND {
        var ms := ReadCompound(l);
        r := if ms.Got? then Got(Compound(None, ms.value), ms.next) else ms.PropagateFailure();
      } else {
        r := Fail(UnknownType(tag));
      }
    }

    /// `read_compound`: tag, key and payload until a 0 tag.
    method ReadCompound(l: Layout) returns (r: Read<seq<Member>>)
      requires Valid()
      modifies this
      ensures r == Members(l, data, old(cursor), [])
      ensures Valid() && (r.Got? ==> cursor == r.next)
      decreases |data| - cursor, 2
    {
      ghost var start := cursor;
      var compound: seq<Member> := [];
      while true
        invariant start <= cursor <= |data|
        invariant Members(l, data, cursor, compound) == Members(l, data, start, [])
        decreases |data| - cursor
      {
        ghost var pos := cursor;
        var tag := ReadU8();
        if !tag.Got? {
          return Panic;
        }
        if tag.value == TAG_END {
          return Got(compound, cursor);
        }
        var name := ReadNbtString(l);
        if !name.Got? {
          return name.PropagateFailure();
        }
        var value := ReadPayload(l, tag.value);
        if !value.Got? {
          return value.PropagateFailure();
        }
        assert Members(l, data, pos, compound) == Members(l, data, cursor, compound + [Member(name.value, value.value)]);
        compound := compound + [Member(name.value, value.value)];
      }
    }

    /// `read_list`: the element tag, the length, `Vec::with_capacity`, then
    /// that many payloads.
    method ReadList(l: Layout) returns (r: Read<Value>)
      requires Valid()
      modifies this
      ensures r == ListAt(l, data, old(cursor))
      ensures Valid() && (r.Got? ==> cursor == r.next)
      decreases |data| - cursor, 2
    {
      ghost var start := cursor;
      var tag := ReadU8();
      if !tag.Got? {
        return Panic;
      }
      var len := ReadLength(l);
      if !len.Got? {
        return len.PropagateFailure();
      }
      if len.value >= CAPACITY_LIMIT {
        return Panic;
      }
      var list: seq<Value> := [];
      var i := 0;
      while i < len.value
        invariant start < cursor <= |data| && i <= len.value
        invariant Items(l, data, cursor, tag.value, len.value - i, list) == ListAt(l, data, start)
        decreases len.value - i
      {
        ghost var pos := cursor;
        var value := ReadPayload(l, tag.value);
        if !value.Got? {
          return value.PropagateFailure();
        }
        assert Items(l, data, pos, tag.value, len.value - i, list)
            == Items(l, data, cursor, tag.value, len.value - (i + 1), list + [value.value]);
        list := list + [value.value];
        i := i + 1;
      }
      r := Got(List(list), cursor);
    }

    /// `from_reader` of dialect `d`, reading with layout `l`.
    method ReadRoot(d: Dialect, l: Layout) returns (r: Read<Value>)
      requires Valid() && cursor == 0
      modifies this
      ensures r == Root(d, l, data)
      ensures Valid() && (r.Got? ==> cursor == r.next)
    {
      var tag := ReadU8();
      if !tag.Got? {
        return Panic;
      }
      if tag.value == TAG_LIST && d in {BedrockDisk, BedrockNet} {
        r := ReadList(l);
      } else if tag.value == TAG_COMPOUND && d == JavaNet {
        var ms := ReadCompound(l);
        r := if ms.Got? then Got(Compound(None, ms.value), ms.next) else ms.PropagateFailure();
      } else if tag.value == TAG_COMPOUND {
        var name := ReadNbtString(l);
        if !name.Got? {
          return name.PropagateFailure();
        }
        var ms := ReadCompound(l);
        r := if ms.Got? then Got(Compound(Some(name.value), ms.value), ms.next) else ms.PropagateFailure();
      } else {
        r := Fail(WrongRootType(tag.value));
      }
    }
  }

  /// `from_reader`: a fresh reader over `data`, read as dialect `d` reads.
  method FromReader(d: Dialect, data: seq<byte>) returns (r: Read<Value>)
    ensures r == Nbt5Decode.FromReader(d, data)
  {
    var reader := new NbtReader(data);
    r := reader.ReadRoot(d, ReadLayout(d));
  }

  /// The `chunks_exact(w).map(from_be_bytes / from_le_bytes)` of the array
  /// readers, as a loop over the chunks.
  method DecodeChunks(s: seq<byte>, w: nat, e: Endian) returns (out: seq<int>)
    requires w == 4 || w == 8
    ensures out == Chunks(s, w, e)
  {
    out := [];
    var k := 0;
    while k + w <= |s|
      invariant k <= |s| && Chunks(s, w, e) == out + Chunks(s[k..], w, e)
      decreases |s| - k
    {
      ChunksStep(s, k, w, e);
      out := out + [Decode(s[k..k + w], e, true)];
      k := k + w;
    }
    assert Chunks(s[k..], w, e) == [];
  }

  /// One more chunk: `chunks_exact` from `k` is the chunk at `k` followed by
  /// the chunks from `k + w`.
  lemma {:induction false} ChunksStep(s: seq<byte>, k: nat, w: nat, e: Endian)
    requires (w == 4 || w == 8) && k + w <= |s|
    ensures Chunks(s[k..], w, e) == [Decode(s[k..k + w], e, true)] + Chunks(s[k + w..], w, e)
  {
    assert s[k..][..w] == s[k..k + w];
    assert s[k..][w..] == s[k + w..];
  }
}
