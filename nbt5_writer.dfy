/// The earlier generation's writer (shen-nbt5/src/writer.rs): every
/// `write_*` appends to one growing buffer (`&mut Vec<u8>`). Each method is
/// proved to append exactly the bytes the functions of `Nbt5Encode` give and
/// to end as they say. A write that never returns in the source (the varint
/// loops on a negative value) ends here with status `Hangs` and appends
/// nothing more, which is what the bounded loop of `VarToBytes` shows.
module Nbt5Writer {
  import opened NbtBase
  import opened VarInt
  import opened Nbt5Value
  import opened Nbt5Encode

  class NbtWriter {
    /// The buffer the writes append to.
    var buff: seq<byte>

    /// `Vec::new()`.
    constructor ()
      ensures buff == []
    {
      buff := [];
    }

    // -------------------------------------------------------------------
    // Variable-length integers
    // -------------------------------------------------------------------

    /// `extend_from_slice(&var_i32_to_bytes(v))`; with `exact`, the bit
    /// pattern of `v` as unsigned.
    method WriteVar(v: I32, exact: bool) returns (s: Status)
      modifies this
      ensures buff == old(buff) + PlainVarBytes(v, exact).out && s == PlainVarBytes(v, exact).status
    {
      assert IsI32(v) && U32_MOD / 2 == 0x8000_0000;
      var u := if exact && v < 0 then ToUnsigned(v, U32_MOD) else v;
      assert u < U32_MOD < U64_MOD;
      if u >= 0 {
        VarBytesOf64(u);
      }
      var out, done := VarToBytes(u, 10);
      if !done {
        return Hangs;
      }
      buff := buff + out;
      return Done;
    }

    /// `extend_from_slice(&zigzag_var_i32_to_bytes(v))` (`wide` false) or
    /// `zigzag_var_i64_to_bytes` (`wide` true): the mapped value through
    /// the same loop; with `exact`, the mapped value as unsigned.
    method WriteZigVar(v: int, wide: bool, exact: bool) returns (s: Status)
      requires if wide then IsI64(v) else IsI32(v)
      modifies this
      ensures buff == old(buff) + ZigVarBytes(v, wide, exact).out && s == ZigVarBytes(v, wide, exact).status
    {
      var mapped := if wide then ZigEncodeI64(v) else ZigEncodeI32(v);
      var u := if exact then ZigZag(v) else mapped;
      if u >= 0 {
        VarBytesOf64(u);
      }
      var out, done := VarToBytes(u, 10);
      if !done {
        return Hangs;
      }
      buff := buff + out;
      return Done;
    }

    // -------------------------------------------------------------------
    // Strings, lengths and arrays
    // -------------------------------------------------------------------

    /// `write_nbt_string`'s length field.
    method WriteStringLength(l: Layout, n: nat) returns (s: Status)
      modifies this
      ensures buff == old(buff) + StringLengthBytes(l, n).out && s == StringLengthBytes(l, n).status
    {
      WidthRanges();
      match l.strings
      case U16Length =>
        buff := buff + UnsignedBytes(n % U16_MOD, 2, l.order);
        s := Done;
      case PlainVarLength =>
        s := WriteVar(AsI32(n), l.exactZigZag);
      case ZigZagVarLength =>
        s := WriteZigVar(AsI32(n), false, l.exactZigZag);
    }

    /// `write_nbt_string`: the length field, then the bytes.
    method WriteNbtString(l: Layout, str: seq<byte>) returns (s: Status)
      modifies this
      ensures buff == old(buff) + NbtString(l, str).out && s == NbtString(l, str).status
    {
      s := WriteStringLength(l, |str|);
      if s.Done? {
        buff := buff + str;
      }
    }

    /// An array or list length field.
    method WriteLength(l: Layout, n: nat) returns (s: Status)
      modifies this
      ensures buff == old(buff) + LengthBytes(l, n).out && s == LengthBytes(l, n).status
    {
      WidthRanges();
      match l.lengths
      case Fixed32 =>
        buff := buff + SignedBytes(AsI32(n), 4, l.order);
        s := Done;
      case ZigZagVar32 =>
        s := WriteZigVar(AsI32(n), false, l.exactZigZag);
    }

    /// The elements of a byte array, each `as u8`.
    method WriteBytes(xs: seq<I8>)
      modifies this
      ensures buff == old(buff) + ByteBytes(xs)
    {
      ghost var start := buff;
      var out: seq<byte> := [];
      var i := 0;
      while i < |xs|
        invariant i <= |xs| && |out| == i && buff == start
        invariant forall j :: 0 <= j < i ==> out[j] == ToUnsigned(xs[j], U8_MOD)
      {
        out := out + [ToUnsigned(xs[i], U8_MOD) as byte];
        i := i + 1;
      }
      assert out == ByteBytes(xs);
      buff := buff + out;
    }

    /// The elements of an Int or Long array, `to_be_bytes` /
    /// `to_le_bytes` of each, concatenated.
    method WriteWords(xs: seq<int>, w: nat, e: Endian)
      requires w > 0 && forall i :: 0 <= i < |xs| ==> -(Pow256(w) / 2) <= xs[i] < Pow256(w) / 2
      modifies this
      ensures buff == old(buff) + Words(xs, w, e)
    {
      ghost var start := buff;
      var i := 0;
      while i < |xs|
        invariant i <= |xs| && start + Words(xs, w, e) == buff + Words(xs[i..], w, e)
      {
        WordsStep(xs, i, w, e);
        AppendAssoc(buff, SignedBytes(xs[i], w, e), Words(xs[i + 1..], w, e));
        buff := buff + SignedBytes(xs[i], w, e);
        i := i + 1;
      }
      assert xs[i..] == [];
    }

    /// `write_i8_array` / `write_i32_array` / `write_i64_array`.
    method WriteArray(l: Layout, v: Value) returns (s: Status)
      requires v.ByteArray? || v.IntArray? || v.LongArray?
      modifies this
      ensures buff == old(buff) + ArrayBytes(l, v).out && s == ArrayBytes(l, v).status
    {
      WidthRanges();
      ghost var b0 := buff;
      var n := if v.ByteArray? then |v.bytes| else if v.IntArray? then |v.ints| else |v.longs|;
      s := WriteLength(l, n);
      if !s.Done? {
        return;
      }
      ghost var elements := Bytes(ArrayElements(l, v));
      if v.ByteArray? {
        WriteBytes(v.bytes);
      } else if v.IntArray? {
        WriteWords(v.ints, 4, l.elements);
      } else {
        WriteWords(v.longs, 8, l.elements);
      }
      Appended(b0, LengthBytes(l, n), elements);
    }

    /// A scalar payload.
    method WriteScalar(l: Layout, v: Value) returns (s: Status)
      requires TAG_BYTE <= Tag(v) <= TAG_DOUBLE
      modifies this
      ensures buff == old(buff) + ScalarBytes(l, v).out && s == ScalarBytes(l, v).status
    {
      WidthRanges();
      s := Done;
      match v
      case Byte(x) =>
        buff := buff + [ToUnsigned(x, U8_MOD) as byte];
      case Short(x) =>
        buff := buff + SignedBytes(x, 2, l.order);
      case Int(x) =>
        if l.varInts {
          s := WriteZigVar(x, false, l.exactZigZag);
        } else {
          buff := buff + SignedBytes(x, 4, l.order);
        }
      case Long(x) =>
        if l.varInts {
          s := WriteZigVar(x, true, l.exactZigZag);
        } else {
          buff := buff + SignedBytes(x, 8, l.order);
        }
      case Float(x) =>
        buff := buff + UnsignedBytes(x, 4, l.order);
      case Double(x) =>
        buff := buff + UnsignedBytes(x, 8, l.order);
    }

    // -------------------------------------------------------------------
    // The tree
    // -------------------------------------------------------------------

    /// One arm of the `match value` in `write_compound` / `write_list`.
    method WritePayload(l: Layout, v: Value) returns (s: Status)
      modifies this
      ensures buff == old(buff) + Payload(l, v).out && s == Payload(l, v).status
      decreases v, 2
    {
      match v
      case List(_) =>
        s := WriteList(l, v);
      case Compound(_, _) =>
        s := WriteCompound(l, v, true, false);
      case String(str) =>
        s := WriteNbtString(l, str);
      case ByteArray(_) =>
        s := WriteArray(l, v);
      case IntArray(_) =>
        s := WriteArray(l, v);
      case LongArray(_) =>
        s := WriteArray(l, v);
      case _ =>
        s := WriteScalar(l, v);
    }

    /// `write_list`: tag 0 (and a zero length where the layout writes one)
    /// for an empty list; `ListTypeNotSame` before anything is appended when
    /// the children's tags differ; otherwise the tag, the length and the
    /// children.
    method WriteList(l: Layout, v: Value) returns (s: Status)
      requires v.List?
      modifies this
      ensures buff == old(buff) + ListBytes(l, v).out && s == ListBytes(l, v).status
      decreases v, 1
    {
      ghost var b0 := buff;
      if v.items == [] {
        buff := buff + [TAG_END];
        s := Done;
        if l.emptyListLength {
          s := WriteLength(l, 0);
          Appended(b0, Bytes([TAG_END]), LengthBytes(l, 0));
        }
        return;
      }
      var same := AllTagsAre(v.items, Tag(v.items[0]));
      if !same {
        return Failed(ListTypeNotSame(Tags(v.items)));
      }
      buff := buff + [Tag(v.items[0])];
      s := WriteLength(l, |v.items|);
      ghost var head := Then(Bytes([Tag(v.items[0])]), LengthBytes(l, |v.items|));
      Appended(b0, Bytes([Tag(v.items[0])]), LengthBytes(l, |v.items|));
      if !s.Done? {
        return;
      }
      s := WriteItems(l, v);
      Appended(b0, head, ItemsBytes(l, v, |v.items|));
    }

    /// The `for i in data` loop of `write_list`: each child, a Compound
    /// child with `write_compound(None, ..)`; `?` stops at the first that
    /// does not finish.
    method WriteItems(l: Layout, v: Value) returns (s: Status)
      requires v.List?
      modifies this
      ensures buff == old(buff) + ItemsBytes(l, v, |v.items|).out && s == ItemsBytes(l, v, |v.items|).status
      decreases v, 0
    {
      ghost var start := buff;
      s := Done;
      var i := 0;
      while i < |v.items|
        invariant i <= |v.items| && ItemsBytes(l, v, i).status.Done?
        invariant buff == start + ItemsBytes(l, v, i).out && s == Done
      {
        var x := v.items[i];
        ghost var mid := buff;
        if x.Compound? {
          s := WriteCompound(l, x, false, false);
        } else {
          s := WritePayload(l, x);
        }
        ItemsGrow(l, v, i, start, mid);
        if !s.Done? {
          ItemsStuck(l, v, i + 1, |v.items|);
          return;
        }
        i := i + 1;
      }
    }

    /// `write_compound(name, members)`: the own name when `withName` and
    /// present, the members, then tag 0.
    method WriteCompound(l: Layout, v: Value, withName: bool, forceKey: bool) returns (s: Status)
      requires v.Compound?
      modifies this
      ensures buff == old(buff) + CompoundBytes(l, v, withName, forceKey).out
      ensures s == CompoundBytes(l, v, withName, forceKey).status
      decreases v, 1
    {
      ghost var b0 := buff;
      ghost var head := if withName && v.name.Some? then NbtString(l, v.name.value) else Bytes([]);
      s := Done;
      if withName && v.name.Some? {
        s := WriteNbtString(l, v.name.value);
        if !s.Done? {
          return;
        }
      }
      s := WriteMembers(l, v, forceKey);
      ghost var body := MembersBytes(l, v, |v.members|, forceKey);
      Appended(b0, head, body);
      if !s.Done? {
        return;
      }
      buff := buff + [TAG_END];
      Appended(b0, Then(head, body), Bytes([TAG_END]));
    }

    /// The `for (key, value) in data` loop of `write_compound`.
    method WriteMembers(l: Layout, v: Value, forceKey: bool) returns (s: Status)
      requires v.Compound?
      modifies this
      ensures buff == old(buff) + MembersBytes(l, v, |v.members|, forceKey).out
      ensures s == MembersBytes(l, v, |v.members|, forceKey).status
      decreases v, 0, |v.members| + 1
    {
      ghost var start := buff;
      s := Done;
      var k := 0;
      while k < |v.members|
        invariant k <= |v.members| && MembersBytes(l, v, k, forceKey).status.Done?
        invariant buff == start + MembersBytes(l, v, k, forceKey).out && s == Done
      {
        ghost var mid := buff;
        s := WriteMember(l, v, k, forceKey);
        Appended(start, MembersBytes(l, v, k, forceKey), MemberBytes(l, v, k, forceKey));
        if !s.Done? {
          MembersStuck(l, v, k + 1, |v.members|, forceKey);
          return;
        }
        k := k + 1;
      }
    }

    /// One member: its tag, its key unless it is a Compound the layout
    /// writes without one, its payload.
    method WriteMember(l: Layout, v: Value, k: nat, forceKey: bool) returns (s: Status)
      requires v.Compound? && k < |v.members|
      modifies this
      ensures buff == old(buff) + MemberBytes(l, v, k, forceKey).out
      ensures s == MemberBytes(l, v, k, forceKey).status
      decreases v, 0, k
    {
      ghost var b0 := buff;
      var m := v.members[k];
      ghost var key := if m.value.Compound? && !l.compoundKeys && !forceKey then Bytes([]) else NbtString(l, m.key);
      buff := buff + [Tag(m.value)];
      s := Done;
      if !(m.value.Compound? && !l.compoundKeys && !forceKey) {
        s := WriteNbtString(l, m.key);
      }
      Appended(b0, Bytes([Tag(m.value)]), key);
      if !s.Done? {
        return;
      }
      s := WritePayload(l, m.value);
      Appended(b0, Then(Bytes([Tag(m.value)]), key), Payload(l, m.value));
    }

    /// `write_to` of dialect `d` writing with layout `l`.
    method WriteTo(d: Dialect, l: Layout, v: Value) returns (s: Status)
      modifies this
      ensures buff == old(buff) + Nbt5Encode.WriteTo(d, l, v).out && s == Nbt5Encode.WriteTo(d, l, v).status
    {
      if v.Compound? {
        buff := buff + [TAG_COMPOUND];
        s := WriteCompound(l, v, d != JavaNet, d == JavaNet);
      } else if v.List? && d in {BedrockDisk, BedrockNet} {
        buff := buff + [TAG_LIST];
        s := WriteList(l, v);
      } else {
        s := Failed(WrongRootType(Tag(v)));
      }
    }

    /// `write_to_with_name`: the tag and the name, then `write_to`; the Java
    /// network form goes straight to `write_to`.
    method WriteToWithName(d: Dialect, l: Layout, name: seq<byte>, v: Value) returns (s: Status)
      modifies this
      ensures buff == old(buff) + Nbt5Encode.WriteToWithName(d, l, name, v).out
      ensures s == Nbt5Encode.WriteToWithName(d, l, name, v).status
    {
      if d == JavaNet {
        s := WriteTo(d, l, v);
        return;
      }
      ghost var b0 := buff;
      buff := buff + [Tag(v)];
      s := WriteNbtString(l, name);
      Appended(b0, Bytes([Tag(v)]), NbtString(l, name));
      if !s.Done? {
        return;
      }
      s := WriteTo(d, l, v);
      Appended(b0, Then(Bytes([Tag(v)]), NbtString(l, name)), Nbt5Encode.WriteTo(d, l, v));
    }
  }

  /// `data.iter().all(|x| x.tag() == tag)`.
  method AllTagsAre(items: seq<Value>, tag: byte) returns (same: bool)
    requires items != [] && tag == Tag(items[0])
    ensures same <==> SameTags(items)
  {
    var i := 0;
    while i < |items|
      invariant i <= |items| && forall j :: 0 <= j < i ==> Tag(items[j]) == tag
    {
      if Tag(items[i]) != tag {
        return false;
      }
      i := i + 1;
    }
    return true;
  }

  /// `to_bytes`: `write_to` into a fresh buffer, the buffer when it
  /// finishes.
  method ToBytes(d: Dialect, v: Value) returns (r: Written)
    ensures r == Nbt5Encode.ToBytes(d, v)
  {
    var writer := new NbtWriter();
    var s := writer.WriteTo(d, WriteLayout(d), v);
    r := Written(writer.buff, s);
  }

  /// The elements of an array value as `ArrayBytes` appends them after the
  /// length.
  function ArrayElements(l: Layout, v: Value): (r: seq<byte>)
    requires v.ByteArray? || v.IntArray? || v.LongArray?
    ensures ArrayBytes(l, v) == Then(LengthBytes(l, if v.ByteArray? then |v.bytes| else if v.IntArray? then |v.ints| else |v.longs|), Bytes(r))
  {
    WidthRanges();
    match v
      case ByteArray(a) => ByteBytes(a)
      case IntArray(a) => Words(a, 4, l.elements)
      case LongArray(a) => Words(a, 8, l.elements)
  }

  /// Appending `a` and then `b` to `b0` appends what `Then(a, b)` gives.
  lemma {:induction false} Appended(b0: seq<byte>, a: Written, b: Written)
    requires a.status.Done?
    ensures b0 + a.out + b.out == b0 + Then(a, b).out
  {
    AppendAssoc(b0, a.out, b.out);
  }

  /// One more child of a list.
  lemma {:induction false} ItemsGrow(l: Layout, v: Value, i: nat, start: seq<byte>, mid: seq<byte>)
    requires v.List? && i < |v.items| && ItemsBytes(l, v, i).status.Done?
    requires mid == start + ItemsBytes(l, v, i).out
    ensures var x := v.items[i];
            var w := if x.Compound? then CompoundBytes(l, x, false, false) else Payload(l, x);
            ItemsBytes(l, v, i + 1) == Then(ItemsBytes(l, v, i), w)
            && mid + w.out == start + ItemsBytes(l, v, i + 1).out
  {
    var x := v.items[i];
    var w := if x.Compound? then CompoundBytes(l, x, false, false) else Payload(l, x);
    Appended(start, ItemsBytes(l, v, i), w);
  }

  /// One more element of an Int or Long array.
  lemma {:induction false} WordsStep(xs: seq<int>, i: nat, w: nat, e: Endian)
    requires w > 0 && i < |xs| && forall j :: 0 <= j < |xs| ==> -(Pow256(w) / 2) <= xs[j] < Pow256(w) / 2
    ensures Words(xs[i..], w, e) == SignedBytes(xs[i], w, e) + Words(xs[i + 1..], w, e)
  {
    assert xs[i..][1..] == xs[i + 1..];
  }

  /// Once a child fails, the children after it add nothing: `?` returns.
  lemma {:induction false} ItemsStuck(l: Layout, v: Value, k: nat, n: nat)
    requires v.List? && k <= n <= |v.items| && !ItemsBytes(l, v, k).status.Done?
    ensures ItemsBytes(l, v, n) == ItemsBytes(l, v, k)
    decreases n
  {
    if n > k {
      ItemsStuck(l, v, k, n - 1);
    }
  }

  /// Once a member fails, the members after it add nothing.
  lemma {:induction false} MembersStuck(l: Layout, v: Value, k: nat, n: nat, forceKey: bool)
    requires v.Compound? && k <= n <= |v.members| && !MembersBytes(l, v, k, forceKey).status.Done?
    ensures MembersBytes(l, v, n, forceKey) == MembersBytes(l, v, k, forceKey)
    decreases n
  {
    if n > k {
      MembersStuck(l, v, k, n - 1, forceKey);
    }
  }
}
