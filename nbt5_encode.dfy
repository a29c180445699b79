/// What the earlier generation's writer (shen-nbt5/src/writer.rs) appends,
/// as functions of the value and the layout. A write appends bytes and then
/// either finishes, fails (the bytes appended so far stay in the buffer),
/// or never returns: the varint loops of the source spin forever on a
/// negative value.
module Nbt5Encode {
  import opened NbtBase
  import opened VarInt
  import opened Nbt5Value

  datatype Status = Done | Failed(error: NbtError) | Hangs

  /// The bytes appended, and how the write ended.
  datatype Written = Written(out: seq<byte>, status: Status)

  /// Appending `b` after `a`; a write that did not finish stops there.
  function Then(a: Written, b: Written): (r: Written)
    ensures a.status.Done? ==> r == Written(a.out + b.out, b.status)
    ensures !a.status.Done? ==> r == a
  {
    if a.status.Done? then Written(a.out + b.out, b.status) else a
  }

  /// Bytes appended by `push` / `extend_from_slice`.
  function Bytes(bs: seq<byte>): Written
  {
    Written(bs, Done)
  }

  // ---------------------------------------------------------------------
  // Primitives
  // ---------------------------------------------------------------------

  /// `to_be_bytes` / `to_le_bytes` of a signed `w`-byte integer.
  function SignedBytes(v: int, w: nat, e: Endian): (r: seq<byte>)
    requires w > 0 && -(Pow256(w) / 2) <= v < Pow256(w) / 2
    ensures |r| == w
  {
    if e == Big then BeBytes(ToUnsigned(v, Pow256(w)), w) else LeBytes(ToUnsigned(v, Pow256(w)), w)
  }

  /// `to_be_bytes` / `to_le_bytes` of an unsigned `w`-byte integer (or of
  /// the bits of a float).
  function UnsignedBytes(u: nat, w: nat, e: Endian): (r: seq<byte>)
    requires u < Pow256(w)
    ensures |r| == w
  {
    if e == Big then BeBytes(u, w) else LeBytes(u, w)
  }

  /// `n as i32` for a `usize`: the low 32 bits, as a signed value.
  function AsI32(n: nat): (v: I32)
    ensures n < 0x8000_0000 ==> v == n
  {
    ToSigned(n % U32_MOD, U32_MOD)
  }

  /// `var_i32_to_bytes(v)` (shen-nbt5/src/writer.rs:352-367): the loop
  /// shifts arithmetically and only stops at 0, so it never returns for a
  /// negative `v`; with `exact` the bit pattern is encoded as unsigned.
  function PlainVarBytes(v: I32, exact: bool): (r: Written)
    ensures r.status.Hangs? <==> v < 0 && !exact
    ensures v >= 0 ==> r == Bytes(VarBytes(v))
  {
    if v >= 0 then Bytes(VarBytes(v))
    else if exact then
      assert IsI32(v) && U32_MOD / 2 == 0x8000_0000;
      Bytes(VarBytes(ToUnsigned(v, U32_MOD)))
    else Written([], Hangs)
  }

  /// `zigzag_var_i32_to_bytes(v)` (`wide` false, shen-nbt5/src/writer.rs:386-401)
  /// or `zigzag_var_i64_to_bytes(v)` (`wide` true, 403-418): the mapped value
  /// `(v << 1) ^ (v >> 31)` goes through the same loop, so it never returns
  /// when the mapped value is negative as a signed integer; with `exact` the
  /// mapped value is encoded as unsigned.
  function ZigVarBytes(v: int, wide: bool, exact: bool): (r: Written)
    requires if wide then IsI64(v) else IsI32(v)
    ensures !r.status.Hangs? ==> r == Bytes(VarBytes(ZigZag(v)))
    ensures r.status.Hangs? ==> r.out == []
  {
    var mapped := if wide then ZigEncodeI64(v) else ZigEncodeI32(v);
    if exact || mapped >= 0 then Bytes(VarBytes(ZigZag(v))) else Written([], Hangs)
  }

  /// `write_nbt_string`'s length field: `(len as u16)`, or `len as i32` as
  /// a plain or a zigzag varint.
  function StringLengthBytes(l: Layout, n: nat): (r: Written)
    ensures StringFits(l, n) && (l.exactZigZag || l.strings != ZigZagVarLength) ==> r.status.Done?
  {
    WidthRanges();
    match l.strings
      case U16Length => Bytes(UnsignedBytes(n % U16_MOD, 2, l.order))
      case PlainVarLength => PlainVarBytes(AsI32(n), l.exactZigZag)
      case ZigZagVarLength => ZigVarBytes(AsI32(n), false, l.exactZigZag)
  }

  /// `write_nbt_string`: the length field, then the bytes.
  function NbtString(l: Layout, s: seq<byte>): (r: Written)
    ensures StringFits(l, |s|) && (l.exactZigZag || l.strings != ZigZagVarLength)
            ==> r.status.Done? && r.out == StringLengthBytes(l, |s|).out + s
  {
    Then(StringLengthBytes(l, |s|), Bytes(s))
  }

  /// An array or list length field: `(len as i32)` in the layout's order,
  /// or as a zigzag varint.
  function LengthBytes(l: Layout, n: nat): (r: Written)
    ensures LengthFits(n) && (l.exactZigZag || l.lengths == Fixed32) ==> r.status.Done?
  {
    WidthRanges();
    match l.lengths
      case Fixed32 => Bytes(SignedBytes(AsI32(n), 4, l.order))
      case ZigZagVar32 => ZigVarBytes(AsI32(n), false, l.exactZigZag)
  }

  /// Each `i8` as `u8`.
  function ByteBytes(xs: seq<I8>): (r: seq<byte>)
    ensures |r| == |xs| && forall i :: 0 <= i < |xs| ==> r[i] == ToUnsigned(xs[i], U8_MOD)
  {
    if xs == [] then [] else [ToUnsigned(xs[0], U8_MOD) as byte] + ByteBytes(xs[1..])
  }

  /// The elements of an Int or Long array, each `w` bytes in order `e`,
  /// concatenated.
  function Words(xs: seq<int>, w: nat, e: Endian): (r: seq<byte>)
    requires w > 0 && forall i :: 0 <= i < |xs| ==> -(Pow256(w) / 2) <= xs[i] < Pow256(w) / 2
    ensures |r| == |xs| * w
  {
    if xs == [] then [] else SignedBytes(xs[0], w, e) + Words(xs[1..], w, e)
  }

  /// The payload of a scalar.
  function ScalarBytes(l: Layout, v: Value): (r: Written)
    requires TAG_BYTE <= Tag(v) <= TAG_DOUBLE
    ensures l.exactZigZag || !l.varInts ==> r.status.Done?
  {
    WidthRanges();
    match v
      case Byte(x) => Bytes([ToUnsigned(x, U8_MOD)])
      case Short(x) => Bytes(SignedBytes(x, 2, l.order))
      case Int(x) => if l.varInts then ZigVarBytes(x, false, l.exactZigZag) else Bytes(SignedBytes(x, 4, l.order))
      case Long(x) => if l.varInts then ZigVarBytes(x, true, l.exactZigZag) else Bytes(SignedBytes(x, 8, l.order))
      case Float(x) => Bytes(UnsignedBytes(x, 4, l.order))
      case Double(x) => Bytes(UnsignedBytes(x, 8, l.order))
  }

  /// `write_i8_array` / `write_i32_array` / `write_i64_array`: the length
  /// field, then the elements.
  function ArrayBytes(l: Layout, v: Value): (r: Written)
    requires v.ByteArray? || v.IntArray? || v.LongArray?
    ensures Fits(l, v) && (l.exactZigZag || l.lengths == Fixed32) ==> r.status.Done?
  {
    WidthRanges();
    match v
      case ByteArray(a) => Then(LengthBytes(l, |a|), Bytes(ByteBytes(a)))
      case IntArray(a) => Then(LengthBytes(l, |a|), Bytes(Words(a, 4, l.elements)))
      case LongArray(a) => Then(LengthBytes(l, |a|), Bytes(Words(a, 8, l.elements)))
  }

  // ---------------------------------------------------------------------
  // The tree (write_list / write_compound / write_to)
  // ---------------------------------------------------------------------

  /// What `Nested` says of a Compound child.
  lemma {:induction false} NestedCompound(l: Layout, x: Value)
    ensures Nested(l, x) && x.Compound? ==> MembersFit(l, x, false)
  {
    if Nested(l, x) && x.Compound? {
      assert Fits(l, x);
    }
  }

  /// The payload of `v`, as the `match value` arms of `write_compound`
  /// write it: a Compound writes its own name, if it has one, before its
  /// members.
  function Payload(l: Layout, v: Value): (r: Written)
    ensures Coherent(l) && Fits(l, v) ==> r.status.Done?
    decreases v, 2
  {
    match v
      case List(_) => ListBytes(l, v)
      case Compound(_, _) => CompoundBytes(l, v, true, false)
      case String(s) => NbtString(l, s)
      case ByteArray(_) => ArrayBytes(l, v)
      case IntArray(_) => ArrayBytes(l, v)
      case LongArray(_) => ArrayBytes(l, v)
      case _ => ScalarBytes(l, v)
  }

  /// The tags of the children, as `ListTypeNotSame` reports them.
  function Tags(items: seq<Value>): (r: seq<byte>)
    ensures |r| == |items| && forall i :: 0 <= i < |items| ==> r[i] == Tag(items[i])
  {
    if items == [] then [] else [Tag(items[0])] + Tags(items[1..])
  }

  /// Every child has the tag of the first.
  predicate SameTags(items: seq<Value>)
  {
    forall i :: 0 <= i < |items| ==> Tag(items[i]) == Tag(items[0])
  }

  /// `write_list`: an empty list is tag 0 (and, where the layout says so,
  /// a zero length); children of differing tags fail before anything is
  /// appended; otherwise the tag, the length and the children.
  function ListBytes(l: Layout, v: Value): (r: Written)
    requires v.List?
    ensures Coherent(l) && Fits(l, v) ==> r.status.Done?
    ensures v.items != [] && !SameTags(v.items) ==> r.out == [] && r.status == Failed(ListTypeNotSame(Tags(v.items)))
    decreases v, 1
  {
    if v.items == [] then
      if l.emptyListLength then Then(Bytes([TAG_END]), LengthBytes(l, 0)) else Bytes([TAG_END])
    else if !SameTags(v.items) then Written([], Failed(ListTypeNotSame(Tags(v.items))))
    else Then(Then(Bytes([Tag(v.items[0])]), LengthBytes(l, |v.items|)), ItemsBytes(l, v, |v.items|))
  }

  /// The first `n` children of a list. A Compound child is written with
  /// `write_compound(None, ..)`: without its own name.
  function ItemsBytes(l: Layout, v: Value, n: nat): (r: Written)
    requires v.List? && n <= |v.items|
    ensures Coherent(l) && Fits(l, v) ==> r.status.Done?
    decreases v, 0, n
  {
    if n == 0 then Bytes([])
    else
      var x := v.items[n - 1];
      assert Fits(l, v) ==> Nested(l, x);
      NestedCompound(l, x);
      Then(ItemsBytes(l, v, n - 1), if x.Compound? then CompoundBytes(l, x, false, false) else Payload(l, x))
  }

  /// `write_compound(name, members)`: the own name when `withName` and
  /// present, the members, then tag 0. `forceKey` writes every key, as the
  /// Java network root does.
  function CompoundBytes(l: Layout, v: Value, withName: bool, forceKey: bool): (r: Written)
    requires v.Compound?
    ensures Coherent(l) && (withName && v.name.Some? ==> StringFits(l, |v.name.value|)) && MembersFit(l, v, forceKey)
            ==> r.status.Done? && |r.out| > 0 && r.out[|r.out| - 1] == TAG_END
    decreases v, 1
  {
    var head := if withName && v.name.Some? then NbtString(l, v.name.value) else Bytes([]);
    Then(Then(head, MembersBytes(l, v, |v.members|, forceKey)), Bytes([TAG_END]))
  }

  /// The first `n` members: the tag, the key (left out for a Compound
  /// value unless the layout or `forceKey` keeps it), the payload.
  function MembersBytes(l: Layout, v: Value, n: nat, forceKey: bool): (r: Written)
    requires v.Compound? && n <= |v.members|
    ensures Coherent(l) && MembersFit(l, v, forceKey) ==> r.status.Done?
    decreases v, 0, n, 1
  {
    if n == 0 then Bytes([])
    else Then(MembersBytes(l, v, n - 1, forceKey), MemberBytes(l, v, n - 1, forceKey))
  }

  /// The `k`-th member of `v`: its tag, its key (unless the layout leaves
  /// it out) and its payload.
  function MemberBytes(l: Layout, v: Value, k: nat, forceKey: bool): (r: Written)
    requires v.Compound? && k < |v.members|
    ensures Coherent(l) && MembersFit(l, v, forceKey) ==> r.status.Done?
    decreases v, 0, k, 0
  {
    var m := v.members[k];
    assert MembersFit(l, v, forceKey) ==> Nested(l, m.value) && StringFits(l, |m.key|);
    var key := if m.value.Compound? && !l.compoundKeys && !forceKey then Bytes([]) else NbtString(l, m.key);
    Then(Then(Bytes([Tag(m.value)]), key), Payload(l, m.value))
  }


  /// `write_to` of dialect `d` writing with layout `l`: the root tag and a
  /// Compound (without its name on the Java network, where every key is
  /// written), or on Bedrock a List; any other root fails.
  function WriteTo(d: Dialect, l: Layout, v: Value): (r: Written)
    ensures !v.Compound? && (!v.List? || d in {Java, JavaNet}) ==> r == Written([], Failed(WrongRootType(Tag(v))))
    ensures v.Compound? ==> |r.out| >= 1 && r.out[0] == TAG_COMPOUND
  {
    if v.Compound? then Then(Bytes([TAG_COMPOUND]), CompoundBytes(l, v, d != JavaNet, d == JavaNet))
    else if v.List? && d in {BedrockDisk, BedrockNet} then Then(Bytes([TAG_LIST]), ListBytes(l, v))
    else Written([], Failed(WrongRootType(Tag(v))))
  }

  /// `write_to_with_name`: the tag and the name, then `write_to`, which
  /// writes the tag again; the Java network drops the name.
  function WriteToWithName(d: Dialect, l: Layout, name: seq<byte>, v: Value): Written
  {
    if d == JavaNet then WriteTo(d, l, v)
    else Then(Then(Bytes([Tag(v)]), NbtString(l, name)), WriteTo(d, l, v))
  }

  /// `write_to_with_name` of a Compound: the tag, the name, then the tag
  /// again from `write_to`; on the Java network exactly `write_to`.
  lemma {:induction false} WithNameLayout(d: Dialect, l: Layout, name: seq<byte>, v: Value)
    requires v.Compound? && StringFits(l, |name|) && (l.exactZigZag || l.strings != ZigZagVarLength)
    ensures d == JavaNet ==> WriteToWithName(d, l, name, v) == WriteTo(d, l, v)
    ensures d != JavaNet ==>
              var r := WriteToWithName(d, l, name, v);
              var k := 1 + |NbtString(l, name).out|;
              |r.out| > k && r.out[0] == TAG_COMPOUND && r.out[1..k] == NbtString(l, name).out
              && r.out[k] == TAG_COMPOUND
  {
    if d != JavaNet {
      var head := Then(Bytes([TAG_COMPOUND]), NbtString(l, name));
      assert head.status.Done? && head.out == [TAG_COMPOUND] + NbtString(l, name).out;
      var w := WriteTo(d, l, v);
      assert WriteToWithName(d, l, name, v).out == head.out + w.out;
    }
  }

  /// `to_bytes` / `write_to` as each dialect writes.
  function ToBytes(d: Dialect, v: Value): Written
  {
    WriteTo(d, WriteLayout(d), v)
  }
}
