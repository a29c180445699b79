/// Reading back what the earlier generation writes. For any coherent
/// layout (one whose writer keeps every list length and codes zigzag
/// numbers exactly wherever it uses them), the reader of that layout gives
/// back every value that fits it. The Java dialects are coherent as
/// written; the Bedrock ones are coherent in their evidently intended
/// layouts.
module Nbt5RoundTrip {
  import opened NbtBase
  import opened VarInt
  import opened Nbt5Value
  import D = Nbt5Decode
  import E = Nbt5Encode

  /// `s` sits in `data` from `at` on, one byte at a time.
  predicate Embedded(data: seq<byte>, at: nat, s: seq<byte>)
    decreases |s|
  {
    at + |s| <= |data| && (s == [] || (data[at] == s[0] && Embedded(data, at + 1, s[1..])))
  }

  /// `Embedded` is the slice equality.
  lemma {:induction false} EmbeddedSlice(data: seq<byte>, at: nat, s: seq<byte>)
    ensures Embedded(data, at, s) <==> at + |s| <= |data| && data[at..at + |s|] == s
    decreases |s|
  {
    if s != [] && at + |s| <= |data| {
      EmbeddedSlice(data, at + 1, s[1..]);
      if data[at..at + |s|] == s {
        assert data[at + 1..at + |s|] == s[1..];
      }
      if data[at] == s[0] && data[at + 1..at + |s|] == s[1..] {
        assert data[at..at + |s|] == [s[0]] + s[1..];
      }
    }
  }

  lemma {:induction false} EmbeddedSplit(data: seq<byte>, at: nat, a: seq<byte>, b: seq<byte>)
    requires Embedded(data, at, a + b)
    ensures Embedded(data, at, a) && Embedded(data, at + |a|, b)
  {
    EmbeddedSlice(data, at, a + b);
    EmbeddedSlice(data, at, a);
    EmbeddedSlice(data, at + |a|, b);
    assert data[at..at + |a|] == (a + b)[..|a|];
    assert data[at + |a|..at + |a| + |b|] == (a + b)[|a|..];
  }

  lemma {:induction false} EmbeddedPrefix(data: seq<byte>, at: nat, s: seq<byte>, t: seq<byte>)
    requires s <= t && Embedded(data, at, t)
    ensures Embedded(data, at, s)
  {
    EmbeddedSlice(data, at, t);
    EmbeddedSlice(data, at, s);
    assert data[at..at + |s|] == t[..|s|];
  }

  // ---------------------------------------------------------------------
  // Primitives
  // ---------------------------------------------------------------------

  /// `from_be_bytes(to_be_bytes(v))` and the little-endian pair.
  lemma {:induction false} SignedBytesDecode(v: int, w: nat, e: Endian)
    requires w > 0 && -(Pow256(w) / 2) <= v < Pow256(w) / 2
    ensures Decode(E.SignedBytes(v, w, e), e, true) == v
  {
    if e == Big { BeSignedRoundTrip(v, w); } else { LeSignedRoundTrip(v, w); }
  }

  lemma {:induction false} SignedRead(data: seq<byte>, at: nat, v: int, w: nat, e: Endian)
    requires w > 0 && -(Pow256(w) / 2) <= v < Pow256(w) / 2
    requires Embedded(data, at, E.SignedBytes(v, w, e))
    ensures D.FixedAt(data, at, w, e, true) == D.Got(v, at + w)
  {
    EmbeddedSlice(data, at, E.SignedBytes(v, w, e));
    SignedBytesDecode(v, w, e);
  }

  lemma {:induction false} UnsignedRead(data: seq<byte>, at: nat, u: nat, w: nat, e: Endian)
    requires w > 0 && u < Pow256(w)
    requires Embedded(data, at, E.UnsignedBytes(u, w, e))
    ensures D.FixedAt(data, at, w, e, false) == D.Got(u, at + w)
  {
    EmbeddedSlice(data, at, E.UnsignedBytes(u, w, e));
    if e == Big { BeRoundTrip(u, w); } else { LeRoundTrip(u, w); }
  }

  /// A varint of `v` reads back as `v` reinterpreted as a signed value.
  lemma {:induction false} VarRead(data: seq<byte>, at: nat, v: nat, wide: bool)
    requires v < (if wide then U64_MOD else U32_MOD)
    requires Embedded(data, at, VarBytes(v))
    ensures D.VarAt(data, at, wide) == D.Got(ToSigned(v, if wide then U64_MOD else U32_MOD), at + |VarBytes(v)|)
  {
    if wide {
      VarRead64(data, at, v);
    } else {
      VarRead32(data, at, v);
    }
  }

  lemma {:induction false} VarRead64(data: seq<byte>, at: nat, v: nat)
    requires v < U64_MOD && Embedded(data, at, VarBytes(v))
    ensures D.VarAt(data, at, true) == D.Got(ToSigned(v, U64_MOD), at + |VarBytes(v)|)
  {
    EmbeddedSlice(data, at, VarBytes(v));
    ReadVarBytes64(data, at, v);
    VarAtOfRead(data, at, true, ToSigned(v, U64_MOD), at + |VarBytes(v)|);
  }

  lemma {:induction false} VarRead32(data: seq<byte>, at: nat, v: nat)
    requires v < U32_MOD && Embedded(data, at, VarBytes(v))
    ensures D.VarAt(data, at, false) == D.Got(ToSigned(v, U32_MOD), at + |VarBytes(v)|)
  {
    EmbeddedSlice(data, at, VarBytes(v));
    ReadVarBytes32(data, at, v);
    VarAtOfRead(data, at, false, ToSigned(v, U32_MOD), at + |VarBytes(v)|);
  }

  /// `VarAt` is the varint read from a zero accumulator.
  lemma {:induction false} VarAtOfRead(data: seq<byte>, at: nat, wide: bool, x: int, next: nat)
    requires at <= |data|
    requires ReadVarFrom(data, at, 0, 0, if wide then 64 else 32, if wide then 10 else 5) == VarOk(x, next)
    ensures D.VarAt(data, at, wide) == D.Got(x, next)
  {
  }

  lemma {:induction false} ZigRead(l: Layout, data: seq<byte>, at: nat, x: int, wide: bool)
    requires l.exactZigZag && (if wide then IsI64(x) else IsI32(x))
    requires Embedded(data, at, VarBytes(ZigZag(x)))
    ensures D.ZigAt(l, data, at, wide) == D.Got(x, at + |VarBytes(ZigZag(x))|)
  {
    var m := if wide then U64_MOD else U32_MOD;
    assert ZigZag(x) < m;
    VarRead(data, at, ZigZag(x), wide);
    assert ToUnsigned(ToSigned(ZigZag(x), m), m) == ZigZag(x);
    ZigZagRoundTrip(x);
  }

  /// Every string length that fits comes back.
  lemma {:induction false} StringLengthRead(l: Layout, data: seq<byte>, at: nat, n: nat)
    requires Coherent(l) && StringFits(l, n)
    requires Embedded(data, at, E.StringLengthBytes(l, n).out)
    ensures D.StringLengthAt(l, data, at) == D.Got(n, at + |E.StringLengthBytes(l, n).out|)
  {
    WidthRanges();
    match l.strings
      case U16Length => UnsignedRead(data, at, n, 2, l.order);
      case PlainVarLength => VarRead(data, at, n, false);
      case ZigZagVarLength => ZigRead(l, data, at, n, false);
  }

  lemma {:induction false} NbtStringRead(l: Layout, data: seq<byte>, at: nat, s: seq<byte>)
    requires Coherent(l) && StringFits(l, |s|) && |data| < U64_MOD
    requires Embedded(data, at, E.NbtString(l, s).out)
    ensures D.NbtStringAt(l, data, at) == D.Got(s, at + |E.NbtString(l, s).out|)
  {
    var n := E.StringLengthBytes(l, |s|).out;
    EmbeddedSplit(data, at, n, s);
    EmbeddedSlice(data, at + |n|, s);
    StringLengthRead(l, data, at, |s|);
  }

  /// Every array or list length that fits comes back.
  lemma {:induction false} LengthRead(l: Layout, data: seq<byte>, at: nat, n: nat)
    requires Coherent(l) && LengthFits(n)
    requires Embedded(data, at, E.LengthBytes(l, n).out)
    ensures D.LengthAt(l, data, at) == D.Got(n, at + |E.LengthBytes(l, n).out|)
  {
    WidthRanges();
    match l.lengths
      case Fixed32 => SignedRead(data, at, n, 4, l.order);
      case ZigZagVar32 => ZigRead(l, data, at, n, false);
  }

  lemma {:induction false} ScalarRead(l: Layout, data: seq<byte>, at: nat, v: Value)
    requires Coherent(l) && TAG_BYTE <= Tag(v) <= TAG_DOUBLE
    requires Embedded(data, at, E.ScalarBytes(l, v).out)
    ensures D.ScalarAt(l, data, at, Tag(v)) == D.Got(v, at + |E.ScalarBytes(l, v).out|)
  {
    WidthRanges();
    match v
      case Byte(x) =>
        assert data[at] == data[at..at + 1][0];
        SignedRoundTrip(x, U8_MOD);
      case Short(x) => SignedRead(data, at, x, 2, l.order);
      case Int(x) =>
        if l.varInts { ZigRead(l, data, at, x, false); } else { SignedRead(data, at, x, 4, l.order); }
      case Long(x) =>
        if l.varInts { ZigRead(l, data, at, x, true); } else { SignedRead(data, at, x, 8, l.order); }
      case Float(x) => UnsignedRead(data, at, x, 4, l.order);
      case Double(x) => UnsignedRead(data, at, x, 8, l.order);
  }

  /// `chunks_exact` decoding undoes the concatenated `to_*_bytes`.
  lemma {:induction false} WordsRoundTrip(xs: seq<int>, w: nat, e: Endian)
    requires (w == 4 || w == 8) && forall i :: 0 <= i < |xs| ==> -(Pow256(w) / 2) <= xs[i] < Pow256(w) / 2
    ensures D.Chunks(E.Words(xs, w, e), w, e) == xs
    decreases |xs|
  {
    if xs != [] {
      var s := E.Words(xs, w, e);
      assert s[..w] == E.SignedBytes(xs[0], w, e);
      assert s[w..] == E.Words(xs[1..], w, e);
      SignedBytesDecode(xs[0], w, e);
      WordsRoundTrip(xs[1..], w, e);
    }
  }

  /// `x as u8` then `x as i8` gives back every `i8`.
  lemma {:induction false} BytesRoundTrip(xs: seq<I8>)
    ensures D.AsI8s(E.ByteBytes(xs)) == xs
  {
    forall i | 0 <= i < |xs|
      ensures D.AsI8s(E.ByteBytes(xs))[i] == xs[i]
    {
      SignedRoundTrip(xs[i], U8_MOD);
    }
  }

  lemma {:induction false} ByteArrayRead(l: Layout, data: seq<byte>, at: nat, a: seq<I8>)
    requires Coherent(l) && LengthFits(|a|) && |data| < U64_MOD
    requires Embedded(data, at, E.ArrayBytes(l, ByteArray(a)).out)
    ensures D.ArrayAt(l, data, at, TAG_BYTE_ARRAY) == D.Got(ByteArray(a), at + |E.ArrayBytes(l, ByteArray(a)).out|)
  {
    var n := E.LengthBytes(l, |a|).out;
    assert E.ArrayBytes(l, ByteArray(a)).out == n + E.ByteBytes(a);
    ArrayLayout(data, at, E.ArrayBytes(l, ByteArray(a)).out, n, E.ByteBytes(a));
    LengthRead(l, data, at, |a|);
    BytesRead(data, at + |n|, a);
    ByteArrayAtStep(l, data, at, at + |n|, a, at + |n| + |a|);
  }

  /// Where the length and the elements of an array payload sit.
  lemma {:induction false} ArrayLayout(data: seq<byte>, at: nat, out: seq<byte>, n: seq<byte>, body: seq<byte>)
    requires out == n + body && Embedded(data, at, out)
    ensures |out| == |n| + |body| && Embedded(data, at, n) && Embedded(data, at + |n|, body)
  {
    EmbeddedSplit(data, at, n, body);
  }

  /// `read_i8_array` of the bytes `x as u8`.
  lemma {:induction false} BytesRead(data: seq<byte>, at: nat, a: seq<I8>)
    requires |data| < U64_MOD && Embedded(data, at, E.ByteBytes(a))
    ensures D.ByteArrayAt(data, at, |a|) == D.Got(a, at + |a|)
  {
    ByteArrayAtSlice(data, at, E.ByteBytes(a));
    BytesRoundTrip(a);
  }

  lemma {:induction false} ByteArrayAtSlice(data: seq<byte>, at: nat, s: seq<byte>)
    requires |data| < U64_MOD && Embedded(data, at, s)
    ensures D.ByteArrayAt(data, at, |s|) == D.Got(D.AsI8s(s), at + |s|)
  {
    EmbeddedSlice(data, at, s);
    SliceFits(data, at, |s|);
    ByteArrayAtEnd(data, at, |s|, at + |s|);
    assert data[at..at + |s|] == s;
  }

  lemma {:induction false} ByteArrayAtEnd(data: seq<byte>, at: nat, len: nat, end: nat)
    requires D.SliceEnd(data, at, len) == Some(end)
    ensures at <= end <= |data|
    ensures D.ByteArrayAt(data, at, len) == D.Got(D.AsI8s(data[at..end]), end)
  {
  }

  lemma {:induction false} SliceFits(data: seq<byte>, at: nat, span: nat)
    requires at + span <= |data| < U64_MOD
    ensures D.SliceEnd(data, at, span) == Some(at + span)
  {
  }

  lemma {:induction false} ByteArrayAtStep(l: Layout, data: seq<byte>, at: nat, pos: nat, a: seq<I8>, next: nat)
    requires at <= |data| && D.LengthAt(l, data, at) == D.Got(|a|, pos)
    requires D.ByteArrayAt(data, pos, |a|) == D.Got(a, next)
    ensures D.ArrayAt(l, data, at, TAG_BYTE_ARRAY) == D.Got(ByteArray(a), next)
  {
  }

  /// `read_i32_array` / `read_i64_array` of the concatenated elements.
  lemma {:induction false} WordsRead(data: seq<byte>, at: nat, xs: seq<int>, w: nat, e: Endian)
    requires (w == 4 || w == 8) && forall i :: 0 <= i < |xs| ==> -(Pow256(w) / 2) <= xs[i] < Pow256(w) / 2
    requires |data| < U64_MOD && Embedded(data, at, E.Words(xs, w, e))
    ensures D.WordsAt(data, at, |xs|, w, e) == D.Got(xs, at + |E.Words(xs, w, e)|)
  {
    var s := E.Words(xs, w, e);
    EmbeddedSlice(data, at, s);
    SliceFits(data, at, |xs| * w);
    assert data[at..at + |s|] == s;
    WordsRoundTrip(xs, w, e);
  }

  lemma {:induction false} IntArrayAtStep(l: Layout, data: seq<byte>, at: nat, pos: nat, a: seq<I32>, next: nat)
    requires at <= |data| && D.LengthAt(l, data, at) == D.Got(|a|, pos)
    requires D.WordsAt(data, pos, |a|, 4, l.elements) == D.Got(a, next)
    ensures D.ArrayAt(l, data, at, TAG_INT_ARRAY) == D.Got(IntArray(a), next)
  {
  }

  lemma {:induction false} LongArrayAtStep(l: Layout, data: seq<byte>, at: nat, pos: nat, a: seq<I64>, next: nat)
    requires at <= |data| && D.LengthAt(l, data, at) == D.Got(|a|, pos)
    requires D.WordsAt(data, pos, |a|, 8, l.elements) == D.Got(a, next)
    ensures D.ArrayAt(l, data, at, TAG_LONG_ARRAY) == D.Got(LongArray(a), next)
  {
  }

  lemma {:induction false} IntArrayRead(l: Layout, data: seq<byte>, at: nat, a: seq<I32>)
    requires Coherent(l) && LengthFits(|a|) && |data| < U64_MOD
    requires Embedded(data, at, E.ArrayBytes(l, IntArray(a)).out)
    ensures D.ArrayAt(l, data, at, TAG_INT_ARRAY) == D.Got(IntArray(a), at + |E.ArrayBytes(l, IntArray(a)).out|)
  {
    WidthRanges();
    var n := E.LengthBytes(l, |a|).out;
    var body := E.Words(a, 4, l.elements);
    assert E.ArrayBytes(l, IntArray(a)).out == n + body;
    ArrayLayout(data, at, E.ArrayBytes(l, IntArray(a)).out, n, body);
    LengthRead(l, data, at, |a|);
    WordsRead(data, at + |n|, a, 4, l.elements);
    IntArrayAtStep(l, data, at, at + |n|, a, at + |n| + |body|);
  }

  lemma {:induction false} LongArrayRead(l: Layout, data: seq<byte>, at: nat, a: seq<I64>)
    requires Coherent(l) && LengthFits(|a|) && |data| < U64_MOD
    requires Embedded(data, at, E.ArrayBytes(l, LongArray(a)).out)
    ensures D.ArrayAt(l, data, at, TAG_LONG_ARRAY) == D.Got(LongArray(a), at + |E.ArrayBytes(l, LongArray(a)).out|)
  {
    WidthRanges();
    var n := E.LengthBytes(l, |a|).out;
    var body := E.Words(a, 8, l.elements);
    assert E.ArrayBytes(l, LongArray(a)).out == n + body;
    ArrayLayout(data, at, E.ArrayBytes(l, LongArray(a)).out, n, body);
    LengthRead(l, data, at, |a|);
    WordsRead(data, at + |n|, a, 8, l.elements);
    LongArrayAtStep(l, data, at, at + |n|, a, at + |n| + |body|);
  }

  // ---------------------------------------------------------------------
  // The tree
  // ---------------------------------------------------------------------

  // One step of each side, unfolded once

  lemma {:induction false} ItemsBytesStep(l: Layout, v: Value, k: nat)
    requires Coherent(l) && v.List? && Fits(l, v) && k < |v.items|
    ensures Nested(l, v.items[k])
    ensures E.ItemsBytes(l, v, k + 1).out == E.ItemsBytes(l, v, k).out + E.Payload(l, v.items[k]).out
  {
    assert Nested(l, v.items[k]);
    E.NestedCompound(l, v.items[k]);
  }

  lemma {:induction false} MembersBytesStep(l: Layout, v: Value, forceKey: bool, k: nat)
    requires Coherent(l) && v.Compound? && MembersFit(l, v, forceKey) && k < |v.members|
    ensures E.MembersBytes(l, v, k + 1, forceKey).out == E.MembersBytes(l, v, k, forceKey).out + E.MemberBytes(l, v, k, forceKey).out
  {
  }

  lemma {:induction false} MemberBytesShape(l: Layout, v: Value, forceKey: bool, k: nat)
    requires Coherent(l) && v.Compound? && MembersFit(l, v, forceKey) && k < |v.members|
    ensures StringFits(l, |v.members[k].key|) && Nested(l, v.members[k].value)
    ensures E.MemberBytes(l, v, k, forceKey).out
         == ([Tag(v.members[k].value)] + E.NbtString(l, v.members[k].key).out) + E.Payload(l, v.members[k].value).out
  {
    assert StringFits(l, |v.members[k].key|) && Nested(l, v.members[k].value);
  }

  lemma {:induction false} ListBytesShape(l: Layout, v: Value)
    requires Coherent(l) && v.List? && Fits(l, v)
    ensures v.items == [] ==> E.ListBytes(l, v).out == [TAG_END] + E.LengthBytes(l, 0).out
    ensures v.items != [] ==>
              E.ListBytes(l, v).out == ([Tag(v.items[0])] + E.LengthBytes(l, |v.items|).out) + E.ItemsBytes(l, v, |v.items|).out
  {
  }

  lemma {:induction false} CompoundBytesShape(l: Layout, v: Value, withName: bool, forceKey: bool)
    requires Coherent(l) && v.Compound? && MembersFit(l, v, forceKey)
    requires withName && v.name.Some? ==> StringFits(l, |v.name.value|)
    ensures !(withName && v.name.Some?) ==>
              E.CompoundBytes(l, v, withName, forceKey).out == E.MembersBytes(l, v, |v.members|, forceKey).out + [TAG_END]
    ensures withName && v.name.Some? ==>
              E.CompoundBytes(l, v, withName, forceKey).out
              == E.NbtString(l, v.name.value).out + E.MembersBytes(l, v, |v.members|, forceKey).out + [TAG_END]
  {
  }

  lemma {:induction false} ListAtStep(l: Layout, data: seq<byte>, at: nat, n: nat, pos: nat)
    requires at < |data| && D.LengthAt(l, data, at + 1) == D.Got(n, pos) && n < D.CAPACITY_LIMIT
    ensures D.ListAt(l, data, at) == D.Items(l, data, pos, data[at], n, [])
  {
  }

  lemma {:induction false} ItemsStep(l: Layout, data: seq<byte>, at: nat, tag: byte, remaining: nat, rest: nat, acc: seq<Value>, x: Value,
                  next: nat, r: D.Read<Value>)
    requires at <= |data| && remaining == rest + 1 && D.Payload(l, data, at, tag) == D.Got(x, next)
    requires D.Items(l, data, next, tag, rest, acc + [x]) == r
    ensures D.Items(l, data, at, tag, remaining, acc) == r
  {
  }

  lemma {:induction false} MembersStep(l: Layout, data: seq<byte>, at: nat, acc: seq<Member>, t: byte, key: seq<byte>, kpos: nat, x: Value, next: nat,
                    r: D.Read<seq<Member>>)
    requires at < |data| && data[at] == t && t != TAG_END
    requires D.NbtStringAt(l, data, at + 1) == D.Got(key, kpos)
    requires D.Payload(l, data, kpos, t) == D.Got(x, next)
    requires D.Members(l, data, next, acc + [Member(key, x)]) == r
    ensures D.Members(l, data, at, acc) == r
  {
  }

  lemma {:induction false} MembersEnd(l: Layout, data: seq<byte>, at: nat, acc: seq<Member>)
    requires at < |data| && data[at] == TAG_END
    ensures D.Members(l, data, at, acc) == D.Got(acc, at + 1)
  {
  }

  lemma {:induction false} PayloadListStep(l: Layout, data: seq<byte>, at: nat)
    requires at <= |data|
    ensures D.Payload(l, data, at, TAG_LIST) == D.ListAt(l, data, at)
  {
  }

  lemma {:induction false} PayloadCompoundStep(l: Layout, data: seq<byte>, at: nat)
    requires at <= |data|
    ensures D.Payload(l, data, at, TAG_COMPOUND) == D.CompoundAt(l, data, at)
  {
  }

  lemma {:induction false} PayloadArrayStep(l: Layout, data: seq<byte>, at: nat, tag: byte)
    requires at <= |data| && tag in {TAG_BYTE_ARRAY, TAG_INT_ARRAY, TAG_LONG_ARRAY}
    ensures D.Payload(l, data, at, tag) == D.ArrayAt(l, data, at, tag)
  {
  }

  lemma {:induction false} PayloadScalarStep(l: Layout, data: seq<byte>, at: nat, tag: byte)
    requires at <= |data| && TAG_BYTE <= tag <= TAG_DOUBLE
    ensures D.Payload(l, data, at, tag) == D.ScalarAt(l, data, at, tag)
  {
  }

  lemma {:induction false} PayloadStringStep(l: Layout, data: seq<byte>, at: nat, s: seq<byte>, next: nat)
    requires at <= |data| && D.NbtStringAt(l, data, at) == D.Got(s, next)
    ensures D.Payload(l, data, at, TAG_STRING) == D.Got(String(s), next)
  {
  }

  lemma {:induction false} CompoundAtStep(l: Layout, data: seq<byte>, at: nat, ms: seq<Member>, next: nat)
    requires at <= |data| && D.Members(l, data, at, []) == D.Got(ms, next)
    ensures D.CompoundAt(l, data, at) == D.Got(Compound(None, ms), next)
  {
  }

  lemma {:induction false} PrefixExtend(a: seq<byte>, b: seq<byte>, c: seq<byte>)
    requires a <= b
    ensures a <= b + c
  {
    assert (b + c)[..|a|] == b[..|a|];
  }

  /// The children written so far are a prefix of all of them.
  lemma {:induction false} ItemsPrefix(l: Layout, v: Value, k: nat, m: nat)
    requires Coherent(l) && v.List? && Fits(l, v) && k <= m <= |v.items|
    ensures E.ItemsBytes(l, v, k).out <= E.ItemsBytes(l, v, m).out
    decreases m - k
  {
    if k < m {
      ItemsPrefix(l, v, k, m - 1);
      ItemsPrefixStep(l, v, k, m);
    }
  }

  lemma {:induction false} ItemsPrefixStep(l: Layout, v: Value, k: nat, m: nat)
    requires Coherent(l) && v.List? && Fits(l, v) && k < m <= |v.items|
    requires E.ItemsBytes(l, v, k).out <= E.ItemsBytes(l, v, m - 1).out
    ensures E.ItemsBytes(l, v, k).out <= E.ItemsBytes(l, v, m).out
  {
    ItemsBytesStep(l, v, m - 1);
    PrefixExtend(E.ItemsBytes(l, v, k).out, E.ItemsBytes(l, v, m - 1).out, E.Payload(l, v.items[m - 1]).out);
  }

  /// The members written so far are a prefix of all of them.
  lemma {:induction false} MembersPrefix(l: Layout, v: Value, forceKey: bool, k: nat, m: nat)
    requires Coherent(l) && v.Compound? && MembersFit(l, v, forceKey) && k <= m <= |v.members|
    ensures E.MembersBytes(l, v, k, forceKey).out <= E.MembersBytes(l, v, m, forceKey).out
    decreases m - k
  {
    if k < m {
      MembersPrefix(l, v, forceKey, k, m - 1);
      MembersPrefixStep(l, v, forceKey, k, m);
    }
  }

  lemma {:induction false} MembersPrefixStep(l: Layout, v: Value, forceKey: bool, k: nat, m: nat)
    requires Coherent(l) && v.Compound? && MembersFit(l, v, forceKey) && k < m <= |v.members|
    requires E.MembersBytes(l, v, k, forceKey).out <= E.MembersBytes(l, v, m - 1, forceKey).out
    ensures E.MembersBytes(l, v, k, forceKey).out <= E.MembersBytes(l, v, m, forceKey).out
  {
    MembersBytesStep(l, v, forceKey, m - 1);
    PrefixExtend(E.MembersBytes(l, v, k, forceKey).out, E.MembersBytes(l, v, m - 1, forceKey).out,
                 E.MemberBytes(l, v, m - 1, forceKey).out);
  }

  /// Any value that fits, written as a payload, reads back as itself.
  lemma {:induction false} PayloadRead(l: Layout, data: seq<byte>, at: nat, v: Value, next: nat)
    requires PayloadAt(l, data, at, v, next)
    ensures D.Payload(l, data, at, Tag(v)) == D.Got(v, next)
    decreases v, 6
  {
    match v
      case List(_) => ListPayloadRead(l, data, at, v, next);
      case Compound(_, _) => CompoundPayloadRead(l, data, at, v, next);
      case String(t) => StringPayloadRead(l, data, at, t, next);
      case ByteArray(a) => ByteArrayPayloadRead(l, data, at, a, next);
      case IntArray(a) => IntArrayPayloadRead(l, data, at, a, next);
      case LongArray(a) => LongArrayPayloadRead(l, data, at, a, next);
      case _ => ScalarPayloadRead(l, data, at, v, next);
  }

  lemma {:induction false} ListPayloadRead(l: Layout, data: seq<byte>, at: nat, v: Value, next: nat)
    requires PayloadAt(l, data, at, v, next) && v.List?
    ensures D.Payload(l, data, at, Tag(v)) == D.Got(v, next)
    decreases v, 5
  {
    assert Nested(l, v);
    PayloadListStep(l, data, at);
    ListRead(l, data, at, v);
  }

  lemma {:induction false} CompoundPayloadRead(l: Layout, data: seq<byte>, at: nat, v: Value, next: nat)
    requires PayloadAt(l, data, at, v, next) && v.Compound?
    ensures D.Payload(l, data, at, Tag(v)) == D.Got(v, next)
    decreases v, 5
  {
    assert Nested(l, v);
    assert Fits(l, v);
    assert MembersFit(l, v, false);
    PayloadCompoundStep(l, data, at);
    CompoundBytesShape(l, v, true, false);
    MembersRead(l, data, at, v, false);
    CompoundAtStep(l, data, at, v.members, next);
  }

  lemma {:induction false} StringPayloadRead(l: Layout, data: seq<byte>, at: nat, t: seq<byte>, next: nat)
    requires PayloadAt(l, data, at, String(t), next)
    ensures D.Payload(l, data, at, TAG_STRING) == D.Got(String(t), next)
  {
    assert Nested(l, String(t));
    assert Fits(l, String(t));
    assert StringFits(l, |t|);
    assert E.Payload(l, String(t)) == E.NbtString(l, t);
    NbtStringRead(l, data, at, t);
    PayloadStringStep(l, data, at, t, next);
  }

  lemma {:induction false} ByteArrayPayloadRead(l: Layout, data: seq<byte>, at: nat, a: seq<I8>, next: nat)
    requires PayloadAt(l, data, at, ByteArray(a), next)
    ensures D.Payload(l, data, at, TAG_BYTE_ARRAY) == D.Got(ByteArray(a), next)
  {
    PayloadArrayStep(l, data, at, TAG_BYTE_ARRAY);
    assert Nested(l, ByteArray(a));
    assert Fits(l, ByteArray(a));
    assert LengthFits(|a|);
    assert E.Payload(l, ByteArray(a)) == E.ArrayBytes(l, ByteArray(a));
    ByteArrayRead(l, data, at, a);
  }

  lemma {:induction false} IntArrayPayloadRead(l: Layout, data: seq<byte>, at: nat, a: seq<I32>, next: nat)
    requires PayloadAt(l, data, at, IntArray(a), next)
    ensures D.Payload(l, data, at, TAG_INT_ARRAY) == D.Got(IntArray(a), next)
  {
    PayloadArrayStep(l, data, at, TAG_INT_ARRAY);
    assert Nested(l, IntArray(a));
    assert Fits(l, IntArray(a));
    assert LengthFits(|a|);
    assert E.Payload(l, IntArray(a)) == E.ArrayBytes(l, IntArray(a));
    IntArrayRead(l, data, at, a);
  }

  lemma {:induction false} LongArrayPayloadRead(l: Layout, data: seq<byte>, at: nat, a: seq<I64>, next: nat)
    requires PayloadAt(l, data, at, LongArray(a), next)
    ensures D.Payload(l, data, at, TAG_LONG_ARRAY) == D.Got(LongArray(a), next)
  {
    PayloadArrayStep(l, data, at, TAG_LONG_ARRAY);
    assert Nested(l, LongArray(a));
    assert Fits(l, LongArray(a));
    assert LengthFits(|a|);
    assert E.Payload(l, LongArray(a)) == E.ArrayBytes(l, LongArray(a));
    LongArrayRead(l, data, at, a);
  }

  lemma {:induction false} ScalarPayloadRead(l: Layout, data: seq<byte>, at: nat, v: Value, next: nat)
    requires PayloadAt(l, data, at, v, next) && TAG_BYTE <= Tag(v) <= TAG_DOUBLE
    ensures D.Payload(l, data, at, Tag(v)) == D.Got(v, next)
  {
    PayloadScalarStep(l, data, at, Tag(v));
    ScalarRead(l, data, at, v);
  }

  /// A list reads back with its children, and an empty list as empty.
  lemma {:induction false} ListRead(l: Layout, data: seq<byte>, at: nat, v: Value)
    requires Coherent(l) && v.List? && Fits(l, v) && |data| < U64_MOD
    requires Embedded(data, at, E.ListBytes(l, v).out)
    ensures D.ListAt(l, data, at) == D.Got(v, at + |E.ListBytes(l, v).out|)
    decreases v, 4
  {
    ListBytesShape(l, v);
    if v.items == [] {
      TagFirst(data, at, TAG_END, E.LengthBytes(l, 0).out);
      EmptyListRead(l, data, at);
    } else {
      var t, n, body := Tag(v.items[0]), E.LengthBytes(l, |v.items|).out, E.ItemsBytes(l, v, |v.items|).out;
      TagFirstThen(data, at, t, n, body);
      ListItemsRead(l, data, at, v);
    }
  }

  /// A tag byte at `at`, then `a`.
  lemma {:induction false} TagFirst(data: seq<byte>, at: nat, t: byte, a: seq<byte>)
    requires Embedded(data, at, [t] + a)
    ensures at < |data| && data[at] == t && Embedded(data, at + 1, a)
  {
    assert ([t] + a)[1..] == a;
  }

  /// A tag byte at `at`, then `a`, then `b`.
  lemma {:induction false} TagFirstThen(data: seq<byte>, at: nat, t: byte, a: seq<byte>, b: seq<byte>)
    requires Embedded(data, at, ([t] + a) + b)
    ensures |([t] + a) + b| == 1 + |a| + |b|
    ensures at < |data| && data[at] == t && Embedded(data, at + 1, a) && Embedded(data, at + 1 + |a|, b)
  {
    EmbeddedSplit(data, at, [t] + a, b);
    TagFirst(data, at, t, a);
  }

  lemma {:induction false} EmptyListRead(l: Layout, data: seq<byte>, at: nat)
    requires Coherent(l)
    requires at < |data| && data[at] == TAG_END && Embedded(data, at + 1, E.LengthBytes(l, 0).out)
    ensures D.ListAt(l, data, at) == D.Got(List([]), at + 1 + |E.LengthBytes(l, 0).out|)
  {
    LengthRead(l, data, at + 1, 0);
    ListAtStep(l, data, at, 0, at + 1 + |E.LengthBytes(l, 0).out|);
  }

  lemma {:induction false} ListItemsRead(l: Layout, data: seq<byte>, at: nat, v: Value)
    requires Coherent(l) && v.List? && Fits(l, v) && v.items != [] && |data| < U64_MOD
    requires at < |data| && data[at] == Tag(v.items[0])
    requires Embedded(data, at + 1, E.LengthBytes(l, |v.items|).out)
    requires Embedded(data, at + 1 + |E.LengthBytes(l, |v.items|).out|, E.ItemsBytes(l, v, |v.items|).out)
    ensures D.ListAt(l, data, at)
         == D.Got(v, at + 1 + |E.LengthBytes(l, |v.items|).out| + |E.ItemsBytes(l, v, |v.items|).out|)
    decreases v, 3
  {
    var n := |v.items|;
    var pos := at + 1 + |E.LengthBytes(l, n).out|;
    ItemsFromStart(l, data, pos, v);
    ListFromItems(l, data, at, n, pos, D.Got(v, pos + |E.ItemsBytes(l, v, n).out|));
  }

  /// A list whose length reads back and whose children read back as `r`
  /// reads back as `r`.
  lemma ListFromItems(l: Layout, data: seq<byte>, at: nat, n: nat, pos: nat, r: D.Read<Value>)
    requires Coherent(l) && LengthFits(n) && at < |data|
    requires Embedded(data, at + 1, E.LengthBytes(l, n).out) && pos == at + 1 + |E.LengthBytes(l, n).out|
    requires D.Items(l, data, pos, data[at], n, []) == r
    ensures D.ListAt(l, data, at) == r
  {
    LengthRead(l, data, at + 1, n);
    ListAtStep(l, data, at, n, pos);
  }

  /// All the children read back, from the first.
  lemma {:induction false} ItemsFromStart(l: Layout, data: seq<byte>, p0: nat, v: Value)
    requires Coherent(l) && v.List? && Fits(l, v) && v.items != [] && |data| < U64_MOD
    requires Embedded(data, p0, E.ItemsBytes(l, v, |v.items|).out)
    ensures D.Items(l, data, p0, Tag(v.items[0]), |v.items|, []) == D.Got(v, p0 + |E.ItemsBytes(l, v, |v.items|).out|)
    decreases v, 2
  {
    ItemsStart(l, v, p0);
    ItemsRead(l, data, p0, v, 0);
  }

  /// Before the first child: nothing written, nothing read.
  lemma {:induction false} ItemsStart(l: Layout, v: Value, p0: nat)
    requires v.List?
    ensures ItemPos(l, v, p0, 0) == p0 && v.items[..0] == []
  {
    assert E.ItemsBytes(l, v, 0).out == [];
  }

  /// Where the `k`-th child of the list `v` starts, when the children start
  /// at `p0`.
  function ItemPos(l: Layout, v: Value, p0: nat, k: nat): nat
    requires v.List? && k <= |v.items|
  {
    p0 + |E.ItemsBytes(l, v, k).out|
  }

  /// The children from the `k`-th on read back, after the first `k`.
  lemma {:induction false} ItemsRead(l: Layout, data: seq<byte>, p0: nat, v: Value, k: nat)
    requires Coherent(l) && v.List? && Fits(l, v) && v.items != [] && k <= |v.items| && |data| < U64_MOD
    requires Embedded(data, p0, E.ItemsBytes(l, v, |v.items|).out)
    ensures ItemPos(l, v, p0, k) <= |data|
    ensures D.Items(l, data, ItemPos(l, v, p0, k), Tag(v.items[0]), |v.items| - k, v.items[..k])
         == D.Got(v, ItemPos(l, v, p0, |v.items|))
    decreases v, 1, |v.items| - k, 1
  {
    if k == |v.items| {
      assert v.items[..k] == v.items;
    } else {
      ItemsOneMore(l, data, p0, v, k);
    }
  }

  /// The `k`-th child reads back, and then the rest.
  lemma {:induction false} ItemsOneMore(l: Layout, data: seq<byte>, p0: nat, v: Value, k: nat)
    requires Coherent(l) && v.List? && Fits(l, v) && v.items != [] && k < |v.items| && |data| < U64_MOD
    requires Embedded(data, p0, E.ItemsBytes(l, v, |v.items|).out)
    ensures ItemPos(l, v, p0, k) <= |data|
    ensures D.Items(l, data, ItemPos(l, v, p0, k), Tag(v.items[0]), |v.items| - k, v.items[..k])
         == D.Got(v, ItemPos(l, v, p0, |v.items|))
    decreases v, 1, |v.items| - k, 0
  {
    ItemsRead(l, data, p0, v, k + 1);
    TakeOneMore(v.items, k);
    ItemNext(l, data, p0, v, k, D.Got(v, ItemPos(l, v, p0, |v.items|)));
  }

  /// The payload of `x` sits in `data` from `pos` to `next`, and `x` can sit
  /// inside a List or a Compound.
  predicate PayloadAt(l: Layout, data: seq<byte>, pos: nat, x: Value, next: nat)
  {
    Coherent(l) && Nested(l, x) && |data| < U64_MOD
    && Embedded(data, pos, E.Payload(l, x).out) && next == pos + |E.Payload(l, x).out|
  }

  /// Where the `k`-th child sits in `data`.
  lemma {:induction false} ItemAt(l: Layout, data: seq<byte>, p0: nat, v: Value, k: nat)
    requires Coherent(l) && v.List? && Fits(l, v) && k < |v.items| && |data| < U64_MOD
    requires Embedded(data, p0, E.ItemsBytes(l, v, |v.items|).out)
    ensures Tag(v.items[k]) == Tag(v.items[0])
    ensures PayloadAt(l, data, ItemPos(l, v, p0, k), v.items[k], ItemPos(l, v, p0, k + 1))
  {
    ItemsEmbedded(l, data, p0, v, k + 1);
    ItemsBytesStep(l, v, k);
    EmbeddedSplit(data, p0, E.ItemsBytes(l, v, k).out, E.Payload(l, v.items[k]).out);
  }

  /// The first `k` children sit where all of them start.
  lemma {:induction false} ItemsEmbedded(l: Layout, data: seq<byte>, p0: nat, v: Value, k: nat)
    requires Coherent(l) && v.List? && Fits(l, v) && k <= |v.items|
    requires Embedded(data, p0, E.ItemsBytes(l, v, |v.items|).out)
    ensures Embedded(data, p0, E.ItemsBytes(l, v, k).out)
  {
    ItemsPrefix(l, v, k, |v.items|);
    EmbeddedPrefix(data, p0, E.ItemsBytes(l, v, k).out, E.ItemsBytes(l, v, |v.items|).out);
  }

  /// A child written at `pos` reads back.
  lemma {:induction false} ItemDecoded(l: Layout, data: seq<byte>, pos: nat, tag: byte, remaining: nat, rest: nat, acc: seq<Value>, x: Value,
                    next: nat, r: D.Read<Value>)
    requires PayloadAt(l, data, pos, x, next) && Tag(x) == tag && remaining == rest + 1
    requires D.Items(l, data, next, tag, rest, acc + [x]) == r
    ensures D.Items(l, data, pos, tag, remaining, acc) == r
    decreases x, 7
  {
    PayloadRead(l, data, pos, x, next);
    ItemsStep(l, data, pos, tag, remaining, rest, acc, x, next, r);
  }

  /// The `k`-th child reads back, and then whatever follows it.
  lemma {:induction false} ItemNext(l: Layout, data: seq<byte>, p0: nat, v: Value, k: nat, r: D.Read<Value>)
    requires Coherent(l) && v.List? && Fits(l, v) && k < |v.items| && |data| < U64_MOD
    requires Embedded(data, p0, E.ItemsBytes(l, v, |v.items|).out)
    requires ItemPos(l, v, p0, k + 1) <= |data|
    requires D.Items(l, data, ItemPos(l, v, p0, k + 1), Tag(v.items[0]), |v.items| - (k + 1), v.items[..k] + [v.items[k]]) == r
    ensures ItemPos(l, v, p0, k) <= |data|
    ensures D.Items(l, data, ItemPos(l, v, p0, k), Tag(v.items[0]), |v.items| - k, v.items[..k]) == r
    decreases v, 0
  {
    ItemAt(l, data, p0, v, k);
    ItemDecoded(l, data, ItemPos(l, v, p0, k), Tag(v.items[0]), |v.items| - k, |v.items| - (k + 1),
                v.items[..k], v.items[k], ItemPos(l, v, p0, k + 1), r);
  }

  /// The members of a Compound written without its own name read back.
  lemma {:induction false} MembersRead(l: Layout, data: seq<byte>, at: nat, v: Value, forceKey: bool)
    requires Coherent(l) && v.Compound? && MembersFit(l, v, forceKey) && |data| < U64_MOD
    requires Embedded(data, at, E.MembersBytes(l, v, |v.members|, forceKey).out + [TAG_END])
    ensures D.Members(l, data, at, []) == D.Got(v.members, at + |E.MembersBytes(l, v, |v.members|, forceKey).out| + 1)
    decreases v, 2
  {
    assert E.MembersBytes(l, v, 0, forceKey).out == [];
    assert MemberPos(l, v, forceKey, at, 0) == at;
    assert v.members[..0] == [];
    MembersFrom(l, data, at, v, forceKey, 0);
  }

  /// Where the `k`-th member of the Compound `v` starts, when the members
  /// start at `p0`.
  function MemberPos(l: Layout, v: Value, forceKey: bool, p0: nat, k: nat): nat
    requires v.Compound? && k <= |v.members|
  {
    p0 + |E.MembersBytes(l, v, k, forceKey).out|
  }

  /// The members from the `k`-th on read back, after the first `k`.
  lemma {:induction false} MembersFrom(l: Layout, data: seq<byte>, p0: nat, v: Value, forceKey: bool, k: nat)
    requires Coherent(l) && v.Compound? && MembersFit(l, v, forceKey) && k <= |v.members| && |data| < U64_MOD
    requires Embedded(data, p0, E.MembersBytes(l, v, |v.members|, forceKey).out + [TAG_END])
    ensures MemberPos(l, v, forceKey, p0, k) <= |data|
    ensures D.Members(l, data, MemberPos(l, v, forceKey, p0, k), v.members[..k])
         == D.Got(v.members, MemberPos(l, v, forceKey, p0, |v.members|) + 1)
    decreases v, 1, |v.members| - k, 1
  {
    if k == |v.members| {
      MembersClose(l, data, p0, v, forceKey);
    } else {
      MembersOneMore(l, data, p0, v, forceKey, k);
    }
  }

  /// After the last member comes the end tag.
  lemma {:induction false} MembersClose(l: Layout, data: seq<byte>, p0: nat, v: Value, forceKey: bool)
    requires v.Compound?
    requires Embedded(data, p0, E.MembersBytes(l, v, |v.members|, forceKey).out + [TAG_END])
    ensures MemberPos(l, v, forceKey, p0, |v.members|) < |data|
    ensures D.Members(l, data, MemberPos(l, v, forceKey, p0, |v.members|), v.members[..|v.members|])
         == D.Got(v.members, MemberPos(l, v, forceKey, p0, |v.members|) + 1)
  {
    var all := E.MembersBytes(l, v, |v.members|, forceKey).out;
    EmbeddedSplit(data, p0, all, [TAG_END]);
    assert data[p0 + |all|] == [TAG_END][0];
    MembersEnd(l, data, p0 + |all|, v.members[..|v.members|]);
    assert v.members[..|v.members|] == v.members;
  }

  /// The `k`-th member reads back, and then the rest.
  lemma {:induction false} MembersOneMore(l: Layout, data: seq<byte>, p0: nat, v: Value, forceKey: bool, k: nat)
    requires Coherent(l) && v.Compound? && MembersFit(l, v, forceKey) && k < |v.members| && |data| < U64_MOD
    requires Embedded(data, p0, E.MembersBytes(l, v, |v.members|, forceKey).out + [TAG_END])
    ensures MemberPos(l, v, forceKey, p0, k) <= |data|
    ensures D.Members(l, data, MemberPos(l, v, forceKey, p0, k), v.members[..k])
         == D.Got(v.members, MemberPos(l, v, forceKey, p0, |v.members|) + 1)
    decreases v, 1, |v.members| - k, 0
  {
    EmbeddedSplit(data, p0, E.MembersBytes(l, v, |v.members|, forceKey).out, [TAG_END]);
    MembersFrom(l, data, p0, v, forceKey, k + 1);
    TakeOneMore(v.members, k);
    MemberNext(l, data, p0, v, forceKey, k, D.Got(v.members, MemberPos(l, v, forceKey, p0, |v.members|) + 1));
  }

  /// The first `k + 1` elements are the first `k` and the `k`-th.
  lemma {:induction false} TakeOneMore<T>(s: seq<T>, k: nat)
    requires k < |s|
    ensures s[..k] + [s[k]] == s[..k + 1]
  {
  }

  /// The member `m` sits in `data` from `pos` to `next`: its tag, its key,
  /// its payload.
  predicate MemberAtPos(l: Layout, data: seq<byte>, pos: nat, m: Member, next: nat)
  {
    Coherent(l) && StringFits(l, |m.key|) && |data| < U64_MOD && pos < |data| && data[pos] == Tag(m.value)
    && Embedded(data, pos + 1, E.NbtString(l, m.key).out)
    && PayloadAt(l, data, pos + 1 + |E.NbtString(l, m.key).out|, m.value, next)
  }

  /// Where the bytes of the `k`-th member sit in `data`.
  lemma {:induction false} MemberSlot(l: Layout, data: seq<byte>, p0: nat, v: Value, forceKey: bool, k: nat)
    requires Coherent(l) && v.Compound? && MembersFit(l, v, forceKey) && k < |v.members|
    requires Embedded(data, p0, E.MembersBytes(l, v, |v.members|, forceKey).out)
    ensures Embedded(data, MemberPos(l, v, forceKey, p0, k), E.MemberBytes(l, v, k, forceKey).out)
    ensures MemberPos(l, v, forceKey, p0, k + 1) == MemberPos(l, v, forceKey, p0, k) + |E.MemberBytes(l, v, k, forceKey).out|
  {
    MembersEmbedded(l, data, p0, v, forceKey, k + 1);
    MembersBytesStep(l, v, forceKey, k);
    EmbeddedSplit(data, p0, E.MembersBytes(l, v, k, forceKey).out, E.MemberBytes(l, v, k, forceKey).out);
  }

  /// The first `k` members sit where all of them start.
  lemma {:induction false} MembersEmbedded(l: Layout, data: seq<byte>, p0: nat, v: Value, forceKey: bool, k: nat)
    requires Coherent(l) && v.Compound? && MembersFit(l, v, forceKey) && k <= |v.members|
    requires Embedded(data, p0, E.MembersBytes(l, v, |v.members|, forceKey).out)
    ensures Embedded(data, p0, E.MembersBytes(l, v, k, forceKey).out)
  {
    MembersPrefix(l, v, forceKey, k, |v.members|);
    EmbeddedPrefix(data, p0, E.MembersBytes(l, v, k, forceKey).out, E.MembersBytes(l, v, |v.members|, forceKey).out);
  }

  /// Where the tag, the key and the payload of the `k`-th member sit.
  lemma {:induction false} MemberFields(l: Layout, data: seq<byte>, pos: nat, v: Value, forceKey: bool, k: nat, next: nat)
    requires Coherent(l) && v.Compound? && MembersFit(l, v, forceKey) && k < |v.members| && |data| < U64_MOD
    requires Embedded(data, pos, E.MemberBytes(l, v, k, forceKey).out) && next == pos + |E.MemberBytes(l, v, k, forceKey).out|
    ensures MemberAtPos(l, data, pos, v.members[k], next)
  {
    var m := v.members[k];
    var key := E.NbtString(l, m.key).out;
    var payload := E.Payload(l, m.value).out;
    MemberBytesShape(l, v, forceKey, k);
    EmbeddedSplit(data, pos, [Tag(m.value)] + key, payload);
    EmbeddedSplit(data, pos, [Tag(m.value)], key);
    assert data[pos] == [Tag(m.value)][0];
  }

  /// A member written at `pos` reads back: its tag, its key, its payload.
  lemma {:induction false} MemberDecoded(l: Layout, data: seq<byte>, pos: nat, acc: seq<Member>, m: Member, next: nat, r: D.Read<seq<Member>>)
    requires MemberAtPos(l, data, pos, m, next)
    requires D.Members(l, data, next, acc + [m]) == r
    ensures D.Members(l, data, pos, acc) == r
    decreases m.value, 7
  {
    var kpos := pos + 1 + |E.NbtString(l, m.key).out|;
    NbtStringRead(l, data, pos + 1, m.key);
    PayloadRead(l, data, kpos, m.value, next);
    MemberThenRest(l, data, pos, acc, m, kpos, next, r);
  }

  /// A member whose key and payload read back is followed by the rest of the members.
  lemma {:induction false} MemberThenRest(l: Layout, data: seq<byte>, pos: nat, acc: seq<Member>, m: Member, kpos: nat, next: nat, r: D.Read<seq<Member>>)
    requires pos < |data| && data[pos] == Tag(m.value)
    requires D.NbtStringAt(l, data, pos + 1) == D.Got(m.key, kpos)
    requires D.Payload(l, data, kpos, Tag(m.value)) == D.Got(m.value, next)
    requires D.Members(l, data, next, acc + [m]) == r
    ensures D.Members(l, data, pos, acc) == r
  {
    assert Member(m.key, m.value) == m;
    MembersStep(l, data, pos, acc, Tag(m.value), m.key, kpos, m.value, next, r);
  }

  /// The `k`-th member reads back, and then whatever follows it.
  lemma {:induction false} MemberNext(l: Layout, data: seq<byte>, p0: nat, v: Value, forceKey: bool, k: nat, r: D.Read<seq<Member>>)
    requires Coherent(l) && v.Compound? && MembersFit(l, v, forceKey) && k < |v.members| && |data| < U64_MOD
    requires Embedded(data, p0, E.MembersBytes(l, v, |v.members|, forceKey).out)
    requires MemberPos(l, v, forceKey, p0, k + 1) <= |data|
    requires D.Members(l, data, MemberPos(l, v, forceKey, p0, k + 1), v.members[..k] + [v.members[k]]) == r
    ensures MemberPos(l, v, forceKey, p0, k) <= |data|
    ensures D.Members(l, data, MemberPos(l, v, forceKey, p0, k), v.members[..k]) == r
    decreases v, 0
  {
    MemberSlot(l, data, p0, v, forceKey, k);
    MemberFields(l, data, MemberPos(l, v, forceKey, p0, k), v, forceKey, k, MemberPos(l, v, forceKey, p0, k + 1));
    MemberDecoded(l, data, MemberPos(l, v, forceKey, p0, k), v.members[..k], v.members[k],
                  MemberPos(l, v, forceKey, p0, k + 1), r);
  }

  // ---------------------------------------------------------------------
  // Whole documents
  // ---------------------------------------------------------------------

  /// A root the dialect's `write_to` accepts and its reader can give
  /// back: a named Compound (on the Java network the name is not written,
  /// and every key of the root is), or on Bedrock a List.
  predicate RootFits(d: Dialect, l: Layout, v: Value)
  {
    match v
      case Compound(name, _) =>
        if d == JavaNet then MembersFit(l, v, true) else name.Some? && Fits(l, v)
      case List(_) => d in {BedrockDisk, BedrockNet} && Fits(l, v)
      case _ => false
  }

  /// What the reader gives back for the root `v`: the Java network drops
  /// the root name.
  function Readback(d: Dialect, v: Value): (r: Value)
    ensures Tag(r) == Tag(v)
  {
    if d == JavaNet && v.Compound? then Compound(None, v.members) else v
  }

  /// `write_to` then `from_reader` with one coherent layout gives back the
  /// root (less its name on the Java network), and consumes every byte.
  lemma {:induction false} RootRoundTrip(d: Dialect, l: Layout, v: Value)
    requires Coherent(l) && RootFits(d, l, v) && |E.WriteTo(d, l, v).out| < U64_MOD
    ensures E.WriteTo(d, l, v).status.Done?
    ensures D.Root(d, l, E.WriteTo(d, l, v).out) == D.Got(Readback(d, v), |E.WriteTo(d, l, v).out|)
  {
    if v.Compound? {
      if d == JavaNet {
        NetRootRead(l, v);
      } else {
        NamedRootRead(d, l, v);
      }
    } else {
      ListRootRead(d, l, v);
    }
  }

  /// On the Java network the root is the tag, then every member with its key.
  lemma {:induction false} NetRootRead(l: Layout, v: Value)
    requires Coherent(l) && v.Compound? && MembersFit(l, v, true) && |E.WriteTo(JavaNet, l, v).out| < U64_MOD
    ensures E.WriteTo(JavaNet, l, v).status.Done?
    ensures D.Root(JavaNet, l, E.WriteTo(JavaNet, l, v).out) == D.Got(Compound(None, v.members), |E.WriteTo(JavaNet, l, v).out|)
  {
    NetRootLayout(l, v);
    NetRootBytes(l, v, E.WriteTo(JavaNet, l, v).out);
  }

  lemma {:induction false} NetRootLayout(l: Layout, v: Value)
    requires Coherent(l) && v.Compound? && MembersFit(l, v, true)
    ensures E.WriteTo(JavaNet, l, v).status.Done?
    ensures var data := E.WriteTo(JavaNet, l, v).out;
            var ms := E.MembersBytes(l, v, |v.members|, true).out;
            |data| == 1 + |ms + [TAG_END]| && data[0] == TAG_COMPOUND && Embedded(data, 1, ms + [TAG_END])
  {
    NetRootShape(l, v);
    TagThen(E.WriteTo(JavaNet, l, v).out, TAG_COMPOUND, E.MembersBytes(l, v, |v.members|, true).out + [TAG_END]);
  }

  lemma {:induction false} NetRootBytes(l: Layout, v: Value, data: seq<byte>)
    requires Coherent(l) && v.Compound? && MembersFit(l, v, true) && |data| < U64_MOD
    requires var ms := E.MembersBytes(l, v, |v.members|, true).out;
             |data| == 1 + |ms + [TAG_END]| && data[0] == TAG_COMPOUND && Embedded(data, 1, ms + [TAG_END])
    ensures D.Root(JavaNet, l, data) == D.Got(Compound(None, v.members), |data|)
  {
    var ms := E.MembersBytes(l, v, |v.members|, true).out;
    MembersRead(l, data, 1, v, true);
    RootNetStep(l, data, v.members, 1 + |ms| + 1);
  }

  /// Elsewhere a Compound root is the tag, the name, then the members.
  lemma {:induction false} NamedRootRead(d: Dialect, l: Layout, v: Value)
    requires Coherent(l) && d != JavaNet && v.Compound? && v.name.Some? && Fits(l, v)
    requires |E.WriteTo(d, l, v).out| < U64_MOD
    ensures E.WriteTo(d, l, v).status.Done?
    ensures D.Root(d, l, E.WriteTo(d, l, v).out) == D.Got(v, |E.WriteTo(d, l, v).out|)
  {
    NamedRootLayout(d, l, v);
    NamedRootBytes(d, l, v, E.WriteTo(d, l, v).out);
  }

  lemma {:induction false} NamedRootLayout(d: Dialect, l: Layout, v: Value)
    requires Coherent(l) && d != JavaNet && v.Compound? && v.name.Some? && Fits(l, v)
    ensures MembersFit(l, v, false) && StringFits(l, |v.name.value|)
    ensures E.WriteTo(d, l, v).status.Done?
    ensures var data := E.WriteTo(d, l, v).out;
            var name := E.NbtString(l, v.name.value).out;
            var ms := E.MembersBytes(l, v, |v.members|, false).out;
            |data| == 1 + |name| + |ms + [TAG_END]| && data[0] == TAG_COMPOUND
            && Embedded(data, 1, name) && Embedded(data, 1 + |name|, ms + [TAG_END])
  {
    NamedRootShape(d, l, v);
    TagThenThen(E.WriteTo(d, l, v).out, TAG_COMPOUND, E.NbtString(l, v.name.value).out,
                E.MembersBytes(l, v, |v.members|, false).out + [TAG_END]);
  }

  lemma {:induction false} NamedRootBytes(d: Dialect, l: Layout, v: Value, data: seq<byte>)
    requires Coherent(l) && d != JavaNet && v.Compound? && v.name.Some? && MembersFit(l, v, false)
    requires StringFits(l, |v.name.value|) && |data| < U64_MOD
    requires var name := E.NbtString(l, v.name.value).out;
             var ms := E.MembersBytes(l, v, |v.members|, false).out;
             |data| == 1 + |name| + |ms + [TAG_END]| && data[0] == TAG_COMPOUND
             && Embedded(data, 1, name) && Embedded(data, 1 + |name|, ms + [TAG_END])
    ensures D.Root(d, l, data) == D.Got(v, |data|)
  {
    NbtStringRead(l, data, 1, v.name.value);
    NamedRootMembers(d, l, v, data, 1 + |E.NbtString(l, v.name.value).out|);
  }

  /// The members after the root's name.
  lemma {:induction false} NamedRootMembers(d: Dialect, l: Layout, v: Value, data: seq<byte>, npos: nat)
    requires Coherent(l) && d != JavaNet && v.Compound? && v.name.Some? && MembersFit(l, v, false) && |data| < U64_MOD
    requires var ms := E.MembersBytes(l, v, |v.members|, false).out;
             |data| == npos + |ms + [TAG_END]| && data[0] == TAG_COMPOUND && Embedded(data, npos, ms + [TAG_END])
    requires D.NbtStringAt(l, data, 1) == D.Got(v.name.value, npos)
    ensures D.Root(d, l, data) == D.Got(v, |data|)
  {
    MembersRead(l, data, npos, v, false);
    RootNamedStep(d, l, data, v.name.value, npos, v.members, npos + |E.MembersBytes(l, v, |v.members|, false).out| + 1);
    assert Compound(Some(v.name.value), v.members) == v;
  }

  /// On Bedrock a List root is the tag, then the list payload.
  lemma {:induction false} ListRootRead(d: Dialect, l: Layout, v: Value)
    requires Coherent(l) && d in {BedrockDisk, BedrockNet} && v.List? && Fits(l, v)
    requires |E.WriteTo(d, l, v).out| < U64_MOD
    ensures E.WriteTo(d, l, v).status.Done?
    ensures D.Root(d, l, E.WriteTo(d, l, v).out) == D.Got(v, |E.WriteTo(d, l, v).out|)
  {
    ListRootLayout(d, l, v);
    ListRootBytes(d, l, v, E.WriteTo(d, l, v).out);
  }

  lemma {:induction false} ListRootLayout(d: Dialect, l: Layout, v: Value)
    requires Coherent(l) && d in {BedrockDisk, BedrockNet} && v.List? && Fits(l, v)
    ensures E.WriteTo(d, l, v).status.Done?
    ensures var data := E.WriteTo(d, l, v).out;
            |data| == 1 + |E.ListBytes(l, v).out| && data[0] == TAG_LIST && Embedded(data, 1, E.ListBytes(l, v).out)
  {
    assert E.WriteTo(d, l, v).out == [TAG_LIST] + E.ListBytes(l, v).out;
    TagThen(E.WriteTo(d, l, v).out, TAG_LIST, E.ListBytes(l, v).out);
  }

  lemma {:induction false} ListRootBytes(d: Dialect, l: Layout, v: Value, data: seq<byte>)
    requires Coherent(l) && d in {BedrockDisk, BedrockNet} && v.List? && Fits(l, v) && |data| < U64_MOD
    requires |data| == 1 + |E.ListBytes(l, v).out| && data[0] == TAG_LIST && Embedded(data, 1, E.ListBytes(l, v).out)
    ensures D.Root(d, l, data) == D.Got(v, |data|)
  {
    ListRead(l, data, 1, v);
    RootListStep(d, l, data);
  }

  /// A tag byte, then `a`.
  lemma {:induction false} TagThen(data: seq<byte>, t: byte, a: seq<byte>)
    requires data == [t] + a
    ensures |data| == 1 + |a| && data[0] == t && Embedded(data, 1, a)
  {
    assert data[1..1 + |a|] == a;
    EmbeddedSlice(data, 1, a);
  }

  /// A tag byte, then `a`, then `b`.
  lemma {:induction false} TagThenThen(data: seq<byte>, t: byte, a: seq<byte>, b: seq<byte>)
    requires data == ([t] + a) + b
    ensures |data| == 1 + |a| + |b| && data[0] == t && Embedded(data, 1, a) && Embedded(data, 1 + |a|, b)
  {
    assert data[1..1 + |a|] == a;
    assert data[1 + |a|..1 + |a| + |b|] == b;
    EmbeddedSlice(data, 1, a);
    EmbeddedSlice(data, 1 + |a|, b);
  }

  lemma {:induction false} NamedRootShape(d: Dialect, l: Layout, v: Value)
    requires Coherent(l) && d != JavaNet && v.Compound? && v.name.Some? && Fits(l, v)
    ensures MembersFit(l, v, false) && StringFits(l, |v.name.value|)
    ensures E.WriteTo(d, l, v).status.Done?
    ensures E.WriteTo(d, l, v).out
         == ([TAG_COMPOUND] + E.NbtString(l, v.name.value).out) + (E.MembersBytes(l, v, |v.members|, false).out + [TAG_END])
  {
    assert MembersFit(l, v, false);
    CompoundBytesShape(l, v, true, false);
  }

  lemma {:induction false} NetRootShape(l: Layout, v: Value)
    requires Coherent(l) && v.Compound? && MembersFit(l, v, true)
    ensures E.WriteTo(JavaNet, l, v).status.Done?
    ensures E.WriteTo(JavaNet, l, v).out == [TAG_COMPOUND] + (E.MembersBytes(l, v, |v.members|, true).out + [TAG_END])
  {
    CompoundBytesShape(l, v, false, true);
  }

  lemma {:induction false} RootListStep(d: Dialect, l: Layout, data: seq<byte>)
    requires 0 < |data| && data[0] == TAG_LIST && d in {BedrockDisk, BedrockNet}
    ensures D.Root(d, l, data) == D.ListAt(l, data, 1)
  {
  }

  lemma {:induction false} RootNetStep(l: Layout, data: seq<byte>, ms: seq<Member>, next: nat)
    requires 0 < |data| && data[0] == TAG_COMPOUND && D.Members(l, data, 1, []) == D.Got(ms, next)
    ensures D.Root(JavaNet, l, data) == D.Got(Compound(None, ms), next)
  {
  }

  lemma {:induction false} RootNamedStep(d: Dialect, l: Layout, data: seq<byte>, name: seq<byte>, npos: nat, ms: seq<Member>, next: nat)
    requires d != JavaNet && 0 < |data| && data[0] == TAG_COMPOUND
    requires D.NbtStringAt(l, data, 1) == D.Got(name, npos) && npos <= |data|
    requires D.Members(l, data, npos, []) == D.Got(ms, next)
    ensures D.Root(d, l, data) == D.Got(Compound(Some(name), ms), next)
  {
  }
}
