/// Shared vocabulary of the NBT model: bytes, the optional and result
/// wrappers, the tag ids, two's complement and big/little-endian byte order.
module NbtBase {

  /// One octet of an NBT stream (`u8`).
  type byte = b: int | 0 <= b < 256

  datatype Option<T> = None | Some(value: T)

  datatype Result<T, E> = Ok(value: T) | Err(error: E)
  {
    predicate IsFailure() { Err? }

    function PropagateFailure<U>(): Result<U, E>
      requires Err?
    {
      Err(error)
    }

    function Extract(): T
      requires Ok?
    {
      value
    }
  }

  // The thirteen tag ids of the format.
  const TAG_END: byte := 0
  const TAG_BYTE: byte := 1
  const TAG_SHORT: byte := 2
  const TAG_INT: byte := 3
  const TAG_LONG: byte := 4
  const TAG_FLOAT: byte := 5
  const TAG_DOUBLE: byte := 6
  const TAG_BYTE_ARRAY: byte := 7
  const TAG_STRING: byte := 8
  const TAG_LIST: byte := 9
  const TAG_COMPOUND: byte := 10
  const TAG_INT_ARRAY: byte := 11
  const TAG_LONG_ARRAY: byte := 12

  const U8_MOD: nat := 0x100
  const U16_MOD: nat := 0x1_0000
  const U32_MOD: nat := 0x1_0000_0000
  const U64_MOD: nat := 0x1_0000_0000_0000_0000

  predicate IsI8(v: int) { -0x80 <= v < 0x80 }
  predicate IsI16(v: int) { -0x8000 <= v < 0x8000 }
  predicate IsI32(v: int) { -0x8000_0000 <= v < 0x8000_0000 }
  predicate IsI64(v: int) { -0x8000_0000_0000_0000 <= v < 0x8000_0000_0000_0000 }

  function Pow256(n: nat): (r: nat)
    ensures r >= 1
    ensures n > 0 ==> r >= 256 && r % 2 == 0
  {
    if n == 0 then 1 else 256 * Pow256(n - 1)
  }

  /// The signed value that the bit pattern `u` of a `modulus`-sized type
  /// stands for in two's complement (the `as i8`, `as i32`, ... casts).
  function ToSigned(u: int, modulus: nat): (v: int)
    requires 2 <= modulus && modulus % 2 == 0 && 0 <= u < modulus
    ensures -(modulus / 2) <= v < modulus / 2
    ensures v == u || v == u - modulus
  {
    if u < modulus / 2 then u else u - modulus
  }

  /// The bit pattern of the signed value `v` in a `modulus`-sized type
  /// (an `as u32` cast of an `i32`).
  function ToUnsigned(v: int, modulus: nat): (u: nat)
    requires 2 <= modulus && modulus % 2 == 0 && -(modulus / 2) <= v < modulus / 2
    ensures u < modulus && (u == v || u == v + modulus)
  {
    if v >= 0 then v else v + modulus
  }

  lemma {:induction false} SignedRoundTrip(v: int, modulus: nat)
    requires 2 <= modulus && modulus % 2 == 0 && -(modulus / 2) <= v < modulus / 2
    ensures ToSigned(ToUnsigned(v, modulus), modulus) == v
  {
  }

  function Reverse<T>(s: seq<T>): (r: seq<T>)
    ensures |r| == |s|
  {
    if s == [] then [] else Reverse(s[1..]) + [s[0]]
  }

  lemma {:induction false} ReverseAt<T>(s: seq<T>, k: nat)
    requires k < |s|
    ensures Reverse(s)[k] == s[|s| - 1 - k]
  {
    if k < |s| - 1 {
      ReverseAt(s[1..], k);
    }
  }

  lemma {:induction false} ReverseReverse<T>(s: seq<T>)
    ensures Reverse(Reverse(s)) == s
  {
    forall k | 0 <= k < |s|
      ensures Reverse(Reverse(s))[k] == s[k]
    {
      ReverseAt(Reverse(s), k);
      ReverseAt(s, |s| - 1 - k);
    }
  }

  /// `from_be_bytes` read as an unsigned number: most significant byte first.
  function BeUnsigned(bs: seq<byte>): (r: nat)
    ensures r < Pow256(|bs|)
  {
    if bs == [] then 0 else BeUnsigned(bs[..|bs| - 1]) * 256 + bs[|bs| - 1]
  }

  /// `from_le_bytes` read as an unsigned number: least significant byte first.
  function LeUnsigned(bs: seq<byte>): (r: nat)
    ensures r < Pow256(|bs|)
  {
    if bs == [] then 0 else bs[0] + 256 * LeUnsigned(bs[1..])
  }

  /// `from_be_bytes` of a signed type of |bs| bytes.
  function BeSigned(bs: seq<byte>): int
    requires |bs| > 0
  {
    ToSigned(BeUnsigned(bs), Pow256(|bs|))
  }

  /// `from_le_bytes` of a signed type of |bs| bytes.
  function LeSigned(bs: seq<byte>): int
    requires |bs| > 0
  {
    ToSigned(LeUnsigned(bs), Pow256(|bs|))
  }

  lemma {:induction false} BeUnsignedAppend(bs: seq<byte>, b: byte)
    ensures BeUnsigned(bs + [b]) == BeUnsigned(bs) * 256 + b
  {
    assert (bs + [b])[..|bs|] == bs;
  }

  /// Little-endian decoding is big-endian decoding of the reversed bytes.
  lemma {:induction false} LeIsReversedBe(bs: seq<byte>)
    ensures LeUnsigned(bs) == BeUnsigned(Reverse(bs))
    decreases |bs|
  {
    if bs != [] {
      LeIsReversedBe(bs[1..]);
      BeUnsignedAppend(Reverse(bs[1..]), bs[0]);
    }
  }

  /// The same for the signed reading (`read_le_i32` against `read_be_i32`).
  lemma {:induction false} LeSignedIsReversedBe(bs: seq<byte>)
    requires |bs| > 0
    ensures LeSigned(bs) == BeSigned(Reverse(bs))
  {
    LeIsReversedBe(bs);
  }

  /// `to_be_bytes` of the `n`-byte pattern `u`.
  function BeBytes(u: nat, n: nat): (r: seq<byte>)
    requires u < Pow256(n)
    ensures |r| == n
  {
    if n == 0 then [] else BeBytes(u / 256, n - 1) + [u % 256]
  }

  /// `to_le_bytes` of the `n`-byte pattern `u`.
  function LeBytes(u: nat, n: nat): (r: seq<byte>)
    requires u < Pow256(n)
    ensures |r| == n
  {
    if n == 0 then [] else [u % 256] + LeBytes(u / 256, n - 1)
  }

  lemma {:induction false} BeRoundTrip(u: nat, n: nat)
    requires u < Pow256(n)
    ensures BeUnsigned(BeBytes(u, n)) == u
  {
    if n > 0 {
      BeRoundTrip(u / 256, n - 1);
      BeUnsignedAppend(BeBytes(u / 256, n - 1), u % 256);
    }
  }

  lemma {:induction false} LeRoundTrip(u: nat, n: nat)
    requires u < Pow256(n)
    ensures LeUnsigned(LeBytes(u, n)) == u
  {
    if n > 0 {
      LeRoundTrip(u / 256, n - 1);
      assert LeBytes(u, n)[1..] == LeBytes(u / 256, n - 1);
    }
  }

  /// Writing a signed value big-endian and reading it back gives the value.
  lemma {:induction false} BeSignedRoundTrip(v: int, n: nat)
    requires n > 0 && -(Pow256(n) / 2) <= v < Pow256(n) / 2
    ensures BeSigned(BeBytes(ToUnsigned(v, Pow256(n)), n)) == v
  {
    SignedRoundTrip(v, Pow256(n));
    BeRoundTrip(ToUnsigned(v, Pow256(n)), n);
  }

  /// Writing a signed value little-endian and reading it back gives the value.
  lemma {:induction false} LeSignedRoundTrip(v: int, n: nat)
    requires n > 0 && -(Pow256(n) / 2) <= v < Pow256(n) / 2
    ensures LeSigned(LeBytes(ToUnsigned(v, Pow256(n)), n)) == v
  {
    SignedRoundTrip(v, Pow256(n));
    LeRoundTrip(ToUnsigned(v, Pow256(n)), n);
  }

  /// The widths the readers use give exactly Rust's integer ranges.
  lemma {:induction false} WidthRanges()
    ensures Pow256(1) == U8_MOD && Pow256(2) == U16_MOD && Pow256(4) == U32_MOD && Pow256(8) == U64_MOD
  {
  }

  /// The two byte orders.
  datatype Endian = Big | Little

  /// `from_be_bytes` / `from_le_bytes` of a signed or unsigned integer type
  /// as wide as `bs`.
  function Decode(bs: seq<byte>, e: Endian, signed: bool): int
    requires |bs| > 0
  {
    match e
      case Big => if signed then BeSigned(bs) else BeUnsigned(bs)
      case Little => if signed then LeSigned(bs) else LeUnsigned(bs)
  }

  lemma {:induction false} AppendAssoc<T>(a: seq<T>, b: seq<T>, c: seq<T>)
    ensures a + b + c == a + (b + c)
  {
  }
}
