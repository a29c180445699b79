/// The in-place byte swappers of the C++ reader (`na_nbt_impl.hpp`,
/// namespace `swapper`): `endian_make_native` and its variants, and the
/// `default_read_swapper` / `default_write_swapper` tag handlers, which turn
/// the payload of one tag between NBT byte order and the host's byte order
/// inside the source buffer and move the cursor past it.
module CppSwap {
  import opened NbtBase

  /// The parser as the repository has it, or with the defects that this
  /// model exhibits corrected.
  datatype Variant = AsWritten | Corrected

  /// The result of a pass over one payload: the new buffer contents and the
  /// cursor after it, or an access outside the buffer (undefined behaviour
  /// in the source, where nothing stops the pointer).
  datatype Pass = Pass(bytes: seq<byte>, next: int) | OutOfBuffer

  /// The `w` bytes at `p` lie inside `s`.
  predicate Inside(s: seq<byte>, p: int, w: nat)
  {
    0 <= p && p + w <= |s|
  }

  /// The bytes of `s` with the `w` bytes at `p` reversed when `swap` holds:
  /// what `fast_io::big_endian` / `little_endian` does to a value of that
  /// width in place when the NBT byte order is not the host's.
  function Swapped(s: seq<byte>, p: nat, w: nat, swap: bool): (r: seq<byte>)
    requires p + w <= |s|
    ensures |r| == |s|
  {
    seq(|s|, i requires 0 <= i < |s| => if swap && p <= i < p + w then s[2 * p + w - 1 - i] else s[i])
  }

  /// A swap touches only its own `w` bytes.
  lemma SwappedOutside(s: seq<byte>, p: nat, w: nat, swap: bool, i: int)
    requires p + w <= |s| && 0 <= i < |s| && !(p <= i < p + w)
    ensures Swapped(s, p, w, swap)[i] == s[i]
  {
  }

  /// Within its bytes a swap is the reversal of the slice.
  lemma {:induction false} SwappedSlice(s: seq<byte>, p: nat, w: nat)
    requires p + w <= |s|
    ensures Swapped(s, p, w, true)[p..p + w] == Reverse(s[p..p + w])
  {
    var x := s[p..p + w];
    forall k | 0 <= k < w
      ensures Reverse(x)[k] == x[w - 1 - k]
    {
      ReverseAt(x, k);
    }
  }

  /// Swapping the same bytes twice gives the bytes back.
  lemma SwapTwice(s: seq<byte>, p: nat, w: nat, swap: bool)
    requires p + w <= |s|
    ensures Swapped(Swapped(s, p, w, swap), p, w, swap) == s
  {
    var t := Swapped(Swapped(s, p, w, swap), p, w, swap);
    assert forall i | 0 <= i < |s| :: t[i] == s[i];
  }

  /// Swaps of disjoint byte ranges commute.
  lemma SwapsCommute(s: seq<byte>, p: nat, w: nat, q: nat, v: nat, swap: bool)
    requires p + w <= q && q + v <= |s|
    ensures Swapped(Swapped(s, p, w, swap), q, v, swap) == Swapped(Swapped(s, q, v, swap), p, w, swap)
  {
    var a := Swapped(Swapped(s, p, w, swap), q, v, swap);
    var b := Swapped(Swapped(s, q, v, swap), p, w, swap);
    assert forall i | 0 <= i < |s| :: a[i] == b[i];
  }

  /// `endian_make_native_get`: after the swap the host reads, in its own
  /// order, the value the file stored in NBT order.
  lemma {:induction false} SwapReadsNative(s: seq<byte>, p: nat, w: nat, order: Endian, native: Endian, signed: bool)
    requires 0 < w && p + w <= |s|
    ensures Decode(Swapped(s, p, w, order != native)[p..p + w], native, signed) == Decode(s[p..p + w], order, signed)
  {
    var x := s[p..p + w];
    if order == native {
      assert Swapped(s, p, w, false)[p..p + w] == x;
    } else {
      SwappedSlice(s, p, w);
      if native == Little {
        LeIsReversedBe(Reverse(x));
        ReverseReverse(x);
      } else {
        LeIsReversedBe(x);
      }
    }
  }

  /// `count` consecutive values of `w` bytes from `p`, each swapped in turn
  /// (the element loops of the array handlers).
  function SwapRun(s: seq<byte>, p: int, count: nat, w: nat, swap: bool): (r: Pass)
    requires w > 0
    ensures r.Pass? <==> (count == 0 || Inside(s, p, count * w))
    ensures r.Pass? ==> |r.bytes| == |s| && r.next == p + count * w
    decreases count
  {
    if count == 0 then Pass(s, p)
    else if !Inside(s, p, w) then OutOfBuffer
    else
      var r := SwapRun(Swapped(s, p as nat, w, swap), p + w, count - 1, w, swap);
      assert (count - 1) * w + w == count * w;
      r
  }

  /// A swap at `p` before a run after it commutes with the run.
  lemma {:induction false} RunAfterSwap(t: seq<byte>, p: nat, w0: nat, q: int, count: nat, w: nat, swap: bool)
    requires w > 0 && p + w0 <= q && p + w0 <= |t|
    ensures SwapRun(Swapped(t, p, w0, swap), q, count, w, swap)
         == match SwapRun(t, q, count, w, swap)
              case Pass(u, n) => Pass(Swapped(u, p, w0, swap), n)
              case OutOfBuffer => OutOfBuffer
    decreases count
  {
    if count > 0 && Inside(t, q, w) {
      SwapsCommute(t, p, w0, q as nat, w, swap);
      RunAfterSwap(Swapped(t, q as nat, w, swap), p, w0, q + w, count - 1, w, swap);
    }
  }

  /// Running the same swaps again restores the bytes.
  lemma {:induction false} SwapRunTwice(s: seq<byte>, p: int, count: nat, w: nat, swap: bool)
    requires w > 0 && SwapRun(s, p, count, w, swap).Pass?
    ensures SwapRun(SwapRun(s, p, count, w, swap).bytes, p, count, w, swap) == Pass(s, p + count * w)
    decreases count
  {
    if count > 0 {
      var s1 := Swapped(s, p as nat, w, swap);
      var t := SwapRun(s, p, count, w, swap).bytes;
      assert SwapRun(s1, p + w, count - 1, w, swap) == SwapRun(s, p, count, w, swap);
      SwapRunTwice(s1, p + w, count - 1, w, swap);
      RunAfterSwap(t, p as nat, w, p + w, count - 1, w, swap);
      SwapTwice(s, p as nat, w, swap);
    }
  }

  /// The number of iterations of `for (_index = 0; _index < len; _index++)`.
  function Count(len: int): (n: nat)
    ensures len <= 0 ==> n == 0
    ensures len >= 0 ==> n == len
  {
    if len > 0 then len else 0
  }

  /// The payload tags the swappers handle (every tag but End, List and
  /// Compound).
  predicate SwappedTag(tag: byte)
  {
    1 <= tag <= 12 && tag != TAG_LIST && tag != TAG_COMPOUND
  }

  /// The width of a scalar payload: Byte 1, Short 2, Int 4, Long 8, Float 4,
  /// Double 8; 0 for every other tag.
  function Width(tag: byte): (w: nat)
    ensures w <= 8
    ensures 1 <= tag <= 6 <==> w > 0
  {
    match tag
      case 1 => 1
      case 2 => 2
      case 3 => 4
      case 4 => 8
      case 5 => 4
      case 6 => 8
      case _ => 0
  }

  /// The width of one element of an array tag: ByteArray 1, IntArray 4,
  /// LongArray 8.
  function ElementWidth(tag: byte): (w: nat)
    requires tag == TAG_BYTE_ARRAY || tag == TAG_INT_ARRAY || tag == TAG_LONG_ARRAY
    ensures w == 1 || w == 4 || w == 8
  {
    if tag == TAG_BYTE_ARRAY then 1 else if tag == TAG_INT_ARRAY then 4 else 8
  }

  /// One scalar handler: swap `w` bytes in place and step over them.
  function ScalarPass(s: seq<byte>, p: int, w: nat, swap: bool): Pass
  {
    if Inside(s, p, w) then Pass(Swapped(s, p as nat, w, swap), p + w) else OutOfBuffer
  }

  /// `default_read_swapper`: the payload of `tag` at `p` is turned to host
  /// order. Lengths are swapped first and read in host order
  /// (`endian_make_native_get`). The IntArray and LongArray element loops
  /// run only when the orders differ; otherwise the cursor moves by
  /// `len` elements whatever the sign of `len`. As written, the LongArray
  /// handler steps over 4 more bytes after the length than the
  /// write handler does.
  function ReadSwap(s: seq<byte>, tag: byte, p: int, order: Endian, native: Endian, variant: Variant): (r: Pass)
    requires SwappedTag(tag)
    ensures r.Pass? ==> |r.bytes| == |s|
  {
    var swap := order != native;
    if tag <= 6 then
      if tag == TAG_BYTE then Pass(s, p + 1) else ScalarPass(s, p, Width(tag), swap)
    else if tag == TAG_STRING then
      if !Inside(s, p, 2) then OutOfBuffer
      else
        var s1 := Swapped(s, p as nat, 2, swap);
        Pass(s1, p + 2 + Decode(s1[p..p + 2], native, false))
    else if !Inside(s, p, 4) then OutOfBuffer
    else
      var s1 := Swapped(s, p as nat, 4, swap);
      var len := Decode(s1[p..p + 4], native, true);
      if tag == TAG_BYTE_ARRAY then Pass(s1, p + 4 + len)
      else
        var w := ElementWidth(tag);
        var first := p + 4 + (if tag == TAG_LONG_ARRAY && variant == AsWritten then 4 else 0);
        if !swap then Pass(s1, first + w * len)
        else SwapRun(s1, first, Count(len), w, true)
  }

  /// `default_write_swapper`: the payload of `tag` at `p` is turned from host
  /// order back to NBT order. Lengths are read in host order before their
  /// swap (`endian_get_make_native`), and the element loops always run.
  function WriteSwap(s: seq<byte>, tag: byte, p: int, order: Endian, native: Endian): (r: Pass)
    requires SwappedTag(tag)
    ensures r.Pass? ==> |r.bytes| == |s|
  {
    var swap := order != native;
    if tag <= 6 then
      if tag == TAG_BYTE then Pass(s, p + 1) else ScalarPass(s, p, Width(tag), swap)
    else if tag == TAG_STRING then
      if !Inside(s, p, 2) then OutOfBuffer
      else Pass(Swapped(s, p as nat, 2, swap), p + 2 + Decode(s[p..p + 2], native, false))
    else if !Inside(s, p, 4) then OutOfBuffer
    else
      var s1 := Swapped(s, p as nat, 4, swap);
      var len := Decode(s[p..p + 4], native, true);
      if tag == TAG_BYTE_ARRAY then Pass(s1, p + 4 + len)
      else SwapRun(s1, p + 4, Count(len), ElementWidth(tag), swap)
  }

  /// The length a handler reads, as the file states it (in NBT order).
  function StatedLength(s: seq<byte>, tag: byte, p: int, order: Endian): int
    requires SwappedTag(tag) && tag >= TAG_BYTE_ARRAY && Inside(s, p, 4)
  {
    if tag == TAG_STRING then Decode(s[p..p + 2], order, false) else Decode(s[p..p + 4], order, true)
  }

  /// The corrected read handler and the write handler are inverse: writing
  /// back what was read restores the file's bytes and stops at the same
  /// place, for every payload that lies in the buffer and whose array length
  /// is not negative.
  lemma {:induction false} ReadThenWrite(s: seq<byte>, tag: byte, p: int, order: Endian, native: Endian)
    requires SwappedTag(tag) && ReadSwap(s, tag, p, order, native, Corrected).Pass?
    requires ReadSwap(s, tag, p, order, native, Corrected).next <= |s|
    requires tag == TAG_INT_ARRAY || tag == TAG_LONG_ARRAY ==> StatedLength(s, tag, p, order) >= 0
    ensures WriteSwap(ReadSwap(s, tag, p, order, native, Corrected).bytes, tag, p, order, native)
         == Pass(s, ReadSwap(s, tag, p, order, native, Corrected).next)
  {
    var swap := order != native;
    if 2 <= tag <= 6 {
      SwapTwice(s, p as nat, Width(tag), swap);
    } else if tag == TAG_STRING {
      SwapReadsNative(s, p as nat, 2, order, native, false);
      SwapTwice(s, p as nat, 2, swap);
    } else if tag == TAG_BYTE_ARRAY {
      SwapReadsNative(s, p as nat, 4, order, native, true);
      SwapTwice(s, p as nat, 4, swap);
    } else if tag != TAG_BYTE {
      ArrayReadThenWrite(s, tag, p, order, native);
    }
  }

  /// `ReadThenWrite` for the IntArray and LongArray handlers.
  lemma {:induction false} ArrayReadThenWrite(s: seq<byte>, tag: byte, p: int, order: Endian, native: Endian)
    requires (tag == TAG_INT_ARRAY || tag == TAG_LONG_ARRAY) && ReadSwap(s, tag, p, order, native, Corrected).Pass?
    requires ReadSwap(s, tag, p, order, native, Corrected).next <= |s|
    requires StatedLength(s, tag, p, order) >= 0
    ensures WriteSwap(ReadSwap(s, tag, p, order, native, Corrected).bytes, tag, p, order, native)
         == Pass(s, ReadSwap(s, tag, p, order, native, Corrected).next)
  {
    SwapReadsNative(s, p as nat, 4, order, native, true);
    var len := StatedLength(s, tag, p, order);
    if order != native {
      SwappedArrayReadThenWrite(s, p, len, ElementWidth(tag));
    } else {
      var r := ReadSwap(s, tag, p, order, native, Corrected);
      var w := ElementWidth(tag);
      assert Swapped(s, p as nat, 4, false) == s;
      assert r == Pass(s, p + 4 + w * len);
      assert Count(len) * w == w * len;
      SwapRunIdentity(s, p + 4, Count(len), w);
    }
  }

  /// The element loops of both handlers, when the orders differ: the read
  /// handler swaps the length then the elements, the write handler swaps
  /// the length back and the elements again.
  lemma {:induction false} SwappedArrayReadThenWrite(s: seq<byte>, p: int, len: nat, w: nat)
    requires w > 0 && Inside(s, p, 4)
    requires SwapRun(Swapped(s, p as nat, 4, true), p + 4, len, w, true).Pass?
    ensures var r := SwapRun(Swapped(s, p as nat, 4, true), p + 4, len, w, true);
            SwapRun(Swapped(r.bytes, p as nat, 4, true), p + 4, len, w, true) == Pass(s, r.next)
            && r.bytes[p..p + 4] == Swapped(s, p as nat, 4, true)[p..p + 4]
  {
    var s1 := Swapped(s, p as nat, 4, true);
    var r := SwapRun(s1, p + 4, len, w, true);
    forall i | p <= i < p + 4
      ensures r.bytes[i] == s1[i]
    {
      RunKeepsBefore(s1, p + 4, len, w, true, i);
    }
    SwapRunTwice(s1, p + 4, len, w, true);
    RunAfterSwap(r.bytes, p as nat, 4, p + 4, len, w, true);
    SwapTwice(s, p as nat, 4, true);
  }

  /// A run leaves the bytes before it alone.
  lemma {:induction false} RunKeepsBefore(s: seq<byte>, p: int, count: nat, w: nat, swap: bool, i: int)
    requires w > 0 && SwapRun(s, p, count, w, swap).Pass? && 0 <= i < p && i < |s|
    ensures SwapRun(s, p, count, w, swap).bytes[i] == s[i]
    decreases count
  {
    if count > 0 {
      RunKeepsBefore(Swapped(s, p as nat, w, swap), p + w, count - 1, w, swap, i);
    }
  }

  /// Without a byte-order difference a run changes nothing but the cursor.
  lemma {:induction false} SwapRunIdentity(s: seq<byte>, p: int, count: nat, w: nat)
    requires w > 0 && SwapRun(s, p, count, w, false).Pass?
    ensures SwapRun(s, p, count, w, false).bytes == s
    decreases count
  {
    if count > 0 {
      assert Swapped(s, p as nat, w, false) == s;
      SwapRunIdentity(s, p + w, count - 1, w);
    }
  }

  /// As written, the LongArray read handler ends 4 bytes after the array
  /// whenever the file's order is the host's, for every length.
  lemma LongArrayOverrun(s: seq<byte>, p: int, order: Endian)
    requires ReadSwap(s, TAG_LONG_ARRAY, p, order, order, AsWritten).Pass?
    ensures ReadSwap(s, TAG_LONG_ARRAY, p, order, order, Corrected).Pass?
    ensures ReadSwap(s, TAG_LONG_ARRAY, p, order, order, AsWritten).next
         == ReadSwap(s, TAG_LONG_ARRAY, p, order, order, Corrected).next + 4
  {
  }

  /// A long array of one element, big-endian in the file, on a
  /// little-endian host.
  const LONG_ARRAY_OF_ONE: seq<byte> := [0, 0, 0, 1, 1, 2, 3, 4, 5, 6, 7, 8, 9, 10, 11, 12]

  /// The same bytes once the length has been turned to host order.
  const LENGTH_SWAPPED: seq<byte> := [1, 0, 0, 0, 1, 2, 3, 4, 5, 6, 7, 8, 9, 10, 11, 12]

  lemma {:induction false} LengthOfOne()
    ensures Swapped(LONG_ARRAY_OF_ONE, 0, 4, true) == LENGTH_SWAPPED
    ensures Decode(LENGTH_SWAPPED[0..4], Little, true) == 1
  {
    var len: seq<byte> := [1, 0, 0, 0];
    assert LENGTH_SWAPPED[0..4] == len;
    assert len[1..][1..][1..][1..] == [];
  }

  /// As written, reading that array swaps the 8 bytes that start 4 bytes
  /// after its element, and stops 4 bytes after the array.
  lemma {:induction false} LongArrayMisread()
    ensures ReadSwap(LONG_ARRAY_OF_ONE, TAG_LONG_ARRAY, 0, Big, Little, AsWritten)
         == Pass([1, 0, 0, 0, 1, 2, 3, 4, 12, 11, 10, 9, 8, 7, 6, 5], 16)
  {
    LengthOfOne();
    var a := Swapped(LENGTH_SWAPPED, 8, 8, true);
    assert a == [1, 0, 0, 0, 1, 2, 3, 4, 12, 11, 10, 9, 8, 7, 6, 5];
    assert SwapRun(LENGTH_SWAPPED, 8, 1, 8, true) == SwapRun(a, 16, 0, 8, true);
  }

  /// The corrected handler swaps the element itself and stops after it.
  lemma {:induction false} LongArrayRead()
    ensures ReadSwap(LONG_ARRAY_OF_ONE, TAG_LONG_ARRAY, 0, Big, Little, Corrected)
         == Pass([1, 0, 0, 0, 8, 7, 6, 5, 4, 3, 2, 1, 9, 10, 11, 12], 12)
  {
    LengthOfOne();
    var b := Swapped(LENGTH_SWAPPED, 4, 8, true);
    assert b == [1, 0, 0, 0, 8, 7, 6, 5, 4, 3, 2, 1, 9, 10, 11, 12];
    assert SwapRun(LENGTH_SWAPPED, 4, 1, 8, true) == SwapRun(b, 12, 0, 8, true);
  }

  /// The write handler stops after the array, 4 bytes before where the
  /// as-written read handler stopped, so writing back what was read does not
  /// restore the file (the round trip `ReadThenWrite` fails).
  lemma {:induction false} LongArrayWriteBack()
    ensures var back := WriteSwap([1, 0, 0, 0, 1, 2, 3, 4, 12, 11, 10, 9, 8, 7, 6, 5], TAG_LONG_ARRAY, 0, Big, Little);
            back.Pass? && back.next == 12 && back.bytes != LONG_ARRAY_OF_ONE
  {
    var a: seq<byte> := [1, 0, 0, 0, 1, 2, 3, 4, 12, 11, 10, 9, 8, 7, 6, 5];
    var len: seq<byte> := [1, 0, 0, 0];
    assert a[0..4] == len;
    assert len[1..][1..][1..][1..] == [];
    var c := Swapped(a, 0, 4, true);
    var d := Swapped(c, 4, 8, true);
    assert SwapRun(c, 4, 1, 8, true) == SwapRun(d, 12, 0, 8, true);
    assert d[15] == 5 != LONG_ARRAY_OF_ONE[15];
  }

  /// `endian_make_native`: reverse the `w` bytes at `p` in place when the
  /// NBT order is not the host's.
  method MakeNative(buf: array<byte>, p: nat, w: nat, order: Endian, native: Endian)
    requires p + w <= buf.Length
    modifies buf
    ensures buf[..] == Swapped(old(buf[..]), p, w, order != native)
  {
    if order == native {
      return;
    }
    var i := 0;
    while i < w / 2
      invariant 0 <= i <= w / 2
      invariant forall k | 0 <= k < buf.Length ::
        buf[k] == if p <= k < p + i || p + w - i <= k < p + w then old(buf[2 * p + w - 1 - k]) else old(buf[k])
    {
      buf[p + i], buf[p + w - 1 - i] := buf[p + w - 1 - i], buf[p + i];
      i := i + 1;
    }
  }

  /// `endian_make_native_get`: swap to host order, then return the value in
  /// host order, which is the value the file stated.
  method MakeNativeGet(buf: array<byte>, p: nat, w: nat, signed: bool, order: Endian, native: Endian) returns (v: int)
    requires 0 < w && p + w <= buf.Length
    modifies buf
    ensures buf[..] == Swapped(old(buf[..]), p, w, order != native)
    ensures v == Decode(old(buf[..])[p..p + w], order, signed)
  {
    MakeNative(buf, p, w, order, native);
    v := Decode(buf[p..p + w], native, signed);
    SwapReadsNative(old(buf[..]), p, w, order, native, signed);
    assert buf[p..p + w] == buf[..][p..p + w];
  }

  /// `endian_get_make_native`: return the value in host order as it was,
  /// then swap.
  method GetMakeNative(buf: array<byte>, p: nat, w: nat, signed: bool, order: Endian, native: Endian) returns (v: int)
    requires 0 < w && p + w <= buf.Length
    modifies buf
    ensures buf[..] == Swapped(old(buf[..]), p, w, order != native)
    ensures v == Decode(old(buf[..])[p..p + w], native, signed)
  {
    v := Decode(buf[p..p + w], native, signed);
    MakeNative(buf, p, w, order, native);
  }

  /// The element loop `for (_index = 0; _index < len; _index++)` of the
  /// array handlers. `ok` is false when an element lies outside the buffer.
  method SwapElements(buf: array<byte>, p: int, count: nat, w: nat, order: Endian, native: Endian) returns (ok: bool, next: int)
    requires w > 0
    modifies buf
    ensures ok == SwapRun(old(buf[..]), p, count, w, order != native).Pass?
    ensures ok ==> (buf[..] == SwapRun(old(buf[..]), p, count, w, order != native).bytes
                    && next == SwapRun(old(buf[..]), p, count, w, order != native).next)
  {
    ghost var goal := SwapRun(buf[..], p, count, w, order != native);
    var i := 0;
    next := p;
    while i < count
      invariant 0 <= i <= count
      invariant SwapRun(buf[..], next, count - i, w, order != native) == goal
    {
      if !(0 <= next && next + w <= buf.Length) {
        return false, next;
      }
      MakeNative(buf, next, w, order, native);
      next := next + w;
      i := i + 1;
    }
    ok := true;
  }

  /// `default_read_swapper`, dispatched on the tag: `ok` is false when the
  /// handler would touch bytes outside the buffer.
  method ReadSwapper(buf: array<byte>, tag: byte, p: int, order: Endian, native: Endian, variant: Variant) returns (ok: bool, next: int)
    requires SwappedTag(tag)
    modifies buf
    ensures ok == ReadSwap(old(buf[..]), tag, p, order, native, variant).Pass?
    ensures ok ==> (buf[..] == ReadSwap(old(buf[..]), tag, p, order, native, variant).bytes
                    && next == ReadSwap(old(buf[..]), tag, p, order, native, variant).next)
  {
    if tag <= 6 {
      ok, next := ReadScalarSwapper(buf, tag, p, order, native, variant);
    } else if tag == TAG_STRING {
      ok, next := ReadStringSwapper(buf, tag, p, order, native, variant);
    } else {
      ok, next := ReadArraySwapper(buf, tag, p, order, native, variant);
    }
  }

  /// The scalar cases of `default_read_swapper` (tags 1 to 6).
  method ReadScalarSwapper(buf: array<byte>, tag: byte, p: int, order: Endian, native: Endian, variant: Variant) returns (ok: bool, next: int)
    requires SwappedTag(tag) && tag <= 6
    modifies buf
    ensures ok == ReadSwap(old(buf[..]), tag, p, order, native, variant).Pass?
    ensures ok ==> (buf[..] == ReadSwap(old(buf[..]), tag, p, order, native, variant).bytes
                    && next == ReadSwap(old(buf[..]), tag, p, order, native, variant).next)
  {
    if tag == TAG_BYTE {
      return true, p + 1;
    }
    if !(0 <= p && p + Width(tag) <= buf.Length) {
      return false, p;
    }
    MakeNative(buf, p, Width(tag), order, native);
    return true, p + Width(tag);
  }

  /// The String case of `default_read_swapper`: the length is swapped, then
  /// read in host order.
  method ReadStringSwapper(buf: array<byte>, tag: byte, p: int, order: Endian, native: Endian, variant: Variant) returns (ok: bool, next: int)
    requires tag == TAG_STRING
    modifies buf
    ensures ok == ReadSwap(old(buf[..]), tag, p, order, native, variant).Pass?
    ensures ok ==> (buf[..] == ReadSwap(old(buf[..]), tag, p, order, native, variant).bytes
                    && next == ReadSwap(old(buf[..]), tag, p, order, native, variant).next)
  {
    if !(0 <= p && p + 2 <= buf.Length) {
      return false, p;
    }
    var len := MakeNativeGet(buf, p, 2, false, order, native);
    SwapReadsNative(old(buf[..]), p, 2, order, native, false);
    return true, p + 2 + len;
  }

  /// The array cases of `default_read_swapper` (ByteArray, IntArray,
  /// LongArray): the length is swapped, then the elements one by one.
  method ReadArraySwapper(buf: array<byte>, tag: byte, p: int, order: Endian, native: Endian, variant: Variant) returns (ok: bool, next: int)
    requires SwappedTag(tag) && tag > 6 && tag != TAG_STRING
    modifies buf
    ensures ok == ReadSwap(old(buf[..]), tag, p, order, native, variant).Pass?
    ensures ok ==> (buf[..] == ReadSwap(old(buf[..]), tag, p, order, native, variant).bytes
                    && next == ReadSwap(old(buf[..]), tag, p, order, native, variant).next)
  {
    if !(0 <= p && p + 4 <= buf.Length) {
      return false, p;
    }
    var len := MakeNativeGet(buf, p, 4, true, order, native);
    SwapReadsNative(old(buf[..]), p, 4, order, native, true);
    if tag == TAG_BYTE_ARRAY {
      return true, p + 4 + len;
    }
    var w := ElementWidth(tag);
    var first := p + 4;
    if tag == TAG_LONG_ARRAY && variant == AsWritten {
      first := first + 4;
    }
    if order == native {
      return true, first + w * len;
    }
    ok, next := SwapElements(buf, first, Count(len), w, order, native);
  }

  /// `default_write_swapper`, dispatched on the tag.
  method WriteSwapper(buf: array<byte>, tag: byte, p: int, order: Endian, native: Endian) returns (ok: bool, next: int)
    requires SwappedTag(tag)
    modifies buf
    ensures ok == WriteSwap(old(buf[..]), tag, p, order, native).Pass?
    ensures ok ==> (buf[..] == WriteSwap(old(buf[..]), tag, p, order, native).bytes
                    && next == WriteSwap(old(buf[..]), tag, p, order, native).next)
  {
    if tag == TAG_BYTE {
      return true, p + 1;
    }
    if tag <= 6 {
      if !(0 <= p && p + Width(tag) <= buf.Length) {
        return false, p;
      }
      MakeNative(buf, p, Width(tag), order, native);
      return true, p + Width(tag);
    }
    if tag == TAG_STRING {
      if !(0 <= p && p + 2 <= buf.Length) {
        return false, p;
      }
      var len := GetMakeNative(buf, p, 2, false, order, native);
      return true, p + 2 + len;
    }
    if !(0 <= p && p + 4 <= buf.Length) {
      return false, p;
    }
    var len := GetMakeNative(buf, p, 4, true, order, native);
    if tag == TAG_BYTE_ARRAY {
      return true, p + 4 + len;
    }
    ok, next := SwapElements(buf, p + 4, Count(len), ElementWidth(tag), order, native);
  }
}
