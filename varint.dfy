/// Variable-length integers as the NBT readers and writers use them: seven
/// payload bits per byte, lowest group first, bit 7 set on every byte except
/// the last; and the zigzag mapping that the Bedrock network dialect puts in
/// front of it for signed values.
module VarInt {
  import opened NbtBase

  function Pow2(n: nat): (r: nat)
    ensures r >= 1
    ensures n > 0 ==> r >= 2 && r % 2 == 0
  {
    if n == 0 then 1 else 2 * Pow2(n - 1)
  }

  lemma {:induction false} Pow2Add(a: nat, b: nat)
    ensures Pow2(a + b) == Pow2(a) * Pow2(b)
    decreases a
  {
    if a > 0 {
      Pow2Add(a - 1, b);
    }
  }

  lemma {:induction false} Pow2Monotone(a: nat, b: nat)
    requires a <= b
    ensures Pow2(a) <= Pow2(b)
    decreases b
  {
    if a < b {
      Pow2Monotone(a, b - 1);
    }
  }

  /// Bitwise OR of two non-negative numbers (the `|=` of the readers).
  function BitOr(a: nat, b: nat): nat
    decreases a + b
  {
    if a == 0 then b
    else if b == 0 then a
    else 2 * BitOr(a / 2, b / 2) + (if a % 2 == 1 || b % 2 == 1 then 1 else 0)
  }

  lemma {:induction false} BitOrBound(a: nat, b: nat, k: nat)
    requires a < Pow2(k) && b < Pow2(k)
    ensures BitOr(a, b) < Pow2(k)
    decreases a + b
  {
    if a != 0 && b != 0 {
      BitOrBound(a / 2, b / 2, k - 1);
    }
  }

  /// OR-ing in a group that lies entirely above the bits of `a` is addition.
  lemma {:induction false} BitOrDisjoint(a: nat, g: nat, k: nat)
    requires a < Pow2(k)
    ensures BitOr(a, g * Pow2(k)) == a + g * Pow2(k)
    decreases k
  {
    if a != 0 && g != 0 {
      var p := Pow2(k - 1);
      assert g * Pow2(k) == 2 * (g * p);
      BitOrDisjoint(a / 2, g, k - 1);
    }
  }

  lemma {:induction false} Pow2Of8()
    ensures Pow2(7) == 128 && Pow2(8) == 256
  {
  }

  lemma {:induction false} Pow2Of16()
    ensures Pow2(16) == U16_MOD
  {
    Pow2Of8();
    Pow2Add(8, 8);
  }

  lemma {:induction false} Pow2Of32()
    ensures Pow2(32) == U32_MOD
  {
    Pow2Of16();
    Pow2Add(16, 16);
  }

  lemma {:induction false} Pow2Of64()
    ensures Pow2(64) == U64_MOD
  {
    Pow2Of32();
    Pow2Add(32, 32);
  }

  lemma {:induction false} Pow2Facts()
    ensures Pow2(7) == 128 && Pow2(8) == 256 && Pow2(16) == U16_MOD
    ensures Pow2(32) == U32_MOD && Pow2(64) == U64_MOD
  {
    Pow2Of8();
    Pow2Of16();
    Pow2Of32();
    Pow2Of64();
  }

  // ---------------------------------------------------------------------
  // Decoding: `read_var_i32` / `read_var_i64`
  // ---------------------------------------------------------------------

  /// What one variable-length read yields: the value and the position after
  /// its last byte; `VarIntTooBig`/`VarlongTooBig` with the value accumulated
  /// so far (as `usize`); or running out of input at `at`.
  datatype VarRead = VarOk(value: int, next: nat) | VarTooBig(payload: nat) | VarEof(at: nat)

  /// The bit pattern of `value` after OR-ing in the 7 payload bits of `b`
  /// at `size * 7`. The shift is on a `bits`-wide integer: bits pushed out
  /// at the top are lost, and a shift amount of `bits` or more is taken
  /// modulo `bits` (release-build `<<`).
  function ShiftIn(acc: nat, b: byte, size: nat, bits: nat): (r: nat)
    requires bits > 0 && acc < Pow2(bits)
    ensures r < Pow2(bits)
  {
    var group := Wrap((b % 128) * Pow2(Wrap(size * 7, bits)), Pow2(bits));
    BitOrBound(acc, group, bits);
    BitOr(acc, group)
  }

  /// `x` truncated to a type with `m` values (also the masking of a shift
  /// amount to the width of the shifted type).
  function Wrap(x: nat, m: nat): (r: nat)
    requires m > 0
    ensures r < m
    ensures x < m ==> r == x
  {
    x % m
  }

  /// `value as usize` for a `bits`-wide signed value on a 64-bit target.
  function AsUsize(acc: nat, bits: nat): nat
    requires 0 < bits <= 64 && acc < Pow2(bits)
  {
    Pow2Monotone(bits, 64);
    Pow2Facts();
    var v := ToSigned(acc, Pow2(bits));
    if v >= 0 then v else v + U64_MOD
  }

  /// The loop of `read_var_i32` (bits 32, limit 5) and `read_var_i64`
  /// (bits 64, limit 10) from position `pos`, with `size` bytes taken and
  /// `acc` accumulated.
  function ReadVarFrom(data: seq<byte>, pos: nat, acc: nat, size: nat, bits: nat, limit: nat): VarRead
    requires pos <= |data| && 0 < bits <= 64 && acc < Pow2(bits)
    decreases |data| - pos
  {
    if pos == |data| then VarEof(pos)
    else
      var b := data[pos];
      var acc' := ShiftIn(acc, b, size, bits);
      if size + 1 > limit then VarTooBig(AsUsize(acc', bits))
      else if b < 128 then VarOk(ToSigned(acc', Pow2(bits)), pos + 1)
      else ReadVarFrom(data, pos + 1, acc', size + 1, bits, limit)
  }

  /// A value the loop yields fits the signed type it was read into.
  lemma {:induction false} ReadVarRange(data: seq<byte>, pos: nat, acc: nat, size: nat, bits: nat, limit: nat)
    requires pos <= |data| && 0 < bits <= 64 && acc < Pow2(bits)
    ensures var r := ReadVarFrom(data, pos, acc, size, bits, limit);
            r.VarOk? ==> -(Pow2(bits) / 2) <= r.value < Pow2(bits) / 2
    decreases |data| - pos
  {
    if pos < |data| && size + 1 <= limit && data[pos] >= 128 {
      ReadVarRange(data, pos + 1, ShiftIn(acc, data[pos], size, bits), size + 1, bits, limit);
    }
  }

  /// A continuation byte inside the window moves the read on by one byte.
  lemma {:induction false} ReadVarContinue(data: seq<byte>, pos: nat, acc: nat, size: nat, bits: nat, limit: nat, total: nat, next: nat)
    requires pos < |data| && 0 < bits <= 64 && acc < Pow2(bits) && total < Pow2(bits)
    requires data[pos] >= 128 && size + 1 <= limit
    requires ReadVarFrom(data, pos + 1, ShiftIn(acc, data[pos], size, bits), size + 1, bits, limit)
          == VarOk(ToSigned(total, Pow2(bits)), next)
    ensures ReadVarFrom(data, pos, acc, size, bits, limit) == VarOk(ToSigned(total, Pow2(bits)), next)
  {
  }

  /// `read_var_i32`: at most 5 bytes, into an `i32`.
  function ReadVarI32(data: seq<byte>, pos: nat): VarRead
    requires pos <= |data|
  {
    ReadVarFrom(data, pos, 0, 0, 32, 5)
  }

  /// `read_var_i64`: at most 10 bytes, into an `i64`.
  function ReadVarI64(data: seq<byte>, pos: nat): VarRead
    requires pos <= |data|
  {
    ReadVarFrom(data, pos, 0, 0, 64, 10)
  }

  /// The read stops at the first byte whose bit 7 is clear, after at most
  /// `limit` bytes; it reports "too big" exactly when `limit` continuation
  /// bytes are followed by one more byte; and it runs out of input exactly
  /// when the data ends inside that window.
  lemma {:induction false} ReadVarShape(data: seq<byte>, pos: nat, acc: nat, size: nat, bits: nat, limit: nat)
    requires pos <= |data| && 0 < bits <= 64 && acc < Pow2(bits) && size <= limit
    ensures var r := ReadVarFrom(data, pos, acc, size, bits, limit);
      && (r.VarOk? ==>
            pos < r.next <= |data| && r.next - pos <= limit - size && data[r.next - 1] < 128
            && forall i :: pos <= i < r.next - 1 ==> data[i] >= 128)
      && (r.VarTooBig? <==>
            pos + (limit - size) < |data| && forall i :: pos <= i < pos + (limit - size) ==> data[i] >= 128)
      && (r.VarEof? ==> r.at == |data| && forall i :: pos <= i < |data| ==> data[i] >= 128)
    decreases |data| - pos
  {
    if pos < |data| && size + 1 <= limit && data[pos] >= 128 {
      ReadVarShape(data, pos + 1, ShiftIn(acc, data[pos], size, bits), size + 1, bits, limit);
    }
  }

  // ---------------------------------------------------------------------
  // Encoding: `var_i32_to_bytes` and friends
  // ---------------------------------------------------------------------

  /// The bytes the encoding loop emits for a non-negative value: the low
  /// seven bits, with 0x80 added while bits remain, then the rest.
  function VarBytes(v: nat): (r: seq<byte>)
    ensures 1 <= |r| && r[|r| - 1] < 128
    ensures forall i :: 0 <= i < |r| - 1 ==> r[i] >= 128
    decreases v
  {
    if v / 128 == 0 then [v % 128] else [v % 128 + 128] + VarBytes(v / 128)
  }

  lemma {:induction false} SplitLowGroup(w: nat, p: nat)
    ensures w * p == (w / 128) * (p * 128) + (w % 128) * p
    ensures (w % 128) * p <= w * p
  {
    var q, m := w / 128, w % 128;
    assert w == 128 * q + m;
    assert w * p == (128 * q + m) * p;
    assert (128 * q + m) * p == q * (p * 128) + m * p;
    assert m <= w;
    assert m * p <= w * p;
  }

  lemma {:induction false} AddGroupBound(acc: nat, m: nat, p: nat)
    requires acc < p && m < 128
    ensures acc + m * p < p * 128
  {
    assert m * p <= 127 * p;
  }

  /// One turn of the read loop on a byte carrying the low group of `w`.
  lemma {:induction false} ShiftInGroup(acc: nat, w: nat, b: byte, size: nat, bits: nat)
    requires 0 < bits && 7 * size < bits && b % 128 == w % 128
    requires acc < Pow2(7 * size) && w * Pow2(7 * size) + acc < Pow2(bits)
    ensures acc < Pow2(bits)
    ensures ShiftIn(acc, b, size, bits) < Pow2(7 * (size + 1))
    ensures w * Pow2(7 * size) + acc == (w / 128) * Pow2(7 * (size + 1)) + ShiftIn(acc, b, size, bits)
  {
    var p := Pow2(7 * size);
    Pow2Monotone(7 * size, bits);
    Pow2Add(7 * size, 7);
    Pow2Of8();
    assert Pow2(7 * (size + 1)) == p * 128;
    assert Wrap(size * 7, bits) == 7 * size;
    SplitLowGroup(w, p);
    var low := (w % 128) * p;
    assert Wrap(low, Pow2(bits)) == low;
    BitOrDisjoint(acc, w % 128, 7 * size);
    AddGroupBound(acc, w % 128, p);
  }

  /// The last byte of the encoding completes the read.
  lemma {:induction false} ReadVarLastGroup(data: seq<byte>, pos: nat, w: nat, acc: nat, size: nat, bits: nat, limit: nat)
    requires 0 < bits <= 64 && size < limit && 7 * size < bits && w < 128
    requires acc < Pow2(7 * size) && w * Pow2(7 * size) + acc < Pow2(bits)
    requires pos + |VarBytes(w)| <= |data| && data[pos..pos + |VarBytes(w)|] == VarBytes(w)
    ensures acc < Pow2(bits)
    ensures ReadVarFrom(data, pos, acc, size, bits, limit)
         == VarOk(ToSigned(w * Pow2(7 * size) + acc, Pow2(bits)), pos + |VarBytes(w)|)
  {
    var enc := VarBytes(w);
    assert data[pos] == enc[0];
    var b := data[pos];
    ShiftInGroup(acc, w, b, size, bits);
    var acc' := ShiftIn(acc, b, size, bits);
    assert b < 128 && w / 128 == 0;
    assert (w / 128) * Pow2(7 * (size + 1)) == 0;
    assert ReadVarFrom(data, pos, acc, size, bits, limit) == VarOk(ToSigned(acc', Pow2(bits)), pos + 1);
  }

  /// A byte of the encoding with more to come: the rest of the encoding
  /// follows it, and the accumulator after it holds one more group.
  lemma {:induction false} ReadVarNextGroup(data: seq<byte>, pos: nat, w: nat, acc: nat, size: nat, bits: nat, limit: nat)
    requires 0 < bits <= 64 && bits <= 7 * limit && size < limit && 7 * size < bits && w >= 128
    requires acc < Pow2(7 * size) && w * Pow2(7 * size) + acc < Pow2(bits)
    requires pos + |VarBytes(w)| <= |data| && data[pos..pos + |VarBytes(w)|] == VarBytes(w)
    ensures acc < Pow2(bits) && pos < |data| && data[pos] >= 128
    ensures var acc' := ShiftIn(acc, data[pos], size, bits);
      && size + 1 < limit && 7 * (size + 1) < bits
      && acc' < Pow2(7 * (size + 1))
      && (w / 128) * Pow2(7 * (size + 1)) + acc' == w * Pow2(7 * size) + acc
      && |VarBytes(w)| == 1 + |VarBytes(w / 128)|
      && data[pos + 1..pos + 1 + |VarBytes(w / 128)|] == VarBytes(w / 128)
  {
    var enc := VarBytes(w);
    assert data[pos] == enc[0];
    var b := data[pos];
    ShiftInGroup(acc, w, b, size, bits);
    var acc' := ShiftIn(acc, b, size, bits);
    var pNext := Pow2(7 * (size + 1));
    AtLeastOneMoreGroup(w / 128, pNext, acc', Pow2(bits));
    if 7 * (size + 1) >= bits {
      Pow2Monotone(bits, 7 * (size + 1));
      assert false;
    }
    assert enc == [b] + VarBytes(w / 128);
    assert data[pos + 1..pos + 1 + |VarBytes(w / 128)|] == VarBytes(w / 128) by {
      assert data[pos..pos + |enc|][1..] == enc[1..];
    }
  }

  /// Reading back what `VarBytes` wrote, group by group: with `acc` holding
  /// the `size` groups already read, the rest `w` is OR-ed in on top.
  lemma {:induction false} ReadVarBytesFrom(data: seq<byte>, pos: nat, w: nat, acc: nat, size: nat, bits: nat, limit: nat, total: nat)
    requires 0 < bits <= 64 && bits <= 7 * limit && size < limit && 7 * size < bits
    requires acc < Pow2(7 * size) && total == w * Pow2(7 * size) + acc && total < Pow2(bits)
    requires pos + |VarBytes(w)| <= |data| && data[pos..pos + |VarBytes(w)|] == VarBytes(w)
    ensures acc < Pow2(bits)
    ensures ReadVarFrom(data, pos, acc, size, bits, limit) == VarOk(ToSigned(total, Pow2(bits)), pos + |VarBytes(w)|)
    decreases w
  {
    if w < 128 {
      ReadVarLastGroup(data, pos, w, acc, size, bits, limit);
    } else {
      ReadVarNextGroup(data, pos, w, acc, size, bits, limit);
      var acc' := ShiftIn(acc, data[pos], size, bits);
      ReadVarBytesFrom(data, pos + 1, w / 128, acc', size + 1, bits, limit, total);
      ReadVarContinue(data, pos, acc, size, bits, limit, total, pos + |VarBytes(w)|);
    }
  }

  /// A read from an empty accumulator gives back the bytes `VarBytes(w)`.
  lemma {:induction false} ReadVarBytes(data: seq<byte>, pos: nat, w: nat, bits: nat, limit: nat)
    requires 0 < bits <= 64 && bits <= 7 * limit && 0 < limit && w < Pow2(bits)
    requires pos + |VarBytes(w)| <= |data| && data[pos..pos + |VarBytes(w)|] == VarBytes(w)
    ensures ReadVarFrom(data, pos, 0, 0, bits, limit) == VarOk(ToSigned(w, Pow2(bits)), pos + |VarBytes(w)|)
  {
    var one := Pow2(7 * 0);
    assert one == 1;
    assert w == w * one + 0;
    ReadVarBytesFrom(data, pos, w, 0, 0, bits, limit, w);
  }

  /// `VarBytes(w)` reads back as a 32-bit varint.
  lemma {:induction false} ReadVarBytes32(data: seq<byte>, pos: nat, w: nat)
    requires w < U32_MOD
    requires pos + |VarBytes(w)| <= |data| && data[pos..pos + |VarBytes(w)|] == VarBytes(w)
    ensures ReadVarFrom(data, pos, 0, 0, 32, 5) == VarOk(ToSigned(w, U32_MOD), pos + |VarBytes(w)|)
  {
    Pow2Of32();
    ReadVarBytes(data, pos, w, 32, 5);
  }

  /// `VarBytes(w)` reads back as a 64-bit varint.
  lemma {:induction false} ReadVarBytes64(data: seq<byte>, pos: nat, w: nat)
    requires w < U64_MOD
    requires pos + |VarBytes(w)| <= |data| && data[pos..pos + |VarBytes(w)|] == VarBytes(w)
    ensures ReadVarFrom(data, pos, 0, 0, 64, 10) == VarOk(ToSigned(w, U64_MOD), pos + |VarBytes(w)|)
  {
    Pow2Of64();
    ReadVarBytes(data, pos, w, 64, 10);
  }

  lemma {:induction false} AtLeastOneMoreGroup(q: nat, p: nat, a: nat, m: nat)
    requires q >= 1 && q * p + a < m
    ensures p < m
  {
  }

  /// `read_var_i32` gives back any value below 2^32 written by `VarBytes`,
  /// reinterpreted as an `i32`.
  lemma {:induction false} ReadVarI32OfVarBytes(v: nat, rest: seq<byte>)
    requires v < U32_MOD
    ensures ReadVarI32(VarBytes(v) + rest, 0) == VarOk(ToSigned(v, U32_MOD), |VarBytes(v)|)
  {
    Pow2Facts();
    var data := VarBytes(v) + rest;
    assert data[0..|VarBytes(v)|] == VarBytes(v);
    ReadVarBytesFrom(data, 0, v, 0, 0, 32, 5, v);
  }

  /// `read_var_i64` gives back any value below 2^64 written by `VarBytes`.
  lemma {:induction false} ReadVarI64OfVarBytes(v: nat, rest: seq<byte>)
    requires v < U64_MOD
    ensures ReadVarI64(VarBytes(v) + rest, 0) == VarOk(ToSigned(v, U64_MOD), |VarBytes(v)|)
  {
    Pow2Facts();
    var data := VarBytes(v) + rest;
    assert data[0..|VarBytes(v)|] == VarBytes(v);
    ReadVarBytesFrom(data, 0, v, 0, 0, 64, 10, v);
  }

  // ---------------------------------------------------------------------
  // The encoding loop as the writer runs it on a signed value
  // ---------------------------------------------------------------------

  /// `value >>= 7` on a signed integer: an arithmetic shift, i.e. division
  /// rounding toward negative infinity (Dafny's `/` by a positive divisor).
  function ArithShift7(v: int): int
  {
    v / 128
  }

  /// The value after `k` turns of the encoding loop.
  function ShiftedBy(v: int, k: nat): int
  {
    if k == 0 then v else ArithShift7(ShiftedBy(v, k - 1))
  }

  /// The loop leaves only when the shifted value is 0; from a negative start
  /// the arithmetic shift stays negative, so it never leaves.
  lemma {:induction false} NegativeNeverReachesZero(v: int, k: nat)
    requires v < 0
    ensures ShiftedBy(v, k) < 0
  {
    if k > 0 {
      NegativeNeverReachesZero(v, k - 1);
    }
  }

  /// From a non-negative start the loop leaves after |VarBytes(v)| turns.
  lemma {:induction false} NonNegativeReachesZero(v: nat)
    ensures ShiftedBy(v, |VarBytes(v)|) == 0
    ensures forall k :: 0 <= k < |VarBytes(v)| ==> ShiftedBy(v, k) > 0 || (k == 0 && v == 0)
    decreases v
  {
    if v / 128 != 0 {
      NonNegativeReachesZero(v / 128);
      ShiftedByFirst(v, |VarBytes(v / 128)|);
      forall k | 0 <= k < |VarBytes(v)|
        ensures ShiftedBy(v, k) > 0
      {
        if k > 0 {
          ShiftedByFirst(v, k - 1);
        }
      }
    }
  }

  lemma {:induction false} ShiftedByFirst(v: int, k: nat)
    ensures ShiftedBy(v, k + 1) == ShiftedBy(ArithShift7(v), k)
  {
    if k > 0 {
      ShiftedByFirst(v, k - 1);
    }
  }

  /// The `k`-th byte the loop emits for a non-negative value: the low seven
  /// bits of the value shifted `k` times, with 0x80 while bits remain.
  lemma {:induction false} VarBytesAt(v: nat, k: nat)
    requires k < |VarBytes(v)|
    ensures VarBytes(v)[k] == ShiftedBy(v, k) % 128 + (if ShiftedBy(v, k + 1) != 0 then 128 else 0)
    decreases v
  {
    ShiftedByFirst(v, k);
    if k > 0 {
      VarBytesAt(v / 128, k - 1);
      ShiftedByFirst(v, k - 1);
    }
  }

  /// A value below 2^(7k) takes at most `k` bytes.
  lemma {:induction false} VarBytesShort(v: nat, k: nat)
    requires k >= 1 && v < Pow2(7 * k)
    ensures |VarBytes(v)| <= k
    decreases k
  {
    if v / 128 != 0 {
      Pow2Of8();
      Pow2Add(7, 7 * (k - 1));
      if k > 1 {
        VarBytesShort(v / 128, k - 1);
      }
    }
  }

  /// Every 64-bit pattern takes at most ten bytes.
  lemma {:induction false} VarBytesOf64(v: nat)
    requires v < U64_MOD
    ensures |VarBytes(v)| <= 10
  {
    Pow2Facts();
    Pow2Monotone(64, 70);
    VarBytesShort(v, 10);
  }

  /// `var_i32_to_bytes` / `var_i64_to_bytes` (shen-nbt5/src/writer.rs:352-384),
  /// and the loop of `zigzag_var_i32_to_bytes` / `zigzag_var_i64_to_bytes`
  /// (386-418) on the mapped value, run for at most `budget` turns: `done`
  /// says whether the loop left within them. It only leaves once the
  /// arithmetic shift reaches 0, so for a negative value it never does.
  method VarToBytes(value: int, budget: nat) returns (out: seq<byte>, done: bool)
    ensures value >= 0 && budget >= |VarBytes(value)| ==> done
    ensures done ==> value >= 0 && out == VarBytes(value)
    ensures value < 0 ==> !done && |out| == budget
  {
    var v := value;
    var turns := 0;
    out := [];
    done := false;
    while turns < budget && !done
      invariant turns <= budget && v == ShiftedBy(value, turns) && |out| == turns
      invariant value >= 0 ==> turns <= |VarBytes(value)| && out == VarBytes(value)[..turns]
      invariant done <==> turns > 0 && v == 0
      invariant value < 0 ==> !done
      invariant value >= 0 ==> (done <==> turns == |VarBytes(value)|)
    {
      var temp := v % 128;
      v := v / 128;
      if v != 0 {
        temp := temp + 128;
      }
      if value >= 0 {
        VarBytesAt(value, turns);
        NonNegativeReachesZero(value);
      } else {
        NegativeNeverReachesZero(value, turns + 1);
      }
      out := out + [temp];
      turns := turns + 1;
      done := v == 0;
    }
    if value >= 0 && done {
      NonNegativeReachesZero(value);
      assert out == VarBytes(value);
    }
  }

  // ---------------------------------------------------------------------
  // Zigzag
  // ---------------------------------------------------------------------

  /// The zigzag number of `v`: 0, -1, 1, -2, ... become 0, 1, 2, 3, ...
  function ZigZag(v: int): (z: nat)
  {
    if v >= 0 then 2 * v else -2 * v - 1
  }

  /// The inverse of `ZigZag` on unsigned numbers (a logical shift).
  function UnZigZag(z: nat): int
  {
    if z % 2 == 0 then z / 2 else -((z + 1) / 2)
  }

  /// `(value >> 1) ^ (-(value & 1))` on a signed value, as the readers
  /// write it: the shift is arithmetic.
  function ZigDecodeSigned(x: int): int
  {
    if x % 2 == 0 then x / 2 else -(x / 2) - 1
  }

  /// `(value << 1) ^ (value >> 31)` on an `i32`: the zigzag number,
  /// reinterpreted as an `i32` (negative once it reaches 2^31).
  function ZigEncodeI32(v: int): int
    requires IsI32(v)
  {
    ToSigned(ZigZag(v), U32_MOD)
  }

  /// `(value << 1) ^ (value >> 63)` on an `i64`.
  function ZigEncodeI64(v: int): int
    requires IsI64(v)
  {
    ToSigned(ZigZag(v), U64_MOD)
  }

  lemma {:induction false} ZigZagRoundTrip(v: int)
    ensures UnZigZag(ZigZag(v)) == v
  {
  }

  /// The readers' arithmetic-shift decoding agrees with the logical one on
  /// non-negative input, and maps 0, 1, 2, 3 to 0, -1, 1, -2.
  lemma {:induction false} ZigDecodeSignedAgrees(x: int)
    requires x >= 0
    ensures ZigDecodeSigned(x) == UnZigZag(x)
    ensures ZigDecodeSigned(0) == 0 && ZigDecodeSigned(1) == -1
    ensures ZigDecodeSigned(2) == 1 && ZigDecodeSigned(3) == -2
  {
  }

  /// The writer's mapped `i32` is non-negative exactly for -2^30 <= v < 2^30.
  lemma {:induction false} ZigEncodeI32Sign(v: int)
    requires IsI32(v)
    ensures ZigEncodeI32(v) >= 0 <==> -0x4000_0000 <= v < 0x4000_0000
  {
  }

  /// The writer's mapped `i64` is non-negative exactly for -2^62 <= v < 2^62.
  lemma {:induction false} ZigEncodeI64Sign(v: int)
    requires IsI64(v)
    ensures ZigEncodeI64(v) >= 0 <==> -0x4000_0000_0000_0000 <= v < 0x4000_0000_0000_0000
  {
  }
}
