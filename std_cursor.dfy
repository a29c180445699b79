/// The reads the `Cursor<&[u8]>` prototypes (src/data.rs, src/read.rs,
/// v1/src/data.rs) make: every value is read into a buffer of zeros by one
/// `Read::read`, whose count is discarded, so a read past the end of the
/// input leaves the missing bytes zero instead of failing.
module StdCursor {
  import opened NbtBase

  /// How many bytes one `read` at position `at` copies into a buffer of
  /// `n`: what is left of the input, up to `n`.
  function Available(data: seq<byte>, at: nat, n: nat): (k: nat)
    ensures k <= n
    ensures at + n <= |data| ==> k == n
    ensures at >= |data| ==> k == 0
    ensures at + k <= |data| || k == 0
  {
    if at >= |data| then 0 else if at + n <= |data| then n else |data| - at
  }

  /// The buffer of `n` zero bytes after one `read` at `at`.
  function Fill(data: seq<byte>, at: nat, n: nat): (r: seq<byte>)
    ensures |r| == n
  {
    var k := Available(data, at, n);
    (if k == 0 then [] else data[at..at + k]) + seq(n - k, _ => 0)
  }

  /// Each byte of the buffer is the input's byte at that place, or zero
  /// past the end.
  lemma FillIndex(data: seq<byte>, at: nat, n: nat, i: nat)
    requires i < n
    ensures Fill(data, at, n)[i] == if at + i < |data| then data[at + i] else 0
  {
  }

  /// `read_data!` of a `w`-byte integer (`from_i16`, `from_i32`,
  /// `from_i64`): `from_be_bytes` of the filled buffer, and the position
  /// after the read.
  function BeValue(data: seq<byte>, at: nat, w: nat): (r: (int, nat))
    requires w > 0
    ensures -(Pow256(w) / 2) <= r.0 < Pow256(w) / 2
    ensures r.1 == at + Available(data, at, w)
  {
    (BeSigned(Fill(data, at, w)), at + Available(data, at, w))
  }

  /// `read_data!` of a float (`from_f32`, `from_f64`): the bit pattern of
  /// the filled buffer.
  function BitsValue(data: seq<byte>, at: nat, w: nat): (r: (int, nat))
    requires w > 0
    ensures 0 <= r.0 < Pow256(w)
    ensures r.1 == at + Available(data, at, w)
  {
    (BeUnsigned(Fill(data, at, w)), at + Available(data, at, w))
  }

  /// `from_string`: a `w`-byte length read signed and cast to the unsigned
  /// type of the same width; an empty string for length 0, otherwise a
  /// buffer of that many zeros filled by one read.
  function TextValue(data: seq<byte>, at: nat, w: nat): (r: (seq<byte>, nat))
    requires w > 0
    ensures at <= r.1 && (r.1 <= |data| || r.1 == at)
  {
    var len := BeUnsigned(Fill(data, at, w));
    var p := at + Available(data, at, w);
    if len == 0 then ([], p) else (Fill(data, p, len), p + Available(data, p, len))
  }

  /// The string `from_string` reads is as long as its length, read signed
  /// and cast to the unsigned type of the same width, says.
  lemma TextLength(data: seq<byte>, at: nat, w: nat)
    requires w > 0
    ensures |TextValue(data, at, w).0| == ToUnsigned(BeValue(data, at, w).0, Pow256(w))
  {
    SignedBits(Fill(data, at, w));
  }

  /// The unsigned cast of a signed read is the unsigned read.
  lemma SignedBits(bs: seq<byte>)
    requires |bs| > 0
    ensures ToUnsigned(BeSigned(bs), Pow256(|bs|)) == BeUnsigned(bs)
  {
    SignedRoundTripBits(BeUnsigned(bs), Pow256(|bs|));
  }

  lemma SignedRoundTripBits(u: nat, modulus: nat)
    requires 2 <= modulus && modulus % 2 == 0 && u < modulus
    ensures ToUnsigned(ToSigned(u, modulus), modulus) == u
  {
  }

  /// `std::io::Cursor<&[u8]>`: the input and a position that reads move
  /// forward and `seek` moves back.
  class Cursor {
    const data: seq<byte>
    var pos: nat

    constructor (data: seq<byte>)
      ensures this.data == data && pos == 0
    {
      this.data := data;
      pos := 0;
    }

    /// `read` into a buffer of `n` zero bytes: the bytes that are left, up
    /// to `n`, are copied and passed over.
    method Read(n: nat) returns (buf: seq<byte>)
      modifies this
      ensures buf == Fill(data, old(pos), n)
      ensures pos == old(pos) + Available(data, old(pos), n)
    {
      var k := if pos >= |data| then 0 else if pos + n <= |data| then n else |data| - pos;
      buf := (if k == 0 then [] else data[pos..pos + k]) + seq(n - k, _ => 0);
      pos := pos + k;
    }

    /// `seek(SeekFrom::Current(-1))`: an error at position 0, otherwise one
    /// byte back.
    method SeekBack() returns (ok: bool)
      modifies this
      ensures ok <==> old(pos) > 0
      ensures pos == if ok then old(pos) - 1 else old(pos)
    {
      ok := pos > 0;
      if ok {
        pos := pos - 1;
      }
    }
  }

  /// `read_data!` of a `w`-byte integer.
  method ReadBe(c: Cursor, w: nat) returns (v: int)
    requires w > 0
    modifies c
    ensures (v, c.pos) == BeValue(c.data, old(c.pos), w)
  {
    var buf := c.Read(w);
    v := BeSigned(buf);
  }

  /// `read_data!` of a float.
  method ReadBits(c: Cursor, w: nat) returns (v: int)
    requires w > 0
    modifies c
    ensures (v, c.pos) == BitsValue(c.data, old(c.pos), w)
  {
    var buf := c.Read(w);
    v := BeUnsigned(buf);
  }

  /// `from_string` with a `w`-byte length.
  method ReadText(c: Cursor, w: nat) returns (s: seq<byte>)
    requires w > 0
    modifies c
    ensures (s, c.pos) == TextValue(c.data, old(c.pos), w)
  {
    var lenBuf := c.Read(w);
    var len := BeUnsigned(lenBuf);
    if len == 0 {
      return [];
    }
    s := c.Read(len);
  }

  /// Bytes that hold `a + b` hold `a`, then `b`.
  lemma SplitSlice(data: seq<byte>, at: nat, a: seq<byte>, b: seq<byte>)
    requires at + |a| + |b| <= |data| && data[at..at + |a| + |b|] == a + b
    ensures data[at..at + |a|] == a && data[at + |a|..at + |a| + |b|] == b
  {
    assert data[at..at + |a|] == data[at..at + |a| + |b|][..|a|];
    assert data[at + |a|..at + |a| + |b|] == data[at..at + |a| + |b|][|a|..];
  }

  /// Reads inside the input return its bytes.
  lemma FillWhole(data: seq<byte>, at: nat, n: nat)
    requires at + n <= |data|
    ensures Fill(data, at, n) == data[at..at + n]
  {
    if n > 0 {
      assert Available(data, at, n) == n;
      assert seq(0, _ => 0 as byte) == [];
    }
  }

  /// A short read leaves the missing bytes zero: `from_i32` on the single
  /// byte 0x12 reads 0x12000000 and passes the one byte.
  lemma ShortReadZeroFills()
    ensures BeValue([0x12], 0, 4) == (0x1200_0000, 1)
  {
    var buf := Fill([0x12], 0, 4);
    assert buf == [0x12, 0, 0, 0];
    WidthRanges();
    assert buf == BeBytes(0x1200_0000, 4);
    BeSignedRoundTrip(0x1200_0000, 4);
  }

  /// A value written big-endian in `w` bytes reads back.
  lemma BeValueReadsBack(data: seq<byte>, at: nat, v: int, w: nat)
    requires w > 0 && -(Pow256(w) / 2) <= v < Pow256(w) / 2
    requires at + w <= |data| && data[at..at + w] == BeBytes(ToUnsigned(v, Pow256(w)), w)
    ensures BeValue(data, at, w) == (v, at + w)
  {
    FillWhole(data, at, w);
    BeSignedRoundTrip(v, w);
  }

  /// A string behind a `w`-byte length that holds its size reads back.
  lemma TextReadsBack(data: seq<byte>, at: nat, s: seq<byte>, w: nat)
    requires w > 0 && |s| < Pow256(w)
    requires at + w + |s| <= |data| && data[at..at + w + |s|] == BeBytes(|s|, w) + s
    ensures TextValue(data, at, w) == (s, at + w + |s|)
  {
    SplitSlice(data, at, BeBytes(|s|, w), s);
    TextPartsReadBack(data, at, s, w);
  }

  /// The same, once the length and the string are known apart.
  lemma TextPartsReadBack(data: seq<byte>, at: nat, s: seq<byte>, w: nat)
    requires w > 0 && |s| < Pow256(w) && at + w + |s| <= |data|
    requires data[at..at + w] == BeBytes(|s|, w) && data[at + w..at + w + |s|] == s
    ensures TextValue(data, at, w) == (s, at + w + |s|)
  {
    LengthReadsBack(data, at, |s|, w);
    if |s| > 0 {
      FillWhole(data, at + w, |s|);
    }
    TextValueOf(data, at, w, s);
  }

  /// A length written big-endian in `w` bytes reads back whole.
  lemma LengthReadsBack(data: seq<byte>, at: nat, n: nat, w: nat)
    requires w > 0 && n < Pow256(w)
    requires at + w <= |data| && data[at..at + w] == BeBytes(n, w)
    ensures BeUnsigned(Fill(data, at, w)) == n && Available(data, at, w) == w
  {
    FillWhole(data, at, w);
    BeRoundTrip(n, w);
  }

  /// `from_string` once its length has been read whole and the string
  /// after it is in the input.
  lemma TextValueOf(data: seq<byte>, at: nat, w: nat, s: seq<byte>)
    requires w > 0 && BeUnsigned(Fill(data, at, w)) == |s| && Available(data, at, w) == w
    requires |s| > 0 ==> Fill(data, at + w, |s|) == s && Available(data, at + w, |s|) == |s|
    ensures TextValue(data, at, w) == (s, at + w + |s|)
  {
    if |s| == 0 {
      assert s == [];
    }
  }
}
