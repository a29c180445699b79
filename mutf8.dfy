/// The plain-ASCII test that the modified-UTF-8 decoder uses to take its
/// fast path (shen-nbt6/src/mutf8.rs).
module Nbt6Mutf8 {
  import opened NbtBase

  /// `is_plain_ascii`: scan the bytes in order and stop at the first one
  /// whose bit 7 is set.
  function IsPlainAscii(s: seq<byte>): bool
  {
    if s == [] then true
    else if s[0] >= 0x80 then false
    else IsPlainAscii(s[1..])
  }

  /// The scan answers true exactly when every byte is at most 0x7F, i.e.
  /// false exactly when some byte has bit 7 set.
  lemma {:induction false} PlainAsciiIffAllLow(s: seq<byte>)
    ensures IsPlainAscii(s) <==> forall i :: 0 <= i < |s| ==> s[i] <= 0x7F
    ensures !IsPlainAscii(s) <==> exists i :: 0 <= i < |s| && s[i] >= 0x80
  {
    if s != [] && s[0] < 0x80 {
      PlainAsciiIffAllLow(s[1..]);
      assert forall i :: 1 <= i < |s| ==> s[i] == s[1..][i - 1];
    }
  }

  lemma {:induction false} EmptyIsPlainAscii()
    ensures IsPlainAscii([])
  {
  }

  /// A concatenation is plain ASCII exactly when both halves are.
  lemma {:induction false} PlainAsciiAppend(a: seq<byte>, b: seq<byte>)
    ensures IsPlainAscii(a + b) == (IsPlainAscii(a) && IsPlainAscii(b))
  {
    PlainAsciiIffAllLow(a);
    PlainAsciiIffAllLow(b);
    PlainAsciiIffAllLow(a + b);
    if IsPlainAscii(a) && IsPlainAscii(b) {
      forall i | 0 <= i < |a + b| ensures (a + b)[i] <= 0x7F {
        if i >= |a| { assert (a + b)[i] == b[i - |a|]; }
      }
    }
    if IsPlainAscii(a + b) {
      forall i | 0 <= i < |a| ensures a[i] <= 0x7F {
        assert (a + b)[i] == a[i];
      }
      forall i | 0 <= i < |b| ensures b[i] <= 0x7F {
        assert (a + b)[|a| + i] == b[i];
      }
    }
  }
}
