/// Three defects of `read_write::read` as written, each shown on a concrete
/// source read by a host whose byte order is the NBT order (so no byte is
/// swapped), next to the corrected reader on the same source.
module CppReadFindings {
  import opened NbtBase
  import opened CppSwap
  import opened CppRead
  import CppReadSafety

  const AS_WRITTEN := Config(Big, Big, AsWritten)
  const CORRECTED := Config(Big, Big, Corrected)

  /// With equal byte orders a swap changes nothing.
  lemma {:induction false} Unswapped(s: seq<byte>, p: nat, w: nat)
    requires p + w <= |s|
    ensures Swapped(s, p, w, false) == s
  {
    assert forall i | 0 <= i < |s| :: Swapped(s, p, w, false)[i] == s[i];
  }

  /// Zero bytes decode to 0 in either order, signed or not.
  lemma {:induction false} ZeroBytes(bs: seq<byte>)
    requires forall i | 0 <= i < |bs| :: bs[i] == 0
    ensures BeUnsigned(bs) == 0 && LeUnsigned(bs) == 0
    ensures |bs| > 0 ==> Decode(bs, Big, true) == 0 && Decode(bs, Big, false) == 0
    decreases |bs|
  {
    if bs != [] {
      ZeroBytes(bs[..|bs| - 1]);
      ZeroBytes(bs[1..]);
    }
  }

  /// The root Compound with an empty name, read up to its first member.
  lemma {:induction false} CompoundRoot(c: Config, s: seq<byte>)
    requires c.order == Big && c.native == Big && |s| >= 3 && s[..3] == [TAG_COMPOUND, 0, 0]
    ensures Start(c, s) == Running(Machine(s, 3, 3, [Cache(0, true, 0, 0, 0)], 0, 0, |s| / 32 + 4, CompItem))
  {
    ZeroBytes(s[1..3]);
    Unswapped(s, 1, 2);
  }

  /// A member with an empty name: its tag is read, its name length stays
  /// in place, and the cursor moves past the name.
  lemma {:induction false} EmptyName(c: Config, m: Machine)
    requires Wf(m) && m.at == CompItem && c.order == Big && c.native == Big
    requires 0 <= m.pos && m.pos + 3 <= |m.buf| && m.readed + 3 <= |m.buf| < U64_MOD && m.buf[m.pos] != TAG_END
    requires m.buf[m.pos + 1] == 0 && m.buf[m.pos + 2] == 0
    ensures CompoundMember(c, m) == MemberValue(c, m.(pos := m.pos + 3, readed := m.readed + 3), m.buf[m.pos])
  {
    var m1 := m.(pos := m.pos + 1, readed := m.readed + 1);
    assert Bound(|m.buf|, Add(m.readed, 1)) == Go(m.readed + 1);
    assert ByteAt(m.buf, m.pos) == Go(m.buf[m.pos]);
    assert CompoundMember(c, m) == MemberName(c, m1, m.buf[m.pos]);
    EmptyNameSkipped(c, m1, m.buf[m.pos]);
  }

  /// The name length 0, read in the host's own order, leaves the bytes
  /// alone and skips no name.
  lemma {:induction false} EmptyNameSkipped(c: Config, m: Machine, id: byte)
    requires Wf(m) && c.order == Big && c.native == Big
    requires 0 <= m.pos && m.pos + 2 <= |m.buf| && m.readed + 2 <= |m.buf| < U64_MOD
    requires m.buf[m.pos] == 0 && m.buf[m.pos + 1] == 0
    ensures MemberName(c, m, id) == MemberValue(c, m.(pos := m.pos + 2, readed := m.readed + 2), id)
  {
    var at, n := m.pos, |m.buf|;
    ZeroBytes(m.buf[at..at + 2]);
    Unswapped(m.buf, at, 2);
    assert Bound(n, Add(m.readed, 2)) == Go(m.readed + 2);
    assert Get(m.buf, at, 2, c.order, false) == Go(0);
    assert Bound(n, Add(m.readed + 2, 0)) == Go(m.readed + 2);
    assert m.(pos := m.pos + 2, readed := m.readed + 2)
        == m.(buf := Swapped(m.buf, at, 2, c.order != c.native), pos := at + 2 + 0, readed := m.readed + 2);
  }

  /// The tag byte 0 closes the Compound.
  lemma {:induction false} EndTag(c: Config, m: Machine)
    requires Wf(m) && m.at == CompItem
    requires 0 <= m.pos < |m.buf| && m.readed + 1 <= |m.buf| < U64_MOD && m.buf[m.pos] == TAG_END
    ensures CompoundMember(c, m) == Close(m.(pos := m.pos + 1, readed := m.readed + 1))
  {
  }

  // A LongArray member of length 0 is the last member of the root.

  const EMPTY_LONG_ARRAY: seq<byte> := [TAG_COMPOUND, 0, 0, TAG_LONG_ARRAY, 0, 0, 0, 0, 0, 0, TAG_END]

  const LONG_ARRAY_MEMBER := Machine(EMPTY_LONG_ARRAY, 6, 6, [Cache(0, true, 0, 0, 0)], 0, 0, 4, CompItem)

  lemma {:induction false} EmptyLongArrayRead(c: Config)
    requires c.order == Big && c.native == Big
    ensures Step(c, Machine(EMPTY_LONG_ARRAY, 3, 3, [Cache(0, true, 0, 0, 0)], 0, 0, 4, CompItem))
            == Running(LONG_ARRAY_MEMBER.(pos := if c.variant == AsWritten then 14 else 10, readed := 10))
  {
    var s := EMPTY_LONG_ARRAY;
    EmptyName(c, Machine(s, 3, 3, [Cache(0, true, 0, 0, 0)], 0, 0, 4, CompItem));
    ZeroBytes(s[6..10]);
    Unswapped(s, 6, 4);
  }

  /// As written, the cursor lands 4 bytes past the source after an empty
  /// LongArray, and the next read is outside the buffer.
  lemma {:induction false} LongArraySkipsPastEnd()
    ensures Read(AS_WRITTEN, EMPTY_LONG_ARRAY, 2) == Overran
  {
    CompoundRoot(AS_WRITTEN, EMPTY_LONG_ARRAY);
    EmptyLongArrayRead(AS_WRITTEN);
  }

  /// Corrected, the same source is read whole.
  lemma {:induction false} LongArrayReadWhole()
    ensures Read(CORRECTED, EMPTY_LONG_ARRAY, 2)
            == Done(Document(EMPTY_LONG_ARRAY, [Store(1, 11)], 4))
  {
    CompoundRoot(CORRECTED, EMPTY_LONG_ARRAY);
    EmptyLongArrayRead(CORRECTED);
    EndTag(CORRECTED, LONG_ARRAY_MEMBER.(pos := 10, readed := 10));
  }

  // Five nested Compounds in a 20-byte source, whose mark array starts
  // with room for 20 / 32 + 4 == 4 marks.

  const NESTED: seq<byte> := [TAG_COMPOUND, 0, 0, TAG_COMPOUND, 0, 0, TAG_COMPOUND, 0, 0, TAG_COMPOUND, 0, 0,
                              TAG_COMPOUND, 0, 0, TAG_END, TAG_END, TAG_END, TAG_END, TAG_END]

  /// The frames of `depth` nested Compounds, all open.
  function Chain(depth: nat): (r: seq<Mark>)
    requires depth >= 1
    ensures |r| == depth
  {
    if depth == 1 then [Cache(0, true, 0, 0, 0)] else Chain(depth - 1) + [Cache(1, true, 0, 0, 0)]
  }

  lemma {:induction false} ChainOpen(depth: nat)
    requires depth >= 1
    ensures OpenChain(Chain(depth), depth - 1)
    ensures forall j | 0 <= j < depth :: Chain(depth)[j].Cache? && Chain(depth)[j].isCompound
  {
    if depth > 1 {
      ChainOpen(depth - 1);
      ChainKept(Chain(depth - 1), Chain(depth), depth - 2);
    }
  }

  /// The machine after `depth` nested Compounds are open.
  function Nested(depth: nat, capacity: nat): Machine
    requires 1 <= depth
  {
    Machine(NESTED, 3 * depth, 3 * depth, Chain(depth), depth - 1, if depth == 1 then 0 else depth - 2, capacity, CompItem)
  }

  /// A Compound member opens the next frame.
  lemma {:induction false} NestedOpens(c: Config, depth: nat, capacity: nat)
    requires c.order == Big && c.native == Big && 1 <= depth <= 4 && 2 <= capacity && depth <= capacity
    ensures Wf(Nested(depth, capacity))
    ensures Step(c, Nested(depth, capacity)) == Push(c, Nested(depth, capacity).(pos := 3 * depth + 3, readed := 3 * depth + 3), true)
  {
    ChainOpen(depth);
    EmptyName(c, Nested(depth, capacity));
  }

  /// Each push of the as-written reader below the allocation, and the
  /// corrected reader's push at the allocation, which grows it by half.
  lemma {:induction false} NestedPush(c: Config, depth: nat, capacity: nat)
    requires c.order == Big && c.native == Big && 1 <= depth <= 4 && 2 <= capacity
    requires depth < capacity || (depth == capacity && c.variant == Corrected)
    ensures Wf(Nested(depth, capacity))
    ensures var grown := if depth == capacity then capacity + capacity / 2 else capacity;
            Push(c, Nested(depth, capacity).(pos := 3 * depth + 3, readed := 3 * depth + 3), true)
            == Running(Nested(depth + 1, grown))
  {
    ChainOpen(depth);
  }

  /// The first three nested Compounds open alike in both readers.
  lemma {:induction false} ThreeOpen(c: Config)
    requires c.order == Big && c.native == Big
    ensures Read(c, NESTED, 4) == Run(c, Nested(4, 4), 1)
  {
    CompoundRoot(c, NESTED);
    assert Start(c, NESTED) == Running(Nested(1, 4));
    NestedOpens(c, 1, 4);
    NestedPush(c, 1, 4);
    RunStep(c, Nested(1, 4), Nested(2, 4), 4);
    NestedOpens(c, 2, 4);
    NestedPush(c, 2, 4);
    RunStep(c, Nested(2, 4), Nested(3, 4), 3);
    NestedOpens(c, 3, 4);
    NestedPush(c, 3, 4);
    RunStep(c, Nested(3, 4), Nested(4, 4), 2);
  }

  /// As written, the fifth frame is due at index 4 of a 4-mark array, which
  /// is not grown first: the mark is written outside the allocation.
  lemma {:induction false} MarkArrayOverrun()
    ensures Read(AS_WRITTEN, NESTED, 4) == MarkOverran
  {
    ThreeOpen(AS_WRITTEN);
    NestedOpens(AS_WRITTEN, 4, 4);
  }

  /// Corrected, the array grows to 6 marks before the fifth frame.
  lemma {:induction false} MarkArrayGrows()
    ensures Read(CORRECTED, NESTED, 4) == Running(Nested(5, 6))
  {
    ThreeOpen(CORRECTED);
    NestedOpens(CORRECTED, 4, 4);
    NestedPush(CORRECTED, 4, 4);
    RunStep(CORRECTED, Nested(4, 4), Nested(5, 6), 1);
  }

  // A ByteArray member whose stated length is -7, the last 4 bytes of the
  // source: 6 + 4 - 7 is the position of the member's own tag.

  const NEGATIVE_LENGTH: seq<byte> := [TAG_COMPOUND, 0, 0, TAG_BYTE_ARRAY, 0, 0, 0xFF, 0xFF, 0xFF, 0xF9]

  const AT_MEMBER := Machine(NEGATIVE_LENGTH, 3, 3, [Cache(0, true, 0, 0, 0)], 0, 0, 4, CompItem)

  lemma {:induction false} MinusSeven()
    ensures Decode(NEGATIVE_LENGTH[6..10], Big, true) == -7
  {
    var bs := NEGATIVE_LENGTH[6..10];
    assert bs == [0xFF, 0xFF, 0xFF, 0xF9];
    BeUnsignedAppend([], 0xFF);
    assert [] + [0xFF as byte] == [0xFF];
    BeUnsignedAppend([0xFF], 0xFF);
    assert [0xFF as byte] + [0xFF as byte] == [0xFF, 0xFF];
    BeUnsignedAppend([0xFF, 0xFF], 0xFF);
    assert [0xFF as byte, 0xFF] + [0xFF as byte] == [0xFF, 0xFF, 0xFF];
    BeUnsignedAppend([0xFF, 0xFF, 0xFF], 0xF9);
    assert [0xFF as byte, 0xFF, 0xFF] + [0xF9 as byte] == bs;
    assert Pow256(4) == U32_MOD;
  }

  /// As written, the length is added to `readed_length` and to the cursor
  /// as it is, and both move back to where the member began: the step
  /// leaves the machine exactly as it found it.
  lemma {:induction false} NegativeLengthStalls()
    ensures Step(AS_WRITTEN, AT_MEMBER) == Running(AT_MEMBER)
  {
    var c, s := AS_WRITTEN, NEGATIVE_LENGTH;
    EmptyName(c, AT_MEMBER);
    MinusSeven();
    Unswapped(s, 6, 4);
    assert CheckPayload(c, s, 6, 6, TAG_BYTE_ARRAY) == Go(3);
  }

  /// So the as-written read of this source never ends, whatever the
  /// number of steps.
  lemma {:induction false} NegativeLengthNeverEnds(fuel: nat)
    ensures Read(AS_WRITTEN, NEGATIVE_LENGTH, fuel) == Running(AT_MEMBER)
  {
    CompoundRoot(AS_WRITTEN, NEGATIVE_LENGTH);
    NegativeLengthStalls();
    StalledRun(fuel);
  }

  lemma {:induction false} StalledRun(fuel: nat)
    requires Wf(AT_MEMBER) && Step(AS_WRITTEN, AT_MEMBER) == Running(AT_MEMBER)
    ensures Run(AS_WRITTEN, AT_MEMBER, fuel) == Running(AT_MEMBER)
    decreases fuel
  {
    if fuel > 0 {
      StalledRun(fuel - 1);
    }
  }

  /// Corrected, the negative length is refused.
  lemma {:induction false} NegativeLengthRefused()
    ensures Read(CORRECTED, NEGATIVE_LENGTH, 1) == Threw(Invalid)
  {
    var c, s := CORRECTED, NEGATIVE_LENGTH;
    CompoundRoot(c, s);
    EmptyName(c, AT_MEMBER);
    MinusSeven();
    assert CheckPayload(c, s, 6, 6, TAG_BYTE_ARRAY) == Stop(Threw(Invalid));
  }
}
