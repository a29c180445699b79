/// What the corrected bound-checked reader guarantees on every source
/// shorter than 2^63 bytes: it never touches a byte outside the source or a
/// mark outside the mark allocation, and it always ends, with a document or
/// with `eof` / `invalid`.
///
/// The proof keeps an invariant over the machine: `readed_length` never
/// passes the source length, and it runs ahead of `current_pos` by exactly
/// the scalar elements that the open List has counted but not yet reached.
/// Every step then either consumes bytes, counts an element, or closes a
/// frame, which bounds the number of steps.
module CppReadSafety {
  import opened NbtBase
  import opened CppSwap
  import opened CppRead

  /// The source lengths the theorems cover (any buffer a 64-bit process
  /// can hold).
  const SOURCE_LIMIT: nat := 0x8000_0000_0000_0000

  /// Elements an open List still has to read.
  function Left(f: Mark): nat
  {
    if f.Cache? && !f.isCompound && f.count <= f.total then f.total - f.count else 0
  }

  /// The bytes of scalar elements that the List `current` counted in
  /// `readed_length` when it began and has not yet reached.
  function Pending(m: Machine): nat
    requires m.current < |m.marks|
  {
    var f := m.marks[m.current];
    if f.Cache? then Left(f) * Width(f.listType) else 0
  }

  /// Elements left over all frames.
  function Remaining(marks: seq<Mark>): nat
  {
    if marks == [] then 0 else Remaining(marks[..|marks| - 1]) + Left(marks[|marks| - 1])
  }

  /// Frames still open.
  function Opened(marks: seq<Mark>): nat
  {
    if marks == [] then 0 else Opened(marks[..|marks| - 1]) + (if marks[|marks| - 1].Cache? then 1 else 0)
  }

  /// The invariant of the corrected machine: consistent frames and a
  /// cursor inside the bytes the bound checks have counted.
  predicate Inv(c: Config, m: Machine)
  {
    c.variant == Corrected && Frames(m) && Cursor(m)
  }

  /// The frames are well formed, no List has read more elements than it
  /// stated, and every open List but `current` holds Lists or Compounds.
  predicate Frames(m: Machine)
  {
    Wf(m)
    && (forall k | 0 <= k < |m.marks| && m.marks[k].Cache? :: m.marks[k].count <= m.marks[k].total)
    && (forall k | 0 <= k < |m.marks| && k != m.current && m.marks[k].Cache? && !m.marks[k].isCompound ::
          m.marks[k].listType == TAG_LIST || m.marks[k].listType == TAG_COMPOUND)
  }

  /// `readed_length` is within the source and ahead of `current_pos` by
  /// the pending scalar bytes.
  predicate Cursor(m: Machine)
    requires m.current < |m.marks|
  {
    |m.buf| < SOURCE_LIMIT && 0 <= m.pos && m.readed <= |m.buf| && m.pos + Pending(m) == m.readed
  }

  /// `b` is strictly closer to the end of the read than `a`: more bytes
  /// read, or as many and fewer elements left, or as many and fewer open
  /// frames.
  predicate Progress(a: Machine, b: Machine)
  {
    |b.buf| == |a.buf|
    && (b.readed > a.readed
        || (b.readed == a.readed
            && (Remaining(b.marks) < Remaining(a.marks)
                || (Remaining(b.marks) == Remaining(a.marks) && Opened(b.marks) < Opened(a.marks)))))
  }

  /// The outcome of a step from a machine that keeps the invariant.
  predicate Safe(c: Config, m: Machine, r: Outcome)
  {
    r.Done? || r.Threw? || (r.Running? && Inv(c, r.m) && Progress(m, r.m))
  }

  lemma {:induction false} Updated(a: seq<Mark>, k: nat, x: Mark)
    requires k < |a|
    ensures Remaining(a[k := x]) + Left(a[k]) == Remaining(a) + Left(x)
    ensures Opened(a[k := x]) + (if a[k].Cache? then 1 else 0) == Opened(a) + (if x.Cache? then 1 else 0)
    decreases |a|
  {
    var n := |a| - 1;
    if k < n {
      assert a[k := x][..n] == a[..n][k := x];
      Updated(a[..n], k, x);
    } else {
      assert a[k := x][..n] == a[..n];
    }
  }

  lemma {:induction false} Appended(a: seq<Mark>, x: Mark)
    ensures Remaining(a + [x]) == Remaining(a) + Left(x)
    ensures Opened(a + [x]) == Opened(a) + (if x.Cache? then 1 else 0)
  {
    assert (a + [x])[..|a|] == a;
  }

  lemma {:induction false} DecodeRange(bs: seq<byte>, e: Endian, signed: bool)
    requires |bs| > 0
    ensures signed ==> -(Pow256(|bs|) / 2) <= Decode(bs, e, signed) < Pow256(|bs|) / 2
    ensures !signed ==> 0 <= Decode(bs, e, signed) < Pow256(|bs|)
  {
  }

  /// A payload with its bound check consumes exactly the bytes it checked;
  /// a scalar element of a List moves the cursor by its width inside the
  /// bytes counted when the List began. Either way no byte outside the
  /// source is touched, and the only way out is an exception.
  lemma {:induction false} PayloadSafe(c: Config, m: Machine, tag: byte, checked: bool)
    requires c.variant == Corrected && SwappedTag(tag)
    requires 0 <= m.pos && m.readed <= |m.buf| < SOURCE_LIMIT
    requires checked ==> m.pos == m.readed
    requires !checked ==> tag <= 6 && m.pos + Width(tag) <= m.readed
    ensures var r := Payload(c, m, tag, checked);
            (r.Stop? ==> r.step.Threw?)
            && (r.Go? ==> r.value.readed <= |m.buf|
                          && (checked ==> r.value.pos == r.value.readed > m.readed)
                          && (!checked ==> r.value.pos == m.pos + Width(tag) && r.value.readed == m.readed))
  {
    if tag <= 6 {
    } else if tag == TAG_STRING {
      StringPayloadSafe(c, m);
    } else {
      ArrayPayloadSafe(c, m, tag);
    }
  }

  lemma {:induction false} StringPayloadSafe(c: Config, m: Machine)
    requires c.variant == Corrected
    requires 0 <= m.pos == m.readed <= |m.buf| < SOURCE_LIMIT
    ensures var r := Payload(c, m, TAG_STRING, true);
            (r.Stop? ==> r.step.Threw?)
            && (r.Go? ==> r.value.pos == r.value.readed && m.readed < r.value.readed <= |m.buf|)
  {
    var s, p := m.buf, m.pos;
    if p + 2 <= |s| {
      var len := Decode(s[p..p + 2], c.order, false);
      DecodeRange(s[p..p + 2], c.order, false);
      assert Pow256(2) == U16_MOD;
      SwapReadsNative(s, p, 2, c.order, c.native, false);
    }
  }

  lemma {:induction false} ArrayPayloadSafe(c: Config, m: Machine, tag: byte)
    requires c.variant == Corrected
    requires tag == TAG_BYTE_ARRAY || tag == TAG_INT_ARRAY || tag == TAG_LONG_ARRAY
    requires 0 <= m.pos == m.readed <= |m.buf| < SOURCE_LIMIT
    ensures var r := Payload(c, m, tag, true);
            (r.Stop? ==> r.step.Threw?)
            && (r.Go? ==> r.value.pos == r.value.readed && m.readed < r.value.readed <= |m.buf|)
  {
    var s, p := m.buf, m.pos;
    if p + 4 <= |s| {
      var len := Decode(s[p..p + 4], c.order, true);
      DecodeRange(s[p..p + 4], c.order, true);
      assert Pow256(4) == U32_MOD;
      SwapReadsNative(s, p, 4, c.order, c.native, true);
      var w := ElementWidth(tag);
      if len >= 0 {
        assert len * w <= 8 * len by {
          if tag == TAG_BYTE_ARRAY { } else if tag == TAG_INT_ARRAY { } else { }
        }
        assert w * len == len * w;
      }
    }
  }

  /// `list_general_begin` checks the header and the scalar payload, and the
  /// new List frame starts with all of its scalar bytes pending.
  lemma {:induction false} ListHeaderSafe(c: Config, m: Machine)
    requires c.variant == Corrected && m.current < |m.marks| && m.parent <= m.current
    requires 0 <= m.pos == m.readed <= |m.buf| < SOURCE_LIMIT
    ensures var r := ListHeader(c, m);
            (r.Stop? ==> r.step.Threw?)
            && (r.Go? ==> r.value.pos == m.pos + 5 && r.value.readed <= |m.buf|
                          && r.value.pos + r.value.marks[m.current].total * Width(m.buf[m.pos]) == r.value.readed)
  {
    var s, p := m.buf, m.pos;
    if p + 5 <= |s| {
      var len := Decode(s[p + 1..p + 5], c.order, false);
      DecodeRange(s[p + 1..p + 5], c.order, false);
      assert Pow256(4) == U32_MOD;
      var w := Width(s[p]);
      assert len * w <= 8 * len;
    }
  }

  /// The cursor of a machine that keeps the invariant moves to `pos` with
  /// `readed` bytes counted, the frames unchanged.
  lemma {:induction false} CursorMoved(c: Config, m: Machine, buf: seq<byte>, pos: int, readed: nat)
    requires Inv(c, m) && |buf| == |m.buf| && 0 <= pos && readed <= |buf| && pos + Pending(m) == readed
    ensures Inv(c, m.(buf := buf, pos := pos, readed := readed))
  {
  }

  /// A new Compound frame, pushed from a Compound or from a List of
  /// Compounds: the corrected array always has room for it.
  lemma {:induction false} PushCompoundSafe(c: Config, m: Machine)
    requires Inv(c, m) && Pending(m) == 0
    requires m.marks[m.current].isCompound || m.marks[m.current].listType == TAG_COMPOUND
    ensures var r := Push(c, m, true);
            r.Running? && Inv(c, r.m) && r.m.readed == m.readed && Remaining(r.m.marks) == Remaining(m.marks)
  {
    var r := Push(c, m, true);
    var index := |m.marks|;
    Appended(m.marks, Cache(index - m.current, true, 0, 0, 0));
    assert r.m.marks[..index] == m.marks;
    NestedKept(m, r.m);
  }

  /// A new List frame, pushed from a Compound or from a List of Lists.
  lemma {:induction false} PushListSafe(c: Config, m: Machine)
    requires Inv(c, m) && Pending(m) == 0
    requires m.marks[m.current].isCompound || m.marks[m.current].listType == TAG_LIST
    ensures var r := Push(c, m, false);
            r.Threw? || (r.Running? && Inv(c, r.m) && r.m.readed > m.readed)
  {
    var r := Push(c, m, false);
    var index := |m.marks|;
    var capacity := if index >= m.capacity then m.capacity + m.capacity / 2 else m.capacity;
    var m1 := m.(marks := m.marks + [Cache(index - m.current, false, 0, 0, 0)], current := index,
                 parent := m.current, capacity := capacity, at := CompItem);
    ListHeaderSafe(c, m1);
    var h := ListHeader(c, m1);
    if h.Go? {
      assert r == Running(h.value);
      assert Cursor(h.value);
      assert h.value.marks[..index] == m.marks;
      NestedKept(m, h.value);
    } else {
      assert r == h.step;
    }
  }

  /// The frames of `m` are kept in `b`, which adds one frame at the end and
  /// makes it current.
  lemma {:induction false} NestedKept(m: Machine, b: Machine)
    requires m.current < |m.marks| && |b.marks| == |m.marks| + 1 && b.current == |m.marks|
    requires b.marks[..|m.marks|] == m.marks && b.marks[b.current].Cache? && b.marks[b.current].count <= b.marks[b.current].total
    requires forall k | 0 <= k < |m.marks| && m.marks[k].Cache? :: m.marks[k].count <= m.marks[k].total
    requires forall k | 0 <= k < |m.marks| && k != m.current && m.marks[k].Cache? && !m.marks[k].isCompound ::
               m.marks[k].listType == TAG_LIST || m.marks[k].listType == TAG_COMPOUND
    requires m.marks[m.current].Cache?
    requires m.marks[m.current].isCompound || m.marks[m.current].listType in {TAG_LIST, TAG_COMPOUND}
    ensures forall k | 0 <= k < |b.marks| && b.marks[k].Cache? :: b.marks[k].count <= b.marks[k].total
    ensures forall k | 0 <= k < |b.marks| && k != b.current && b.marks[k].Cache? && !b.marks[k].isCompound ::
              b.marks[k].listType == TAG_LIST || b.marks[k].listType == TAG_COMPOUND
  {
    forall k | 0 <= k < |m.marks|
      ensures b.marks[k] == m.marks[k]
    {
      assert b.marks[..|m.marks|][k] == b.marks[k];
    }
  }

  /// Closing a frame with nothing left in it.
  lemma {:induction false} CloseSafe(c: Config, m: Machine)
    requires Inv(c, m) && Left(m.marks[m.current]) == 0
    ensures var r := Close(m);
            r.Done? || (r.Running? && Inv(c, r.m) && r.m.readed == m.readed
                        && Remaining(r.m.marks) == Remaining(m.marks) && Opened(r.m.marks) < Opened(m.marks))
  {
    var r := Close(m);
    Updated(m.marks, m.current, Store(|m.marks| - m.current, m.pos));
    if r.Running? {
      assert r.m.marks[r.m.current] == m.marks[m.parent];
    }
  }

  /// The value of a member: the invariant is kept and nothing is uncounted.
  lemma {:induction false} MemberValueSafe(c: Config, m: Machine, id: byte)
    requires Inv(c, m) && m.marks[m.current].isCompound
    ensures var r := MemberValue(c, m, id);
            r.Done? || r.Threw? || (r.Running? && Inv(c, r.m) && r.m.readed >= m.readed)
  {
    assert Pending(m) == 0;
    if SwappedTag(id) {
      PayloadSafe(c, m, id, true);
      var g := Payload(c, m, id, true);
      if g.Go? {
        CursorMoved(c, m, g.value.buf, g.value.pos, g.value.readed);
      }
    } else if id == TAG_LIST {
      PushListSafe(c, m);
    } else if id == TAG_COMPOUND {
      PushCompoundSafe(c, m);
    }
  }

  lemma {:induction false} CompoundMemberSafe(c: Config, m: Machine)
    requires Inv(c, m) && m.at == CompItem
    ensures Safe(c, m, CompoundMember(c, m))
  {
    var s, n := m.buf, |m.buf|;
    assert Pending(m) == 0;
    if m.readed + 1 <= n {
      var id := s[m.pos];
      var m1 := m.(pos := m.pos + 1, readed := m.readed + 1);
      CursorMoved(c, m, s, m1.pos, m1.readed);
      if id == 0 {
        assert CompoundMember(c, m) == Close(m1);
        CloseSafe(c, m1);
      } else {
        assert CompoundMember(c, m) == MemberName(c, m1, id);
        MemberNameSafe(c, m1, id);
      }
    }
  }

  lemma {:induction false} MemberNameSafe(c: Config, m: Machine, id: byte)
    requires Inv(c, m) && m.at == CompItem
    ensures var r := MemberName(c, m, id);
            r.Done? || r.Threw? || (r.Running? && Inv(c, r.m) && r.m.readed > m.readed)
  {
    var s, n, at := m.buf, |m.buf|, m.pos;
    assert Pending(m) == 0;
    if m.readed + 2 <= n {
      var nameLen := Decode(s[at..at + 2], c.order, false);
      DecodeRange(s[at..at + 2], c.order, false);
      assert Pow256(2) == U16_MOD;
      var r3 := m.readed + 2 + nameLen;
      assert Bound(n, Add(m.readed, 2)) == Go(m.readed + 2);
      assert Get(s, at, 2, c.order, false) == Go(nameLen);
      if r3 <= n {
        assert Bound(n, Add(m.readed + 2, nameLen)) == Go(r3);
        var b := Swapped(s, at, 2, c.order != c.native);
        var m1 := m.(buf := b, pos := r3, readed := r3);
        assert MemberName(c, m, id) == MemberValue(c, m1, id);
        CursorMoved(c, m, b, r3, r3);
        MemberValueSafe(c, m1, id);
      }
    }
  }

  /// Counting one more element of the List `current`.
  lemma {:induction false} ElementCounted(m: Machine)
    requires Frames(m) && m.at == ListItem
    requires m.marks[m.current].count < m.marks[m.current].total
    ensures var f := m.marks[m.current];
            var m1 := m.(marks := m.marks[m.current := f.(count := f.count + 1)]);
            Frames(m1) && Remaining(m1.marks) + 1 == Remaining(m.marks)
            && Pending(m1) + Width(f.listType) == Pending(m)
  {
    var f := m.marks[m.current];
    var next := f.(count := f.count + 1);
    ChainHeadReplaced(m.marks, m.current, next);
    Updated(m.marks, m.current, next);
    var w := Width(f.listType);
    assert Left(next) + 1 == Left(f);
    assert Left(next) * w + w == Left(f) * w;
  }

  lemma {:induction false} ListElementSafe(c: Config, m: Machine)
    requires Inv(c, m) && m.at == ListItem
    ensures Safe(c, m, ListElement(c, m))
  {
    var f := m.marks[m.current];
    if f.count >= f.total {
      CloseSafe(c, m);
    } else {
      var m1 := m.(marks := m.marks[m.current := f.(count := f.count + 1)]);
      ElementCounted(m);
      var t := f.listType;
      if SwappedTag(t) {
        PayloadSafe(c, m1, t, t >= TAG_BYTE_ARRAY);
        var g := Payload(c, m1, t, t >= TAG_BYTE_ARRAY);
        if g.Go? {
          assert ListElement(c, m) == Running(g.value);
          assert Frames(g.value);
        }
      } else if t == TAG_LIST {
        PushListSafe(c, m1);
      } else if t == TAG_COMPOUND {
        PushCompoundSafe(c, m1);
      }
    }
  }

  /// Every step of the corrected machine keeps the invariant, makes
  /// progress, and ends, if it ends, only with a document or an exception.
  lemma {:induction false} StepSafe(c: Config, m: Machine)
    requires Inv(c, m)
    ensures Safe(c, m, Step(c, m))
  {
    match m.at
      case CompItem => CompoundMemberSafe(c, m);
      case ListItem => ListElementSafe(c, m);
  }

  /// The start of the read: the root is refused, read whole, or leaves a
  /// machine that keeps the invariant.
  lemma {:induction false} StartSafe(c: Config, s: seq<byte>)
    requires c.variant == Corrected && |s| < SOURCE_LIMIT
    ensures var r := Start(c, s);
            r.Done? || r.Threw? || (r.Running? && Inv(c, r.m))
  {
    var n := |s|;
    if n < 1 {
      assert Start(c, s) == Threw(EndOfFile);
    } else if s[0] == TAG_END {
      assert Start(c, s) == Done(Document(s, [], 0));
    } else if n < 3 {
      assert Start(c, s) == Threw(EndOfFile);
    } else {
      var nameLen := Decode(s[1..3], c.order, false);
      DecodeRange(s[1..3], c.order, false);
      assert Pow256(2) == U16_MOD;
      var r2 := 3 + nameLen;
      if r2 <= n {
        var m := Machine(Swapped(s, 1, 2, c.order != c.native), 3 + nameLen, r2, [], 0, 0, n / 32 + 4, CompItem);
        assert Start(c, s) == RootValue(c, m, s[0]);
        RootValueSafe(c, m, s[0]);
      } else {
        assert Start(c, s) == Threw(EndOfFile);
      }
    }
  }

  lemma {:induction false} RootValueSafe(c: Config, m: Machine, tag: byte)
    requires c.variant == Corrected && m.marks == [] && m.current == 0 && m.parent == 0 && m.at == CompItem
    requires m.capacity >= 2 && 0 <= m.pos == m.readed <= |m.buf| < SOURCE_LIMIT
    ensures var r := RootValue(c, m, tag);
            r.Done? || r.Threw? || (r.Running? && Inv(c, r.m))
  {
    if SwappedTag(tag) {
      PayloadSafe(c, m, tag, true);
    } else if tag == TAG_LIST {
      var m1 := m.(marks := [Cache(0, false, 0, 0, 0)], at := ListItem);
      ListHeaderSafe(c, m1);
    }
  }

  /// From a machine that keeps the invariant, some number of steps ends
  /// the read with a document or an exception.
  lemma {:induction false} RunEnds(c: Config, m: Machine) returns (fuel: nat)
    requires Inv(c, m)
    ensures Run(c, m, fuel).Done? || Run(c, m, fuel).Threw?
    decreases |m.buf| - m.readed, Remaining(m.marks), Opened(m.marks)
  {
    StepSafe(c, m);
    var r := Step(c, m);
    if r.Running? {
      assert Inv(c, r.m) && Progress(m, r.m);
      var more := RunEnds(c, r.m);
      fuel := more + 1;
      assert Run(c, m, fuel) == Run(c, r.m, more);
    } else {
      fuel := 1;
    }
  }

  /// Whatever the fuel, the corrected machine is never caught in
  /// undefined behaviour.
  lemma {:induction false} RunDefined(c: Config, m: Machine, fuel: nat)
    requires Inv(c, m)
    ensures var r := Run(c, m, fuel); !r.Overran? && !r.MarkOverran?
    decreases fuel
  {
    if fuel > 0 {
      StepSafe(c, m);
      var r := Step(c, m);
      if r.Running? {
        RunDefined(c, r.m, fuel - 1);
      }
    }
  }

  /// The corrected `read` ends on every source, with a document or an
  /// exception.
  lemma {:induction false} ReadEnds(c: Config, s: seq<byte>) returns (fuel: nat)
    requires c.variant == Corrected && |s| < SOURCE_LIMIT
    ensures Read(c, s, fuel).Done? || Read(c, s, fuel).Threw?
  {
    StartSafe(c, s);
    var r := Start(c, s);
    if r.Running? {
      fuel := RunEnds(c, r.m);
    } else {
      fuel := 0;
    }
  }

  /// The corrected `read` never reads outside the source or writes outside
  /// the mark allocation.
  lemma {:induction false} ReadDefined(c: Config, s: seq<byte>, fuel: nat)
    requires c.variant == Corrected && |s| < SOURCE_LIMIT
    ensures var r := Read(c, s, fuel); !r.Overran? && !r.MarkOverran?
  {
    StartSafe(c, s);
    var r := Start(c, s);
    if r.Running? {
      RunDefined(c, r.m, fuel);
    }
  }
}
