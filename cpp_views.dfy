/// The views of `CppIter` on the document `read` returns, tied to the
/// parser of `CppRead`: a byte the parser has passed is never changed
/// again and a closed mark never rewritten, so in the finished document a
/// Compound member of a scalar, String or array type has the name the file
/// gives it, its value reads in host order as the file states it in NBT
/// order, and the iterator's next member is where the parser went on.
/// Members of List or Compound type and List elements are not traced this
/// far.
module CppViews {
  import opened NbtBase
  import opened CppSwap
  import opened CppRead
  import opened CppIter
  import opened CppReadSafety

  // ---------------------------------------------------------------------
  // What a step leaves alone

  /// `t` is `s` with at most the bytes in `[p, q)` changed.
  predicate Touched(s: seq<byte>, t: seq<byte>, p: int, q: int)
  {
    |t| == |s| && forall i | 0 <= i < |s| && !(p <= i < q) :: t[i] == s[i]
  }

  /// Every closed frame of `a` is still in `b`, at its index.
  predicate StoresKept(a: seq<Mark>, b: seq<Mark>)
  {
    |a| <= |b| && forall j | 0 <= j < |a| && a[j].Store? :: b[j] == a[j]
  }

  /// From `a` to `b` the cursor has not gone back, only bytes between the
  /// two cursors have changed, and no closed frame has changed.
  predicate Kept(a: Machine, b: Machine)
  {
    a.pos <= b.pos && Touched(a.buf, b.buf, a.pos, b.pos) && StoresKept(a.marks, b.marks)
  }

  /// The document `d` ends a read that was at `a`: bytes before the cursor
  /// and closed frames are as they were.
  predicate KeptIn(a: Machine, d: Document)
  {
    Touched(a.buf, d.source, a.pos, |a.buf|) && StoresKept(a.marks, d.marks)
  }

  /// The outcome `r` of steps from `a` keeps what `a` had.
  predicate OutKept(a: Machine, r: Outcome)
  {
    (r.Running? ==> Kept(a, r.m)) && (r.Done? ==> KeptIn(a, r.doc))
  }

  /// What `b` keeps of `a` stays kept in an outcome that keeps `b`.
  lemma OutcomeKept(a: Machine, b: Machine, r: Outcome)
    requires Kept(a, b) && OutKept(b, r)
    ensures OutKept(a, r)
  {
  }

  /// Changes in `[a, b)` and then in `[x, y)`, with `a <= x` and `b <= y`,
  /// are changes in `[a, y)`.
  lemma TouchedTrans(s: seq<byte>, t: seq<byte>, u: seq<byte>, a: int, b: int, x: int, y: int)
    requires Touched(s, t, a, b) && Touched(t, u, x, y) && a <= x && b <= y
    ensures Touched(s, u, a, y)
  {
  }

  /// A swap changes only its own bytes.
  lemma SwappedTouches(s: seq<byte>, p: nat, w: nat, swap: bool)
    requires p + w <= |s|
    ensures Touched(s, Swapped(s, p, w, swap), p, p + w)
  {
  }

  /// An element loop changes only the elements it passes.
  lemma {:induction false} RunTouches(s: seq<byte>, p: int, count: nat, w: nat, swap: bool)
    requires w > 0 && SwapRun(s, p, count, w, swap).Pass?
    ensures Touched(s, SwapRun(s, p, count, w, swap).bytes, p, p + count * w)
    decreases count
  {
    if count > 0 {
      var s1 := Swapped(s, p as nat, w, swap);
      assert p + w + (count - 1) * w == p + count * w;
      RunTouches(s1, p + w, count - 1, w, swap);
    }
  }

  /// A read handler of the corrected parser whose array length is not
  /// negative changes only the payload it passes.
  lemma ReadSwapTouches(s: seq<byte>, tag: byte, p: int, order: Endian, native: Endian)
    requires SwappedTag(tag) && ReadSwap(s, tag, p, order, native, Corrected).Pass?
    requires tag >= TAG_BYTE_ARRAY && tag != TAG_STRING ==> StatedLength(s, tag, p, order) >= 0
    ensures var r := ReadSwap(s, tag, p, order, native, Corrected);
            p <= r.next && Touched(s, r.bytes, p, r.next)
  {
    var r := ReadSwap(s, tag, p, order, native, Corrected);
    if tag == TAG_STRING {
      SwapReadsNative(s, p as nat, 2, order, native, false);
      DecodeBounds(Swapped(s, p as nat, 2, order != native)[p..p + 2], native, false);
    } else if tag >= TAG_BYTE_ARRAY {
      ArrayPass(s, tag, p, order, native);
      if tag != TAG_BYTE_ARRAY && order != native {
        var s1 := Swapped(s, p as nat, 4, true);
        RunTouches(s1, p + 4, StatedLength(s, tag, p, order), ElementWidth(tag), true);
      }
    }
  }

  /// A payload the corrected parser passes changes only its own bytes and
  /// moves the cursor past them.
  lemma PayloadKept(c: Config, m: Machine, tag: byte, checked: bool)
    requires c.variant == Corrected && SwappedTag(tag) && Payload(c, m, tag, checked).Go?
    requires !checked ==> tag <= 6
    ensures Kept(m, Payload(c, m, tag, checked).value)
  {
    var s := m.buf;
    var p := m.pos;
    if tag >= TAG_BYTE_ARRAY && tag != TAG_STRING {
      assert checked;
      assert Get(s, p, 4, c.order, true).Go?;
    }
    ReadSwapTouches(s, tag, p, c.order, c.native);
  }

  /// `list_general_begin` swaps only the List's count, after the cursor.
  lemma ListHeaderKept(c: Config, m: Machine)
    requires m.current < |m.marks| && m.parent <= m.current && m.marks[m.current].Cache?
    requires ListHeader(c, m).Go?
    ensures Kept(m, ListHeader(c, m).value)
  {
    SwappedTouches(m.buf, m.pos + 1, 4, c.order != c.native);
  }

  /// A new frame keeps the bytes and the closed frames.
  lemma PushKept(c: Config, m: Machine, isCompound: bool)
    requires Wf(m) && Push(c, m, isCompound).Running?
    ensures Kept(m, Push(c, m, isCompound).m)
  {
    var m1 := Push(c, m, isCompound).m;
    assert m1.marks[..|m.marks|] == m.marks;
    assert forall j | 0 <= j < |m.marks| :: m1.marks[j] == m.marks[j];
    if !isCompound {
      var index := |m.marks|;
      var capacity := if index >= m.capacity then m.capacity + m.capacity / 2 else m.capacity;
      var a := m.(marks := m.marks + [Cache(index - m.current, false, 0, 0, 0)], current := index,
                  parent := m.current, capacity := capacity, at := CompItem);
      assert ListHeader(c, a).Go? && m1 == ListHeader(c, a).value;
      ListHeaderKept(c, a);
    }
  }

  /// Closing a frame writes only that frame, which was open.
  lemma CloseKept(m: Machine)
    requires Wf(m)
    ensures Close(m).Running? ==> Kept(m, Close(m).m)
    ensures Close(m).Done? ==> KeptIn(m, Close(m).doc)
  {
  }

  /// A member's value keeps what its payload handler or new frame keeps.
  lemma MemberValueKept(c: Config, m: Machine, id: byte)
    requires c.variant == Corrected && Wf(m) && MemberValue(c, m, id).Running?
    ensures Kept(m, MemberValue(c, m, id).m)
  {
    if SwappedTag(id) {
      PayloadKept(c, m, id, true);
    } else {
      PushKept(c, m, id == TAG_COMPOUND);
    }
  }

  /// A member's name: its length is swapped at the cursor and the name
  /// passed, then the value read.
  lemma MemberNameKept(c: Config, m: Machine, id: byte)
    requires c.variant == Corrected && Wf(m) && MemberName(c, m, id).Running?
    ensures Kept(m, MemberName(c, m, id).m)
  {
    var nameLen := Get(m.buf, m.pos, 2, c.order, false).value;
    DecodeBounds(m.buf[m.pos..m.pos + 2], c.order, false);
    var r3 := Bound(|m.buf|, Add(Bound(|m.buf|, Add(m.readed, 2)).value, nameLen)).value;
    var m2 := m.(buf := Swapped(m.buf, m.pos, 2, c.order != c.native), pos := m.pos + 2 + nameLen, readed := r3);
    assert MemberName(c, m, id) == MemberValue(c, m2, id);
    SwappedTouches(m.buf, m.pos, 2, c.order != c.native);
    MemberValueKept(c, m2, id);
  }

  /// `comp_item_begin` keeps what the member or the closing keeps.
  lemma CompoundMemberKept(c: Config, m: Machine)
    requires c.variant == Corrected && Wf(m)
    ensures CompoundMember(c, m).Running? ==> Kept(m, CompoundMember(c, m).m)
    ensures CompoundMember(c, m).Done? ==> KeptIn(m, CompoundMember(c, m).doc)
  {
    var r := CompoundMember(c, m);
    if r.Running? || r.Done? {
      var r1 := Bound(|m.buf|, Add(m.readed, 1)).value;
      var id := m.buf[m.pos];
      var m1 := m.(pos := m.pos + 1, readed := r1);
      if id == 0 {
        assert r == Close(m1);
        CloseKept(m1);
      } else {
        assert r == MemberName(c, m1, id);
        MemberNameKept(c, m1, id);
      }
    }
  }

  /// `list_item_begin` keeps what the element or the closing keeps.
  lemma ListElementKept(c: Config, m: Machine)
    requires c.variant == Corrected && Wf(m)
    ensures ListElement(c, m).Running? ==> Kept(m, ListElement(c, m).m)
    ensures ListElement(c, m).Done? ==> KeptIn(m, ListElement(c, m).doc)
  {
    var f := m.marks[m.current];
    if f.count >= f.total {
      CloseKept(m);
    } else {
      var m1 := m.(marks := m.marks[m.current := f.(count := f.count + 1)]);
      ChainHeadReplaced(m.marks, m.current, f.(count := f.count + 1));
      assert Wf(m1);
      var t := f.listType;
      var r := ListElement(c, m);
      if r.Running? && SwappedTag(t) {
        assert Payload(c, m1, t, t >= TAG_BYTE_ARRAY).Go?;
        PayloadKept(c, m1, t, t >= TAG_BYTE_ARRAY);
      } else if r.Running? && (t == TAG_LIST || t == TAG_COMPOUND) {
        PushKept(c, m1, t == TAG_COMPOUND);
      }
    }
  }

  /// One step keeps the bytes behind the cursor and the closed frames.
  lemma StepKept(c: Config, m: Machine)
    requires c.variant == Corrected && Wf(m)
    ensures OutKept(m, Step(c, m))
  {
    match m.at
      case CompItem => CompoundMemberKept(c, m);
      case ListItem => ListElementKept(c, m);
  }

  /// So do any number of steps, up to the document the read returns.
  lemma {:induction false} RunKept(c: Config, m: Machine, fuel: nat)
    requires c.variant == Corrected && Wf(m)
    ensures OutKept(m, Run(c, m, fuel))
    decreases fuel
  {
    if fuel > 0 {
      StepKept(c, m);
      var st := Step(c, m);
      if st.Running? {
        RunStep(c, m, st.m, fuel);
        RunKept(c, st.m, fuel - 1);
        OutcomeKept(m, st.m, Run(c, st.m, fuel - 1));
      }
    }
  }

  /// Before the first step the reader has swapped only the root name's
  /// length and, for a List root, its count; the root's payload begins
  /// after the name.
  lemma StartKept(c: Config, f: seq<byte>)
    requires Start(c, f).Running?
    ensures 3 <= |f| && f[0] != TAG_END
    ensures var len := Decode(f[1..3], c.order, false);
            var m0 := Start(c, f).m;
            3 + len <= m0.pos && Touched(Swapped(f, 1, 2, c.order != c.native), m0.buf, 3 + len, m0.pos)
  {
    var len := Decode(f[1..3], c.order, false);
    DecodeBounds(f[1..3], c.order, false);
    var m := Machine(Swapped(f, 1, 2, c.order != c.native), 3 + len, Bound(|f|, Add(3, len)).value, [], 0, 0, |f| / 32 + 4, CompItem);
    assert Start(c, f) == RootValue(c, m, f[0]);
    if f[0] == TAG_LIST {
      ListHeaderKept(c, m.(marks := [Cache(0, false, 0, 0, 0)], at := ListItem));
    }
  }

  /// Before the first step only bytes from the root name's length to the
  /// cursor have changed.
  lemma StartTouched(c: Config, f: seq<byte>)
    requires Start(c, f).Running?
    ensures 3 <= Start(c, f).m.pos && Touched(f, Start(c, f).m.buf, 1, Start(c, f).m.pos)
  {
    StartKept(c, f);
    var s1 := Swapped(f, 1, 2, c.order != c.native);
    SwappedTouches(f, 1, 2, c.order != c.native);
    var m0 := Start(c, f).m;
    TouchedTrans(f, s1, m0.buf, 1, 3, 3 + Decode(f[1..3], c.order, false), m0.pos);
  }

  /// The steps of a read are the steps of a run from its first machine.
  lemma ReadRuns(c: Config, f: seq<byte>, fuel: nat)
    requires Start(c, f).Running?
    ensures Read(c, f, fuel) == Run(c, Start(c, f).m, fuel)
  {
  }

  /// A machine the corrected read reaches after `n` steps of a read that
  /// ends with `doc` after `n + k`: the bytes ahead of its cursor are still
  /// the file's, and its `k` remaining steps end with the same document.
  lemma Reached(c: Config, f: seq<byte>, n: nat, m: Machine, fuel: nat, k: nat, doc: Document)
    requires c.variant == Corrected && Read(c, f, n) == Running(m) && fuel == n + k && Read(c, f, fuel) == Done(doc)
    ensures Wf(m) && Touched(f, m.buf, 1, m.pos) && Run(c, m, k) == Done(doc)
  {
    assert Start(c, f).Running?;
    var m0 := Start(c, f).m;
    ReadRuns(c, f, n);
    ReadRuns(c, f, fuel);
    StartTouched(c, f);
    ReachedFrom(c, f, m0, n, m, fuel, k, doc);
  }

  /// The same from the first machine of the read.
  lemma ReachedFrom(c: Config, f: seq<byte>, m0: Machine, n: nat, m: Machine, fuel: nat, k: nat, doc: Document)
    requires c.variant == Corrected && Wf(m0) && 1 <= m0.pos && Touched(f, m0.buf, 1, m0.pos)
    requires Run(c, m0, n) == Running(m) && fuel == n + k && Run(c, m0, fuel) == Done(doc)
    ensures Wf(m) && Touched(f, m.buf, 1, m.pos) && Run(c, m, k) == Done(doc)
  {
    RunKept(c, m0, n);
    assert Kept(m0, m);
    TouchedTrans(f, m0.buf, m.buf, 1, m0.pos, m0.pos, m.pos);
    RunSplit(c, m0, n, m, fuel, k);
  }

  /// A run that ends after a step that keeps running keeps what that
  /// step left behind its cursor.
  lemma StepThenDone(c: Config, m: Machine, m1: Machine, k: nat, doc: Document)
    requires c.variant == Corrected && Wf(m) && Step(c, m) == Running(m1)
    requires k >= 1 && Run(c, m, k) == Done(doc)
    ensures KeptIn(m1, doc)
  {
    RunStep(c, m, m1, k);
    RunKept(c, m1, k - 1);
  }

  /// After one more step that keeps running, the rest of the read keeps
  /// what that step left behind its cursor.
  lemma ReachedStep(c: Config, f: seq<byte>, n: nat, m: Machine, m1: Machine, fuel: nat, doc: Document)
    requires c.variant == Corrected && Read(c, f, n) == Running(m) && n < fuel && Read(c, f, fuel) == Done(doc)
    requires Step(c, m) == Running(m1)
    ensures Touched(f, m.buf, 1, m.pos) && KeptIn(m1, doc)
  {
    var k: nat := fuel - n;
    Reached(c, f, n, m, fuel, k, doc);
    StepThenDone(c, m, m1, k, doc);
  }

  // ---------------------------------------------------------------------
  // The root, from the file to the document

  /// Bytes that agree with the file with the root name's length swapped,
  /// up to the end of the name, hold the file's root tag, its name length
  /// in host order and its name.
  lemma RootHeaderKept(c: Config, f: seq<byte>, t: seq<byte>, len: int)
    requires 3 <= |f| && len == Decode(f[1..3], c.order, false) && 3 + len <= |f| == |t|
    requires forall i | 0 <= i < 3 + len :: t[i] == Swapped(f, 1, 2, c.order != c.native)[i]
    ensures t[0] == f[0] && Decode(t[1..3], c.native, false) == len && t[3..3 + len] == f[3..3 + len]
  {
    var s1 := Swapped(f, 1, 2, c.order != c.native);
    SwappedOutside(f, 1, 2, c.order != c.native, 0);
    forall i | 3 <= i < 3 + len
      ensures t[i] == f[i]
    {
      SwappedOutside(f, 1, 2, c.order != c.native, i);
    }
    assert t[1..3] == s1[1..3];
    SwapReadsNative(f, 1, 2, c.order, c.native, false);
  }

  /// The document the corrected read returns holds the file's root tag,
  /// name length and name up to the end of the name.
  lemma RootKept(c: Config, f: seq<byte>, fuel: nat, doc: Document)
    requires c.variant == Corrected && Read(c, f, fuel) == Done(doc) && 1 <= |f| && f[0] != TAG_END
    ensures 3 <= |f| && 3 + Decode(f[1..3], c.order, false) <= |f| == |doc.source|
    ensures forall i | 0 <= i < 3 + Decode(f[1..3], c.order, false) :: doc.source[i] == Swapped(f, 1, 2, c.order != c.native)[i]
  {
    assert 3 <= |f|;
    var len := Decode(f[1..3], c.order, false);
    DecodeBounds(f[1..3], c.order, false);
    var s1 := Swapped(f, 1, 2, c.order != c.native);
    if Start(c, f).Running? {
      var m0 := Start(c, f).m;
      StartKept(c, f);
      RunKept(c, m0, fuel);
      assert KeptIn(m0, doc);
    } else {
      var m := Machine(s1, 3 + len, Bound(|f|, Add(3, len)).value, [], 0, 0, |f| / 32 + 4, CompItem);
      assert Start(c, f) == RootValue(c, m, f[0]);
      assert SwappedTag(f[0]) && Payload(c, m, f[0], true).Go?;
      PayloadKept(c, m, f[0], true);
    }
  }

  /// `nbt_document_root_key` (as intended) and `nbt_document_root_value`
  /// on the document the corrected read returns: an End root has no name;
  /// any other root has the name the file gives it, and its value starts
  /// right after that name, with the first mark.
  lemma RootReadsAsFile(c: Config, f: seq<byte>, fuel: nat, doc: Document)
    requires c.variant == Corrected && Read(c, f, fuel) == Done(doc)
    ensures 1 <= |f|
    ensures f[0] == TAG_END ==> DocumentRootKey(doc, c.native) == Moved([])
    ensures f[0] != TAG_END ==> 3 <= |f| && 3 + Decode(f[1..3], c.order, false) <= |f|
    ensures f[0] != TAG_END ==>
              DocumentRootKey(doc, c.native) == Moved(f[3..3 + Decode(f[1..3], c.order, false)])
              && DocumentRootValue(doc, c.native) == Moved(Tag(0, 3 + Decode(f[1..3], c.order, false)))
  {
    assert 1 <= |f|;
    if f[0] == TAG_END {
      assert doc.source == f;
      OneByte(f[0..1], c.native, Big, false);
    } else {
      RootKept(c, f, fuel, doc);
      var len := Decode(f[1..3], c.order, false);
      RootHeaderKept(c, f, doc.source, len);
      OneByte(doc.source[0..1], c.native, Big, false);
      assert doc.source[0..1] == [f[0]];
    }
  }

  // ---------------------------------------------------------------------
  // A member, from the file to the document

  /// The Compound iterator at the member of `d` at `q` yields the name the
  /// file `f` states after its 2-byte length in NBT order, a value right
  /// after that name, and a next member at `next`.
  predicate IteratesAsFile(d: Document, native: Endian, f: seq<byte>, order: Endian, q: int, next: int, k: int)
  {
    0 <= q && q + 3 <= |f| && q + 3 + Decode(f[q + 1..q + 3], order, false) <= next <= |f|
    && Key(d, native, Tag(k, q)) == Moved(f[q + 3..q + 3 + Decode(f[q + 1..q + 3], order, false)])
    && Value(d, native, Tag(k, q)) == Moved(Tag(k, q + 3 + Decode(f[q + 1..q + 3], order, false)))
    && CompoundNext(d, native, Tag(k, q)) == Moved(Tag(k, next))
  }

  /// What `any_tag_get_*` gives for a payload of type `id` at `t`.
  datatype View = ScalarView(scalar: Moved<int>) | StringView(text: Moved<seq<byte>>) | ArrayView(elements: Moved<seq<int>>)
  {
    predicate Defined()
    {
      match this
      case ScalarView(v) => v.Moved?
      case StringView(v) => v.Moved?
      case ArrayView(v) => v.Moved?
    }
  }

  function ViewOf(d: Document, native: Endian, t: Tag, id: byte): View
    requires SwappedTag(id)
  {
    if id <= 6 then ScalarView(GetScalar(d, native, t, id))
    else if id == TAG_STRING then StringView(GetString(d, native, t))
    else ArrayView(GetArray(d, native, t, id))
  }

  /// The host-order view in `d` of a payload of type `id` at `t` is
  /// defined and reads as the view of `file` in NBT order.
  predicate ReadsAsFile(d: Document, native: Endian, file: Document, order: Endian, id: byte, t: Tag)
    requires SwappedTag(id)
  {
    ViewOf(d, native, t, id).Defined() && ViewOf(d, native, t, id) == ViewOf(file, order, t, id)
  }

  /// Elements read the same from two sources of one length that agree
  /// from the first element on.
  lemma {:induction false} ElementsFrom(d1: Document, d2: Document, e: Endian, q: int, count: nat, w: nat, signed: bool)
    requires w > 0 && 0 <= q && |d1.source| == |d2.source|
    requires forall i | q <= i < |d1.source| :: d1.source[i] == d2.source[i]
    ensures Elements(d1, e, q, count, w, signed) == Elements(d2, e, q, count, w, signed)
    decreases count
  {
    if count > 0 {
      if Inside(d1.source, q, w) {
        assert d1.source[q..q + w] == d2.source[q..q + w];
      }
      ElementsFrom(d1, d2, e, q + w, count - 1, w, signed);
    }
  }

  /// The views at `t` of two files of one length that agree from `t` on
  /// are the same.
  lemma FileFrom(s: seq<byte>, f: seq<byte>, order: Endian, id: byte, t: Tag)
    requires SwappedTag(id) && 0 <= t.source && |s| == |f|
    requires forall i | t.source <= i < |s| :: s[i] == f[i]
    ensures id <= 6 ==> GetScalar(File(s), order, t, id) == GetScalar(File(f), order, t, id)
    ensures id == TAG_STRING ==> GetString(File(s), order, t) == GetString(File(f), order, t)
    ensures id > 6 && id != TAG_STRING ==> GetArray(File(s), order, t, id) == GetArray(File(f), order, t, id)
  {
    if id <= 6 {
      LoadFrom(s, f, order, t.source, Width(id), SignedScalar(id));
    } else if id == TAG_STRING {
      StringFrom(s, f, order, t.source);
    } else {
      LoadFrom(s, f, order, t.source, 4, true);
      if Inside(s, t.source, 4) && Decode(s[t.source..t.source + 4], order, true) >= 0 {
        ElementsFrom(File(s), File(f), order, t.source + 4, Decode(s[t.source..t.source + 4], order, true), ElementWidth(id), true);
      }
    }
  }

  lemma LoadFrom(s: seq<byte>, f: seq<byte>, order: Endian, p: int, w: nat, signed: bool)
    requires w > 0 && 0 <= p && |s| == |f|
    requires forall i | p <= i < |s| :: s[i] == f[i]
    ensures Load(File(s), order, p, w, signed) == Load(File(f), order, p, w, signed)
  {
    if Inside(s, p, w) {
      assert s[p..p + w] == f[p..p + w];
    }
  }

  lemma StringFrom(s: seq<byte>, f: seq<byte>, order: Endian, p: int)
    requires 0 <= p && |s| == |f|
    requires forall i | p <= i < |s| :: s[i] == f[i]
    ensures GetString(File(s), order, Tag(0, p)) == GetString(File(f), order, Tag(0, p))
  {
    LoadFrom(s, f, order, p, 2, false);
    if Inside(s, p, 2) {
      var len := Decode(s[p..p + 2], order, false);
      if 0 <= len && Inside(s, p + 2, len) {
        assert s[p + 2..p + 2 + len] == f[p + 2..p + 2 + len];
      }
    }
  }

  /// A payload the corrected read handler has passed, leaving machine `a`,
  /// in a buffer that is the file from `p` on reads, in a document `d`
  /// that keeps `a`, as the file states it.
  lemma HandledReadsAsFile(c: Config, s: seq<byte>, f: seq<byte>, id: byte, p: int, a: Machine, d: Document, k: int)
    requires c.variant == Corrected && SwappedTag(id) && 0 <= p && |s| == |f|
    requires forall i | p <= i < |s| :: s[i] == f[i]
    requires ReadSwap(s, id, p, c.order, c.native, Corrected) == Pass(a.buf, a.pos)
    requires id > 6 && id != TAG_STRING ==> Inside(s, p, 4) && StatedLength(s, id, p, c.order) >= 0
    requires a.pos <= |a.buf| && KeptIn(a, d)
    ensures ReadsAsFile(d, c.native, File(f), c.order, id, Tag(k, p))
  {
    var r := ReadSwap(s, id, p, c.order, c.native, Corrected);
    assert Holds(d, r.bytes, p, r.next);
    if id <= 6 {
      assert r.next == p + Width(id);
      ScalarAgrees(s, id, p, c.order, c.native, Corrected, d, k);
    } else if id == TAG_STRING {
      StringAgrees(s, p, c.order, c.native, Corrected, d, k);
    } else {
      ArrayAgrees(s, id, p, c.order, c.native, d, k);
    }
    FileFrom(s, f, c.order, id, Tag(k, p));
  }

  /// Every machine a run from a machine that keeps the safety invariant
  /// reaches keeps it.
  lemma {:induction false} RunInv(c: Config, m: Machine, n: nat, m1: Machine)
    requires Inv(c, m) && Run(c, m, n) == Running(m1)
    ensures Inv(c, m1)
    decreases n
  {
    if n > 0 {
      StepSafe(c, m);
      RunInv(c, Step(c, m).m, n - 1, m1);
    }
  }

  /// Every machine the corrected read of a source that fits the address
  /// space reaches keeps the safety invariant.
  lemma ReadInv(c: Config, f: seq<byte>, n: nat, m: Machine)
    requires c.variant == Corrected && |f| < SOURCE_LIMIT && Read(c, f, n) == Running(m)
    ensures Inv(c, m)
  {
    StartSafe(c, f);
    ReadRuns(c, f, n);
    RunInv(c, Start(c, f).m, n, m);
  }

  /// The step at a Compound member up to its value: the machine after the
  /// type byte, the swapped name length and the name.
  lemma MemberNamed(c: Config, m: Machine, m1: Machine) returns (mb: Machine)
    requires c.variant == Corrected && Wf(m) && m.at == CompItem && Step(c, m) == Running(m1)
    requires 0 <= m.pos < |m.buf| && m.buf[m.pos] != TAG_END
    ensures m.pos + 3 <= |m.buf| && Wf(mb)
    ensures mb.buf == Swapped(m.buf, m.pos + 1, 2, c.order != c.native)
    ensures mb.pos == m.pos + 3 + Decode(m.buf[m.pos + 1..m.pos + 3], c.order, false) >= m.pos + 3
    ensures MemberValue(c, mb, m.buf[m.pos]) == Running(m1)
  {
    var id := m.buf[m.pos];
    var ma := m.(pos := m.pos + 1, readed := Bound(|m.buf|, Add(m.readed, 1)).value);
    assert Step(c, m) == MemberName(c, ma, id);
    var nameLen := Get(m.buf, m.pos + 1, 2, c.order, false).value;
    DecodeBounds(m.buf[m.pos + 1..m.pos + 3], c.order, false);
    var r3 := Bound(|m.buf|, Add(Bound(|m.buf|, Add(ma.readed, 2)).value, nameLen)).value;
    mb := ma.(buf := Swapped(m.buf, m.pos + 1, 2, c.order != c.native), pos := m.pos + 3 + nameLen, readed := r3);
    assert Step(c, m) == MemberValue(c, mb, id);
  }

  /// A member value of a scalar, String or array type that keeps the read
  /// running is one pass of the read handler; the corrected bound check
  /// has refused a negative array length.
  lemma MemberPayload(c: Config, mb: Machine, id: byte, m1: Machine)
    requires c.variant == Corrected && Wf(mb) && SwappedTag(id) && MemberValue(c, mb, id) == Running(m1)
    ensures ReadSwap(mb.buf, id, mb.pos, c.order, c.native, Corrected) == Pass(m1.buf, m1.pos)
    ensures id > 6 && id != TAG_STRING ==> Inside(mb.buf, mb.pos, 4) && StatedLength(mb.buf, id, mb.pos, c.order) >= 0
  {
    assert Payload(c, mb, id, true) == Go(m1);
    if id > 6 && id != TAG_STRING {
      assert Get(mb.buf, mb.pos, 4, c.order, true).Go?;
    }
  }

  /// One step at a Compound member of a scalar, String or array type: the
  /// name length is swapped in place, and the read handler passes the
  /// payload after the name.
  lemma MemberPassed(c: Config, m: Machine, m1: Machine) returns (mb: Machine)
    requires c.variant == Corrected && Wf(m) && m.at == CompItem && Step(c, m) == Running(m1)
    requires 0 <= m.pos < |m.buf| && SwappedTag(m.buf[m.pos])
    ensures m.pos + 3 <= |m.buf| && mb.buf == Swapped(m.buf, m.pos + 1, 2, c.order != c.native)
    ensures mb.pos == m.pos + 3 + Decode(m.buf[m.pos + 1..m.pos + 3], c.order, false) >= m.pos + 3
    ensures ReadSwap(mb.buf, m.buf[m.pos], mb.pos, c.order, c.native, Corrected) == Pass(m1.buf, m1.pos)
    ensures var id := m.buf[m.pos];
            id > 6 && id != TAG_STRING ==> Inside(mb.buf, mb.pos, 4) && StatedLength(mb.buf, id, mb.pos, c.order) >= 0
  {
    mb := MemberNamed(c, m, m1);
    MemberPayload(c, mb, m.buf[m.pos], m1);
  }

  /// The payload after the name of a member that the read handler passed
  /// from `m` to `m1`, in a buffer that was the file from the type byte
  /// on, reads as the file states it in a document that keeps `m1`; `id`
  /// and `t` are the type and the payload position the file states.
  lemma NamedReadsAsFile(c: Config, f: seq<byte>, m: Machine, mb: Machine, m1: Machine, doc: Document, id: byte, t: Tag)
    requires c.variant == Corrected && 0 <= m.pos < |m.buf| && SwappedTag(m.buf[m.pos]) && Touched(f, m.buf, 1, m.pos)
    requires m.pos + 3 <= |m.buf| && mb.buf == Swapped(m.buf, m.pos + 1, 2, c.order != c.native)
    requires mb.pos == m.pos + 3 + Decode(m.buf[m.pos + 1..m.pos + 3], c.order, false) >= m.pos + 3
    requires ReadSwap(mb.buf, m.buf[m.pos], mb.pos, c.order, c.native, Corrected) == Pass(m1.buf, m1.pos)
    requires var id := m.buf[m.pos];
             id > 6 && id != TAG_STRING ==> Inside(mb.buf, mb.pos, 4) && StatedLength(mb.buf, id, mb.pos, c.order) >= 0
    requires m1.pos <= |m1.buf| && KeptIn(m1, doc)
    requires id == f[m.pos] && t == Tag(t.mark, m.pos + 3 + Decode(f[m.pos + 1..m.pos + 3], c.order, false))
    ensures SwappedTag(id) && ReadsAsFile(doc, c.native, File(f), c.order, id, t)
  {
    AfterName(f, m.buf, mb.buf, m.pos, mb.pos, c.order, c.native);
    HandledReadsAsFile(c, mb.buf, f, m.buf[m.pos], mb.pos, m1, doc, t.mark);
  }

  /// After a member's name, the buffer with the name length swapped is
  /// still the file, and the file states the same type and name length.
  lemma AfterName(f: seq<byte>, s: seq<byte>, s1: seq<byte>, q: int, p: int, order: Endian, native: Endian)
    requires 0 <= q && q + 3 <= |s| && Touched(f, s, 1, q) && s1 == Swapped(s, q + 1, 2, order != native)
    requires p == q + 3 + Decode(s[q + 1..q + 3], order, false)
    ensures |s1| == |f| && f[q] == s[q] && p == q + 3 + Decode(f[q + 1..q + 3], order, false)
    ensures forall i | p <= i < |s1| :: s1[i] == f[i]
  {
    assert s[q + 1..q + 3] == f[q + 1..q + 3];
    forall i | p <= i < |s1|
      ensures s1[i] == f[i]
    {
      DecodeBounds(s[q + 1..q + 3], order, false);
      SwappedOutside(s, q + 1, 2, order != native, i);
    }
  }

  /// A document that keeps a machine holds the bytes the machine passed.
  lemma KeptHolds(a: Machine, d: Document, p: int, q: int)
    requires KeptIn(a, d) && 0 <= p && q <= a.pos <= |a.buf|
    ensures Holds(d, a.buf, p, q)
  {
  }

  /// A member with a copied tag and name length, and a payload that ends
  /// at `next`: the Compound iterator at it yields the name and value there
  /// and moves on to `next`.
  lemma MemberAt(d: Document, native: Endian, q: int, id: byte, p: int, next: int, k: int)
    requires SwappedTag(id) && Load(d, native, q, 1, false) == Moved(id as int)
    requires Load(d, native, q + 1, 2, false) == Moved(p - q - 3) && q + 3 <= p <= |d.source|
    requires SkipPayload(d, native, p, id, false) == Moved(next)
    ensures Key(d, native, Tag(k, q)) == Moved(d.source[q + 3..p])
    ensures Value(d, native, Tag(k, q)) == Moved(Tag(k, p))
    ensures CompoundNext(d, native, Tag(k, q)) == Moved(Tag(k, next))
  {
  }

  /// A tag byte and a host-order name length in the document load as such.
  lemma HeaderAt(d: Document, native: Endian, q: int, id: byte, len: int)
    requires 0 <= q && q + 3 <= |d.source| && d.source[q..q + 1] == [id]
    requires Decode(d.source[q + 1..q + 3], native, false) == len
    ensures Load(d, native, q, 1, false) == Moved(id as int)
    ensures Load(d, native, q + 1, 2, false) == Moved(len)
  {
    OneByte([id], native, Big, false);
  }

  /// The payload the corrected read passed from `p` to `m1.pos` ends there
  /// in the document as well.
  lemma PayloadAt(c: Config, s1: seq<byte>, id: byte, p: int, m1: Machine, doc: Document)
    requires c.variant == Corrected && SwappedTag(id) && 0 <= p
    requires ReadSwap(s1, id, p, c.order, c.native, Corrected) == Pass(m1.buf, m1.pos)
    requires id > 6 && id != TAG_STRING ==> Inside(s1, p, 4) && StatedLength(s1, id, p, c.order) >= 0
    requires m1.pos <= |m1.buf| && KeptIn(m1, doc)
    ensures SkipPayload(doc, c.native, p, id, false) == Moved(m1.pos)
  {
    if id > 6 {
      if id == TAG_STRING {
        DecodeBounds(Swapped(s1, p, 2, c.order != c.native)[p..p + 2], c.native, false);
        KeptHolds(m1, doc, p, p + 2);
      } else {
        ArrayPass(s1, id, p, c.order, c.native);
        var len := StatedLength(s1, id, p, c.order);
        assert len * ElementWidth(id) >= 0;
        KeptHolds(m1, doc, p, p + 4);
      }
      PayloadEndAgrees(s1, id, p, c.order, c.native, doc, false);
    }
  }

  /// The tag, name length and name of a member whose length was swapped
  /// into host order, as the document holds them.
  lemma NameBytes(f: seq<byte>, s: seq<byte>, s1: seq<byte>, d: Document, t: seq<byte>, q: int, p: int,
                  order: Endian, native: Endian)
    requires 0 <= q && q + 3 <= |s| && Touched(f, s, 1, q) && s1 == Swapped(s, q + 1, 2, order != native)
    requires p == q + 3 + Decode(s[q + 1..q + 3], order, false) && q + 3 <= p
    requires Holds(d, t, 0, p) && |t| == |s1| && forall i | 0 <= i < p :: t[i] == s1[i]
    ensures p <= |f| && d.source[q..q + 1] == [s[q]] && d.source[q + 3..p] == f[q + 3..p]
    ensures Decode(d.source[q + 1..q + 3], native, false) == p - q - 3
    ensures Decode(f[q + 1..q + 3], order, false) == p - q - 3
  {
    forall i | q <= i < p && !(q + 1 <= i < q + 3)
      ensures d.source[i] == f[i]
    {
      SwappedOutside(s, q + 1, 2, order != native, i);
    }
    assert s[q + 1..q + 3] == f[q + 1..q + 3];
    assert d.source[q + 1..q + 3] == s1[q + 1..q + 3];
    SwapReadsNative(s, q + 1, 2, order, native, false);
  }

  /// What the document keeps of a member payload the corrected read
  /// passed from `p` to `m1.pos`: the bytes before it, the bytes after the
  /// payload as read, and the payload's end.
  lemma PassedAt(c: Config, s1: seq<byte>, id: byte, p: int, m1: Machine, doc: Document)
    requires c.variant == Corrected && SwappedTag(id) && 0 <= p
    requires ReadSwap(s1, id, p, c.order, c.native, Corrected) == Pass(m1.buf, m1.pos)
    requires id > 6 && id != TAG_STRING ==> Inside(s1, p, 4) && StatedLength(s1, id, p, c.order) >= 0
    requires m1.pos <= |m1.buf| && KeptIn(m1, doc)
    ensures p <= m1.pos && Holds(doc, m1.buf, 0, p) && Touched(s1, m1.buf, p, m1.pos)
    ensures SkipPayload(doc, c.native, p, id, false) == Moved(m1.pos)
  {
    ReadSwapTouches(s1, id, p, c.order, c.native);
    KeptHolds(m1, doc, 0, p);
    PayloadAt(c, s1, id, p, m1, doc);
  }

  /// The same member seen by the Compound iterator in the document: its
  /// name is the file's, its value starts after the name, and the next
  /// member is where the payload ends.
  lemma NamedIterates(f: seq<byte>, s: seq<byte>, s1: seq<byte>, t: seq<byte>, doc: Document, native: Endian,
                      order: Endian, q: int, p: int, next: int, k: int)
    requires 0 <= q && q + 3 <= |s| && SwappedTag(s[q]) && Touched(f, s, 1, q)
    requires s1 == Swapped(s, q + 1, 2, order != native)
    requires p == q + 3 + Decode(s[q + 1..q + 3], order, false) && q + 3 <= p <= next
    requires Holds(doc, t, 0, p) && Touched(s1, t, p, next) && next <= |t|
    requires SkipPayload(doc, native, p, s[q], false) == Moved(next)
    ensures IteratesAsFile(doc, native, f, order, q, next, k)
  {
    NameBytes(f, s, s1, doc, t, q, p, order, native);
    HeaderAt(doc, native, q, s[q], p - q - 3);
    MemberAt(doc, native, q, s[q], p, next, k);
  }

  /// A step from a machine that keeps the safety invariant leaves the
  /// cursor inside the buffer.
  lemma StepCursor(c: Config, m: Machine, m1: Machine)
    requires Inv(c, m) && Step(c, m) == Running(m1)
    ensures m1.pos <= |m1.buf|
  {
    StepSafe(c, m);
  }

  /// A Compound member the corrected read passes on its way to the
  /// document `doc`: when its type is a scalar, a String or an array, its
  /// payload sits after the type byte, the 2-byte name length and the
  /// name, and the host-order view of `doc` reads it there as the file
  /// states it in NBT order.
  lemma MemberReadsAsFile(c: Config, f: seq<byte>, n: nat, m: Machine, fuel: nat, doc: Document, k: int)
    requires c.variant == Corrected && |f| < SOURCE_LIMIT
    requires Read(c, f, n) == Running(m) && n < fuel && Read(c, f, fuel) == Done(doc)
    requires Wf(m) && m.at == CompItem && Step(c, m).Running? && 0 <= m.pos < |f| && SwappedTag(f[m.pos])
    ensures m.pos + 3 <= |f|
    ensures ReadsAsFile(doc, c.native, File(f), c.order, f[m.pos],
                        Tag(k, m.pos + 3 + Decode(f[m.pos + 1..m.pos + 3], c.order, false)))
  {
    var m1 := Step(c, m).m;
    ReachedStep(c, f, n, m, m1, fuel, doc);
    ReadInv(c, f, n, m);
    StepCursor(c, m, m1);
    var mb := MemberPassed(c, m, m1);
    NamedReadsAsFile(c, f, m, mb, m1, doc, f[m.pos], Tag(k, m.pos + 3 + Decode(f[m.pos + 1..m.pos + 3], c.order, false)));
  }

  /// The same member seen by `nbt_compound_iterator` over `doc`: the key
  /// is the name the file states, the value starts right after it, and the
  /// next member starts where the corrected read's step for this member
  /// ended.
  lemma MemberIterates(c: Config, f: seq<byte>, n: nat, m: Machine, fuel: nat, doc: Document, k: int)
    requires c.variant == Corrected && |f| < SOURCE_LIMIT
    requires Read(c, f, n) == Running(m) && n < fuel && Read(c, f, fuel) == Done(doc)
    requires Wf(m) && m.at == CompItem && Step(c, m).Running? && 0 <= m.pos < |f| && SwappedTag(f[m.pos])
    ensures IteratesAsFile(doc, c.native, f, c.order, m.pos, Step(c, m).m.pos, k)
  {
    var m1 := Step(c, m).m;
    ReachedStep(c, f, n, m, m1, fuel, doc);
    ReadInv(c, f, n, m);
    StepCursor(c, m, m1);
    var mb := MemberPassed(c, m, m1);
    PassedAt(c, mb.buf, m.buf[m.pos], mb.pos, m1, doc);
    NamedIterates(f, m.buf, mb.buf, m1.buf, doc, c.native, c.order, m.pos, mb.pos, m1.pos, k);
  }
}
