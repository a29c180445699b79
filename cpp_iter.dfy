/// The read-only views of a parsed document in the C++ reader
/// (`na_nbt_impl.hpp`): the root key and value, the `any_tag_get_*`
/// accessors, the Compound and List iterators and the lookups built on
/// them. Every number is read in the host's byte order (`byte_as_type`),
/// since `read` has turned the payloads to host order in place.
///
/// Pointers are indices: a mark pointer is an index into the document's
/// mark array (`NULL` for `nullptr`) and a source pointer an index into its
/// bytes.
module CppIter {
  import opened NbtBase
  import opened CppSwap
  import opened CppRead

  /// A view, or behaviour the source leaves undefined: a read outside the
  /// document, a mark that is not a closed frame, a tag no `case` handles, a
  /// debug assertion the caller breaks, or a signed counter that overflows.
  datatype Moved<T> = Moved(value: T) | Undefined
  {
    predicate IsFailure() { Undefined? }

    function PropagateFailure<U>(): Moved<U>
      requires Undefined?
    {
      Undefined
    }

    function Extract(): T
      requires Moved?
    {
      value
    }
  }

  /// `nullptr` as a mark index.
  const NULL: int := -1

  /// `any_tag`, `nbt_compound` and `nbt_compound::iterator`: a mark pointer
  /// and a source pointer (`any_tag_get_compound` keeps both as they are).
  datatype Tag = Tag(mark: int, source: int)

  /// `nbt_list`: the stated element count, the List's own mark and its
  /// first element.
  datatype ListView = ListView(length: int, mark: int, source: int)

  /// `nbt_list::iterator`.
  datatype Element = Element(mark: int, source: int, index: int)

  /// `byte_as_type<T>` for a `w`-byte `T`: the bytes at `p` in host order.
  function Load(d: Document, native: Endian, p: int, w: nat, signed: bool): (r: Moved<int>)
    requires w > 0
    ensures r.Moved? <==> Inside(d.source, p, w)
    ensures r.Moved? ==> r.value == Decode(d.source[p..p + w], native, signed)
  {
    if Inside(d.source, p, w) then Moved(Decode(d.source[p..p + w], native, signed)) else Undefined
  }

  /// The `n` bytes a string view at `p` covers.
  function Bytes(d: Document, p: int, n: int): (r: Moved<seq<byte>>)
    ensures r.Moved? <==> 0 <= n && Inside(d.source, p, n)
    ensures r.Moved? ==> |r.value| == n
  {
    if 0 <= n && Inside(d.source, p, n) then Moved(d.source[p..p + n]) else Undefined
  }

  /// `count` consecutive `w`-byte numbers from `p`: the elements of a span.
  function Elements(d: Document, native: Endian, p: int, count: nat, w: nat, signed: bool): (r: Moved<seq<int>>)
    requires w > 0
    ensures r.Moved? ==> |r.value| == count
    decreases count
  {
    if count == 0 then Moved([])
    else
      var x :- Load(d, native, p, w, signed);
      var rest :- Elements(d, native, p + w, count - 1, w, signed);
      Moved([x] + rest)
  }

  /// The `store` view of mark `k`, which exists once the frame is closed.
  function Closed(d: Document, k: int): (r: Moved<Mark>)
    ensures r.Moved? <==> 0 <= k < |d.marks| && d.marks[k].Store?
    ensures r.Moved? ==> r.value == d.marks[k]
  {
    if 0 <= k < |d.marks| && d.marks[k].Store? then Moved(d.marks[k]) else Undefined
  }

  // ---------------------------------------------------------------------
  // The root

  /// `nbt_document_root_key` as written: no name for an End root,
  /// otherwise a view as long as the root name that starts at byte 1, on
  /// the name's 2-byte length rather than after it.
  function DocumentRootKeyAsWritten(d: Document, native: Endian): Moved<seq<byte>>
  {
    var t :- Load(d, native, 0, 1, false);
    if t == TAG_END as int then Moved([])
    else
      var len :- Load(d, native, 1, 2, false);
      Bytes(d, 1, len)
  }

  /// `nbt_document_root_key` as intended: no name for an End root,
  /// otherwise the name after the root tag and its 2-byte length.
  function DocumentRootKey(d: Document, native: Endian): Moved<seq<byte>>
  {
    var t :- Load(d, native, 0, 1, false);
    if t == TAG_END as int then Moved([])
    else
      var len :- Load(d, native, 1, 2, false);
      Bytes(d, 3, len)
  }

  /// As written, the root key of a named root begins with the two bytes of
  /// the name's length and loses the name's last two bytes.
  lemma RootKeyAsWrittenShifted(d: Document, native: Endian)
    requires Load(d, native, 0, 1, false).Moved? && Load(d, native, 0, 1, false).value != TAG_END as int
    requires DocumentRootKey(d, native).Moved?
    ensures DocumentRootKeyAsWritten(d, native).Moved?
    ensures var k := DocumentRootKey(d, native).value;
            |DocumentRootKeyAsWritten(d, native).value| == |k|
            && (|k| >= 2 ==> DocumentRootKeyAsWritten(d, native).value == d.source[1..3] + k[..|k| - 2])
  {
    var len := Load(d, native, 1, 2, false).value;
    if len >= 2 {
      assert d.source[1..1 + len] == d.source[1..3] + d.source[3..3 + len][..len - 2];
    }
  }

  /// The root `{"ab": …}` on a big-endian host: as written its key is the
  /// length bytes `[0, 2]`, as intended it is the name `ab`.
  lemma RootKeyReadsLength()
    ensures DocumentRootKeyAsWritten(Document([10, 0, 2, 97, 98, 0], [], 0), Big) == Moved([0, 2])
    ensures DocumentRootKey(Document([10, 0, 2, 97, 98, 0], [], 0), Big) == Moved([97, 98])
  {
    var d := Document([10, 0, 2, 97, 98, 0], [], 0);
    assert d.source[0..1] == [10] && d.source[1..3] == [0, 2];
    assert Decode([0, 2], Big, false) == 2 by {
      assert [0, 2][..1] == [0];
    }
    assert d.source[1..3] == [0, 2] && d.source[3..5] == [97, 98];
  }

  /// `nbt_document_root_value`: the first mark, and the payload after the
  /// root name.
  function DocumentRootValue(d: Document, native: Endian): Moved<Tag>
  {
    var len :- Load(d, native, 1, 2, false);
    Moved(Tag(0, 3 + len))
  }

  // ---------------------------------------------------------------------
  // any_tag accessors

  /// Whether `any_tag_get_*` reads the scalar of tag `t` as signed: the
  /// integers are, the Float and Double bit patterns are not.
  predicate SignedScalar(t: byte)
  {
    1 <= t <= 4
  }

  /// `any_tag_get_byte` … `any_tag_get_double`: the scalar at the tag's
  /// source.
  function GetScalar(d: Document, native: Endian, tag: Tag, t: byte): Moved<int>
    requires 1 <= t <= 6
  {
    Load(d, native, tag.source, Width(t), SignedScalar(t))
  }

  /// `any_tag_get_string`: the bytes after the 2-byte length.
  function GetString(d: Document, native: Endian, tag: Tag): Moved<seq<byte>>
  {
    var len :- Load(d, native, tag.source, 2, false);
    Bytes(d, tag.source + 2, len)
  }

  /// `any_tag_get_byte_array`, `_int_array`, `_long_array`: the elements
  /// after the signed 4-byte length. A negative length becomes a span of
  /// more than 2^63 elements, which covers bytes outside the document.
  function GetArray(d: Document, native: Endian, tag: Tag, t: byte): Moved<seq<int>>
    requires t == TAG_BYTE_ARRAY || t == TAG_INT_ARRAY || t == TAG_LONG_ARRAY
  {
    var len :- Load(d, native, tag.source, 4, true);
    if len < 0 then Undefined else Elements(d, native, tag.source + 4, len, ElementWidth(t), true)
  }

  /// `any_tag_get_list_byte` … `_list_double`: the span of the elements of
  /// a List of scalars of type `t`, after its type byte and signed 4-byte
  /// count. The debug build asserts that the List's type is `t`.
  function GetListScalars(d: Document, native: Endian, tag: Tag, t: byte): Moved<seq<int>>
    requires 1 <= t <= 6
  {
    var id :- Load(d, native, tag.source, 1, false);
    if id != t as int then Undefined
    else
      var len :- Load(d, native, tag.source + 1, 4, true);
      if len < 0 then Undefined else Elements(d, native, tag.source + 5, len, Width(t), SignedScalar(t))
  }

  /// `any_tag_get_list_end` and `any_tag_get_list_byte_array` …
  /// `_list_long_array`: the `nbt_list` view of a List whose elements are
  /// not scalars, with the List's mark and its first element.
  function GetList(d: Document, native: Endian, tag: Tag, t: byte): Moved<ListView>
  {
    var id :- Load(d, native, tag.source, 1, false);
    if id != t as int then Undefined
    else
      var len :- Load(d, native, tag.source + 1, 4, true);
      Moved(ListView(len, tag.mark, tag.source + 5))
  }

  /// `any_tag_valid`: both pointers are set.
  predicate Valid(tag: Tag)
  {
    tag.mark != NULL && tag.source != NULL
  }

  // ---------------------------------------------------------------------
  // Payload sizes

  /// The end of a string or array payload at `p` as the iterators compute
  /// it: 2 + the unsigned length for a string, 4 + the signed length times
  /// the element width for an array. The List iterators multiply the
  /// length in `int32_t`, so a product outside that range overflows there
  /// (`inInt32`).
  function PayloadEnd(d: Document, native: Endian, p: int, t: byte, inInt32: bool): Moved<int>
    requires t == TAG_BYTE_ARRAY || t == TAG_STRING || t == TAG_INT_ARRAY || t == TAG_LONG_ARRAY
  {
    if t == TAG_STRING then
      var len :- Load(d, native, p, 2, false);
      Moved(p + 2 + len)
    else
      var len :- Load(d, native, p, 4, true);
      var size := len * ElementWidth(t);
      if inInt32 && !IsI32(size) then Undefined else Moved(p + 4 + size)
  }

  /// The end of the payload of tag `t` at `p`: a scalar's width past it,
  /// or the end of a string or array.
  function SkipPayload(d: Document, native: Endian, p: int, t: byte, inInt32: bool): Moved<int>
    requires SwappedTag(t)
  {
    if t <= 6 then Moved(p + Width(t)) else PayloadEnd(d, native, p, t, inInt32)
  }

  // ---------------------------------------------------------------------
  // Compound iteration

  /// `nbt_compound_iterator_begin`: the first member, and the mark after
  /// the Compound's own (the first frame of a nested container).
  function CompoundBegin(comp: Tag): (r: Tag)
    ensures r.source == comp.source && r.mark == comp.mark + 1
  {
    Tag(comp.mark + 1, comp.source)
  }

  /// `nbt_compound_iterator_end`: the Compound's End tag, the byte before
  /// the end its closed mark records.
  function CompoundEnd(d: Document, comp: Tag): (r: Moved<Tag>)
    ensures r.Moved? <==> Closed(d, comp.mark).Moved?
    ensures r.Moved? ==> r.value == Tag(NULL, d.marks[comp.mark].end - 1)
  {
    var f :- Closed(d, comp.mark);
    Moved(Tag(NULL, f.end - 1))
  }

  /// `nbt_compound_iterator_next`: past the member's tag, 2-byte name length
  /// and name, then past a scalar by its width, past a string or array by
  /// its stated length, and past a List or Compound to the end its mark
  /// records, with the mark moving on by the number of marks it spans.
  function CompoundNext(d: Document, native: Endian, it: Tag): Moved<Tag>
  {
    var t :- Load(d, native, it.source, 1, false);
    var len :- Load(d, native, it.source + 1, 2, false);
    var p := it.source + 3 + len;
    if SwappedTag(t as byte) then
      var next :- SkipPayload(d, native, p, t as byte, false);
      Moved(it.(source := next))
    else if t == TAG_LIST as int || t == TAG_COMPOUND as int then
      var f :- Closed(d, it.mark);
      Moved(Tag(it.mark + f.flatNext, f.end))
    else Undefined
  }

  /// `nbt_compound_iter_equal`: the same source position.
  predicate SameMember(a: Tag, b: Tag)
  {
    a.source == b.source
  }

  /// `nbt_compound_iter_key`: the member's name (asserted not to be at the
  /// End tag).
  function Key(d: Document, native: Endian, it: Tag): Moved<seq<byte>>
  {
    var t :- Load(d, native, it.source, 1, false);
    if t == TAG_END as int then Undefined
    else
      var len :- Load(d, native, it.source + 1, 2, false);
      Bytes(d, it.source + 3, len)
  }

  /// `nbt_compound_iter_value`: the member's payload, with the iterator's
  /// mark.
  function Value(d: Document, native: Endian, it: Tag): Moved<Tag>
  {
    var t :- Load(d, native, it.source, 1, false);
    if t == TAG_END as int then Undefined
    else
      var len :- Load(d, native, it.source + 1, 2, false);
      Moved(Tag(it.mark, it.source + 3 + len))
  }

  /// The members the loop of `nbt_compound_find_value` passes from `it`
  /// until it reaches `end`, when every one has a name and a successor and
  /// `end` is reached within `fuel` steps.
  function Walk(d: Document, native: Endian, it: Tag, end: Tag, fuel: nat): (r: Option<seq<Tag>>)
    ensures r.Some? ==> |r.value| <= fuel
    decreases fuel
  {
    if SameMember(it, end) then Some([])
    else if fuel == 0 then None
    else match (Key(d, native, it), CompoundNext(d, native, it))
      case (Moved(_), Moved(next)) =>
        (match Walk(d, native, next, end, fuel - 1)
           case Some(rest) => Some([it] + rest)
           case None => None)
      case _ => None
  }

  /// A walk is empty exactly when it starts at `end`, and otherwise starts
  /// with `it`.
  lemma WalkFirst(d: Document, native: Endian, it: Tag, end: Tag, fuel: nat)
    requires Walk(d, native, it, end, fuel).Some?
    ensures var ms := Walk(d, native, it, end, fuel).value;
            (ms == [] <==> SameMember(it, end)) && (ms != [] ==> ms[0] == it)
  {
  }

  /// A walk that has not reached `end` is `it` followed by the walk from
  /// its successor.
  lemma WalkCons(d: Document, native: Endian, it: Tag, end: Tag, fuel: nat)
    requires Walk(d, native, it, end, fuel).Some? && !SameMember(it, end)
    ensures fuel > 0 && Key(d, native, it).Moved? && CompoundNext(d, native, it).Moved?
    ensures Walk(d, native, CompoundNext(d, native, it).value, end, fuel - 1).Some?
    ensures Walk(d, native, it, end, fuel).value == [it] + Walk(d, native, CompoundNext(d, native, it).value, end, fuel - 1).value
  {
  }

  /// The member at `k` of a walk has a name, is not `end`, and steps by
  /// `nbt_compound_iterator_next` to the next member, or to `end` when it is
  /// the last.
  lemma {:induction false} WalkAt(d: Document, native: Endian, it: Tag, end: Tag, fuel: nat, k: nat)
    requires Walk(d, native, it, end, fuel).Some? && k < |Walk(d, native, it, end, fuel).value|
    ensures var ms := Walk(d, native, it, end, fuel).value;
            Key(d, native, ms[k]).Moved? && !SameMember(ms[k], end) && CompoundNext(d, native, ms[k]).Moved?
            && (k + 1 < |ms| ==> CompoundNext(d, native, ms[k]).value == ms[k + 1])
            && (k + 1 == |ms| ==> SameMember(CompoundNext(d, native, ms[k]).value, end))
    decreases k
  {
    var ms := Walk(d, native, it, end, fuel).value;
    WalkFirst(d, native, it, end, fuel);
    WalkCons(d, native, it, end, fuel);
    var next := CompoundNext(d, native, it).value;
    var rest := Walk(d, native, next, end, fuel - 1).value;
    WalkFirst(d, native, next, end, fuel - 1);
    if k > 0 {
      WalkAt(d, native, next, end, fuel - 1, k - 1);
      assert ms[k] == rest[k - 1];
      if k + 1 < |ms| {
        assert ms[k + 1] == rest[k];
      }
    }
  }

  /// The member at `it` is named `key`.
  predicate Named(d: Document, native: Endian, it: Tag, key: seq<byte>)
  {
    Key(d, native, it) == Moved(key)
  }

  /// `nbt_compound::iterator`, which `nbt_compound_iterator_next` moves in
  /// place.
  class CompoundIterator {
    var mark: int
    var source: int

    function At(): Tag
      reads this
    {
      Tag(mark, source)
    }

    constructor (at: Tag)
      ensures At() == at
    {
      mark := at.mark;
      source := at.source;
    }

    /// `nbt_compound_iterator_next`.
    method Next(d: Document, native: Endian)
      requires CompoundNext(d, native, At()).Moved?
      modifies this
      ensures At() == CompoundNext(d, native, old(At())).value
    {
      var t := Load(d, native, source, 1, false).value;
      var len := Load(d, native, source + 1, 2, false).value;
      var p := source + 3 + len;
      if t == TAG_LIST as int || t == TAG_COMPOUND as int {
        var f := d.marks[mark];
        source := f.end;
        mark := mark + f.flatNext;
      } else {
        source := SkipPayload(d, native, p, t as byte, false).value;
      }
    }
  }

  /// `nbt_compound_find_value(key, begin, end)`: the first member from
  /// `begin` whose name is `key`, else `end`.
  method FindFrom(d: Document, native: Endian, key: seq<byte>, begin: Tag, end: Tag, ghost fuel: nat) returns (r: Tag)
    requires Walk(d, native, begin, end, fuel).Some?
    ensures var ms := Walk(d, native, begin, end, fuel).value;
            r == end <==> forall i | 0 <= i < |ms| :: !Named(d, native, ms[i], key)
    ensures var ms := Walk(d, native, begin, end, fuel).value;
            r != end ==> exists i | 0 <= i < |ms| :: r == ms[i] && Named(d, native, r, key)
                                                   && forall j | 0 <= j < i :: !Named(d, native, ms[j], key)
  {
    ghost var ms := Walk(d, native, begin, end, fuel).value;
    WalkFirst(d, native, begin, end, fuel);
    var iter := new CompoundIterator(begin);
    ghost var k := 0;
    while !SameMember(iter.At(), end)
      invariant k <= |ms| && (k < |ms| ==> iter.At() == ms[k] && !SameMember(ms[k], end))
      invariant k == |ms| ==> SameMember(iter.At(), end)
      invariant forall j | 0 <= j < k :: !Named(d, native, ms[j], key)
      decreases |ms| - k
    {
      WalkAt(d, native, begin, end, fuel, k);
      if Key(d, native, iter.At()).value == key {
        r := iter.At();
        assert r == ms[k] && Named(d, native, r, key);
        assert r != end;
        return;
      }
      assert !Named(d, native, ms[k], key);
      forall j | 0 <= j < k + 1
        ensures !Named(d, native, ms[j], key)
      {
      }
      iter.Next(d, native);
      assert k + 1 < |ms| ==> iter.At() == ms[k + 1];
      k := k + 1;
      if k < |ms| {
        WalkAt(d, native, begin, end, fuel, k);
      }
    }
    assert k == |ms|;
    return end;
  }

  /// `nbt_compound_find_value(comp, key)`: the lookup over all of `comp`.
  method Find(d: Document, native: Endian, comp: Tag, key: seq<byte>, ghost fuel: nat) returns (r: Tag)
    requires CompoundEnd(d, comp).Moved?
    requires Walk(d, native, CompoundBegin(comp), CompoundEnd(d, comp).value, fuel).Some?
    ensures var ms := Walk(d, native, CompoundBegin(comp), CompoundEnd(d, comp).value, fuel).value;
            r == CompoundEnd(d, comp).value <==> forall i | 0 <= i < |ms| :: !Named(d, native, ms[i], key)
    ensures var ms := Walk(d, native, CompoundBegin(comp), CompoundEnd(d, comp).value, fuel).value;
            r != CompoundEnd(d, comp).value ==>
              exists i | 0 <= i < |ms| :: r == ms[i] && Named(d, native, r, key)
                                          && forall j | 0 <= j < i :: !Named(d, native, ms[j], key)
  {
    var begin := CompoundBegin(comp);
    var end := CompoundEnd(d, comp).value;
    r := FindFrom(d, native, key, begin, end, fuel);
  }

  // ---------------------------------------------------------------------
  // List iteration

  /// `nbt_list_iterator_begin`: index 0 at the first element, and the mark
  /// after the List's own.
  function ListBegin(l: ListView): (r: Element)
    ensures r.source == l.source && r.mark == l.mark + 1 && r.index == 0
  {
    Element(l.mark + 1, l.source, 0)
  }

  /// `nbt_list_iterator_end`: index `length` at the end the List's closed
  /// mark records.
  function ListEnd(d: Document, l: ListView): (r: Moved<Element>)
    ensures r.Moved? <==> Closed(d, l.mark).Moved?
    ensures r.Moved? ==> r.value == Element(NULL, d.marks[l.mark].end, l.length)
  {
    var f :- Closed(d, l.mark);
    Moved(Element(NULL, f.end, l.length))
  }

  /// `nbt_list_iterator_next_end` … `_next_long_array` for element type
  /// `t`: the index goes up by one (an `int32_t`, so past its maximum it
  /// overflows) and the source moves past one element: not at all for End,
  /// by the width for scalars, by the stated length for strings and
  /// arrays, and to the recorded end for Lists and Compounds, whose marks
  /// it steps over.
  function ListNext(d: Document, native: Endian, t: byte, it: Element): Moved<Element>
  {
    if !IsI32(it.index + 1) then Undefined
    else if t == TAG_END then Moved(it.(index := it.index + 1))
    else if SwappedTag(t) then
      var next :- SkipPayload(d, native, it.source, t, true);
      Moved(it.(source := next, index := it.index + 1))
    else if t == TAG_LIST || t == TAG_COMPOUND then
      var f :- Closed(d, it.mark);
      Moved(Element(it.mark + f.flatNext, f.end, it.index + 1))
    else Undefined
  }

  /// `nbt_list_iter_equal`: the same source position.
  predicate SameElement(a: Element, b: Element)
  {
    a.source == b.source
  }

  /// `nbt_list_iter_value`: the element as an `any_tag`.
  function ElementValue(it: Element): (r: Tag)
    ensures r.mark == it.mark && r.source == it.source
  {
    Tag(it.mark, it.source)
  }

  /// `n` calls of the `next` of element type `t` from `it`.
  function ListWalk(d: Document, native: Endian, t: byte, it: Element, n: nat): Moved<Element>
    decreases n
  {
    if n == 0 then Moved(it)
    else
      var next :- ListNext(d, native, t, it);
      ListWalk(d, native, t, next, n - 1)
  }

  /// `nbt_list::iterator`, which the `nbt_list_iterator_next_*` functions
  /// move in place.
  class ListIterator {
    var mark: int
    var source: int
    var index: int

    function At(): Element
      reads this
    {
      Element(mark, source, index)
    }

    constructor (at: Element)
      ensures At() == at
    {
      mark := at.mark;
      source := at.source;
      index := at.index;
    }

    /// `nbt_list_iterator_next_*` for element type `t`.
    method Next(d: Document, native: Endian, t: byte)
      requires ListNext(d, native, t, At()).Moved?
      modifies this
      ensures At() == ListNext(d, native, t, old(At())).value
    {
      index := index + 1;
      if t == TAG_LIST || t == TAG_COMPOUND {
        var f := d.marks[mark];
        source := f.end;
        mark := mark + f.flatNext;
      } else if t != TAG_END {
        source := SkipPayload(d, native, source, t, true).value;
      }
    }
  }

  /// The loop of `nbt_list_find_value_*(index, begin, end)`:
  /// `while (index--)` on an `int32_t`, with a `next` per round. From a
  /// negative index the counter runs down to its minimum and overflows.
  method Advance(d: Document, native: Endian, t: byte, begin: Element, index: int) returns (r: Moved<Element>)
    requires IsI32(index)
    ensures index >= 0 ==> r == ListWalk(d, native, t, begin, index)
    ensures index < 0 ==> r == Undefined
  {
    var iter := new ListIterator(begin);
    var i := index;
    while i != 0
      invariant IsI32(i) && (index < 0 <==> i < 0)
      invariant index >= 0 ==> ListWalk(d, native, t, begin, index) == ListWalk(d, native, t, iter.At(), i)
      decreases if i >= 0 then i else i + 0x8000_0000
    {
      if i == -0x8000_0000 {
        return Undefined;
      }
      i := i - 1;
      if ListNext(d, native, t, iter.At()).Undefined? {
        return Undefined;
      }
      iter.Next(d, native, t);
    }
    return Moved(iter.At());
  }

  /// `nbt_list_find_value_*(list, index)` as written: the end iterator when
  /// `index` is at least the length, otherwise the loop, which a negative
  /// index sends into the overflow.
  method FindElementAsWritten(d: Document, native: Endian, t: byte, l: ListView, index: int) returns (r: Moved<Element>)
    requires IsI32(index) && ListEnd(d, l).Moved?
    ensures index >= l.length ==> r == ListEnd(d, l)
    ensures 0 <= index < l.length ==> r == ListWalk(d, native, t, ListBegin(l), index)
    ensures index < 0 && index < l.length ==> r == Undefined
  {
    var begin := ListBegin(l);
    var end := ListEnd(d, l).value;
    if index >= l.length {
      return Moved(end);
    }
    r := Advance(d, native, t, begin, index);
  }

  /// `nbt_list_find_value_*(list, index)` with the negative index answered
  /// like an index past the end.
  method FindElement(d: Document, native: Endian, t: byte, l: ListView, index: int) returns (r: Moved<Element>)
    requires IsI32(index) && ListEnd(d, l).Moved?
    ensures !(0 <= index < l.length) ==> r == ListEnd(d, l)
    ensures 0 <= index < l.length ==> r == ListWalk(d, native, t, ListBegin(l), index)
  {
    var begin := ListBegin(l);
    var end := ListEnd(d, l).value;
    if index < 0 || index >= l.length {
      return Moved(end);
    }
    r := Advance(d, native, t, begin, index);
  }

  // ---------------------------------------------------------------------
  // The views against the file

  /// The unparsed file as a document: its payloads are still in NBT order.
  function File(s: seq<byte>): Document
  {
    Document(s, [], 0)
  }

  /// `d` holds the bytes `t` has from `p` up to `q`.
  predicate Holds(d: Document, t: seq<byte>, p: int, q: int)
  {
    0 <= p && q <= |d.source| && q <= |t| && forall i | p <= i < q :: d.source[i] == t[i]
  }

  lemma HoldsSlice(d: Document, t: seq<byte>, p: int, q: int, x: int, y: int)
    requires Holds(d, t, p, q) && p <= x <= y <= q
    ensures d.source[x..y] == t[x..y]
  {
  }

  /// A single byte reads the same in either order.
  lemma OneByte(bs: seq<byte>, a: Endian, b: Endian, signed: bool)
    requires |bs| == 1
    ensures Decode(bs, a, signed) == Decode(bs, b, signed)
  {
    assert Reverse(bs) == bs;
    LeIsReversedBe(bs);
  }

  /// The elements of a span depend only on the bytes they cover.
  lemma {:induction false} ElementsFrame(d1: Document, d2: Document, e: Endian, q: int, count: nat, w: nat, signed: bool)
    requires w > 0 && 0 <= q && q + count * w <= |d1.source| && q + count * w <= |d2.source|
    requires forall i | q <= i < q + count * w :: d1.source[i] == d2.source[i]
    ensures Elements(d1, e, q, count, w, signed) == Elements(d2, e, q, count, w, signed)
    decreases count
  {
    if count > 0 {
      assert q + w + (count - 1) * w == q + count * w;
      assert d1.source[q..q + w] == d2.source[q..q + w];
      ElementsFrame(d1, d2, e, q + w, count - 1, w, signed);
    }
  }

  /// Single-byte elements read the same in either order.
  lemma {:induction false} ElementsOfBytes(d: Document, a: Endian, b: Endian, q: int, count: nat, signed: bool)
    ensures Elements(d, a, q, count, 1, signed) == Elements(d, b, q, count, 1, signed)
    decreases count
  {
    if count > 0 {
      if Inside(d.source, q, 1) {
        OneByte(d.source[q..q + 1], a, b, signed);
      }
      ElementsOfBytes(d, a, b, q + 1, count - 1, signed);
    }
  }

  /// The first swap of an element loop leaves the later elements alone.
  lemma RunTail(u: seq<byte>, q: int, count: nat, w: nat, order: Endian, signed: bool)
    requires w > 0 && count > 0 && Inside(u, q, count * w)
    ensures Elements(File(Swapped(u, q as nat, w, true)), order, q + w, count - 1, w, signed)
         == Elements(File(u), order, q + w, count - 1, w, signed)
  {
    var u1 := Swapped(u, q as nat, w, true);
    assert q + w + (count - 1) * w == q + count * w;
    forall i | q + w <= i < q + w + (count - 1) * w
      ensures u1[i] == u[i]
    {
      SwappedOutside(u, q as nat, w, true, i);
    }
    ElementsFrame(File(u1), File(u), order, q + w, count - 1, w, signed);
  }

  /// After an element loop the host reads its first element, in its own
  /// order, as the file stated it.
  lemma RunHead(u: seq<byte>, q: int, count: nat, w: nat, order: Endian, native: Endian, signed: bool)
    requires w > 0 && count > 0 && order != native && SwapRun(u, q, count, w, true).Pass?
    ensures Load(File(SwapRun(u, q, count, w, true).bytes), native, q, w, signed) == Load(File(u), order, q, w, signed)
  {
    var u1 := Swapped(u, q as nat, w, true);
    var t := SwapRun(u, q, count, w, true).bytes;
    assert t == SwapRun(u1, q + w, count - 1, w, true).bytes;
    forall i | q <= i < q + w
      ensures t[i] == u1[i]
    {
      RunKeepsBefore(u1, q + w, count - 1, w, true, i);
    }
    assert t[q..q + w] == u1[q..q + w];
    SwapReadsNative(u, q as nat, w, order, native, signed);
  }

  /// After the element loop of a read handler has swapped `count` elements,
  /// the host reads each in its own order as the file stated it in NBT
  /// order.
  lemma {:induction false} ElementsAfterRun(u: seq<byte>, q: int, count: nat, w: nat, order: Endian, native: Endian, signed: bool)
    requires w > 0 && order != native && SwapRun(u, q, count, w, true).Pass?
    ensures Elements(File(SwapRun(u, q, count, w, true).bytes), native, q, count, w, signed)
         == Elements(File(u), order, q, count, w, signed)
    decreases count
  {
    if count > 0 {
      var u1 := Swapped(u, q as nat, w, true);
      var t := SwapRun(u, q, count, w, true).bytes;
      assert t == SwapRun(u1, q + w, count - 1, w, true).bytes;
      ElementsAfterRun(u1, q + w, count - 1, w, order, native, signed);
      RunTail(u, q, count, w, order, signed);
      RunHead(u, q, count, w, order, native, signed);
    }
  }

  /// A scalar the read handler has turned to host order reads, in host
  /// order, as the file's bytes read in NBT order, and the handler steps
  /// over exactly its width.
  lemma ScalarAgrees(s: seq<byte>, tag: byte, p: int, order: Endian, native: Endian, variant: Variant, d: Document, k: int)
    requires 1 <= tag <= 6 && ReadSwap(s, tag, p, order, native, variant).Pass?
    requires Holds(d, ReadSwap(s, tag, p, order, native, variant).bytes, p, p + Width(tag))
    ensures ReadSwap(s, tag, p, order, native, variant).next == p + Width(tag)
    ensures GetScalar(d, native, Tag(k, p), tag).Moved?
    ensures GetScalar(d, native, Tag(k, p), tag) == GetScalar(File(s), order, Tag(k, p), tag)
  {
    var w := Width(tag);
    var t := ReadSwap(s, tag, p, order, native, variant).bytes;
    HoldsSlice(d, t, p, p + w, p, p + w);
    SwapReadsNative(s, p as nat, w, order, native, SignedScalar(tag));
    if tag == TAG_BYTE {
      assert Swapped(s, p as nat, 1, order != native) == s;
    }
  }

  /// A string the read handler has passed reads, in host order, as the
  /// file's string read in NBT order.
  lemma StringAgrees(s: seq<byte>, p: int, order: Endian, native: Endian, variant: Variant, d: Document, k: int)
    requires ReadSwap(s, TAG_STRING, p, order, native, variant).Pass?
    requires var r := ReadSwap(s, TAG_STRING, p, order, native, variant); Holds(d, r.bytes, p, r.next)
    ensures GetString(d, native, Tag(k, p)).Moved?
    ensures GetString(d, native, Tag(k, p)) == GetString(File(s), order, Tag(k, p))
  {
    var r := ReadSwap(s, TAG_STRING, p, order, native, variant);
    var t := r.bytes;
    SwapReadsNative(s, p as nat, 2, order, native, false);
    DecodeBounds(t[p..p + 2], native, false);
    HoldsSlice(d, t, p, r.next, p, p + 2);
    HoldsSlice(d, t, p, r.next, p + 2, r.next);
    forall i | p + 2 <= i < r.next
      ensures t[i] == s[i]
    {
      SwappedOutside(s, p as nat, 2, order != native, i);
    }
    assert t[p + 2..r.next] == s[p + 2..r.next];
  }

  /// The length field of an array after the read handler: the bytes at
  /// `p` swapped to host order, read as the file states it, and the
  /// handler's stop and bytes by case.
  lemma ArrayPass(s: seq<byte>, tag: byte, p: int, order: Endian, native: Endian)
    requires tag == TAG_BYTE_ARRAY || tag == TAG_INT_ARRAY || tag == TAG_LONG_ARRAY
    requires ReadSwap(s, tag, p, order, native, Corrected).Pass? && StatedLength(s, tag, p, order) >= 0
    ensures var r := ReadSwap(s, tag, p, order, native, Corrected);
            var s1 := Swapped(s, p as nat, 4, order != native);
            var len := StatedLength(s, tag, p, order);
            r.next == p + 4 + len * ElementWidth(tag)
            && r.bytes[p..p + 4] == s1[p..p + 4]
            && Decode(s1[p..p + 4], native, true) == len
            && (tag == TAG_BYTE_ARRAY || order == native ==> r.bytes == s1)
            && (tag != TAG_BYTE_ARRAY && order != native ==> r == SwapRun(s1, p + 4, len, ElementWidth(tag), true))
  {
    var s1 := Swapped(s, p as nat, 4, order != native);
    SwapReadsNative(s, p as nat, 4, order, native, true);
    var len := StatedLength(s, tag, p, order);
    var r := ReadSwap(s, tag, p, order, native, Corrected);
    if tag != TAG_BYTE_ARRAY && order != native {
      forall i | p <= i < p + 4
        ensures r.bytes[i] == s1[i]
      {
        RunKeepsBefore(s1, p + 4, len, ElementWidth(tag), true, i);
      }
    }
  }

  /// An array the corrected read handler has passed reads, in host order,
  /// as the file's array read in NBT order: the same length and the same
  /// elements.
  lemma ArrayAgrees(s: seq<byte>, tag: byte, p: int, order: Endian, native: Endian, d: Document, k: int)
    requires tag == TAG_BYTE_ARRAY || tag == TAG_INT_ARRAY || tag == TAG_LONG_ARRAY
    requires ReadSwap(s, tag, p, order, native, Corrected).Pass? && StatedLength(s, tag, p, order) >= 0
    requires var r := ReadSwap(s, tag, p, order, native, Corrected); Holds(d, r.bytes, p, r.next)
    ensures GetArray(d, native, Tag(k, p), tag).Moved?
    ensures GetArray(d, native, Tag(k, p), tag) == GetArray(File(s), order, Tag(k, p), tag)
  {
    var r := ReadSwap(s, tag, p, order, native, Corrected);
    var t := r.bytes;
    var s1 := Swapped(s, p as nat, 4, order != native);
    var len := StatedLength(s, tag, p, order);
    var w := ElementWidth(tag);
    ArrayPass(s, tag, p, order, native);
    HoldsSlice(d, t, p, r.next, p, p + 4);
    assert Load(d, native, p, 4, true) == Moved(len);
    assert Load(File(s), order, p, 4, true) == Moved(len);
    var q := p + 4;
    assert Elements(d, native, q, len, w, true) == Elements(File(t), native, q, len, w, true) by {
      ElementsFrame(d, File(t), native, q, len, w, true);
    }
    assert Elements(File(s1), order, q, len, w, true) == Elements(File(s), order, q, len, w, true) by {
      forall i | q <= i < q + len * w
        ensures s1[i] == s[i]
      {
        SwappedOutside(s, p as nat, 4, order != native, i);
      }
      ElementsFrame(File(s1), File(s), order, q, len, w, true);
    }
    if tag == TAG_BYTE_ARRAY {
      ElementsOfBytes(File(s1), native, order, q, len, true);
    } else if order != native {
      ElementsAfterRun(s1, q, len, w, order, native, true);
    }
    ElementsDefined(File(s), order, q, len, w, true);
  }

  /// Elements that lie inside the document are defined.
  lemma {:induction false} ElementsDefined(d: Document, e: Endian, q: int, count: nat, w: nat, signed: bool)
    requires w > 0 && 0 <= q && q + count * w <= |d.source|
    ensures Elements(d, e, q, count, w, signed).Moved?
    decreases count
  {
    if count > 0 {
      assert q + w + (count - 1) * w == q + count * w;
      ElementsDefined(d, e, q + w, count - 1, w, signed);
    }
  }

  /// Where the iterators stop after a string or an array the corrected read
  /// handler has passed is where the handler stopped; the List iterators
  /// need the array's byte size to fit an `int32_t`.
  lemma PayloadEndAgrees(s: seq<byte>, tag: byte, p: int, order: Endian, native: Endian, d: Document, inInt32: bool)
    requires tag == TAG_BYTE_ARRAY || tag == TAG_STRING || tag == TAG_INT_ARRAY || tag == TAG_LONG_ARRAY
    requires ReadSwap(s, tag, p, order, native, Corrected).Pass?
    requires tag != TAG_STRING ==> StatedLength(s, tag, p, order) >= 0
    requires tag != TAG_STRING && inInt32 ==> IsI32(StatedLength(s, tag, p, order) * ElementWidth(tag))
    requires Holds(d, ReadSwap(s, tag, p, order, native, Corrected).bytes, p, p + if tag == TAG_STRING then 2 else 4)
    ensures PayloadEnd(d, native, p, tag, inInt32) == Moved(ReadSwap(s, tag, p, order, native, Corrected).next)
  {
    var r := ReadSwap(s, tag, p, order, native, Corrected);
    if tag == TAG_STRING {
      HoldsSlice(d, r.bytes, p, p + 2, p, p + 2);
    } else {
      ArrayPass(s, tag, p, order, native);
      HoldsSlice(d, r.bytes, p, p + 4, p, p + 4);
    }
  }

  lemma DecodeBounds(bs: seq<byte>, e: Endian, signed: bool)
    requires |bs| > 0
    ensures !signed ==> Decode(bs, e, signed) >= 0
  {
    if !signed {
      match e
        case Big => assert BeUnsigned(bs) >= 0;
        case Little => assert LeUnsigned(bs) >= 0;
    }
  }
}
