/// `read_write::read` of the C++ reader (`na_nbt_impl.hpp`) with
/// `bound_check` on: a goto-driven parser that byte-swaps payloads to host
/// order inside the source buffer and records one `mark_t` per List or
/// Compound in a flat, growable mark array.
///
/// Here the parser is a machine: `Start` is the code before `general_start`
/// and `Step` runs from one `comp_item_begin` / `list_item_begin` label to
/// the next. The mark array is a sequence of frames; a frame is `Cache`
/// while its container is being read and `Store` once it is closed (the two
/// views of the `mark_t` union).
module CppRead {
  import opened NbtBase
  import opened CppSwap

  /// `nbt_parse_error`.
  datatype ParseError = EndOfFile | Invalid

  /// One `mark_t`.
  datatype Mark =
    | Cache(parentOffset: nat, isCompound: bool, listType: byte, total: nat, count: nat)
    | Store(flatNext: nat, end: int)

  /// The two labels the machine rests at between steps.
  datatype Label = CompItem | ListItem

  /// The parser's variables: the buffer, `current_pos`, `readed_length`, the
  /// used part of the mark array, the indices of `current` and `parent`,
  /// `alc_len` and the label to continue at.
  datatype Machine = Machine(buf: seq<byte>, pos: int, readed: nat, marks: seq<Mark>,
                             current: nat, parent: nat, capacity: nat, at: Label)

  /// `nbt_document`: the (swapped) source, the marks and `mark_len`.
  datatype Document = Document(source: seq<byte>, marks: seq<Mark>, markLen: nat)

  /// The template parameters that matter: the NBT byte order, the host's
  /// byte order, and whether the defects are corrected.
  datatype Config = Config(order: Endian, native: Endian, variant: Variant)

  /// What a step leads to. `Overran` is an access outside the source
  /// buffer and `MarkOverran` a mark written outside the mark allocation;
  /// both are undefined behaviour in the source.
  datatype Outcome =
    | Running(m: Machine)
    | Done(doc: Document)
    | Threw(error: ParseError)
    | Overran
    | MarkOverran

  /// The intermediate results of a step: a value, or the step's end.
  datatype Go<T> = Go(value: T) | Stop(step: Outcome)
  {
    predicate IsFailure() { Stop? }

    function PropagateFailure<U>(): Go<U>
      requires Stop?
    {
      Stop(step)
    }

    function Extract(): T
      requires Go?
    {
      value
    }
  }

  /// `readed_length += x` on a `size_t`.
  function Add(readed: nat, x: int): (r: nat)
    ensures r < U64_MOD
    ensures 0 <= readed + x < U64_MOD ==> r == readed + x
  {
    (readed + x) % U64_MOD
  }

  /// `bound_check_return(readed_length)`.
  function Bound(n: nat, readed: nat): (r: Go<nat>)
    ensures r.Go? <==> readed <= n
    ensures r.Go? ==> r.value == readed
    ensures r.Stop? ==> r.step == Threw(EndOfFile)
  {
    if readed > n then Stop(Threw(EndOfFile)) else Go(readed)
  }

  /// The byte at `p`.
  function ByteAt(s: seq<byte>, p: int): (r: Go<byte>)
    ensures r.Go? <==> 0 <= p < |s|
  {
    if 0 <= p < |s| then Go(s[p]) else Stop(Overran)
  }

  /// `endian_get` of a `w`-byte value at `p` in NBT order.
  function Get(s: seq<byte>, p: int, w: nat, order: Endian, signed: bool): (r: Go<int>)
    requires w > 0
    ensures r.Go? <==> Inside(s, p, w)
    ensures r.Go? ==> r.value == Decode(s[p..p + w], order, signed)
  {
    if Inside(s, p, w) then Go(Decode(s[p..p + w], order, signed)) else Stop(Overran)
  }

  /// The `bound_check` block in front of a payload handler: the width of a
  /// scalar, or the length field and then the stated length times the
  /// element width. The stated array length is signed and added to the
  /// `size_t` as it is; the corrected parser rejects a negative one.
  function CheckPayload(c: Config, s: seq<byte>, p: int, readed: nat, tag: byte): (r: Go<nat>)
    requires SwappedTag(tag)
    ensures r.Stop? ==> r.step.Threw? || r.step.Overran?
  {
    var n := |s|;
    if tag <= 6 then Bound(n, Add(readed, Width(tag)))
    else if tag == TAG_STRING then
      var r1 :- Bound(n, Add(readed, 2));
      var len :- Get(s, p, 2, c.order, false);
      Bound(n, Add(r1, len))
    else
      var r1 :- Bound(n, Add(readed, 4));
      var len :- Get(s, p, 4, c.order, true);
      if c.variant == Corrected && len < 0 then Stop(Threw(Invalid))
      else Bound(n, Add(r1, len * ElementWidth(tag)))
  }

  /// One payload of a tag the swapper handles, with its bound check when
  /// `checked` (everywhere but the scalar elements of a List, whose bytes
  /// were counted when the List began).
  function Payload(c: Config, m: Machine, tag: byte, checked: bool): (r: Go<Machine>)
    requires SwappedTag(tag)
    ensures r.Go? ==> r.value == m.(buf := r.value.buf, pos := r.value.pos, readed := r.value.readed)
    ensures r.Go? ==> |r.value.buf| == |m.buf|
    ensures r.Stop? ==> r.step.Threw? || r.step.Overran?
  {
    var readed :- if checked then CheckPayload(c, m.buf, m.pos, m.readed, tag) else Go(m.readed);
    match ReadSwap(m.buf, tag, m.pos, c.order, c.native, c.variant)
      case Pass(bytes, next) => Go(m.(buf := bytes, pos := next, readed := readed))
      case OutOfBuffer => Stop(Overran)
  }

  /// The open frames from `k` back to the root: each is a `Cache` whose
  /// parent offset leads to the next (only the root's offset is 0), and
  /// every frame between a frame and its parent is closed.
  predicate OpenChain(marks: seq<Mark>, k: nat)
    decreases k
  {
    k < |marks| && marks[k].Cache? && marks[k].parentOffset <= k
    && (k > 0 ==> marks[k].parentOffset > 0)
    && (marks[k].parentOffset > 0 ==>
          (forall j | k - marks[k].parentOffset < j < k :: marks[j].Store?)
          && OpenChain(marks, k - marks[k].parentOffset))
  }

  /// The machine's frames are consistent: they fit the allocation,
  /// `current` heads an open chain, `parent` is its parent, every later
  /// frame is closed, and the label is the kind of `current`.
  predicate Wf(m: Machine)
  {
    2 <= m.capacity && |m.marks| <= m.capacity
    && m.current < |m.marks| && OpenChain(m.marks, m.current)
    && m.parent == m.current - m.marks[m.current].parentOffset
    && (forall j | m.current < j < |m.marks| :: m.marks[j].Store?)
    && m.at == (if m.marks[m.current].isCompound then CompItem else ListItem)
  }

  /// An open chain depends only on the frames up to its head.
  lemma {:induction false} ChainKept(a: seq<Mark>, b: seq<Mark>, k: nat)
    requires OpenChain(a, k) && k < |b| && forall j | 0 <= j <= k :: b[j] == a[j]
    ensures OpenChain(b, k)
    decreases k
  {
    if a[k].parentOffset > 0 {
      ChainKept(a, b, k - a[k].parentOffset);
    }
  }

  /// Replacing the head of a chain by a frame with the same parent offset
  /// keeps the chain.
  lemma {:induction false} ChainHeadReplaced(a: seq<Mark>, k: nat, x: Mark)
    requires OpenChain(a, k) && x.Cache? && x.parentOffset == a[k].parentOffset
    ensures OpenChain(a[k := x], k)
  {
    if x.parentOffset > 0 {
      ChainKept(a, a[k := x], k - x.parentOffset);
    }
  }

  /// `list_general_begin`: the List header at `pos` (element type, then a
  /// 4-byte count), with its bound check, which also counts the payload of
  /// scalar elements. The frame `current` becomes a List frame.
  function ListHeader(c: Config, m: Machine): (r: Go<Machine>)
    requires m.current < |m.marks| && m.parent <= m.current
    ensures r.Go? ==> r.value.at == ListItem && r.value.current == m.current && r.value.parent == m.parent
    ensures r.Go? ==> |r.value.buf| == |m.buf| && r.value.capacity == m.capacity
    ensures r.Go? ==> |r.value.marks| == |m.marks| && 0 <= m.pos < |m.buf|
                      && r.value.marks == m.marks[m.current := r.value.marks[m.current]]
                      && r.value.marks[m.current].Cache?
                      && r.value.marks[m.current] == Cache(m.current - m.parent, false, m.buf[m.pos], r.value.marks[m.current].total, 0)
    ensures r.Stop? ==> r.step.Threw? || r.step.Overran?
  {
    var n := |m.buf|;
    var r1 :- Bound(n, Add(m.readed, 5));
    var id :- ByteAt(m.buf, m.pos);
    var r2 :- if id <= 6 then
                var len :- Get(m.buf, m.pos + 1, 4, c.order, false);
                Bound(n, Add(r1, len * Width(id)))
              else Go(r1);
    var total :- Get(m.buf, m.pos + 1, 4, c.order, false);
    var frame := Cache(m.current - m.parent, false, id, total, 0);
    Go(m.(buf := Swapped(m.buf, m.pos + 1, 4, c.order != c.native), pos := m.pos + 5, readed := r2,
          marks := m.marks[m.current := frame], at := ListItem))
  }

  /// `comp_begin` / `list_begin`: a new frame at the end of the used marks,
  /// child of `current`. As written the array grows only once the new frame
  /// would lie beyond `mark_end`, so a frame at exactly `alc_len` is written
  /// outside the allocation; corrected, it grows by half first.
  function Push(c: Config, m: Machine, isCompound: bool): (r: Outcome)
    requires Wf(m)
    ensures r.Running? ==> Wf(r.m) && |r.m.marks| == |m.marks| + 1 && r.m.current == |m.marks|
    ensures r.Running? ==> r.m.marks[..|m.marks|] == m.marks && r.m.parent == m.current
    ensures r.Running? ==> |r.m.buf| == |m.buf|
    ensures r.Running? && isCompound ==> r.m == m.(marks := r.m.marks, current := |m.marks|,
                                                  parent := m.current, capacity := r.m.capacity, at := CompItem)
    ensures r.Running? ==> r.m.capacity == if |m.marks| >= m.capacity then m.capacity + m.capacity / 2 else m.capacity
    ensures r.MarkOverran? <==> c.variant == AsWritten && |m.marks| == m.capacity
    ensures !r.Done?
  {
    var index := |m.marks|;
    assert m.capacity / 2 >= 1 && index <= m.capacity;
    assert c.variant == Corrected ==> index < m.capacity + m.capacity / 2;
    var capacity := if (c.variant == AsWritten && index > m.capacity) || (c.variant == Corrected && index >= m.capacity)
                    then m.capacity + m.capacity / 2 else m.capacity;
    if index >= capacity then MarkOverran
    else
      var frame := Cache(index - m.current, isCompound, 0, 0, 0);
      var marks := m.marks + [frame];
      ChainKept(m.marks, marks, m.current);
      assert marks[..index] == m.marks;
      var m1 := m.(marks := marks, current := index, parent := m.current, capacity := capacity, at := CompItem);
      if isCompound then Running(m1)
      else match ListHeader(c, m1)
        case Go(m2) =>
          ChainHeadReplaced(marks, index, m2.marks[index]);
          assert m2.marks[..index] == m.marks;
          Running(m2)
        case Stop(s) => s
  }

  /// `comp_end` / `list_end`: the frame `current` is closed with the end of
  /// its payload and the number of marks it spans; the root's closing ends
  /// the read, any other resumes its parent at the label its kind gives.
  function Close(m: Machine): (r: Outcome)
    requires Wf(m)
    ensures r.Done? <==> m.current == 0
    ensures r.Done? ==> forall j | 0 <= j < |r.doc.marks| :: r.doc.marks[j].Store?
    ensures r.Done? ==> r.doc == Document(m.buf, m.marks[m.current := Store(|m.marks| - m.current, m.pos)], m.capacity)
    ensures r.Running? ==> Wf(r.m) && r.m.current == m.parent
    ensures r.Running? ==> r.m == m.(marks := m.marks[m.current := Store(|m.marks| - m.current, m.pos)],
                                     current := m.parent, parent := r.m.parent, at := r.m.at)
    ensures r.Done? || r.Running?
  {
    var marks := m.marks[m.current := Store(|m.marks| - m.current, m.pos)];
    if m.marks[m.current].parentOffset == 0 then Done(Document(m.buf, marks, m.capacity))
    else
      var p := m.parent;
      ChainKept(m.marks, marks, p);
      var frame := m.marks[p];
      Running(m.(marks := marks, current := p, parent := p - frame.parentOffset,
                 at := if frame.isCompound then CompItem else ListItem))
  }

  /// The value of a Compound member whose tag `id` and name have been read:
  /// a payload is swapped, a child frame pushed for tags 9 and 10, and any
  /// other tag throws `invalid`.
  function MemberValue(c: Config, m: Machine, id: byte): (r: Outcome)
    requires Wf(m)
    ensures r.Running? ==> Wf(r.m) && |r.m.buf| == |m.buf|
  {
    if SwappedTag(id) then
      match Payload(c, m, id, true)
        case Go(m1) => Running(m1)
        case Stop(s) => s
    else if id == TAG_LIST then Push(c, m, false)
    else if id == TAG_COMPOUND then Push(c, m, true)
    else Threw(Invalid)
  }

  /// The name of a Compound member of type `id` at `pos`: its length is
  /// swapped in place and the name skipped, then the value is read.
  function MemberName(c: Config, m: Machine, id: byte): (r: Outcome)
    requires Wf(m)
    ensures r.Running? ==> Wf(r.m) && |r.m.buf| == |m.buf|
  {
    var n := |m.buf|;
    var g := (
      var r2 :- Bound(n, Add(m.readed, 2));
      var nameLen :- Get(m.buf, m.pos, 2, c.order, false);
      var r3 :- Bound(n, Add(r2, nameLen));
      Go(MemberValue(c, m.(buf := Swapped(m.buf, m.pos, 2, c.order != c.native), pos := m.pos + 2 + nameLen, readed := r3), id)));
    match g
      case Go(s) => s
      case Stop(s) => s
  }

  /// `comp_item_begin`: one member of the Compound `current`. The tag byte
  /// 0 closes it; otherwise the member's name and value follow.
  function CompoundMember(c: Config, m: Machine): (r: Outcome)
    requires Wf(m)
    ensures r.Running? ==> Wf(r.m) && |r.m.buf| == |m.buf|
  {
    var n := |m.buf|;
    var g := (
      var r1 :- Bound(n, Add(m.readed, 1));
      var id :- ByteAt(m.buf, m.pos);
      var m1 := m.(pos := m.pos + 1, readed := r1);
      if id == 0 then Go(Close(m1)) else Go(MemberName(c, m1, id)));
    match g
      case Go(s) => s
      case Stop(s) => s
  }

  /// `list_item_begin`: one element of the List `current`. The List closes
  /// once its count reaches its total; otherwise the count goes up and the
  /// element is handled by its type: nothing for End, a payload without a
  /// bound check for the scalars, with one for the arrays and strings, a
  /// child frame for 9 and 10, and `invalid` for any other type.
  function ListElement(c: Config, m: Machine): (r: Outcome)
    requires Wf(m)
    ensures r.Running? ==> Wf(r.m) && |r.m.buf| == |m.buf|
  {
    var f := m.marks[m.current];
    if f.count >= f.total then Close(m)
    else
      var next := f.(count := f.count + 1);
      ChainHeadReplaced(m.marks, m.current, next);
      var m1 := m.(marks := m.marks[m.current := next]);
      var t := f.listType;
      if t == TAG_END then Running(m1)
      else if SwappedTag(t) then
        match Payload(c, m1, t, t >= TAG_BYTE_ARRAY)
          case Go(m2) => Running(m2)
          case Stop(s) => s
      else if t == TAG_LIST then Push(c, m1, false)
      else if t == TAG_COMPOUND then Push(c, m1, true)
      else Threw(Invalid)
  }

  /// One step of the machine, from the label it rests at.
  function Step(c: Config, m: Machine): (r: Outcome)
    requires Wf(m)
    ensures r.Running? ==> Wf(r.m) && |r.m.buf| == |m.buf|
  {
    match m.at
      case CompItem => CompoundMember(c, m)
      case ListItem => ListElement(c, m)
  }

  /// The root value once the root name is read: one scalar or array
  /// payload, which ends the read with no marks, or the first frame of a
  /// List or Compound root.
  function RootValue(c: Config, m: Machine, tag: byte): (r: Outcome)
    requires m.marks == [] && m.current == 0 && m.parent == 0 && m.at == CompItem && m.capacity >= 2
    ensures r.Running? ==> Wf(r.m) && |r.m.buf| == |m.buf| && |r.m.marks| == 1 && r.m.capacity == m.capacity
  {
    if SwappedTag(tag) then
      match Payload(c, m, tag, true)
        case Go(m1) => Done(Document(m1.buf, [], 0))
        case Stop(s) => s
    else if tag == TAG_COMPOUND then Running(m.(marks := [Cache(0, true, 0, 0, 0)]))
    else if tag == TAG_LIST then
      match ListHeader(c, m.(marks := [Cache(0, false, 0, 0, 0)], at := ListItem))
        case Go(m1) => Running(m1)
        case Stop(s) => s
    else Threw(Invalid)
  }

  /// The code before `general_start`: the root tag (0 ends the read at
  /// once) and the root name, then the root value, with a fresh mark array
  /// of `source_len / 32 + 4` marks.
  function Start(c: Config, s: seq<byte>): (r: Outcome)
    ensures r.Running? ==> Wf(r.m) && |r.m.buf| == |s| && |r.m.marks| == 1
    ensures r.Running? ==> r.m.capacity == |s| / 32 + 4
  {
    var n := |s|;
    var g := (
      var _ :- Bound(n, 1);
      if s[0] == TAG_END then Go(Done(Document(s, [], 0)))
      else
        var r1 :- Bound(n, 3);
        var nameLen :- Get(s, 1, 2, c.order, false);
        var r2 :- Bound(n, Add(r1, nameLen));
        Go(RootValue(c, Machine(Swapped(s, 1, 2, c.order != c.native), 3 + nameLen, r2, [], 0, 0, n / 32 + 4, CompItem), s[0])));
    match g
      case Go(r) => r
      case Stop(r) => r
  }

  /// At most `fuel` steps from `m`; `Running` when the fuel runs out first.
  function Run(c: Config, m: Machine, fuel: nat): (r: Outcome)
    requires Wf(m)
    ensures r.Running? ==> Wf(r.m)
    decreases fuel
  {
    if fuel == 0 then Running(m)
    else match Step(c, m)
      case Running(m1) => Run(c, m1, fuel - 1)
      case r => r
  }

  /// A run that takes a step goes on from where the step leads.
  lemma {:induction false} RunStep(c: Config, m: Machine, m1: Machine, fuel: nat)
    requires Wf(m) && Step(c, m) == Running(m1) && fuel >= 1
    ensures Run(c, m, fuel) == Run(c, m1, fuel - 1)
  {
  }

  /// A run whose first step stops ends with that step's outcome.
  lemma {:induction false} RunStops(c: Config, m: Machine, fuel: nat)
    requires Wf(m) && !Step(c, m).Running? && fuel >= 1
    ensures Run(c, m, fuel) == Step(c, m)
  {
  }

  /// `Step` on machines that are well formed, as a value.
  function Next(c: Config): Machine -> Outcome
  {
    m => if Wf(m) then Step(c, m) else Overran
  }

  /// Up to `fuel` applications of any step function `next`, stopping at
  /// the first outcome that is not `Running`.
  function Iterate(next: Machine -> Outcome, m: Machine, fuel: nat): Outcome
    decreases fuel
  {
    if fuel == 0 then Running(m)
    else match next(m)
      case Running(m1) => Iterate(next, m1, fuel - 1)
      case r => r
  }

  /// `Run` iterates `Step`.
  lemma {:induction false} RunIterates(c: Config, m: Machine, fuel: nat)
    requires Wf(m)
    ensures Run(c, m, fuel) == Iterate(Next(c), m, fuel)
    decreases fuel
  {
    if fuel > 0 {
      var st := Step(c, m);
      assert Next(c)(m) == st;
      if st.Running? {
        RunIterates(c, st.m, fuel - 1);
      }
    }
  }

  /// Iterations taken one after another are one iteration.
  lemma {:induction false} IterateSplit(next: Machine -> Outcome, m: Machine, n: nat, m1: Machine, total: nat, k: nat)
    requires Iterate(next, m, n) == Running(m1) && total == n + k
    ensures Iterate(next, m, total) == Iterate(next, m1, k)
    decreases n
  {
    if n > 0 {
      var m2 := next(m).m;
      IterateSplit(next, m2, n - 1, m1, total - 1, k);
    }
  }

  /// Steps taken one run after another are one run: from a machine `n`
  /// steps after `m`, `k` more steps end where `total == n + k` steps from
  /// `m` end.
  lemma RunSplit(c: Config, m: Machine, n: nat, m1: Machine, total: nat, k: nat)
    requires Wf(m) && Run(c, m, n) == Running(m1) && total == n + k
    ensures Wf(m1) && Run(c, m, total) == Run(c, m1, k)
  {
    RunIterates(c, m, n);
    RunIterates(c, m, total);
    RunIterates(c, m1, k);
    IterateSplit(Next(c), m, n, m1, total, k);
  }

  /// `read` on the bytes `s`, given `fuel` steps.
  function Read(c: Config, s: seq<byte>, fuel: nat): Outcome
  {
    match Start(c, s)
      case Running(m) => Run(c, m, fuel)
      case r => r
  }
}
