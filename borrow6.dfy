/// The borrow parser of the newest reader
/// (shen-nbt6/src/borrow/impls/java_read.rs): a tree of offsets into the
/// input, built with an explicit stack of open containers instead of
/// native recursion.
///
/// The first half states, by recursive descent, what the parser yields;
/// the second half is the parser itself, a loop over a stack of frames,
/// proved to yield exactly that.
module Nbt6Borrow {
  import opened NbtBase
  import opened Nbt6Error
  import opened Nbt6Traits
  import opened Nbt6Reader

  /// `BorrowNbtValue` as the parser builds it: every number is an offset
  /// into the input, a length or a count. A List records its offset, its
  /// declared count, its element tag and its children; a Compound its
  /// offset, the length of its own name (only the root has one) and its
  /// members in wire order.
  datatype BorrowValue =
    | Byte(at: nat)
    | Short(at: nat)
    | Int(at: nat)
    | Long(at: nat)
    | Float(at: nat)
    | Double(at: nat)
    | ByteArray(at: nat, len: nat)
    | String(at: nat, len: nat)
    | IntArray(at: nat, len: nat)
    | LongArray(at: nat, len: nat)
    | List(at: nat, count: nat, elem: byte, items: seq<BorrowValue>)
    | Compound(at: nat, nameLen: Option<nat>, members: seq<Member>)

  /// A compound member: the offset of its name (just after the 2-byte name
  /// length), the name length and the value.
  datatype Member = Member(nameAt: nat, nameLen: nat, value: BorrowValue)

  /// The outcome of reading one payload: a value read in place, or an empty
  /// container that gets a frame of its own. `next` is the cursor after it.
  datatype Payload = Inline(value: BorrowValue, next: nat) | Nest(child: BorrowValue, next: nat)

  /// A finished value and the cursor after it.
  type Parsed = Result<(BorrowValue, nat), NbtError>

  // ---------------------------------------------------------------------
  // Payload shapes
  // ---------------------------------------------------------------------

  predicate IsScalarTag(tag: byte) { TAG_BYTE <= tag <= TAG_DOUBLE }

  /// Arrays and strings: a length prefix, then the elements.
  predicate IsSizedTag(tag: byte)
  {
    tag == TAG_BYTE_ARRAY || tag == TAG_STRING || tag == TAG_INT_ARRAY || tag == TAG_LONG_ARRAY
  }

  /// Width of a Byte/Short/Int/Long/Float/Double payload.
  function ScalarWidth(tag: byte): nat
    requires IsScalarTag(tag)
  {
    if tag == TAG_BYTE then 1
    else if tag == TAG_SHORT then 2
    else if tag == TAG_INT || tag == TAG_FLOAT then 4
    else 8
  }

  function Scalar(tag: byte, at: nat): BorrowValue
    requires IsScalarTag(tag)
  {
    match tag
      case 1 => Byte(at)
      case 2 => Short(at)
      case 3 => Int(at)
      case 4 => Long(at)
      case 5 => Float(at)
      case 6 => Double(at)
  }

  /// Width of one element of a sized payload (a string counts bytes).
  function ElementWidth(tag: byte): nat
    requires IsSizedTag(tag)
  {
    if tag == TAG_INT_ARRAY then 4 else if tag == TAG_LONG_ARRAY then 8 else 1
  }

  /// Width of the length prefix of a sized payload.
  function PrefixWidth(tag: byte): nat
    requires IsSizedTag(tag)
  {
    if tag == TAG_STRING then 2 else 4
  }

  function SizedValue(tag: byte, at: nat, len: nat): BorrowValue
    requires IsSizedTag(tag)
  {
    match tag
      case 7 => ByteArray(at, len)
      case 8 => String(at, len)
      case 11 => IntArray(at, len)
      case 12 => LongArray(at, len)
  }

  /// A value with no children.
  predicate Leaf(v: BorrowValue) { !v.List? && !v.Compound? }

  /// Bytes between the end of a member's name and the offset its value
  /// records: a List's element tag, an array's or a string's length.
  function Lead(v: BorrowValue): nat
  {
    match v
      case List(_, _, _, _) => 1
      case ByteArray(_, _) => 4
      case IntArray(_, _) => 4
      case LongArray(_, _) => 4
      case String(_, _) => 2
      case _ => 0
  }

  /// A container the parser fills in a frame: a Compound, or a List of
  /// Lists or Compounds that has not yet got more children than declared.
  predicate Openable(v: BorrowValue)
  {
    v.Compound? || (v.List? && IsListOrCompound(v.elem) && |v.items| <= v.count)
  }

  /// The container without its children: what a frame keeps while filling.
  function Shell(v: BorrowValue): BorrowValue
  {
    match v
      case List(at, count, elem, _) => List(at, count, elem, [])
      case Compound(at, nameLen, _) => Compound(at, nameLen, [])
      case _ => v
  }

  /// Appends a member to a Compound.
  function AddMember(node: BorrowValue, nameAt: nat, nameLen: nat, v: BorrowValue): (r: BorrowValue)
    requires node.Compound?
    ensures r.Compound? && Shell(r) == Shell(node)
  {
    node.(members := node.members + [Member(nameAt, nameLen, v)])
  }

  /// Appends a child to a List.
  function AddItem(node: BorrowValue, v: BorrowValue): (r: BorrowValue)
    requires node.List?
    ensures r.List? && Shell(r) == Shell(node) && |r.items| == |node.items| + 1
  {
    node.(items := node.items + [v])
  }

  // ---------------------------------------------------------------------
  // What the parser yields, by recursive descent
  // ---------------------------------------------------------------------

  /// `read_be_u16` as a length.
  function U16At(data: seq<byte>, at: nat): (r: Result<nat, NbtError>)
    ensures r.Ok? ==> FixedRead(data, at, 2, Big, false) == Ok(r.value as int)
    ensures r.Err? ==> FixedRead(data, at, 2, Big, false) == Err(r.error)
  {
    if at + 2 > |data| then Err(CursorOverflow(at, 2, |data|)) else Ok(BeUnsigned(data[at..at + 2]))
  }

  /// A string, or an array with its i32 length: a negative length fails
  /// before anything is skipped.
  function Sized(data: seq<byte>, at: nat, tag: byte): (r: Parsed)
    requires IsSizedTag(tag)
    ensures r.Ok? ==> var v := r.value.0;
              Leaf(v) && Lead(v) == PrefixWidth(tag) && v.at == at + PrefixWidth(tag)
              && r.value.1 == v.at + v.len * ElementWidth(tag) <= |data|
  {
    if tag == TAG_STRING then
      var len :- U16At(data, at);
      var next :- AfterRollDown(at + 2, len, |data|);
      Ok((String(at + 2, len), next))
    else
      var len :- FixedRead(data, at, 4, Big, true);
      if len < 0 then Err(LenNegative(tag, len, at + 4))
      else
        var next :- AfterRollDown(at + 4, len * ElementWidth(tag), |data|);
        Ok((SizedValue(tag, at + 4, len), next))
  }

  /// The elements of a list of arrays or strings, read one by one.
  function SizedItems(data: seq<byte>, at: nat, tag: byte, count: nat, items: seq<BorrowValue>)
    : (r: Result<(seq<BorrowValue>, nat), NbtError>)
    requires IsSizedTag(tag) && |items| <= count && at <= |data|
    ensures r.Ok? ==> |r.value.0| == count && r.value.0[..|items|] == items && at <= r.value.1 <= |data|
    ensures r.Ok? ==> forall i :: |items| <= i < count ==> Leaf(r.value.0[i])
    decreases count - |items|
  {
    if |items| == count then Ok((items, at))
    else
      var x :- Sized(data, at, tag);
      SizedItems(data, x.1, tag, count, items + [x.0])
  }

  /// A list whose elements are read in place: an End list skips `count`
  /// bytes, a scalar list gets one child per element at consecutive
  /// offsets, an array or string list reads its elements one by one.
  /// `ptr` is the offset the List records.
  function InlineList(data: seq<byte>, at: nat, ptr: nat, elem: byte, count: nat): (r: Parsed)
    requires IsValidNbtType(elem) && !IsListOrCompound(elem) && at <= |data|
    ensures r.Ok? ==> at <= r.value.1 <= |data|
  {
    if elem == TAG_END then
      var next :- AfterRollDown(at, count, |data|);
      Ok((List(ptr, count, elem, []), next))
    else if IsScalarTag(elem) then
      var w := ScalarWidth(elem);
      var items := seq(count, i requires 0 <= i < count => Scalar(elem, at + i * w));
      var next :- AfterRollDown(at, count * w, |data|);
      Ok((List(ptr, count, elem, items), next))
    else
      var x :- SizedItems(data, at, elem, count, []);
      Ok((List(ptr, count, elem, x.0), x.1))
  }

  /// The element tag and count of a list. As a compound member (`nested`
  /// false) the List records the offset of its count and both errors report
  /// it; as the element of a list of lists it records the offset after the
  /// count, where a negative count is also reported.
  function ListHeader(data: seq<byte>, at: nat, nested: bool): (r: Result<Payload, NbtError>)
    requires at <= |data|
    ensures r.Ok? ==> at < r.value.next <= |data|
    ensures r.Ok? && r.value.Nest? ==> r.value.child.List? && Openable(r.value.child) && Shell(r.value.child) == r.value.child
  {
    var elem :- U8Read(data, at);
    if !IsValidNbtType(elem) then Err(UnknownType(elem, at + 1))
    else
      var count :- FixedRead(data, at + 1, 4, Big, true);
      var ptr := if nested then at + 5 else at + 1;
      if count < 0 then Err(LenNegative(elem, count, ptr))
      else if IsListOrCompound(elem) then Ok(Nest(List(ptr, count, elem, []), at + 5))
      else
        var x :- InlineList(data, at + 5, ptr, elem, count);
        Ok(Inline(x.0, x.1))
  }

  /// The payload of a compound member with tag `tag`, at `at`.
  function MemberPayload(data: seq<byte>, at: nat, tag: byte): (r: Result<Payload, NbtError>)
    requires at <= |data|
    ensures r.Ok? ==> at <= r.value.next <= |data|
    ensures r.Ok? && r.value.Nest? ==> Openable(r.value.child) && Shell(r.value.child) == r.value.child
  {
    if IsScalarTag(tag) then
      var next :- AfterRollDown(at, ScalarWidth(tag), |data|);
      Ok(Inline(Scalar(tag, at), next))
    else if IsSizedTag(tag) then
      var x :- Sized(data, at, tag);
      Ok(Inline(x.0, x.1))
    else if tag == TAG_LIST then ListHeader(data, at, false)
    else if tag == TAG_COMPOUND then Ok(Nest(Compound(at, None, []), at))
    else Err(UnknownType(tag, at))
  }

  /// A frame opened at stack depth `depth`: the depth limit is checked
  /// before anything is read, then the container is filled.
  function Open(data: seq<byte>, limit: nat, at: nat, depth: nat, node: BorrowValue): (r: Parsed)
    requires at <= |data| && Openable(node)
    ensures r.Ok? ==> at <= r.value.1 <= |data| && Shell(r.value.0) == Shell(node)
    ensures r.Ok? && node.Compound? ==> at < r.value.1
    decreases |data| - at, if node.Compound? then 2 else 5
  {
    if depth > limit then Err(NbtDepthTooBig(limit))
    else if node.Compound? then Members(data, limit, at, depth, node)
    else Items(data, limit, at, depth, node)
  }

  /// The rest of a Compound: members up to the End tag.
  function Members(data: seq<byte>, limit: nat, at: nat, depth: nat, node: BorrowValue): (r: Parsed)
    requires at <= |data| && node.Compound?
    ensures r.Ok? ==> at < r.value.1 <= |data| && Shell(r.value.0) == Shell(node)
    decreases |data| - at, 1
  {
    var tag :- U8Read(data, at);
    if tag == TAG_END then Ok((node, at + 1))
    else
      var nameLen :- U16At(data, at + 1);
      var start :- AfterRollDown(at + 3, nameLen, |data|);
      MemberValue(data, limit, start, tag, depth, node, at + 3, nameLen)
  }

  /// The value of the member of tag `tag` whose name of `nameLen` bytes at
  /// `nameAt` ends at `start`, then the rest of the Compound.
  function MemberValue(data: seq<byte>, limit: nat, start: nat, tag: byte, depth: nat, node: BorrowValue,
                       nameAt: nat, nameLen: nat): (r: Parsed)
    requires start <= |data| && node.Compound?
    ensures r.Ok? ==> start < r.value.1 <= |data| && Shell(r.value.0) == Shell(node)
    decreases |data| - start + 1, 0
  {
    var p :- MemberPayload(data, start, tag);
    match p
      case Inline(v, next) => Members(data, limit, next, depth, AddMember(node, nameAt, nameLen, v))
      case Nest(child, next) =>
        AfterMember(data, limit, Open(data, limit, next, depth + 1, child), depth, node, nameAt, nameLen)
  }

  /// A Compound resumed after its child container `r` finished.
  function AfterMember(data: seq<byte>, limit: nat, r: Parsed, depth: nat, node: BorrowValue, nameAt: nat, nameLen: nat)
    : (r': Parsed)
    requires node.Compound? && (r.Ok? ==> r.value.1 <= |data|)
    ensures r'.Ok? ==> r.Ok? && r.value.1 < r'.value.1 <= |data| && Shell(r'.value.0) == Shell(node)
    decreases if r.Ok? then |data| - r.value.1 + 1 else 0, 0
  {
    var x :- r;
    Members(data, limit, x.1, depth, AddMember(node, nameAt, nameLen, x.0))
  }

  /// The rest of a List of Lists or Compounds: it is done exactly when it
  /// has as many children as declared.
  function Items(data: seq<byte>, limit: nat, at: nat, depth: nat, node: BorrowValue): (r: Parsed)
    requires at <= |data| && Openable(node) && node.List?
    ensures r.Ok? ==> at <= r.value.1 <= |data| && Shell(r.value.0) == Shell(node)
    decreases |data| - at, 4
  {
    if |node.items| == node.count then Ok((node, at))
    else if node.elem == TAG_COMPOUND then
      AfterItem(data, limit, Open(data, limit, at, depth + 1, Compound(at, None, [])), depth, node)
    else
      var p :- ListHeader(data, at, true);
      match p
        case Inline(v, next) => Items(data, limit, next, depth, AddItem(node, v))
        case Nest(child, next) => AfterItem(data, limit, Open(data, limit, next, depth + 1, child), depth, node)
  }

  /// A List resumed after its child container `r` finished.
  function AfterItem(data: seq<byte>, limit: nat, r: Parsed, depth: nat, node: BorrowValue): (r': Parsed)
    requires Openable(node) && node.List? && |node.items| < node.count && (r.Ok? ==> r.value.1 <= |data|)
    ensures r'.Ok? ==> r.Ok? && r.value.1 <= r'.value.1 <= |data| && Shell(r'.value.0) == Shell(node)
    decreases if r.Ok? then |data| - r.value.1 + 1 else 0, 3
  {
    var x :- r;
    Items(data, limit, x.1, depth, AddItem(node, x.0))
  }

  /// `java_from_reader` from position `at`: the root must be a Compound;
  /// with `rootWithName` its name is skipped and its length kept.
  function JavaParse(data: seq<byte>, at: nat, rootWithName: bool, limit: nat): (r: Parsed)
    requires at <= |data|
    ensures at < |data| && data[at] != TAG_COMPOUND ==> r == Err(WrongRootType(data[at]))
    ensures r.Ok? ==> r.value.0.Compound? && r.value.0.at == 0 && (r.value.0.nameLen.Some? <==> rootWithName)
    ensures r.Ok? && rootWithName ==> at + 3 <= |data| && r.value.0.nameLen == Some(BeUnsigned(data[at + 1..at + 3]))
    ensures r.Ok? ==> at < r.value.1 <= |data|
  {
    var first :- U8Read(data, at);
    if first != TAG_COMPOUND then Err(WrongRootType(first))
    else if rootWithName then
      var len :- U16At(data, at + 1);
      var start :- AfterRollDown(at + 3, len, |data|);
      Open(data, limit, start, 1, Compound(0, Some(len), []))
    else Open(data, limit, at + 1, 1, Compound(0, None, []))
  }

  // ---------------------------------------------------------------------
  // What every parsed tree satisfies
  // ---------------------------------------------------------------------

  /// Containers read in frames (Compounds, Lists of Lists or Compounds)
  /// nest at most `budget` deep.
  predicate Within(v: BorrowValue, budget: int)
  {
    match v
      case Compound(_, _, ms) => budget >= 1 && forall i :: 0 <= i < |ms| ==> Within(ms[i].value, budget - 1)
      case List(_, _, elem, items) =>
        IsListOrCompound(elem) ==> budget >= 1 && forall i :: 0 <= i < |items| ==> Within(items[i], budget - 1)
      case _ => true
  }

  /// Every member's value records the offset just after its name and the
  /// payload's own header.
  predicate Laid(v: BorrowValue)
  {
    match v
      case Compound(_, _, ms) =>
        forall i :: 0 <= i < |ms| ==> ms[i].value.at == ms[i].nameAt + ms[i].nameLen + Lead(ms[i].value) && Laid(ms[i].value)
      case List(_, _, _, items) => forall i :: 0 <= i < |items| ==> Laid(items[i])
      case _ => true
  }

  /// Every List holds as many children as it declares (an End list none).
  predicate Filled(v: BorrowValue)
  {
    match v
      case Compound(_, _, ms) => forall i :: 0 <= i < |ms| ==> Filled(ms[i].value)
      case List(_, count, elem, items) =>
        (if elem == TAG_END then items == [] else |items| == count) && forall i :: 0 <= i < |items| ==> Filled(items[i])
      case _ => true
  }

  /// A finished tree within `budget`.
  predicate Sound(v: BorrowValue, budget: int)
  {
    Within(v, budget) && Laid(v) && Filled(v)
  }

  /// A container being filled within `budget`: its children so far are
  /// finished.
  predicate Partial(node: BorrowValue, budget: int)
  {
    Within(node, budget) && Laid(node)
    && match node
         case Compound(_, _, ms) => forall i :: 0 <= i < |ms| ==> Filled(ms[i].value)
         case List(_, _, _, items) => forall i :: 0 <= i < |items| ==> Filled(items[i])
         case _ => true
  }

  lemma {:induction false} AddMemberPartial(node: BorrowValue, nameAt: nat, nameLen: nat, v: BorrowValue, budget: int)
    requires node.Compound? && Partial(node, budget) && budget >= 1 && Sound(v, budget - 1)
    requires v.at == nameAt + nameLen + Lead(v)
    ensures Partial(AddMember(node, nameAt, nameLen, v), budget)
  {
    var ms := AddMember(node, nameAt, nameLen, v).members;
    assert forall i :: 0 <= i < |node.members| ==> ms[i] == node.members[i];
  }

  lemma {:induction false} AddItemPartial(node: BorrowValue, v: BorrowValue, budget: int)
    requires node.List? && Partial(node, budget) && (IsListOrCompound(node.elem) ==> budget >= 1)
    requires Sound(v, budget - 1)
    ensures Partial(AddItem(node, v), budget)
  {
    var items := AddItem(node, v).items;
    assert forall i :: 0 <= i < |node.items| ==> items[i] == node.items[i];
  }

  /// A list read in place is finished and holds no frames.
  lemma {:induction false} InlineListSound(data: seq<byte>, at: nat, ptr: nat, elem: byte, count: nat, budget: int)
    requires IsValidNbtType(elem) && !IsListOrCompound(elem) && at <= |data|
    ensures var r := InlineList(data, at, ptr, elem, count);
            r.Ok? ==> Sound(r.value.0, budget) && r.value.0.List? && r.value.0.at == ptr
  {
    var r := InlineList(data, at, ptr, elem, count);
    if r.Ok? && !IsScalarTag(elem) && elem != TAG_END {
      var x := SizedItems(data, at, elem, count, []).value;
      assert forall i :: 0 <= i < |x.0| ==> Leaf(x.0[i]);
    }
  }

  /// What a member's payload yields is laid out after the name and, when
  /// read in place, finished.
  lemma {:induction false} PayloadSound(data: seq<byte>, at: nat, tag: byte, budget: int)
    requires at <= |data|
    ensures var r := MemberPayload(data, at, tag);
            r.Ok? ==> match r.value
                        case Inline(v, _) => Sound(v, budget) && v.at == at + Lead(v)
                        case Nest(c, _) => c.at == at + Lead(c)
  {
    if tag == TAG_LIST {
      var elem := U8Read(data, at);
      var count := FixedRead(data, at + 1, 4, Big, true);
      if elem.Ok? && IsValidNbtType(elem.value) && count.Ok? && count.value >= 0 && !IsListOrCompound(elem.value) {
        InlineListSound(data, at + 5, at + 1, elem.value, count.value, budget);
      }
    }
  }

  /// The items of a nested list read in place are finished.
  lemma {:induction false} HeaderSound(data: seq<byte>, at: nat, budget: int)
    requires at <= |data|
    ensures var r := ListHeader(data, at, true);
            r.Ok? && r.value.Inline? ==> Sound(r.value.value, budget)
  {
    var elem := U8Read(data, at);
    var count := FixedRead(data, at + 1, 4, Big, true);
    if elem.Ok? && IsValidNbtType(elem.value) && count.Ok? && count.value >= 0 && !IsListOrCompound(elem.value) {
      InlineListSound(data, at + 5, at + 5, elem.value, count.value, budget);
    }
  }

  /// Whatever a frame finishes is a sound tree: the depth check keeps the
  /// nesting within the limit, a List pops only when full, and members are
  /// laid out after their names.
  lemma {:induction false} OpenSound(data: seq<byte>, limit: nat, at: nat, depth: nat, node: BorrowValue)
    requires at <= |data| && Openable(node) && Partial(node, limit + 1 - depth)
    ensures var r := Open(data, limit, at, depth, node); r.Ok? ==> Sound(r.value.0, limit + 1 - depth)
    decreases |data| - at, if node.Compound? then 2 else 5
  {
    if depth <= limit {
      if node.Compound? {
        MembersSound(data, limit, at, depth, node);
      } else {
        ItemsSound(data, limit, at, depth, node);
      }
    }
  }

  lemma {:induction false} MembersSound(data: seq<byte>, limit: nat, at: nat, depth: nat, node: BorrowValue)
    requires at <= |data| && node.Compound? && Partial(node, limit + 1 - depth)
    ensures var r := Members(data, limit, at, depth, node); r.Ok? ==> Sound(r.value.0, limit + 1 - depth)
    decreases |data| - at, 1
  {
    var tag := U8Read(data, at);
    if tag.Err? || tag.value == TAG_END {
      return;
    }
    var nameLen := U16At(data, at + 1);
    if nameLen.Err? {
      return;
    }
    var start := AfterRollDown(at + 3, nameLen.value, |data|);
    if start.Err? {
      return;
    }
    MemberValueSound(data, limit, start.value, tag.value, depth, node, at + 3, nameLen.value);
  }

  lemma {:induction false} MemberValueSound(data: seq<byte>, limit: nat, start: nat, tag: byte, depth: nat,
                                            node: BorrowValue, nameAt: nat, nameLen: nat)
    requires start <= |data| && node.Compound? && Partial(node, limit + 1 - depth) && nameAt + nameLen == start
    ensures var r := MemberValue(data, limit, start, tag, depth, node, nameAt, nameLen);
            r.Ok? ==> Sound(r.value.0, limit + 1 - depth)
    decreases |data| - start + 1, 1
  {
    var p := MemberPayload(data, start, tag);
    if p.Err? {
      return;
    }
    PayloadSound(data, start, tag, limit - depth);
    match p.value
    case Inline(v, next) =>
      InlineMemberSound(data, limit, start, tag, depth, node, nameAt, nameLen, v, next);
    case Nest(child, next) =>
      NestMemberSound(data, limit, start, tag, depth, node, nameAt, nameLen, child, next);
  }

  /// A member whose value has no children of its own.
  lemma {:induction false} InlineMemberSound(data: seq<byte>, limit: nat, start: nat, tag: byte, depth: nat,
                                             node: BorrowValue, nameAt: nat, nameLen: nat, v: BorrowValue, next: nat)
    requires start <= |data| && node.Compound? && Partial(node, limit + 1 - depth) && nameAt + nameLen == start
    requires MemberPayload(data, start, tag) == Ok(Inline(v, next))
    requires Sound(v, limit - depth) && v.at == start + Lead(v)
    ensures var r := MemberValue(data, limit, start, tag, depth, node, nameAt, nameLen);
            r.Ok? ==> Sound(r.value.0, limit + 1 - depth)
    decreases |data| - start + 1, 0
  {
    var r := MemberValue(data, limit, start, tag, depth, node, nameAt, nameLen);
    if r.Ok? {
      AddMemberPartial(node, nameAt, nameLen, v, limit + 1 - depth);
      MembersSound(data, limit, next, depth, AddMember(node, nameAt, nameLen, v));
    }
  }

  /// A member that is a container: its frame is filled, then the Compound
  /// resumes.
  lemma {:induction false} NestMemberSound(data: seq<byte>, limit: nat, start: nat, tag: byte, depth: nat,
                                           node: BorrowValue, nameAt: nat, nameLen: nat, child: BorrowValue,
                                           next: nat)
    requires start <= |data| && node.Compound? && Partial(node, limit + 1 - depth) && nameAt + nameLen == start
    requires MemberPayload(data, start, tag) == Ok(Nest(child, next))
    requires child.at == start + Lead(child)
    ensures var r := MemberValue(data, limit, start, tag, depth, node, nameAt, nameLen);
            r.Ok? ==> Sound(r.value.0, limit + 1 - depth)
    decreases |data| - start + 1, 0
  {
    var r := Open(data, limit, next, depth + 1, child);
    if r.Ok? {
      EmptyPartial(child, limit - depth);
      OpenSound(data, limit, next, depth + 1, child);
      SameShell(r.value.0, child);
      AfterMemberSound(data, limit, r, depth, node, nameAt, nameLen);
    }
  }

  /// A container with no children yet is partial within any budget of at
  /// least one frame.
  lemma {:induction false} EmptyPartial(v: BorrowValue, budget: int)
    requires Openable(v) && Shell(v) == v && budget >= 1
    ensures Partial(v, budget)
  {
  }

  /// Filling a container keeps its offset and its header width.
  lemma {:induction false} SameShell(a: BorrowValue, b: BorrowValue)
    requires Shell(a) == Shell(b)
    ensures a.at == b.at && Lead(a) == Lead(b)
  {
  }

  lemma {:induction false} AfterMemberSound(data: seq<byte>, limit: nat, r: Parsed, depth: nat, node: BorrowValue,
                                            nameAt: nat, nameLen: nat)
    requires node.Compound? && (r.Ok? ==> r.value.1 <= |data|) && Partial(node, limit + 1 - depth)
    requires r.Ok? ==> Sound(r.value.0, limit - depth) && r.value.0.at == nameAt + nameLen + Lead(r.value.0)
    ensures var r' := AfterMember(data, limit, r, depth, node, nameAt, nameLen);
            r'.Ok? ==> Sound(r'.value.0, limit + 1 - depth)
    decreases if r.Ok? then |data| - r.value.1 + 1 else 0, 0
  {
    if r.Ok? {
      AddMemberPartial(node, nameAt, nameLen, r.value.0, limit + 1 - depth);
      MembersSound(data, limit, r.value.1, depth, AddMember(node, nameAt, nameLen, r.value.0));
    }
  }

  lemma {:induction false} ItemsSound(data: seq<byte>, limit: nat, at: nat, depth: nat, node: BorrowValue)
    requires at <= |data| && Openable(node) && node.List? && Partial(node, limit + 1 - depth)
    ensures var r := Items(data, limit, at, depth, node); r.Ok? ==> Sound(r.value.0, limit + 1 - depth)
    decreases |data| - at, 4
  {
    if |node.items| == node.count {
      return;
    }
    if node.elem == TAG_COMPOUND {
      var r := Open(data, limit, at, depth + 1, Compound(at, None, []));
      if r.Ok? {
        OpenSound(data, limit, at, depth + 1, Compound(at, None, []));
        AfterItemSound(data, limit, r, depth, node);
      }
      return;
    }
    NestedListSound(data, limit, at, depth, node);
  }

  /// One child of a List of Lists.
  lemma {:induction false} NestedListSound(data: seq<byte>, limit: nat, at: nat, depth: nat, node: BorrowValue)
    requires at <= |data| && Openable(node) && node.List? && Partial(node, limit + 1 - depth)
    requires |node.items| < node.count && node.elem != TAG_COMPOUND
    ensures var r := Items(data, limit, at, depth, node); r.Ok? ==> Sound(r.value.0, limit + 1 - depth)
    decreases |data| - at, 3
  {
    var p := ListHeader(data, at, true);
    if p.Err? {
      return;
    }
    match p.value
    case Inline(v, next) =>
      HeaderSound(data, at, limit - depth);
      AddItemPartial(node, v, limit + 1 - depth);
      ItemsSound(data, limit, next, depth, AddItem(node, v));
    case Nest(child, next) =>
      NestItemSound(data, limit, at, depth, node, child, next);
  }

  /// A List child that is itself a List of containers.
  lemma {:induction false} NestItemSound(data: seq<byte>, limit: nat, at: nat, depth: nat, node: BorrowValue,
                                         child: BorrowValue, next: nat)
    requires at <= |data| && Openable(node) && node.List? && Partial(node, limit + 1 - depth)
    requires |node.items| < node.count && node.elem != TAG_COMPOUND
    requires ListHeader(data, at, true) == Ok(Nest(child, next))
    ensures var r := Items(data, limit, at, depth, node); r.Ok? ==> Sound(r.value.0, limit + 1 - depth)
    decreases |data| - at, 2
  {
    var r := Open(data, limit, next, depth + 1, child);
    if r.Ok? {
      EmptyPartial(child, limit - depth);
      OpenSound(data, limit, next, depth + 1, child);
      AfterItemSound(data, limit, r, depth, node);
    }
  }

  lemma {:induction false} AfterItemSound(data: seq<byte>, limit: nat, r: Parsed, depth: nat, node: BorrowValue)
    requires Openable(node) && node.List? && |node.items| < node.count && (r.Ok? ==> r.value.1 <= |data|)
    requires Partial(node, limit + 1 - depth) && (r.Ok? ==> Sound(r.value.0, limit - depth))
    ensures var r' := AfterItem(data, limit, r, depth, node); r'.Ok? ==> Sound(r'.value.0, limit + 1 - depth)
    decreases if r.Ok? then |data| - r.value.1 + 1 else 0, 1
  {
    if r.Ok? {
      AddItemPartial(node, r.value.0, limit + 1 - depth);
      ItemsSound(data, limit, r.value.1, depth, AddItem(node, r.value.0));
    }
  }

  /// Every tree `java_from_reader` returns nests at most `limit` frames
  /// deep, has every List full and every member laid out after its name.
  lemma {:induction false} ParseSound(data: seq<byte>, at: nat, rootWithName: bool, limit: nat)
    requires at <= |data|
    ensures var r := JavaParse(data, at, rootWithName, limit); r.Ok? ==> Sound(r.value.0, limit)
  {
    var r := JavaParse(data, at, rootWithName, limit);
    if r.Ok? {
      if rootWithName {
        var len := U16At(data, at + 1).value;
        var start := AfterRollDown(at + 3, len, |data|).value;
        OpenSound(data, limit, start, 1, Compound(0, Some(len), []));
      } else {
        OpenSound(data, limit, at + 1, 1, Compound(0, None, []));
      }
    }
  }

  /// The children of a scalar list sit one element width apart from the
  /// end of the count. A member List records the offset of its count, so
  /// its first child is 4 bytes past it; a List inside a List records the
  /// offset after its count, where its first child is.
  lemma {:induction false} ScalarListOffsets(data: seq<byte>, at: nat, nested: bool)
    requires at <= |data|
    ensures var r := ListHeader(data, at, nested);
            r.Ok? && r.value.Inline? && IsScalarTag(r.value.value.elem) ==>
              var v := r.value.value;
              |v.items| == v.count && r.value.next == at + 5 + v.count * ScalarWidth(v.elem)
              && forall i :: 0 <= i < |v.items| ==>
                   v.items[i].at == v.at + (if nested then 0 else 4) + i * ScalarWidth(v.elem)
  {
    var r := ListHeader(data, at, nested);
    if r.Ok? && r.value.Inline? && IsScalarTag(r.value.value.elem) {
      var elem := data[at];
      var count := FixedRead(data, at + 1, 4, Big, true).value;
      assert r.value.value.elem == elem;
      var w := ScalarWidth(elem);
      assert r.value.value.items == seq(count, i requires 0 <= i < count => Scalar(elem, at + 5 + i * w));
    }
  }

  /// The 33-byte "hello world" document: a root Compound named
  /// "hello world" with one String member "name" = "Bananrama".
  const HELLO_WORLD: seq<byte> :=
    [10, 0, 11] + HELLO_NAME + [8, 0, 4] + NAME_KEY + [0, 9] + BANANRAMA + [0]
  const HELLO_NAME: seq<byte> := [104, 101, 108, 108, 111, 32, 119, 111, 114, 108, 100]
  const NAME_KEY: seq<byte> := [110, 97, 109, 101]
  const BANANRAMA: seq<byte> := [66, 97, 110, 97, 110, 114, 97, 109, 97]

  /// The tree the parser yields for it: the root's name is 11 bytes long;
  /// the member's name starts at 17 and is 4 bytes long, its string starts
  /// at 23 and is 9 bytes long.
  lemma {:induction false} HelloWorld(limit: nat)
    requires limit >= 1
    ensures JavaParse(HELLO_WORLD, 0, true, limit)
         == Ok((Compound(0, Some(11), [Member(17, 4, String(23, 9))]), 33))
  {
    var d := HELLO_WORLD;
    assert d[0] == 10 && d[1] == 0 && d[2] == 11 && d[14] == 8 && d[15] == 0 && d[16] == 4;
    assert d[21] == 0 && d[22] == 9 && d[32] == 0 && |d| == 33;
    assert d[1..3] == [0, 11] && d[15..17] == [0, 4] && d[21..23] == [0, 9];
    assert BeUnsigned([0, 11]) == 11 by {
      assert [0, 11][..1] == [0];
    }
    assert BeUnsigned([0, 4]) == 4 by {
      assert [0, 4][..1] == [0];
    }
    assert BeUnsigned([0, 9]) == 9 by {
      assert [0, 9][..1] == [0];
    }
    assert Sized(d, 21, TAG_STRING) == Ok((String(23, 9), 32));
    assert MemberPayload(d, 21, TAG_STRING) == Ok(Inline(String(23, 9), 32));
    assert U16At(d, 1) == Ok(11) && U16At(d, 15) == Ok(4);
    var root := Compound(0, Some(11), []);
    var full := AddMember(root, 17, 4, String(23, 9));
    assert Members(d, limit, 32, 1, full) == Ok((full, 33));
    assert U8Read(d, 14) == Ok(8) && AfterRollDown(17, 4, 33) == Ok(21);
    assert Members(d, limit, 14, 1, root) == Members(d, limit, 32, 1, full);
    assert Open(d, limit, 14, 1, root) == Ok((full, 33));
    assert U8Read(d, 0) == Ok(10) && AfterRollDown(3, 11, 33) == Ok(14);
    assert [] + [Member(17, 4, String(23, 9))] == [Member(17, 4, String(23, 9))];
  }

  /// A negative array length fails with the array's tag, the length and
  /// the offset after it, before anything is skipped.
  lemma {:induction false} NegativeArrayLength(limit: nat)
    requires limit >= 1
    ensures JavaParse([10, 0, 0, 7, 0, 0, 255, 255, 255, 255], 0, true, limit) == Err(LenNegative(7, -1, 10))
  {
    var d: seq<byte> := [10, 0, 0, 7, 0, 0, 255, 255, 255, 255];
    assert d[1..3] == [0, 0] && d[4..6] == [0, 0];
    assert BeUnsigned([0, 0]) == 0 by {
      assert [0, 0][..1] == [0];
    }
    assert BeSigned(d[6..10]) == -1 by {
      assert d[6..10] == [255, 255, 255, 255];
      assert [255, 255, 255, 255][..3] == [255, 255, 255];
      assert [255, 255, 255][..2] == [255, 255];
      assert [255, 255][..1] == [255];
      assert Pow256(4) == 0x1_0000_0000;
    }
    assert Sized(d, 6, TAG_BYTE_ARRAY) == Err(LenNegative(7, -1, 10));
  }

  /// An element tag past 12 in a member List fails with that tag and the
  /// offset after it.
  lemma {:induction false} UnknownListElement(limit: nat)
    requires limit >= 1
    ensures JavaParse([10, 0, 0, 9, 0, 0, 13], 0, true, limit) == Err(UnknownType(13, 7))
  {
    var d: seq<byte> := [10, 0, 0, 9, 0, 0, 13];
    assert d[1..3] == [0, 0] && d[4..6] == [0, 0];
    assert BeUnsigned([0, 0]) == 0 by {
      assert [0, 0][..1] == [0];
    }
    assert ListHeader(d, 6, false) == Err(UnknownType(13, 7));
  }

  /// With a depth limit of 0 even the root frame is refused.
  lemma {:induction false} RootOverLimit(data: seq<byte>, rootWithName: bool)
    requires |data| >= 3 && data[0] == TAG_COMPOUND && data[1] == 0 && data[2] == 0
    ensures JavaParse(data, 0, rootWithName, 0) == Err(NbtDepthTooBig(0))
  {
    assert data[1..3] == [0, 0];
    assert BeUnsigned([0, 0]) == 0 by {
      assert [0, 0][..1] == [0];
    }
  }

  // ---------------------------------------------------------------------
  // The parser: a loop over a stack of open containers
  // ---------------------------------------------------------------------

  /// One entry of `read_stack`: the container being filled and, when it is
  /// a compound member, where its name is (a List child leaves them 0).
  /// The source keeps references into the tree; here a finished frame is
  /// attached to its parent when it is popped.
  datatype Frame = Frame(node: BorrowValue, nameAt: nat, nameLen: nat)

  /// How one turn of the top frame ended.
  datatype Step =
    | Failed(error: NbtError)
    | Popped(value: BorrowValue)
    | Pushed(node: BorrowValue, child: BorrowValue, nameAt: nat, nameLen: nat)
    | Advanced(node: BorrowValue)

  /// Every frame is a container; every List below the top still expects
  /// the child that is being read above it.
  predicate StackOk(stack: seq<Frame>)
  {
    forall i :: 0 <= i < |stack| ==>
      Openable(stack[i].node) && (i < |stack| - 1 && stack[i].node.List? ==> |stack[i].node.items| < stack[i].node.count)
  }

  /// The parent frame once the finished child `v` of frame `child` is put
  /// in it.
  function Attach(stack: seq<Frame>, child: Frame, v: BorrowValue): (r: seq<Frame>)
    requires |stack| > 0 && StackOk(stack + [child])
    ensures |r| == |stack| && StackOk(r) && r[..|r| - 1] == stack[..|stack| - 1]
    ensures r[|r| - 1].node.List? == stack[|stack| - 1].node.List?
  {
    var parent := stack[|stack| - 1];
    assert forall i :: 0 <= i < |stack| ==> (stack + [child])[i] == stack[i];
    var node := if parent.node.Compound? then AddMember(parent.node, child.nameAt, child.nameLen, v)
                else AddItem(parent.node, v);
    var r := stack[..|stack| - 1] + [parent.(node := node)];
    assert forall i :: 0 <= i < |stack| - 1 ==> r[i] == stack[i];
    r
  }

  /// What the parse yields from this stack on: the top frame is finished
  /// by recursive descent at its own depth, then its parent, down to the
  /// root.
  function Finish(data: seq<byte>, limit: nat, at: nat, stack: seq<Frame>): Parsed
    requires at <= |data| && |stack| > 0 && StackOk(stack)
    decreases |stack|
  {
    var top := stack[|stack| - 1];
    var x :- Open(data, limit, at, |stack|, top.node);
    if |stack| == 1 then Ok(x)
    else
      assert stack[..|stack| - 1] + [top] == stack;
      Finish(data, limit, x.1, Attach(stack[..|stack| - 1], top, x.0))
  }

  /// The number of List frames on the stack.
  function ListFrames(stack: seq<Frame>): nat
  {
    if stack == [] then 0
    else ListFrames(stack[..|stack| - 1]) + (if stack[|stack| - 1].node.List? then 1 else 0)
  }

  /// What remains for the frames when the cursor does not move: a List
  /// frame pops or pushes a Compound without reading.
  function Pending(stack: seq<Frame>): nat
  {
    2 * ListFrames(stack) + (if stack != [] && stack[|stack| - 1].node.List? then 1 else 0)
  }

  lemma {:induction false} ListFramesSnoc(stack: seq<Frame>, f: Frame)
    ensures ListFrames(stack + [f]) == ListFrames(stack) + (if f.node.List? then 1 else 0)
  {
    assert (stack + [f])[..|stack|] == stack;
  }

  method ReadSized(reader: NbtReader, tag: byte) returns (r: Parsed)
    requires reader.Valid() && IsSizedTag(tag)
    modifies reader
    ensures old(reader.cursor) <= reader.cursor
    ensures reader.Valid() && r == Sized(reader.data, old(reader.cursor), tag)
    ensures r.Ok? ==> reader.cursor == r.value.1
  {
    if tag == TAG_STRING {
      var l := reader.ReadBeU16();
      if l.Err? {
        return Err(l.error);
      }
      var len: nat := l.value;
      var at := reader.cursor;
      var rolled := reader.RollDown(len);
      if rolled.Err? {
        return Err(rolled.error);
      }
      return Ok((String(at, len), reader.cursor));
    }
    var l := reader.ReadBeI32();
    if l.Err? {
      return Err(l.error);
    }
    var at := reader.cursor;
    if l.value < 0 {
      return Err(LenNegative(tag, l.value, at));
    }
    var len: nat := l.value;
    var rolled := reader.RollDown(len * ElementWidth(tag));
    if rolled.Err? {
      return Err(rolled.error);
    }
    return Ok((SizedValue(tag, at, len), reader.cursor));
  }

  /// The `for _ in 0..lst_len` loop of a list of arrays or strings.
  method ReadSizedItems(reader: NbtReader, tag: byte, count: nat) returns (r: Result<(seq<BorrowValue>, nat), NbtError>)
    requires reader.Valid() && IsSizedTag(tag)
    modifies reader
    ensures old(reader.cursor) <= reader.cursor
    ensures reader.Valid() && r == SizedItems(reader.data, old(reader.cursor), tag, count, [])
    ensures r.Ok? ==> reader.cursor == r.value.1
  {
    var items: seq<BorrowValue> := [];
    for i := 0 to count
      invariant reader.Valid() && |items| == i && old(reader.cursor) <= reader.cursor
      invariant SizedItems(reader.data, reader.cursor, tag, count, items)
             == SizedItems(reader.data, old(reader.cursor), tag, count, [])
    {
      var x := ReadSized(reader, tag);
      if x.Err? {
        return Err(x.error);
      }
      items := items + [x.value.0];
    }
    return Ok((items, reader.cursor));
  }

  method ReadInlineList(reader: NbtReader, ptr: nat, elem: byte, count: nat) returns (r: Parsed)
    requires reader.Valid() && IsValidNbtType(elem) && !IsListOrCompound(elem)
    modifies reader
    ensures old(reader.cursor) <= reader.cursor
    ensures reader.Valid() && r == InlineList(reader.data, old(reader.cursor), ptr, elem, count)
    ensures r.Ok? ==> reader.cursor == r.value.1
  {
    if elem == TAG_END {
      var rolled := reader.RollDown(count);
      if rolled.Err? {
        return Err(rolled.error);
      }
      return Ok((List(ptr, count, elem, []), reader.cursor));
    } else if IsScalarTag(elem) {
      var at := reader.cursor;
      var w := ScalarWidth(elem);
      var items := seq(count, i requires 0 <= i < count => Scalar(elem, at + i * w));
      var rolled := reader.RollDown(count * w);
      if rolled.Err? {
        return Err(rolled.error);
      }
      return Ok((List(ptr, count, elem, items), reader.cursor));
    } else {
      var x := ReadSizedItems(reader, elem, count);
      if x.Err? {
        return Err(x.error);
      }
      return Ok((List(ptr, count, elem, x.value.0), x.value.1));
    }
  }

  method ReadListHeader(reader: NbtReader, nested: bool) returns (r: Result<Payload, NbtError>)
    requires reader.Valid()
    modifies reader
    ensures old(reader.cursor) <= reader.cursor
    ensures reader.Valid() && r == ListHeader(reader.data, old(reader.cursor), nested)
    ensures r.Ok? ==> reader.cursor == r.value.next
  {
    var elem := reader.ReadU8();
    if elem.Err? {
      return Err(elem.error);
    }
    var afterTag := reader.cursor;
    if !IsValidNbtType(elem.value) {
      return Err(UnknownType(elem.value, afterTag));
    }
    var count := reader.ReadBeI32();
    if count.Err? {
      return Err(count.error);
    }
    var ptr := if nested then reader.cursor else afterTag;
    if count.value < 0 {
      return Err(LenNegative(elem.value, count.value, ptr));
    }
    if IsListOrCompound(elem.value) {
      return Ok(Nest(List(ptr, count.value, elem.value, []), reader.cursor));
    }
    var x := ReadInlineList(reader, ptr, elem.value, count.value);
    if x.Err? {
      return Err(x.error);
    }
    return Ok(Inline(x.value.0, x.value.1));
  }

  method ReadMemberPayload(reader: NbtReader, tag: byte) returns (r: Result<Payload, NbtError>)
    requires reader.Valid()
    modifies reader
    ensures old(reader.cursor) <= reader.cursor
    ensures reader.Valid() && r == MemberPayload(reader.data, old(reader.cursor), tag)
    ensures r.Ok? ==> reader.cursor == r.value.next
  {
    var at := reader.cursor;
    if IsScalarTag(tag) {
      var rolled := reader.RollDown(ScalarWidth(tag));
      if rolled.Err? {
        return Err(rolled.error);
      }
      return Ok(Inline(Scalar(tag, at), reader.cursor));
    } else if IsSizedTag(tag) {
      var x := ReadSized(reader, tag);
      if x.Err? {
        return Err(x.error);
      }
      return Ok(Inline(x.value.0, x.value.1));
    } else if tag == TAG_LIST {
      r := ReadListHeader(reader, false);
    } else if tag == TAG_COMPOUND {
      return Ok(Nest(Compound(at, None, []), at));
    } else {
      return Err(UnknownType(tag, at));
    }
  }

  /// The turn of a Compound frame: members are read in place until the End
  /// tag pops the frame or a container member pushes one.
  method CompoundStep(reader: NbtReader, limit: nat, depth: nat, node0: BorrowValue) returns (out: Step)
    requires reader.Valid() && node0.Compound?
    modifies reader
    ensures reader.Valid() && old(reader.cursor) <= reader.cursor
    ensures !out.Failed? ==> old(reader.cursor) < reader.cursor
    ensures var goal := Members(reader.data, limit, old(reader.cursor), depth, node0);
            match out
              case Failed(e) => goal == Err(e)
              case Popped(v) => goal == Ok((v, reader.cursor))
              case Pushed(node, child, nameAt, nameLen) =>
                node.Compound? && Openable(child) &&
                goal == AfterMember(reader.data, limit, Open(reader.data, limit, reader.cursor, depth + 1, child),
                                    depth, node, nameAt, nameLen)
              case Advanced(_) => false
  {
    var node := node0;
    while true
      invariant reader.Valid() && node.Compound? && old(reader.cursor) <= reader.cursor
      invariant Members(reader.data, limit, reader.cursor, depth, node)
             == Members(reader.data, limit, old(reader.cursor), depth, node0)
      decreases |reader.data| - reader.cursor
    {
      out := MemberTurn(reader, limit, depth, node);
      if !out.Advanced? {
        return;
      }
      node := out.node;
    }
  }

  /// One pass of the member loop: the End tag pops, a container member
  /// pushes, any other member is added in place.
  method MemberTurn(reader: NbtReader, limit: nat, depth: nat, node: BorrowValue) returns (out: Step)
    requires reader.Valid() && node.Compound?
    modifies reader
    ensures reader.Valid() && old(reader.cursor) <= reader.cursor
    ensures !out.Failed? ==> old(reader.cursor) < reader.cursor
    ensures var goal := Members(reader.data, limit, old(reader.cursor), depth, node);
            match out
              case Failed(e) => goal == Err(e)
              case Popped(v) => goal == Ok((v, reader.cursor))
              case Pushed(n, child, nameAt, nameLen) =>
                n.Compound? && Openable(child) &&
                goal == AfterMember(reader.data, limit, Open(reader.data, limit, reader.cursor, depth + 1, child),
                                    depth, n, nameAt, nameLen)
              case Advanced(n) => n.Compound? && goal == Members(reader.data, limit, reader.cursor, depth, n)
  {
    var tag := reader.ReadU8();
    if tag.Err? {
      return Failed(tag.error);
    }
    if tag.value == TAG_END {
      return Popped(node);
    }
    var nameLen := reader.ReadBeU16();
    if nameLen.Err? {
      return Failed(nameLen.error);
    }
    var nameAt := reader.cursor;
    var rolled := reader.RollDown(nameLen.value);
    if rolled.Err? {
      return Failed(rolled.error);
    }
    var p := ReadMemberPayload(reader, tag.value);
    if p.Err? {
      return Failed(p.error);
    }
    match p.value
    case Inline(v, _) =>
      return Advanced(AddMember(node, nameAt, nameLen.value, v));
    case Nest(child, _) =>
      return Pushed(node, child, nameAt, nameLen.value);
  }

  /// The turn of a List frame: pop when all declared children are there,
  /// else read one child, in place or by pushing its frame.
  method ListStep(reader: NbtReader, limit: nat, depth: nat, node: BorrowValue) returns (out: Step)
    requires reader.Valid() && Openable(node) && node.List?
    modifies reader
    ensures reader.Valid() && old(reader.cursor) <= reader.cursor
    ensures var goal := Items(reader.data, limit, old(reader.cursor), depth, node);
            match out
              case Failed(e) => goal == Err(e)
              case Popped(v) => goal == Ok((v, reader.cursor))
              case Pushed(n, child, _, _) =>
                n == node && |node.items| < node.count && Openable(child)
                && (child.List? ==> old(reader.cursor) < reader.cursor)
                && goal == AfterItem(reader.data, limit, Open(reader.data, limit, reader.cursor, depth + 1, child), depth, node)
              case Advanced(n) =>
                Openable(n) && n.List? && old(reader.cursor) < reader.cursor
                && goal == Items(reader.data, limit, reader.cursor, depth, n)
  {
    if |node.items| == node.count {
      return Popped(node);
    }
    if node.elem == TAG_COMPOUND {
      return Pushed(node, Compound(reader.cursor, None, []), 0, 0);
    }
    var p := ReadListHeader(reader, true);
    if p.Err? {
      return Failed(p.error);
    }
    match p.value
    case Inline(v, _) =>
      return Advanced(AddItem(node, v));
    case Nest(child, _) =>
      return Pushed(node, child, 0, 0);
  }

  /// Pushing a child frame keeps what the stack finishes to.
  lemma {:induction false} FinishPush(data: seq<byte>, limit: nat, at: nat, stack: seq<Frame>, node: BorrowValue,
                   child: BorrowValue, nameAt: nat, nameLen: nat, next: nat)
    requires at <= |data| && next <= |data| && |stack| > 0 && StackOk(stack) && |stack| <= limit
    requires Openable(node) && node.List? == stack[|stack| - 1].node.List? && Openable(child)
    requires node.Compound? ==>
               Open(data, limit, at, |stack|, stack[|stack| - 1].node)
               == AfterMember(data, limit, Open(data, limit, next, |stack| + 1, child), |stack|, node, nameAt, nameLen)
    requires node.List? ==>
               |node.items| < node.count && Open(data, limit, at, |stack|, stack[|stack| - 1].node)
               == AfterItem(data, limit, Open(data, limit, next, |stack| + 1, child), |stack|, node)
    ensures var s := stack[..|stack| - 1] + [stack[|stack| - 1].(node := node), Frame(child, nameAt, nameLen)];
            StackOk(s) && Finish(data, limit, next, s) == Finish(data, limit, at, stack)
  {
    var d := |stack|;
    var top := stack[d - 1];
    var below := stack[..d - 1];
    var s := below + [top.(node := node), Frame(child, nameAt, nameLen)];
    assert StackOk(s);
    var r := Open(data, limit, next, d + 1, child);
    if r.Ok? {
      var x := r.value;
      var lower := s[..d];
      assert lower == below + [top.(node := node)];
      assert lower + [s[d]] == s;
      var parent := Attach(lower, s[d], x.0);
      assert parent == below + [top.(node := parent[d - 1].node)];
      assert Finish(data, limit, next, s) == Finish(data, limit, x.1, parent);
      assert Open(data, limit, x.1, d, parent[d - 1].node) == Open(data, limit, at, d, top.node);
      FinishSameTop(data, limit, x.1, parent, at, stack);
    }
  }

  /// Two stacks that differ only in their top node, whose tops finish
  /// alike, finish alike.
  lemma {:induction false} FinishSameTop(data: seq<byte>, limit: nat, a: nat, s: seq<Frame>, b: nat, t: seq<Frame>)
    requires a <= |data| && b <= |data| && |s| > 0 && |s| == |t| && StackOk(s) && StackOk(t)
    requires s[..|s| - 1] == t[..|t| - 1]
    requires s[|s| - 1].nameAt == t[|t| - 1].nameAt && s[|s| - 1].nameLen == t[|t| - 1].nameLen
    requires Open(data, limit, a, |s|, s[|s| - 1].node) == Open(data, limit, b, |t|, t[|t| - 1].node)
    ensures Finish(data, limit, a, s) == Finish(data, limit, b, t)
  {
  }

  /// What one turn of a frame at `depth`, from cursor `at` to cursor
  /// `next`, promises about the parse: the container's rest is the failure,
  /// the finished container, the rest after a child frame, or the rest
  /// after a child read in place.
  predicate Turned(data: seq<byte>, limit: nat, at: nat, next: nat, depth: nat, node: BorrowValue, out: Step)
    requires at <= |data| && Openable(node)
  {
    at <= next <= |data| &&
    var goal := if node.Compound? then Members(data, limit, at, depth, node) else Items(data, limit, at, depth, node);
    match out
      case Failed(e) => goal == Err(e)
      case Popped(v) => goal == Ok((v, next))
      case Pushed(n, child, nameAt, nameLen) =>
        Openable(n) && n.List? == node.List? && Openable(child) && (next == at ==> n.List? && child.Compound?) &&
        if n.Compound? then
          goal == AfterMember(data, limit, Open(data, limit, next, depth + 1, child), depth, n, nameAt, nameLen)
        else
          |n.items| < n.count && goal == AfterItem(data, limit, Open(data, limit, next, depth + 1, child), depth, n)
      case Advanced(n) =>
        Openable(n) && n.List? && node.List? && at < next && goal == Items(data, limit, next, depth, n)
  }

  /// The stack after a turn that did not fail and did not pop the root.
  function Apply(stack: seq<Frame>, out: Step): seq<Frame>
    requires |stack| > 1 || (|stack| == 1 && !out.Popped?)
    requires StackOk(stack) && !out.Failed?
  {
    var below := stack[..|stack| - 1];
    var top := stack[|stack| - 1];
    match out
      case Popped(v) =>
        assert below + [top] == stack;
        Attach(below, top, v)
      case Pushed(n, child, nameAt, nameLen) => below + [top.(node := n), Frame(child, nameAt, nameLen)]
      case Advanced(n) => below + [top.(node := n)]
  }

  /// A turn keeps what the stack finishes to; when the cursor did not
  /// move, less is pending.
  lemma {:induction false} TurnKeepsFinish(data: seq<byte>, limit: nat, at: nat, next: nat, stack: seq<Frame>, out: Step)
    requires at <= |data| && 0 < |stack| <= limit && StackOk(stack) && !out.Failed?
    requires |stack| > 1 || !out.Popped?
    requires Turned(data, limit, at, next, |stack|, stack[|stack| - 1].node, out)
    ensures StackOk(Apply(stack, out)) && Finish(data, limit, next, Apply(stack, out)) == Finish(data, limit, at, stack)
    ensures next == at ==> Pending(Apply(stack, out)) < Pending(stack)
  {
    match out
    case Popped(v) => PopKeepsFinish(data, limit, at, next, stack, v);
    case Pushed(n, child, nameAt, nameLen) => PushKeepsFinish(data, limit, at, next, stack, n, child, nameAt, nameLen);
    case Advanced(n) => AdvanceKeepsFinish(data, limit, at, next, stack, n);
  }

  lemma {:induction false} PopKeepsFinish(data: seq<byte>, limit: nat, at: nat, next: nat, stack: seq<Frame>, v: BorrowValue)
    requires at <= |data| && 1 < |stack| <= limit && StackOk(stack)
    requires Turned(data, limit, at, next, |stack|, stack[|stack| - 1].node, Popped(v))
    ensures StackOk(Apply(stack, Popped(v)))
    ensures Finish(data, limit, next, Apply(stack, Popped(v))) == Finish(data, limit, at, stack)
    ensures next == at ==> Pending(Apply(stack, Popped(v))) < Pending(stack)
  {
    var below := stack[..|stack| - 1];
    var top := stack[|stack| - 1];
    assert below + [top] == stack;
    var s := Attach(below, top, v);
    ListFramesSnoc(below, top);
    ListFramesSnoc(below[..|below| - 1], below[|below| - 1]);
    assert below[..|below| - 1] + [below[|below| - 1]] == below;
    ListFramesSnoc(s[..|s| - 1], s[|s| - 1]);
    assert s[..|s| - 1] + [s[|s| - 1]] == s;
  }

  lemma {:induction false} PushKeepsFinish(data: seq<byte>, limit: nat, at: nat, next: nat, stack: seq<Frame>,
                        n: BorrowValue, child: BorrowValue, nameAt: nat, nameLen: nat)
    requires at <= |data| && 0 < |stack| <= limit && StackOk(stack)
    requires Turned(data, limit, at, next, |stack|, stack[|stack| - 1].node, Pushed(n, child, nameAt, nameLen))
    ensures StackOk(Apply(stack, Pushed(n, child, nameAt, nameLen)))
    ensures Finish(data, limit, next, Apply(stack, Pushed(n, child, nameAt, nameLen))) == Finish(data, limit, at, stack)
    ensures next == at ==> Pending(Apply(stack, Pushed(n, child, nameAt, nameLen))) < Pending(stack)
  {
    var below := stack[..|stack| - 1];
    var top := stack[|stack| - 1];
    assert below + [top] == stack;
    FinishPush(data, limit, at, stack, n, child, nameAt, nameLen, next);
    ListFramesSnoc(below, top);
    ListFramesSnoc(below, top.(node := n));
    ListFramesSnoc(below + [top.(node := n)], Frame(child, nameAt, nameLen));
    assert below + [top.(node := n), Frame(child, nameAt, nameLen)]
        == below + [top.(node := n)] + [Frame(child, nameAt, nameLen)];
  }

  lemma {:induction false} AdvanceKeepsFinish(data: seq<byte>, limit: nat, at: nat, next: nat, stack: seq<Frame>, n: BorrowValue)
    requires at <= |data| && 0 < |stack| <= limit && StackOk(stack)
    requires Turned(data, limit, at, next, |stack|, stack[|stack| - 1].node, Advanced(n))
    ensures StackOk(Apply(stack, Advanced(n)))
    ensures Finish(data, limit, next, Apply(stack, Advanced(n))) == Finish(data, limit, at, stack)
    ensures next != at
  {
    var below := stack[..|stack| - 1];
    var top := stack[|stack| - 1];
    assert below + [top] == stack;
    var s := below + [top.(node := n)];
    assert s[..|s| - 1] == below;
    assert StackOk(s);
    FinishSameTop(data, limit, next, s, at, stack);
  }

  /// One turn of the frame on top of the stack, by its kind.
  method TopTurn(reader: NbtReader, limit: nat, depth: nat, node: BorrowValue) returns (out: Step)
    requires reader.Valid() && Openable(node)
    modifies reader
    ensures reader.Valid()
    ensures Turned(reader.data, limit, old(reader.cursor), reader.cursor, depth, node, out)
  {
    if node.Compound? {
      out := CompoundStep(reader, limit, depth, node);
    } else {
      out := ListStep(reader, limit, depth, node);
    }
  }

  /// The loop over `read_stack`: the depth limit is checked before every
  /// turn of the top frame; the loop ends when the root is popped.
  method RunStack(reader: NbtReader, limit: nat, root0: BorrowValue) returns (r: Result<BorrowValue, NbtError>)
    requires reader.Valid() && root0.Compound?
    modifies reader
    ensures reader.Valid()
    ensures var s := Open(reader.data, limit, old(reader.cursor), 1, root0);
            (r.Ok? <==> s.Ok?) && (r.Err? ==> r.error == s.error)
            && (r.Ok? ==> r.value == s.value.0 && reader.cursor == s.value.1)
  {
    ghost var goal := Open(reader.data, limit, reader.cursor, 1, root0);
    var root := root0;
    var stack := [Frame(root0, 0, 0)];
    while stack != []
      invariant reader.Valid() && StackOk(stack) && |stack| <= limit + 1
      invariant stack != [] ==> Finish(reader.data, limit, reader.cursor, stack) == goal
      invariant stack == [] ==> goal == Ok((root, reader.cursor))
      decreases |reader.data| - reader.cursor, Pending(stack)
    {
      if |stack| > limit {
        return Err(NbtDepthTooBig(limit));
      }
      var top := stack[|stack| - 1];
      ghost var at := reader.cursor;
      var out := TopTurn(reader, limit, |stack|, top.node);
      if out.Failed? {
        return Err(out.error);
      }
      if out.Popped? && |stack| == 1 {
        root := out.value;
        stack := [];
      } else {
        TurnKeepsFinish(reader.data, limit, at, reader.cursor, stack, out);
        stack := Apply(stack, out);
      }
    }
    return Ok(root);
  }

  /// `java_from_reader`: the root must be a Compound; with
  /// `root_with_name` its name is skipped and its length kept.
  method JavaFromReader(reader: NbtReader, rootWithName: bool, limit: nat) returns (r: Result<BorrowValue, NbtError>)
    requires reader.Valid()
    modifies reader
    ensures reader.Valid()
    ensures var s := JavaParse(reader.data, old(reader.cursor), rootWithName, limit);
            (r.Ok? <==> s.Ok?) && (r.Err? ==> r.error == s.error)
            && (r.Ok? ==> r.value == s.value.0 && reader.cursor == s.value.1)
  {
    var first := reader.ReadU8();
    if first.Err? {
      return Err(first.error);
    }
    if first.value != TAG_COMPOUND {
      return Err(WrongRootType(first.value));
    }
    var root: BorrowValue;
    if rootWithName {
      var nameLen := reader.ReadBeU16();
      if nameLen.Err? {
        return Err(nameLen.error);
      }
      var rolled := reader.RollDown(nameLen.value);
      if rolled.Err? {
        return Err(rolled.error);
      }
      root := Compound(0, Some(nameLen.value), []);
    } else {
      root := Compound(0, None, []);
    }
    r := RunStack(reader, limit, root);
  }
}
