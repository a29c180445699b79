/// `read_write::read` as the source runs it: payloads are swapped inside
/// one byte buffer, the marks live in an array that is reallocated by half
/// again when it is full, and each label of the goto-driven parser is a
/// method of a parser object. Each method is proved to do what the machine
/// of `CppRead` does in the same step, and `Read` what `CppRead.Read` does.
module CppReadImpl {
  import opened NbtBase
  import opened CppSwap
  import opened CppRead

  /// Where a step leaves the parser: still reading, or with the outcome of
  /// the read.
  datatype Status = Going | Ended(outcome: Outcome)

  /// The local variables of one `read` call.
  class Parser {
    const c: Config
    const buf: array<byte>
    var pos: int
    var readed: nat
    var marks: array<Mark>
    var used: nat
    var current: nat
    var parent: nat
    var at: Label

    /// The parser as a machine of `CppRead`.
    function State(): Machine
      reads this, buf, marks
      requires used <= marks.Length
    {
      Machine(buf[..], pos, readed, marks[..used], current, parent, marks.Length, at)
    }

    predicate Valid()
      reads this, buf, marks
    {
      used <= marks.Length && Wf(State())
    }

    /// The status `s` of a step and the parser after it agree with the
    /// machine's outcome `o`; a finished document is the parser's buffer.
    predicate Follows(s: Status, o: Outcome)
      reads this, buf, marks
    {
      if o.Running? then s == Going && used <= marks.Length && State() == o.m
      else s == Ended(o) && (o.Done? ==> o.doc.source == buf[..])
    }

    /// The parser after the root name, with a fresh mark array of
    /// `capacity` marks, none in use yet.
    constructor (c: Config, buf: array<byte>, pos: int, readed: nat, capacity: nat)
      ensures this.c == c && this.buf == buf && this.pos == pos && this.readed == readed
      ensures fresh(marks) && marks.Length == capacity && used == 0
      ensures current == 0 && parent == 0 && at == CompItem
    {
      this.c := c;
      this.buf := buf;
      this.pos := pos;
      this.readed := readed;
      marks := new Mark[capacity](_ => Store(0, 0));
      used := 0;
      current := 0;
      parent := 0;
      at := CompItem;
    }

    /// The `bound_check` block in front of a payload handler.
    method Check(tag: byte) returns (g: Go<nat>)
      requires SwappedTag(tag)
      ensures g == CheckPayload(c, buf[..], pos, readed, tag)
    {
      var n := buf.Length;
      if tag <= 6 {
        return Bound(n, Add(readed, Width(tag)));
      }
      var w := if tag == TAG_STRING then 2 else 4;
      var r1 := Add(readed, w);
      if r1 > n {
        return Stop(Threw(EndOfFile));
      }
      if !(0 <= pos && pos + w <= n) {
        return Stop(Overran);
      }
      var len := Decode(buf[pos..pos + w], c.order, tag != TAG_STRING);
      assert buf[pos..pos + w] == buf[..][pos..pos + w];
      if tag == TAG_STRING {
        return Bound(n, Add(r1, len));
      }
      if c.variant == Corrected && len < 0 {
        return Stop(Threw(Invalid));
      }
      return Bound(n, Add(r1, len * ElementWidth(tag)));
    }

    /// One payload, checked or not, swapped in place.
    method Payload(tag: byte, checked: bool) returns (s: Status)
      requires used <= marks.Length && SwappedTag(tag)
      modifies this, buf
      ensures marks == old(marks) && used == old(used) && current == old(current)
      ensures parent == old(parent) && at == old(at)
      ensures var g := CppRead.Payload(c, old(State()), tag, checked);
              if g.Go? then s == Going && State() == g.value else s == Ended(g.step)
    {
      var r := readed;
      if checked {
        var g := Check(tag);
        if g.Stop? {
          return Ended(g.step);
        }
        r := g.value;
      }
      var ok, next := ReadSwapper(buf, tag, pos, c.order, c.native, c.variant);
      if !ok {
        return Ended(Overran);
      }
      pos, readed := next, r;
      return Going;
    }

    /// `list_general_begin`.
    method ListHeader() returns (s: Status)
      requires used <= marks.Length && current < used && parent <= current
      modifies this, buf, marks
      ensures marks == old(marks) && used == old(used) && current == old(current) && parent == old(parent)
      ensures var g := CppRead.ListHeader(c, old(State()));
              if g.Go? then s == Going && State() == g.value else s == Ended(g.step)
    {
      ghost var m := State();
      var n := buf.Length;
      var r1 := Add(readed, 5);
      if r1 > n {
        assert CppRead.ListHeader(c, m) == Stop(Threw(EndOfFile));
        return Ended(Threw(EndOfFile));
      }
      if !(0 <= pos < n) {
        assert CppRead.ListHeader(c, m) == Stop(Overran);
        return Ended(Overran);
      }
      var id := buf[pos];
      var r2 := r1;
      if !(pos + 5 <= n) {
        assert CppRead.ListHeader(c, m) == Stop(Overran);
        return Ended(Overran);
      }
      if id <= 6 {
        var len := Decode(buf[pos + 1..pos + 5], c.order, false);
        assert buf[pos + 1..pos + 5] == buf[..][pos + 1..pos + 5];
        r2 := Add(r1, len * Width(id));
        if r2 > n {
          assert CppRead.ListHeader(c, m) == Stop(Threw(EndOfFile));
          return Ended(Threw(EndOfFile));
        }
      }
      ghost var frame := Cache(current - parent, false, id, Decode(m.buf[pos + 1..pos + 5], c.order, false), 0);
      assert CppRead.ListHeader(c, m) == Go(m.(buf := Swapped(m.buf, pos + 1, 4, c.order != c.native), pos := pos + 5,
                                                readed := r2, marks := m.marks[current := frame], at := ListItem));
      var total := MakeNativeGet(buf, pos + 1, 4, false, c.order, c.native);
      marks[current] := Cache(current - parent, false, id, total, 0);
      pos, readed, at := pos + 5, r2, ListItem;
      assert marks[..used] == m.marks[current := frame];
      return Going;
    }

    /// The reallocation of the mark array to half as many marks again.
    method Grow()
      requires used <= marks.Length
      modifies this
      ensures fresh(marks) && marks.Length == old(marks.Length) + old(marks.Length) / 2
      ensures used <= marks.Length && marks[..used] == old(marks[..used])
      ensures pos == old(pos) && readed == old(readed) && used == old(used)
      ensures current == old(current) && parent == old(parent) && at == old(at)
    {
      var bigger := new Mark[marks.Length + marks.Length / 2](_ => Store(0, 0));
      forall i | 0 <= i < marks.Length {
        bigger[i] := marks[i];
      }
      marks := bigger;
    }

    /// `comp_begin` / `list_begin`.
    method Push(isCompound: bool) returns (s: Status)
      requires Valid()
      modifies this, buf, marks
      ensures fresh(marks) || marks == old(marks)
      ensures Follows(s, CppRead.Push(c, old(State()), isCompound))
    {
      ghost var m := State();
      var index := used;
      if (c.variant == AsWritten && index > marks.Length) || (c.variant == Corrected && index >= marks.Length) {
        Grow();
      }
      if index >= marks.Length {
        assert CppRead.Push(c, m, isCompound) == MarkOverran;
        return Ended(MarkOverran);
      }
      var frame := Cache(index - current, isCompound, 0, 0, 0);
      marks[index] := frame;
      used, parent, current, at := index + 1, current, index, CompItem;
      ghost var m1 := m.(marks := m.marks + [frame], current := index, parent := m.current,
                         capacity := marks.Length, at := CompItem);
      assert marks[..used] == m.marks + [frame];
      assert State() == m1;
      PushOpens(c, m, isCompound, marks.Length, m1);
      if isCompound {
        return Going;
      }
      s := ListHeader();
    }

    /// `comp_end` / `list_end`.
    method Close() returns (s: Status)
      requires Valid()
      modifies this, marks
      ensures marks == old(marks)
      ensures Follows(s, CppRead.Close(old(State())))
    {
      ghost var m := State();
      var offset := marks[current].parentOffset;
      if offset > 0 {
        assert OpenChain(m.marks, parent) && m.marks[parent] == marks[parent];
      }
      marks[current] := Store(used - current, pos);
      assert marks[..used] == old(marks[..used])[current := Store(used - current, pos)];
      if offset == 0 {
        return Ended(Done(Document(buf[..], marks[..used], marks.Length)));
      }
      var p := parent;
      assert marks[p] == m.marks[p];
      current := p;
      parent := p - marks[p].parentOffset;
      at := if marks[p].isCompound then CompItem else ListItem;
      return Going;
    }

    /// The value of a Compound member.
    method MemberValue(id: byte) returns (s: Status)
      requires Valid()
      modifies this, buf, marks
      ensures fresh(marks) || marks == old(marks)
      ensures Follows(s, CppRead.MemberValue(c, old(State()), id))
    {
      if SwappedTag(id) {
        s := Payload(id, true);
      } else if id == TAG_LIST {
        s := Push(false);
      } else if id == TAG_COMPOUND {
        s := Push(true);
      } else {
        s := Ended(Threw(Invalid));
      }
    }

    /// `comp_item_begin`.
    method CompoundMember() returns (s: Status)
      requires Valid()
      modifies this, buf, marks
      ensures fresh(marks) || marks == old(marks)
      ensures Follows(s, CppRead.CompoundMember(c, old(State())))
    {
      ghost var m := State();
      var n := buf.Length;
      var r1 := Add(readed, 1);
      if r1 > n {
        return Ended(Threw(EndOfFile));
      }
      if !(0 <= pos < n) {
        return Ended(Overran);
      }
      var id := buf[pos];
      pos, readed := pos + 1, r1;
      assert State() == m.(pos := m.pos + 1, readed := r1);
      if id == 0 {
        s := Close();
      } else {
        s := MemberName(id);
      }
    }

    /// The name of a member, then its value.
    method MemberName(id: byte) returns (s: Status)
      requires Valid()
      modifies this, buf, marks
      ensures fresh(marks) || marks == old(marks)
      ensures Follows(s, CppRead.MemberName(c, old(State()), id))
    {
      ghost var m := State();
      var n := buf.Length;
      var r2 := Add(readed, 2);
      if r2 > n {
        return Ended(Threw(EndOfFile));
      }
      if !(0 <= pos && pos + 2 <= n) {
        return Ended(Overran);
      }
      var nameLen := Decode(buf[pos..pos + 2], c.order, false);
      assert buf[pos..pos + 2] == m.buf[pos..pos + 2];
      var r3 := Add(r2, nameLen);
      if r3 > n {
        return Ended(Threw(EndOfFile));
      }
      var len := MakeNativeGet(buf, pos, 2, false, c.order, c.native);
      pos, readed := pos + 2 + len, r3;
      assert State() == m.(buf := Swapped(m.buf, m.pos, 2, c.order != c.native), pos := m.pos + 2 + nameLen, readed := r3);
      s := MemberValue(id);
    }

    /// `list_item_begin`.
    method ListElement() returns (s: Status)
      requires Valid() && at == ListItem
      modifies this, buf, marks
      ensures fresh(marks) || marks == old(marks)
      ensures Follows(s, CppRead.ListElement(c, old(State())))
    {
      ghost var m := State();
      var f := marks[current];
      if f.count >= f.total {
        s := Close();
        return;
      }
      var next := f.(count := f.count + 1);
      marks[current] := next;
      assert marks[..used] == m.marks[current := next];
      ChainHeadReplaced(m.marks, current, next);
      var t := f.listType;
      if t == TAG_END {
        return Going;
      } else if SwappedTag(t) {
        s := Payload(t, t >= TAG_BYTE_ARRAY);
      } else if t == TAG_LIST {
        s := Push(false);
      } else if t == TAG_COMPOUND {
        s := Push(true);
      } else {
        s := Ended(Threw(Invalid));
      }
    }

    /// One step, from the label the parser rests at.
    method Step() returns (s: Status)
      requires Valid()
      modifies this, buf, marks
      ensures fresh(marks) || marks == old(marks)
      ensures Follows(s, CppRead.Step(c, old(State())))
    {
      if at == CompItem {
        s := CompoundMember();
      } else {
        s := ListElement();
      }
    }

    /// The parser's loop over the labels, for at most `fuel` steps.
    method Run(fuel: nat) returns (r: Outcome)
      requires Valid()
      modifies this, buf, marks
      ensures r == CppRead.Run(c, old(State()), fuel)
      ensures r.Done? ==> r.doc.source == buf[..]
    {
      var k := fuel;
      while k > 0
        invariant Valid() && (fresh(marks) || marks == old(marks))
        invariant CppRead.Run(c, State(), k) == CppRead.Run(c, old(State()), fuel)
        decreases k
      {
        ghost var m := State();
        var s := Step();
        if s.Ended? {
          CppRead.RunStops(c, m, k);
          return s.outcome;
        }
        CppRead.RunStep(c, m, State(), k);
        k := k - 1;
      }
      return Running(State());
    }

    /// The root value.
    method RootValue(tag: byte) returns (s: Status)
      requires used == 0 && current == 0 && parent == 0 && at == CompItem && marks.Length >= 2
      modifies this, buf, marks
      ensures marks == old(marks)
      ensures Follows(s, CppRead.RootValue(c, old(State()), tag))
    {
      if SwappedTag(tag) {
        s := Payload(tag, true);
        if s.Going? {
          s := Ended(Done(Document(buf[..], [], 0)));
        }
        return;
      }
      if tag == TAG_COMPOUND || tag == TAG_LIST {
        ghost var m := State();
        marks[0] := Cache(0, tag == TAG_COMPOUND, 0, 0, 0);
        used := 1;
        assert marks[..used] == [Cache(0, tag == TAG_COMPOUND, 0, 0, 0)];
        if tag == TAG_COMPOUND {
          assert State() == m.(marks := [Cache(0, true, 0, 0, 0)]);
          return Going;
        }
        at := ListItem;
        assert State() == m.(marks := [Cache(0, false, 0, 0, 0)], at := ListItem);
        s := ListHeader();
        return;
      }
      s := Ended(Threw(Invalid));
    }
  }

  /// `read` on `source`, in place or on a copy, given `fuel` steps.
  method Read(c: Config, source: array<byte>, inPlace: bool, fuel: nat) returns (r: Outcome)
    modifies if inPlace then {source} else {}
    ensures r == CppRead.Read(c, old(source[..]), fuel)
    ensures !inPlace ==> unchanged(source)
    ensures inPlace && r.Done? ==> r.doc.source == source[..]
  {
    var buf := source;
    if !inPlace {
      buf := new byte[source.Length](i requires 0 <= i < source.Length reads source => source[i]);
      assert buf[..] == source[..];
    }
    r := ReadIn(c, buf, fuel);
  }

  /// The read itself, on the buffer `buf` it swaps.
  method ReadIn(c: Config, buf: array<byte>, fuel: nat) returns (r: Outcome)
    modifies buf
    ensures r == CppRead.Read(c, old(buf[..]), fuel)
    ensures r.Done? ==> r.doc.source == buf[..]
  {
    ghost var s0 := buf[..];
    var n := buf.Length;
    if n < 1 {
      assert CppRead.Start(c, s0) == Threw(EndOfFile);
      return Threw(EndOfFile);
    }
    if buf[0] == TAG_END {
      assert CppRead.Start(c, s0) == Done(Document(s0, [], 0));
      return Done(Document(buf[..], [], 0));
    }
    if n < 3 {
      assert CppRead.Start(c, s0) == Threw(EndOfFile);
      return Threw(EndOfFile);
    }
    var nameLen := Decode(buf[1..3], c.order, false);
    assert buf[1..3] == s0[1..3];
    var r2 := Add(3, nameLen);
    if r2 > n {
      assert CppRead.Start(c, s0) == Threw(EndOfFile);
      return Threw(EndOfFile);
    }
    var len := MakeNativeGet(buf, 1, 2, false, c.order, c.native);
    var tag := buf[0];
    var p := new Parser(c, buf, 3 + len, r2, n / 32 + 4);
    ghost var m := p.State();
    assert m == Machine(Swapped(s0, 1, 2, c.order != c.native), 3 + nameLen, r2, [], 0, 0, n / 32 + 4, CompItem);
    assert CppRead.Start(c, s0) == CppRead.RootValue(c, m, s0[0]);
    var s := p.RootValue(tag);
    if s.Ended? {
      return s.outcome;
    }
    assert CppRead.Start(c, s0) == Running(p.State());
    r := p.Run(fuel);
  }
  /// `CppRead.Push` once the new frame fits the allocation of `capacity`
  /// marks: the machine with the new frame on top, and for a List its
  /// header read.
  lemma PushOpens(c: Config, m: Machine, isCompound: bool, capacity: nat, m1: Machine)
    requires Wf(m) && |m.marks| < capacity
    requires capacity == if (c.variant == AsWritten && |m.marks| > m.capacity) || (c.variant == Corrected && |m.marks| >= m.capacity)
                         then m.capacity + m.capacity / 2 else m.capacity
    requires m1 == m.(marks := m.marks + [Cache(|m.marks| - m.current, isCompound, 0, 0, 0)], current := |m.marks|,
                      parent := m.current, capacity := capacity, at := CompItem)
    ensures CppRead.Push(c, m, isCompound) == if isCompound then Running(m1)
                                              else match CppRead.ListHeader(c, m1)
                                                case Go(m2) => Running(m2)
                                                case Stop(o) => o
  {
  }
}
