/// Tag-id helpers and the SNBT-like `Display` of a value
/// (shen-nbt6/src/traits.rs).
module Nbt6Traits {
  import opened NbtBase
  import opened Decimal
  import opened Nbt6Value

  // ---------------------------------------------------------------------
  // NbtTypeConversion
  // ---------------------------------------------------------------------

  /// `is_valid_nbt_type`: one of the thirteen tag ids, End included.
  predicate IsValidNbtType(id: byte) { id <= 12 }

  /// `is_valid_nbt_data_type`: a tag id that carries a payload.
  predicate IsValidNbtDataType(id: byte) { id <= 12 && id != TAG_END }

  /// `is_list_or_compound` (declared outside the shown sources): the two
  /// container tags.
  predicate IsListOrCompound(id: byte) { id == TAG_LIST || id == TAG_COMPOUND }

  /// The word in front of the parenthesised id in `as_nbt_type_name`.
  function TypeLabel(id: byte): string
  {
    if id > 12 then "未知类型"
    else match id
      case 0 => "NBT_End"
      case 1 => "NBT_Byte"
      case 2 => "NBT_Short"
      case 3 => "NBT_Int"
      case 4 => "NBT_Long"
      case 5 => "NBT_Float"
      case 6 => "NBT_Double"
      case 7 => "NBT_ByteArray"
      case 8 => "NBT_String"
      case 9 => "NBT_List"
      case 10 => "NBT_Compound"
      case 11 => "NBT_IntArray"
      case 12 => "NBT_LongArray"
  }

  lemma {:induction false} IdText(id: byte)
    requires id <= 12
    ensures id < 10 ==> IntText(id) == [DigitChar(id)]
    ensures id >= 10 ==> IntText(id) == ['1', DigitChar(id - 10)]
  {
    if id >= 10 {
      assert NatText(id / 10) == ['1'];
    }
  }

  /// `as_nbt_type_name`.
  function TypeName(id: byte): string
  {
    if id > 12 then "未知类型(" + IntText(id) + ")"
    else match id
      case 0 => "NBT_End(0)"
      case 1 => "NBT_Byte(1)"
      case 2 => "NBT_Short(2)"
      case 3 => "NBT_Int(3)"
      case 4 => "NBT_Long(4)"
      case 5 => "NBT_Float(5)"
      case 6 => "NBT_Double(6)"
      case 7 => "NBT_ByteArray(7)"
      case 8 => "NBT_String(8)"
      case 9 => "NBT_List(9)"
      case 10 => "NBT_Compound(10)"
      case 11 => "NBT_IntArray(11)"
      case 12 => "NBT_LongArray(12)"
  }

  /// Every name is its label followed by the id itself in parentheses.
  lemma {:induction false} TypeNameShape(id: byte)
    ensures TypeName(id) == TypeLabel(id) + "(" + IntText(id) + ")"
  {
    if id > 12 {
    } else if id < 5 {
      SmallTypeNameShape(id);
    } else if id < 10 {
      MiddleTypeNameShape(id);
    } else {
      LargeTypeNameShape(id);
    }
  }

  lemma {:induction false} SmallTypeNameShape(id: byte)
    requires id < 5
    ensures TypeName(id) == TypeLabel(id) + "(" + IntText(id) + ")"
  {
    IdText(id);
  }

  lemma {:induction false} MiddleTypeNameShape(id: byte)
    requires 5 <= id < 10
    ensures TypeName(id) == TypeLabel(id) + "(" + IntText(id) + ")"
  {
    IdText(id);
  }

  lemma {:induction false} LargeTypeNameShape(id: byte)
    requires 10 <= id <= 12
    ensures TypeName(id) == TypeLabel(id) + "(" + IntText(id) + ")"
  {
    IdText(id);
  }

  /// The name starts with "NBT_" exactly for the valid ids.
  lemma {:induction false} TypeNameMarksValidity(id: byte)
    ensures IsValidNbtType(id) <==> |TypeName(id)| > 4 && TypeName(id)[..4] == "NBT_"
  {
    TypeNameShape(id);
    var t := TypeName(id);
    if id > 12 {
      assert t[0] == '未';
    } else {
      LabelPrefix(id);
      assert t[..4] == TypeLabel(id)[..4];
    }
  }

  lemma {:induction false} LabelPrefix(id: byte)
    requires id <= 12
    ensures |TypeLabel(id)| > 4 && TypeLabel(id)[..4] == "NBT_"
  {
  }

  lemma {:induction false} DataTypeIsNonEndType(id: byte)
    ensures IsValidNbtDataType(id) <==> IsValidNbtType(id) && id != TAG_END
  {
  }

  // ---------------------------------------------------------------------
  // Display
  // ---------------------------------------------------------------------

  /// Rust's `{}` of an `f32` / `f64`, given their bit patterns: floating
  /// point formatting is not part of this model.
  datatype FloatText = FloatText(f32: nat -> string, f64: nat -> string)

  /// `parts` separated by ", " (the `if i != 0 { write!(f, ", ") }` loops).
  function Join(parts: seq<string>): string
  {
    if |parts| == 0 then ""
    else if |parts| == 1 then parts[0]
    else Join(parts[..|parts| - 1]) + ", " + parts[|parts| - 1]
  }

  /// The text of the numbers of an array, each followed by `suffix`.
  function ItemsText(xs: seq<int>, suffix: string): string
  {
    Join(seq(|xs|, i requires 0 <= i < |xs| => IntText(xs[i]) + suffix))
  }

  /// The text of a value.
  function Show(v: NbtValue, ft: FloatText): string
    decreases v, 2
  {
    match v
      case Byte(b) => IntText(b) + "b"
      case Short(s) => IntText(s) + "s"
      case Int(i) => IntText(i)
      case Long(l) => IntText(l) + "l"
      case Float(bits) => ft.f32(bits) + "f"
      case Double(bits) => ft.f64(bits) + "d"
      case ByteArray(xs) => "[B; " + ItemsText(xs, "b") + "]"
      case IntArray(xs) => "[I; " + ItemsText(xs, "") + "]"
      case LongArray(xs) => "[L; " + ItemsText(xs, "l") + "]"
      case String(t) => "\"" + t + "\""
      case List(vs) => ShowList(v, ft)
      case Compound(name, ms) => ShowCompound(v, ft)
  }

  /// The texts of the elements of a list.
  function ListParts(v: NbtValue, ft: FloatText): (parts: seq<string>)
    requires v.List?
    ensures |parts| == |v.items|
    decreases v, 0
  {
    seq(|v.items|, i requires 0 <= i < |v.items| => Show(v.items[i], ft))
  }

  function ShowList(v: NbtValue, ft: FloatText): string
    requires v.List?
    decreases v, 1
  {
    "[" + Join(ListParts(v, ft)) + "]"
  }

  /// The "key: value" texts of the members of a compound.
  function MemberParts(v: NbtValue, ft: FloatText): (parts: seq<string>)
    requires v.Compound?
    ensures |parts| == |v.members|
    decreases v, 0
  {
    seq(|v.members|, i requires 0 <= i < |v.members| => v.members[i].0 + ": " + Show(v.members[i].1, ft))
  }

  function ShowCompound(v: NbtValue, ft: FloatText): string
    requires v.Compound?
    decreases v, 1
  {
    (if v.name.Some? then v.name.value + ": {" else "{") + Join(MemberParts(v, ft)) + "}"
  }

  /// Named and unnamed compounds differ only by the "name: " in front.
  lemma {:induction false} NamedCompoundText(name: string, ms: seq<(string, NbtValue)>, ft: FloatText)
    ensures Show(Compound(Some(name), ms), ft) == name + ": " + Show(Compound(None, ms), ft)
  {
    var named, unnamed := Compound(Some(name), ms), Compound(None, ms);
    assert MemberParts(named, ft) == MemberParts(unnamed, ft);
  }

  // ---------------------------------------------------------------------
  // Reading an array's text back
  // ---------------------------------------------------------------------

  predicate NoComma(s: string) { forall i :: 0 <= i < |s| ==> s[i] != ',' }

  function LastComma(s: string): (r: Option<nat>)
    ensures r.Some? ==> r.value < |s| && s[r.value] == ',' && forall j :: r.value < j < |s| ==> s[j] != ','
    ensures r.None? ==> NoComma(s)
  {
    if s == [] then None
    else if s[|s| - 1] == ',' then Some(|s| - 1)
    else LastComma(s[..|s| - 1])
  }

  /// One number followed by its suffix.
  function ParseItem(t: string, suffix: string): Option<int>
  {
    if |t| >= |suffix| && t[|t| - |suffix|..] == suffix then ParseInt(t[..|t| - |suffix|]) else None
  }

  /// Numbers with suffixes, separated by ", ", split at the last comma.
  function ParseItems(s: string, suffix: string): Option<seq<int>>
    decreases |s|
  {
    if s == "" then Some([])
    else match LastComma(s)
      case None => (match ParseItem(s, suffix) case Some(x) => Some([x]) case None => None)
      case Some(k) =>
        if k + 1 < |s| && s[k + 1] == ' ' then
          match (ParseItems(s[..k], suffix), ParseItem(s[k + 2..], suffix))
            case (Some(xs), Some(x)) => Some(xs + [x])
            case _ => None
        else None
  }

  /// The text of an array: its header, the numbers, and the closing bracket.
  function ParseArrayText(s: string, header: string, suffix: string): Option<seq<int>>
  {
    if |s| > |header| && s[..|header|] == header && s[|s| - 1] == ']'
    then ParseItems(s[|header|..|s| - 1], suffix)
    else None
  }

  lemma {:induction false} ItemTextRoundTrip(x: int, suffix: string)
    requires NoComma(suffix)
    ensures NoComma(IntText(x) + suffix) && |IntText(x) + suffix| > 0
    ensures ParseItem(IntText(x) + suffix, suffix) == Some(x)
  {
    IntTextChars(x);
    IntTextRoundTrip(x);
    var t := IntText(x) + suffix;
    assert t[..|t| - |suffix|] == IntText(x);
    assert t[|t| - |suffix|..] == suffix;
  }

  lemma {:induction false} ItemsTextSnoc(xs: seq<int>, x: int, suffix: string)
    requires |xs| > 0
    ensures ItemsText(xs + [x], suffix) == ItemsText(xs, suffix) + ", " + (IntText(x) + suffix)
  {
    var ys := xs + [x];
    var parts := seq(|ys|, i requires 0 <= i < |ys| => IntText(ys[i]) + suffix);
    assert parts[..|xs|] == seq(|xs|, i requires 0 <= i < |xs| => IntText(xs[i]) + suffix);
  }

  lemma {:induction false} NoCommaAfterSeparator(a: string, b: string)
    requires NoComma(b)
    ensures forall j :: |a| < j < |a + ", " + b| ==> (a + ", " + b)[j] != ','
  {
    var s := a + ", " + b;
    forall j | |a| < j < |s| ensures s[j] != ',' {
      if j > |a| + 1 {
        assert s[j] == b[j - |a| - 2];
      }
    }
  }

  lemma {:induction false} LastCommaAt(a: string, b: string)
    requires NoComma(b)
    ensures LastComma(a + ", " + b) == Some(|a|)
  {
    var s := a + ", " + b;
    NoCommaAfterSeparator(a, b);
    assert s[|a|] == ',';
    var k := LastComma(s);
    assert !NoComma(s);
    assert k.Some?;
    assert k.value >= |a|;
    assert k.value <= |a|;
  }

  lemma {:induction false} ParseItemsSnoc(a: string, b: string, suffix: string)
    requires NoComma(b)
    ensures ParseItems(a + ", " + b, suffix)
         == match (ParseItems(a, suffix), ParseItem(b, suffix))
              case (Some(xs), Some(x)) => Some(xs + [x])
              case _ => None
  {
    var s := a + ", " + b;
    LastCommaAt(a, b);
    assert s[|a| + 1] == ' ';
    assert s[..|a|] == a;
    assert s[|a| + 2..] == b;
  }

  /// The numbers of an array are read back from their text.
  lemma {:induction false} ItemsTextRoundTrip(xs: seq<int>, suffix: string)
    requires NoComma(suffix)
    ensures ParseItems(ItemsText(xs, suffix), suffix) == Some(xs)
    decreases |xs|
  {
    if |xs| == 1 {
      ItemTextRoundTrip(xs[0], suffix);
      var t := IntText(xs[0]) + suffix;
      assert ItemsText(xs, suffix) == t;
      assert LastComma(t).None?;
      assert xs == [xs[0]];
    } else if |xs| > 1 {
      var init, x := xs[..|xs| - 1], xs[|xs| - 1];
      assert xs == init + [x];
      ItemsTextSnoc(init, x, suffix);
      ItemsTextRoundTrip(init, suffix);
      ItemTextRoundTrip(x, suffix);
      ParseItemsSnoc(ItemsText(init, suffix), IntText(x) + suffix, suffix);
    }
  }

  lemma {:induction false} ArrayTextRoundTripWith(xs: seq<int>, header: string, suffix: string)
    requires NoComma(suffix)
    ensures ParseArrayText(header + ItemsText(xs, suffix) + "]", header, suffix) == Some(xs)
  {
    ItemsTextRoundTrip(xs, suffix);
    var t := header + ItemsText(xs, suffix) + "]";
    assert t[..|header|] == header;
    assert t[|header|..|t| - 1] == ItemsText(xs, suffix);
  }

  /// `[B; 1b, 2b]`, `[I; 1, 2]` and `[L; 1l, 2l]` give back their numbers.
  lemma {:induction false} ByteArrayTextRoundTrip(xs: seq<int>, ft: FloatText)
    ensures ParseArrayText(Show(ByteArray(xs), ft), "[B; ", "b") == Some(xs)
  {
    var t := Show(ByteArray(xs), ft);
    assert t == "[B; " + ItemsText(xs, "b") + "]";
    ArrayTextRoundTripWith(xs, "[B; ", "b");
  }

  lemma {:induction false} IntArrayTextRoundTrip(xs: seq<int>, ft: FloatText)
    ensures ParseArrayText(Show(IntArray(xs), ft), "[I; ", "") == Some(xs)
  {
    var t := Show(IntArray(xs), ft);
    assert t == "[I; " + ItemsText(xs, "") + "]";
    ArrayTextRoundTripWith(xs, "[I; ", "");
  }

  lemma {:induction false} LongArrayTextRoundTrip(xs: seq<int>, ft: FloatText)
    ensures ParseArrayText(Show(LongArray(xs), ft), "[L; ", "l") == Some(xs)
  {
    var t := Show(LongArray(xs), ft);
    assert t == "[L; " + ItemsText(xs, "l") + "]";
    ArrayTextRoundTripWith(xs, "[L; ", "l");
  }

  // ---------------------------------------------------------------------
  // The formatter that `Display::fmt` writes to
  // ---------------------------------------------------------------------

  lemma {:induction false} JoinSnoc(parts: seq<string>, p: string)
    ensures Join(parts + [p]) == if parts == [] then p else Join(parts) + ", " + p
  {
    assert (parts + [p])[..|parts|] == parts;
  }

  lemma {:induction false} ItemsTextStep(xs: seq<int>, i: nat, suffix: string)
    requires i < |xs|
    ensures ItemsText(xs[..i + 1], suffix)
         == ItemsText(xs[..i], suffix) + (if i == 0 then "" else ", ") + (IntText(xs[i]) + suffix)
  {
    assert xs[..i + 1] == xs[..i] + [xs[i]];
    if i > 0 {
      ItemsTextSnoc(xs[..i], xs[i], suffix);
    }
  }

  /// The text after one more pass of a ", "-separated loop, for the loops
  /// of the formatter below.
  lemma {:induction false} JoinStep(start: string, parts: seq<string>, i: nat, before: string, sep: string, after: string)
    requires i < |parts| && before == start + Join(parts[..i]) && sep == (if i == 0 then "" else ", ")
    requires after == before + sep + parts[i]
    ensures after == start + Join(parts[..i + 1])
  {
    assert parts[..i + 1] == parts[..i] + [parts[i]];
    JoinSnoc(parts[..i], parts[i]);
    if i > 0 {
      AppendAssoc(start + Join(parts[..i]), sep, parts[i]);
      AppendAssoc(start, Join(parts[..i]), sep + parts[i]);
      AppendAssoc(Join(parts[..i]), sep, parts[i]);
    }
  }

  lemma {:induction false} ItemsStep(start: string, xs: seq<int>, i: nat, suffix: string, before: string, sep: string, after: string)
    requires i < |xs| && before == start + ItemsText(xs[..i], suffix) && sep == (if i == 0 then "" else ", ")
    requires after == before + sep + (IntText(xs[i]) + suffix)
    ensures after == start + ItemsText(xs[..i + 1], suffix)
  {
    var piece := IntText(xs[i]) + suffix;
    var t := ItemsText(xs[..i], suffix);
    ItemsTextStep(xs, i, suffix);
    AppendAssoc(start + t, sep, piece);
    AppendAssoc(start, t, sep + piece);
    AppendAssoc(t, sep, piece);
  }

  // ---------------------------------------------------------------------
  // The texts the module's own examples expect
  // ---------------------------------------------------------------------

  lemma {:induction false} SmallTexts()
    ensures IntText(1) == "1" && IntText(2) == "2" && IntText(3) == "3"
    ensures IntText(4) == "4"
  {
    assert DigitChar(1) == '1' && DigitChar(2) == '2' && DigitChar(3) == '3' && DigitChar(4) == '4';
  }

  lemma {:induction false} ItemsExample(suffix: string)
    ensures ItemsText([1, 2, 3], suffix) == "1" + suffix + ", " + "2" + suffix + ", " + "3" + suffix
  {
    SmallTexts();
    var items := seq(3, i requires 0 <= i < 3 => IntText([1, 2, 3][i]) + suffix);
    assert items == ["1" + suffix, "2" + suffix, "3" + suffix];
    assert items[..2][..1] == ["1" + suffix];
    assert Join(items[..2]) == "1" + suffix + ", " + "2" + suffix;
    assert Join(items) == Join(items[..2]) + ", " + ("3" + suffix);
  }

  lemma {:induction false} ByteArrayExample(ft: FloatText)
    ensures Show(ByteArray([1, 2, 3]), ft) == "[B; 1b, 2b, 3b]"
  {
    ItemsExample("b");
  }

  lemma {:induction false} IntArrayExample(ft: FloatText)
    ensures Show(IntArray([1, 2, 3]), ft) == "[I; 1, 2, 3]"
  {
    ItemsExample("");
  }

  lemma {:induction false} LongArrayExample(ft: FloatText)
    ensures Show(LongArray([1, 2, 3]), ft) == "[L; 1l, 2l, 3l]"
  {
    ItemsExample("l");
  }

  /// A `std::fmt::Formatter` writing into a `String`: the text written so
  /// far. Writing into a `String` never fails, so the `fmt::Result`s are
  /// not modelled.
  class Formatter {
    var out: string

    constructor ()
      ensures out == ""
    {
      out := "";
    }

    method Write(s: string)
      modifies this
      ensures out == old(out) + s
    {
      out := out + s;
    }

    /// The loop of the array cases: ", " before every number but the first.
    method FmtItems(xs: seq<int>, suffix: string)
      modifies this
      ensures out == old(out) + ItemsText(xs, suffix)
    {
      ghost var start := out;
      for i := 0 to |xs|
        invariant out == start + ItemsText(xs[..i], suffix)
      {
        ghost var before := out;
        if i != 0 {
          Write(", ");
        }
        ghost var sep := if i == 0 then "" else ", ";
        assert out == before + sep;
        Write(IntText(xs[i]) + suffix);
        ItemsStep(start, xs, i, suffix, before, sep, out);
      }
      assert xs[..|xs|] == xs;
    }

    /// The three array cases: a header, the numbers, the closing bracket.
    method FmtArray(header: string, xs: seq<int>, suffix: string)
      modifies this
      ensures out == old(out) + (header + ItemsText(xs, suffix) + "]")
    {
      Write(header);
      FmtItems(xs, suffix);
      Write("]");
    }

    /// `Display::fmt` of a value.
    method Fmt(v: NbtValue, ft: FloatText)
      modifies this
      ensures out == old(out) + Show(v, ft)
      decreases v, 3
    {
      match v {
        case Byte(b) => Write(IntText(b) + "b");
        case Short(x) => Write(IntText(x) + "s");
        case Int(x) => Write(IntText(x));
        case Long(x) => Write(IntText(x) + "l");
        case Float(bits) => Write(ft.f32(bits) + "f");
        case Double(bits) => Write(ft.f64(bits) + "d");
        case ByteArray(xs) => FmtArray("[B; ", xs, "b");
        case IntArray(xs) => FmtArray("[I; ", xs, "");
        case LongArray(xs) => FmtArray("[L; ", xs, "l");
        case String(t) => Write("\"" + t + "\"");
        case List(vs) => FmtList(v, ft);
        case Compound(name, ms) => FmtCompound(v, ft);
      }
    }

    /// The list case: the elements' own texts, separated by ", ".
    method FmtList(v: NbtValue, ft: FloatText)
      requires v.List?
      modifies this
      ensures out == old(out) + Show(v, ft)
      decreases v, 1
    {
      var vs := v.items;
      ghost var parts := ListParts(v, ft);
      Write("[");
      ghost var start := out;
      for i := 0 to |vs|
        invariant out == start + Join(parts[..i])
      {
        ghost var before := out;
        if i != 0 {
          Write(", ");
        }
        ghost var sep := if i == 0 then "" else ", ";
        assert out == before + sep;
        assert vs[i] in vs;
        Fmt(vs[i], ft);
        JoinStep(start, parts, i, before, sep, out);
      }
      assert parts[..|vs|] == parts;
      Write("]");
    }

    /// One "key: value" member of a compound.
    method FmtMember(key: string, val: NbtValue, ghost v: NbtValue, ft: FloatText)
      requires val < v
      modifies this
      ensures out == old(out) + (key + ": " + Show(val, ft))
      decreases v, 0
    {
      Write(key + ": ");
      Fmt(val, ft);
    }

    /// The members of a compound, separated by ", ".
    method FmtMembers(v: NbtValue, ft: FloatText)
      requires v.Compound?
      modifies this
      ensures out == old(out) + Join(MemberParts(v, ft))
      decreases v, 1
    {
      var ms := v.members;
      ghost var parts := MemberParts(v, ft);
      ghost var start := out;
      for i := 0 to |ms|
        invariant out == start + Join(parts[..i])
      {
        ghost var before := out;
        if i != 0 {
          Write(", ");
        }
        ghost var sep := if i == 0 then "" else ", ";
        assert out == before + sep;
        var (key, val) := ms[i];
        assert parts[i] == key + ": " + Show(val, ft);
        assert ms[i] in ms;
        FmtMember(key, val, v, ft);
        JoinStep(start, parts, i, before, sep, out);
      }
      assert parts[..|ms|] == parts;
    }

    /// The compound case: the optional name, then "key: value" members.
    method FmtCompound(v: NbtValue, ft: FloatText)
      requires v.Compound?
      modifies this
      ensures out == old(out) + Show(v, ft)
      decreases v, 2
    {
      ghost var start := out;
      if v.name.Some? {
        Write(v.name.value + ": {");
      } else {
        Write("{");
      }
      ghost var head := if v.name.Some? then v.name.value + ": {" else "{";
      assert out == start + head;
      FmtMembers(v, ft);
      Write("}");
      assert Show(v, ft) == ShowCompound(v, ft) == head + Join(MemberParts(v, ft)) + "}";
      AppendAssoc(start, head, Join(MemberParts(v, ft)));
      AppendAssoc(start, head + Join(MemberParts(v, ft)), "}");
    }
  }
}
