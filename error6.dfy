/// The error taxonomy of the newest reader and its messages
/// (shen-nbt6/src/error.rs).
module Nbt6Error {
  import opened NbtBase
  import opened Decimal
  import opened Nbt6Traits

  /// `std::str::Utf8Error`, known only through its own text.
  datatype Utf8Error = Utf8Error(text: string)

  /// `NbtError`. `UnknownType` and `LenNegative` carry the offset at which
  /// the parser met them, as the parser builds them; their messages do not
  /// show it.
  datatype NbtError =
    | UnknownErr(msg: string)
    | WrongRootType(root: byte)
    | RootWithoutName
    | UnknownType(id: byte, at: nat)
    | NameRead(name: string)
    | CursorOverflow(cursor: nat, len: nat, dataLen: nat)
    | VarIntTooBig(size: nat)
    | VarlongTooBig(size: nat)
    | ListTypeNotSame(types: seq<byte>)
    | LenNegative(tag: byte, negLen: int, offset: nat)
    | IncorrectType(wanted: byte, got: byte)
    | Mutf8Error(cause: Utf8Error)
    | NbtDepthTooBig(limit: nat)

  const LIST_ROOT_HINT: string := "根节点为" + " NbtList(9) 类型, 是否应该使用 BedrockDisk/BedrockNetVarInt?"
  const WRONG_ROOT_PREFIX: string := "根节点类型错误: "
  const WRONG_ROOT_SUFFIX: string := ", 应为 NbtCompound/NbtList(bedrock only)"
  const UNKNOWN_TYPE_PREFIX: string := "未知类型: "
  const END_TYPE_TEXT: string := UNKNOWN_TYPE_PREFIX + "NBTEnd(0), 请检查数据是否正确"
  const VAR_INT_PREFIX: string := "VarInt 过大: "
  const LIMIT_WORDS: string := " 最大长度为 "
  const VAR_INT_SUFFIX: string := LIMIT_WORDS + "5"
  const VAR_LONG_PREFIX: string := "VarLong 过大: "
  const VAR_LONG_SUFFIX: string := LIMIT_WORDS + "10"
  const NEG_LEN_INFIX: string := " 长度 < 0: "
  const DEPTH_PREFIX: string := "NBT 深度过大, 仅支持 "
  const DEPTH_SUFFIX: string := " 深度"
  const OVERFLOW_PREFIX: string := "指针超出范围: cursor: "
  const OVERFLOW_LEN: string := ", len: "
  const OVERFLOW_SUM: string := ", cursor+len: "
  const OVERFLOW_DATA: string := ", data.len(): "
  const INCORRECT_PREFIX: string := "错误类型: 期望: "
  const INCORRECT_GOT: string := ", 实际: "

  /// `{:?}` of a `Vec<u8>`: "[9, 10]".
  function DebugIds(ids: seq<byte>): string
  {
    "[" + ItemsText(ids, "") + "]"
  }

  /// `Display::fmt` of an error.
  function Message(e: NbtError): string
  {
    match e
      case UnknownErr(s) => "未知错误: " + s
      case WrongRootType(n) =>
        if n == TAG_LIST then LIST_ROOT_HINT else WRONG_ROOT_PREFIX + IntText(n) + WRONG_ROOT_SUFFIX
      case RootWithoutName => "根节点无名称, 是否应该使用 JavaNetAfter1_20_2 解析?"
      case UnknownType(n, _) => if n == TAG_END then END_TYPE_TEXT else UNKNOWN_TYPE_PREFIX + IntText(n)
      case NameRead(s) => "名称读取错误: " + s
      case CursorOverflow(c, l, d) => OverflowText(c, l, d)
      case VarIntTooBig(n) => VAR_INT_PREFIX + IntText(n) + VAR_INT_SUFFIX
      case VarlongTooBig(n) => VAR_LONG_PREFIX + IntText(n) + VAR_LONG_SUFFIX
      case ListTypeNotSame(types) => "NbtList 中类型不同: " + DebugIds(types) + " 应相同"
      case LenNegative(id, len, _) => TypeName(id) + NEG_LEN_INFIX + IntText(len)
      case IncorrectType(wanted, got) => INCORRECT_PREFIX + (IntText(wanted) + (INCORRECT_GOT + IntText(got)))
      case Mutf8Error(cause) => "m-utf8 解码错误: " + cause.text
      case NbtDepthTooBig(n) => DEPTH_PREFIX + IntText(n) + DEPTH_SUFFIX
  }

  /// The message of `CursorOverflow`: the cursor, the width, their sum and
  /// the data length.
  function OverflowText(c: nat, l: nat, d: nat): string
  {
    OVERFLOW_PREFIX + (IntText(c) + (OVERFLOW_LEN + (IntText(l) + (OVERFLOW_SUM + (IntText(c + l)
    + (OVERFLOW_DATA + IntText(d)))))))
  }

  /// `From<Utf8Error>`.
  function FromUtf8(cause: Utf8Error): (e: NbtError)
    ensures e.Mutf8Error? && e.cause == cause
    ensures Message(e) == "m-utf8 解码错误: " + cause.text
  {
    Mutf8Error(cause)
  }

  /// The Bedrock hint is given for a List root and for nothing else; every
  /// other root id can be read back from its message.
  lemma {:induction false} WrongRootMessage(n: byte)
    ensures Message(WrongRootType(n)) == LIST_ROOT_HINT <==> n == TAG_LIST
    ensures n != TAG_LIST ==> NumberBetween(Message(WrongRootType(n)), WRONG_ROOT_PREFIX, WRONG_ROOT_SUFFIX) == Some(n as int)
  {
    if n != TAG_LIST {
      var m := Message(WrongRootType(n));
      assert m[3] == '类' && LIST_ROOT_HINT[3] == '为';
      NumberBetweenText(WRONG_ROOT_PREFIX, n, WRONG_ROOT_SUFFIX);
    }
  }

  /// The End tag gets its own message; every other id can be read back.
  lemma {:induction false} UnknownTypeMessage(n: byte, at: nat)
    ensures Message(UnknownType(n, at)) == END_TYPE_TEXT <==> n == TAG_END
    ensures n != TAG_END ==> NumberBetween(Message(UnknownType(n, at)), UNKNOWN_TYPE_PREFIX, "") == Some(n as int)
  {
    if n != TAG_END {
      var m := Message(UnknownType(n, at));
      IntTextChars(n);
      assert m[|UNKNOWN_TYPE_PREFIX|] == IntText(n)[0];
      assert END_TYPE_TEXT[|UNKNOWN_TYPE_PREFIX|] == 'N';
      NumberBetweenText(UNKNOWN_TYPE_PREFIX, n, "");
      assert UNKNOWN_TYPE_PREFIX + IntText(n) + "" == m;
    }
  }

  /// The varint message reports the size and the limit of 5 bytes.
  lemma {:induction false} VarIntTooBigMessage(n: nat)
    ensures NumberBetween(Message(VarIntTooBig(n)), VAR_INT_PREFIX, VAR_INT_SUFFIX) == Some(n as int)
    ensures NumberBetween(VAR_INT_SUFFIX, LIMIT_WORDS, "") == Some(5)
  {
    NumberBetweenText(VAR_INT_PREFIX, n, VAR_INT_SUFFIX);
    NumberBetweenText(LIMIT_WORDS, 5, "");
    assert LIMIT_WORDS + IntText(5) + "" == VAR_INT_SUFFIX;
  }

  /// The varlong message reports the size and the limit of 10 bytes.
  lemma {:induction false} VarlongTooBigMessage(n: nat)
    ensures NumberBetween(Message(VarlongTooBig(n)), VAR_LONG_PREFIX, VAR_LONG_SUFFIX) == Some(n as int)
    ensures NumberBetween(VAR_LONG_SUFFIX, LIMIT_WORDS, "") == Some(10)
  {
    NumberBetweenText(VAR_LONG_PREFIX, n, VAR_LONG_SUFFIX);
    NumberBetweenText(LIMIT_WORDS, 10, "");
    TenText();
    assert LIMIT_WORDS + IntText(10) + "" == VAR_LONG_SUFFIX;
  }

  lemma {:induction false} TenText()
    ensures IntText(10) == "10"
  {
    assert NatText(1) == "1" && NatText(0) == "0";
  }

  /// A negative length names its tag as `as_nbt_type_name` does and
  /// reports the length.
  lemma {:induction false} LenNegativeMessage(id: byte, len: int, offset: nat)
    ensures TypeName(id) <= Message(LenNegative(id, len, offset))
    ensures NumberBetween(Message(LenNegative(id, len, offset)), TypeName(id) + NEG_LEN_INFIX, "") == Some(len)
  {
    var head := TypeName(id) + NEG_LEN_INFIX;
    var m := Message(LenNegative(id, len, offset));
    assert m == head + IntText(len);
    NumberBetweenText(head, len, "");
    assert head + IntText(len) + "" == m;
    assert m[..|TypeName(id)|] == TypeName(id);
  }

  /// The depth message reports the limit.
  lemma {:induction false} DepthMessage(n: nat)
    ensures NumberBetween(Message(NbtDepthTooBig(n)), DEPTH_PREFIX, DEPTH_SUFFIX) == Some(n as int)
  {
    NumberBetweenText(DEPTH_PREFIX, n, DEPTH_SUFFIX);
  }

  /// Equal texts after an equal prefix.
  lemma {:induction false} DropPrefix(p: string, x: string, y: string)
    requires p + x == p + y
    ensures x == y
  {
    assert x == (p + x)[|p|..];
    assert y == (p + y)[|p|..];
  }

  /// The overflow message determines cursor, width and data length: two
  /// different overflows never print alike.
  lemma {:induction false} CursorOverflowMessage(c: nat, l: nat, d: nat, c': nat, l': nat, d': nat)
    requires Message(CursorOverflow(c, l, d)) == Message(CursorOverflow(c', l', d'))
    ensures c == c' && l == l' && d == d'
  {
    var w, w' := OVERFLOW_DATA + IntText(d), OVERFLOW_DATA + IntText(d');
    var u, u' := OVERFLOW_SUM + (IntText(c + l) + w), OVERFLOW_SUM + (IntText(c' + l') + w');
    var s, s' := OVERFLOW_LEN + (IntText(l) + u), OVERFLOW_LEN + (IntText(l') + u');
    assert OverflowText(c, l, d) == OVERFLOW_PREFIX + (IntText(c) + s);
    assert OverflowText(c', l', d') == OVERFLOW_PREFIX + (IntText(c') + s');
    PeelNumber(OVERFLOW_PREFIX, c, c', s, s');
    PeelNumber(OVERFLOW_LEN, l, l', u, u');
    PeelNumber(OVERFLOW_SUM, c + l, c' + l', w, w');
    DropPrefix(OVERFLOW_DATA, IntText(d), IntText(d'));
    IntTextInjective(d, d');
  }

  /// Equal texts that continue a common prefix with a number and then a
  /// text opening with a non-digit: the numbers and the rests are equal.
  lemma {:induction false} PeelNumber(p: string, a: int, b: int, s: string, t: string)
    requires |s| > 0 && |t| > 0 && s[0] == t[0] && !IsDigit(s[0])
    requires p + (IntText(a) + s) == p + (IntText(b) + t)
    ensures a == b && s == t
  {
    DropPrefix(p, IntText(a) + s, IntText(b) + t);
    NumberThenText(a, b, s, t);
  }

  /// The incorrect-type message determines both ids.
  lemma {:induction false} IncorrectTypeMessage(e: byte, g: byte, e': byte, g': byte)
    requires Message(IncorrectType(e, g)) == Message(IncorrectType(e', g'))
    ensures e == e' && g == g'
  {
    var s, s' := INCORRECT_GOT + IntText(g), INCORRECT_GOT + IntText(g');
    DropPrefix(INCORRECT_PREFIX, IntText(e) + s, IntText(e') + s');
    NumberThenText(e, e', s, s');
    DropPrefix(INCORRECT_GOT, IntText(g), IntText(g'));
    IntTextInjective(g, g');
  }
}
