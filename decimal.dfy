/// Rust's `Display` of an integer (`{}` in `format!`): an optional minus
/// sign followed by the decimal digits without leading zeros; and the
/// reading that takes such a text back to its number.
module Decimal {
  import opened NbtBase

  predicate IsDigit(c: char) { '0' <= c <= '9' }

  predicate AllDigits(s: string) { forall i :: 0 <= i < |s| ==> IsDigit(s[i]) }

  function DigitChar(d: nat): (c: char)
    requires d < 10
    ensures IsDigit(c)
  {
    (48 + d) as char
  }

  function DigitValue(c: char): (d: nat)
    requires IsDigit(c)
    ensures d < 10 && DigitChar(d) == c
  {
    (c as int) - 48
  }

  /// The digits of `n`, most significant first.
  function NatText(n: nat): (s: string)
    ensures 1 <= |s| && AllDigits(s)
    ensures |s| > 1 ==> s[0] != '0'
    decreases n
  {
    if n < 10 then [DigitChar(n)] else NatText(n / 10) + [DigitChar(n % 10)]
  }

  /// `format!("{}", v)` for any signed or unsigned integer `v`.
  function IntText(v: int): string
  {
    if v < 0 then "-" + NatText(-v) else NatText(v)
  }

  function ParseDigits(s: string): nat
    requires AllDigits(s)
  {
    if s == [] then 0 else ParseDigits(s[..|s| - 1]) * 10 + DigitValue(s[|s| - 1])
  }

  /// Reads a decimal text back: digits, optionally after a minus sign.
  function ParseInt(s: string): Option<int>
  {
    if |s| > 1 && s[0] == '-' && AllDigits(s[1..]) then Some(0 - ParseDigits(s[1..]) as int)
    else if |s| > 0 && AllDigits(s) then Some(ParseDigits(s))
    else None
  }

  lemma {:induction false} NatTextRoundTrip(n: nat)
    ensures ParseDigits(NatText(n)) == n
    decreases n
  {
    if n >= 10 {
      NatTextRoundTrip(n / 10);
      var s := NatText(n);
      assert s[..|s| - 1] == NatText(n / 10);
    }
  }

  /// The text of every integer reads back as that integer.
  lemma {:induction false} IntTextRoundTrip(v: int)
    ensures ParseInt(IntText(v)) == Some(v)
  {
    if v < 0 {
      NatTextRoundTrip(-v);
      assert IntText(v)[1..] == NatText(-v);
    } else {
      NatTextRoundTrip(v);
    }
  }

  /// The text has no character other than a leading minus and digits, so
  /// it never contains the separators of the textual formats built on it.
  lemma {:induction false} IntTextChars(v: int)
    ensures |IntText(v)| >= 1
    ensures forall i :: 0 <= i < |IntText(v)| ==> IsDigit(IntText(v)[i]) || (i == 0 && v < 0 && IntText(v)[i] == '-')
  {
  }

  /// Different integers never share a text.
  lemma {:induction false} IntTextInjective(a: int, b: int)
    requires IntText(a) == IntText(b)
    ensures a == b
  {
    IntTextRoundTrip(a);
    IntTextRoundTrip(b);
  }

  lemma {:induction false} ShorterNumberDiffers(a: int, b: int, s: string, t: string)
    requires s == [] || !IsDigit(s[0])
    requires |IntText(a)| < |IntText(b)|
    ensures IntText(a) + s != IntText(b) + t
  {
    var x, y := IntText(a), IntText(b);
    IntTextChars(b);
    if s == [] {
      assert |x + s| < |y + t|;
    } else {
      assert (x + s)[|x|] != (y + t)[|x|];
    }
  }

  /// A number followed by a text that does not start with a digit can be
  /// split back into the two: the number's text is where the digits end.
  lemma {:induction false} NumberThenText(a: int, b: int, s: string, t: string)
    requires s == [] || !IsDigit(s[0])
    requires t == [] || !IsDigit(t[0])
    requires IntText(a) + s == IntText(b) + t
    ensures a == b && s == t
  {
    var x, y := IntText(a), IntText(b);
    IntTextChars(a);
    IntTextChars(b);
    if |x| < |y| {
      ShorterNumberDiffers(a, b, s, t);
    } else if |y| < |x| {
      ShorterNumberDiffers(b, a, t, s);
    }
    assert x == (x + s)[..|x|] == (y + t)[..|y|] == y;
    IntTextInjective(a, b);
    assert s == (x + s)[|x|..] == (y + t)[|y|..] == t;
  }

  /// The number written between a known `prefix` and a known `suffix`.
  function NumberBetween(msg: string, prefix: string, suffix: string): Option<int>
  {
    if |msg| >= |prefix| + |suffix| && msg[..|prefix|] == prefix && msg[|msg| - |suffix|..] == suffix
    then ParseInt(msg[|prefix|..|msg| - |suffix|])
    else None
  }

  lemma {:induction false} NumberBetweenText(prefix: string, n: int, suffix: string)
    ensures NumberBetween(prefix + IntText(n) + suffix, prefix, suffix) == Some(n)
  {
    var msg := prefix + IntText(n) + suffix;
    assert msg[..|prefix|] == prefix;
    assert msg[|msg| - |suffix|..] == suffix;
    assert msg[|prefix|..|msg| - |suffix|] == IntText(n);
    IntTextRoundTrip(n);
  }
}
