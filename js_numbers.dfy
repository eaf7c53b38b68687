/** The two number/string conversions the reveal animator relies on: the
    string a dataset assignment stores for a non-negative integer, and the
    global `parseInt` with no radix argument, which reads it back. NaN is
    `None`. */
module JsNumbers {
  import opened Dom

  predicate IsDecimalDigit(c: char)
  {
    '0' <= c <= '9'
  }

  function DigitChar(d: nat): (c: char)
    requires d < 10
    ensures IsDecimalDigit(c)
  {
    ('0' as int + d) as char
  }

  /** ToString of a non-negative integer: its decimal digits, no sign, no
      leading zero. */
  function Decimal(n: nat): (s: string)
    ensures |s| >= 1
    ensures forall i :: 0 <= i < |s| ==> IsDecimalDigit(s[i])
    ensures |s| > 1 ==> s[0] != '0'
    ensures n < 10 <==> |s| == 1
  {
    if n < 10 then [DigitChar(n)] else Decimal(n / 10) + [DigitChar(n % 10)]
  }

  /** The characters `parseInt` skips at the start of its argument: the
      ECMAScript white space (TAB, VT, FF, SP, NBSP, ZWNBSP and every other
      space separator of category Zs) and the line terminators (LF, CR, LS, PS). */
  predicate IsWhiteSpace(c: char)
  {
    c == '\t' || c == '\U{000B}' || c == '\U{000C}' || c == ' ' || c == '\U{00A0}' || c == '\U{FEFF}'
    || c == '\U{1680}' || ('\U{2000}' <= c <= '\U{200A}') || c == '\U{202F}' || c == '\U{205F}' || c == '\U{3000}'
    || c == '\n' || c == '\r' || c == '\U{2028}' || c == '\U{2029}'
  }

  /** The value of `c` as a digit in base `radix` (10 or 16 here), or None. */
  function DigitValue(c: char, radix: nat): (r: Option<nat>)
    ensures r.Some? ==> r.value < radix
  {
    var v: int :=
      if '0' <= c <= '9' then c as int - '0' as int
      else if 'a' <= c <= 'z' then c as int - 'a' as int + 10
      else if 'A' <= c <= 'Z' then c as int - 'A' as int + 10
      else radix;
    if 0 <= v < radix then Some(v) else None
  }

  function TrimStart(s: string): (r: string)
    ensures |r| <= |s| && r == s[|s| - |r|..]
    ensures |r| > 0 ==> !IsWhiteSpace(r[0])
  {
    if |s| > 0 && IsWhiteSpace(s[0]) then TrimStart(s[1..]) else s
  }

  /** Length of the longest prefix of `s` made of base-`radix` digits. */
  function DigitRun(s: string, radix: nat): (k: nat)
    ensures k <= |s|
    ensures forall i :: 0 <= i < k ==> DigitValue(s[i], radix).Some?
    ensures k < |s| ==> DigitValue(s[k], radix).None?
  {
    if |s| > 0 && DigitValue(s[0], radix).Some? then 1 + DigitRun(s[1..], radix) else 0
  }

  /** The number a run of digits denotes, most significant digit first. */
  function DigitsValue(s: string, radix: nat): nat
    requires forall i :: 0 <= i < |s| ==> DigitValue(s[i], radix).Some?
  {
    if |s| == 0 then 0
    else
      var init := s[..|s| - 1];
      assert forall i :: 0 <= i < |init| ==> init[i] == s[i];
      var high: nat := DigitsValue(init, radix);
      MulNat(high, radix);
      high * radix + DigitValue(s[|s| - 1], radix).value
  }

  lemma MulNat(a: nat, b: nat)
    ensures a * b >= 0
  {
  }

  /** `parseInt(s)`: skip leading white space, read an optional sign, switch to
      base 16 after a `0x`/`0X` prefix, then read the longest run of digits;
      without a digit the result is NaN. The trailing rest is ignored. */
  function ParseInt(s: string): Option<int>
  {
    ParseSigned(TrimStart(s))
  }

  function ParseSigned(t: string): Option<int>
  {
    if |t| > 0 && t[0] == '-' then
      match ParseUnsigned(t[1..])
      case None => None
      case Some(m) => Some(-(m as int))
    else if |t| > 0 && t[0] == '+' then Widen(ParseUnsigned(t[1..]))
    else Widen(ParseUnsigned(t))
  }

  function Widen(r: Option<nat>): Option<int>
  {
    match r
    case None => None
    case Some(m) => Some(m as int)
  }

  predicate HasHexPrefix(u: string)
  {
    |u| >= 2 && u[0] == '0' && (u[1] == 'x' || u[1] == 'X')
  }

  function ParseUnsigned(u: string): Option<nat>
  {
    if HasHexPrefix(u) then ParseDigits(u[2..], 16) else ParseDigits(u, 10)
  }

  function ParseDigits(v: string, radix: nat): Option<nat>
  {
    var k := DigitRun(v, radix);
    if k == 0 then None else Some(DigitsValue(v[..k], radix))
  }

  /** `parseInt(element.dataset.delay) || 0`: an absent attribute reads as the
      string "undefined", NaN and 0 are both falsy and give 0. */
  function DelayFrom(delay: Option<string>): (r: int)
    ensures delay.None? ==> r == 0
    ensures delay.Some? && ParseInt(delay.value).None? ==> r == 0
    ensures delay.Some? && ParseInt(delay.value).Some? ==> r == ParseInt(delay.value).value
  {
    var parsed := ParseInt(if delay.Some? then delay.value else "undefined");
    UndefinedIsNaN();
    match parsed
    case None => 0
    case Some(v) => if v == 0 then 0 else v
  }

  /** A `data-delay` that does not start with a number, such as "abc", is NaN and gives 0. */
  lemma NonNumericDelayIsZero()
    ensures ParseInt("abc").None?
    ensures DelayFrom(Some("abc")) == 0
  {
    assert TrimStart("abc") == "abc";
    assert DigitValue('a', 10).None?;
    assert DigitRun("abc", 10) == 0;
  }

  /** `parseInt("undefined")` is NaN. */
  lemma UndefinedIsNaN()
    ensures ParseInt("undefined").None?
  {
    assert TrimStart("undefined") == "undefined";
    assert DigitValue('u', 10).None?;
    assert DigitRun("undefined", 10) == 0;
  }

  lemma {:induction false} DigitsValueOfDecimal(n: nat)
    ensures forall i :: 0 <= i < |Decimal(n)| ==> DigitValue(Decimal(n)[i], 10).Some?
    ensures DigitsValue(Decimal(n), 10) == n
  {
    var s := Decimal(n);
    assert forall i :: 0 <= i < |s| ==> DigitValue(s[i], 10).Some? by {
      forall i | 0 <= i < |s| ensures DigitValue(s[i], 10).Some? {
        assert IsDecimalDigit(s[i]);
      }
    }
    if n >= 10 {
      DigitsValueOfDecimal(n / 10);
      assert s[..|s| - 1] == Decimal(n / 10);
      assert DigitValue(s[|s| - 1], 10).value == n % 10;
    } else {
      assert DigitValue(s[0], 10).value == n;
    }
  }

  lemma {:induction false} DigitRunOfPrefix(s: string, rest: string, radix: nat)
    requires forall i :: 0 <= i < |s| ==> DigitValue(s[i], radix).Some?
    requires |rest| == 0 || DigitValue(rest[0], radix).None?
    ensures DigitRun(s + rest, radix) == |s|
  {
    if |s| > 0 {
      assert (s + rest)[1..] == s[1..] + rest;
      DigitRunOfPrefix(s[1..], rest, radix);
    } else {
      assert s + rest == rest;
    }
  }

  /** `parseInt` reads back the number whose string a dataset holds, also when
      text that is not a digit follows it (`parseInt("300ms")` is 300). */
  lemma {:induction false} ParseIntOfDecimal(n: nat, rest: string)
    requires |rest| == 0 || (!IsDecimalDigit(rest[0]) && rest[0] != 'x' && rest[0] != 'X')
    ensures ParseInt(Decimal(n) + rest) == Some(n)
  {
    var d := Decimal(n);
    var s := d + rest;
    assert s[0] == d[0];
    DigitFirstIsUnsigned(s);
    assert !HasHexPrefix(s) by {
      if |d| > 1 { assert s[0] != '0'; } else { assert |rest| > 0 ==> s[1] == rest[0]; }
    }
    ParseDigitsOfDecimal(n, rest);
  }

  /** A string that starts with a digit is read without trimming and without a sign. */
  lemma DigitFirstIsUnsigned(s: string)
    requires |s| > 0 && IsDecimalDigit(s[0])
    ensures ParseInt(s) == Widen(ParseUnsigned(s))
  {
    assert !IsWhiteSpace(s[0]);
    assert TrimStart(s) == s;
  }

  lemma {:induction false} ParseDigitsOfDecimal(n: nat, rest: string)
    requires |rest| == 0 || !IsDecimalDigit(rest[0])
    ensures ParseDigits(Decimal(n) + rest, 10) == Some(n)
  {
    var d := Decimal(n);
    DigitsValueOfDecimal(n);
    assert |rest| == 0 || DigitValue(rest[0], 10).None?;
    DigitRunOfPrefix(d, rest, 10);
    var k := DigitRun(d + rest, 10);
    assert k == |d| > 0;
    assert (d + rest)[..k] == d;
  }

  /** The delay a dataset assignment stores is the delay the observer reads. */
  lemma {:induction false} DelayFromDecimal(n: nat)
    ensures DelayFrom(Some(Decimal(n))) == n
  {
    ParseIntOfDecimal(n, []);
    assert Decimal(n) + [] == Decimal(n);
  }

  /** Leading white space and a minus sign are accepted: " -42" reads as -42. */
  lemma {:induction false} ParseIntSkipsWhiteSpace(ws: string, n: nat)
    requires forall i :: 0 <= i < |ws| ==> IsWhiteSpace(ws[i])
    ensures ParseInt(ws + "-" + Decimal(n)) == Some(-(n as int))
  {
    var t := "-" + Decimal(n);
    assert !IsWhiteSpace(t[0]);
    TrimWhiteSpacePrefix(ws, t);
    assert ws + "-" + Decimal(n) == ws + t;
    ParseSignedNegative(n);
  }

  lemma ParseSignedNegative(n: nat)
    ensures ParseSigned("-" + Decimal(n)) == Some(-(n as int))
  {
    var d := Decimal(n);
    var t := "-" + d;
    assert t[1..] == d;
    ParseUnsignedOfDecimal(n);
  }

  lemma ParseUnsignedOfDecimal(n: nat)
    ensures ParseUnsigned(Decimal(n)) == Some(n)
  {
    var d := Decimal(n);
    assert !HasHexPrefix(d) by { if |d| > 1 { assert d[0] != '0'; } }
    ParseDigitsOfDecimal(n, []);
    assert d + [] == d;
  }

  lemma {:induction false} TrimWhiteSpacePrefix(ws: string, s: string)
    requires forall i :: 0 <= i < |ws| ==> IsWhiteSpace(ws[i])
    requires |s| == 0 || !IsWhiteSpace(s[0])
    ensures TrimStart(ws + s) == s
  {
    if |ws| > 0 {
      assert (ws + s)[1..] == ws[1..] + s;
      TrimWhiteSpacePrefix(ws[1..], s);
    } else {
      assert ws + s == s;
    }
  }
}
