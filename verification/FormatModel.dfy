/** What the formatter of kernel/snprintf.cc writes: numbers, strings, and whole formats. */
module FormatModel {

  datatype Flags = Flags(minus: bool, plus: bool, space: bool, num: bool, zero: bool, up: bool, unsigned: bool)

  const NO_FLAGS: Flags := Flags(false, false, false, false, false, false, false)

  const WORD: int := 0x1_0000_0000

  // ---------------------------------------------------------------- digits

  function DigitChar(d: nat, caps: bool): char
    requires d < 16
  {
    (if caps then "0123456789ABCDEF" else "0123456789abcdef")[d]
  }

  /** What a character is worth as a digit; a character that is no digit is worth 99. */
  function DigitValue(c: char): nat {
    if '0' <= c <= '9' then c as int - '0' as int
    else if 'a' <= c <= 'f' then c as int - 'a' as int + 10
    else if 'A' <= c <= 'F' then c as int - 'A' as int + 10
    else 99
  }

  lemma DigitRoundTrip(d: nat, caps: bool)
    requires d < 16
    ensures DigitValue(DigitChar(d, caps)) == d && DigitChar(d, caps) !in {' ', '+', '-'}
  {
  }

  /** The digits of a number, the most significant first. */
  function Digits(u: nat, base: nat, caps: bool): (r: string)
    requires 2 <= base <= 16
    ensures r != []
  {
    if u < base then [DigitChar(u, caps)] else Digits(u / base, base, caps) + [DigitChar(u % base, caps)]
  }

  /** The number that a string of digits stands for. */
  function Number(s: string, base: nat): nat {
    if s == [] then 0 else Number(s[..|s| - 1], base) * base + DigitValue(s[|s| - 1])
  }

  lemma NumberAppend(s: string, c: char, base: nat)
    ensures Number(s + [c], base) == Number(s, base) * base + DigitValue(c)
  {
  }

  lemma NumberNone(base: nat)
    ensures Number([], base) == 0
  {
  }

  lemma DivMod(u: nat, base: nat)
    requires 2 <= base
    ensures u / base * base + u % base == u
  {
  }

  lemma {:induction false} NumberOfDigits(u: nat, base: nat, caps: bool)
    requires 2 <= base <= 16
    ensures Number(Digits(u, base, caps), base) == u
  {
    hide DigitChar;
    hide DigitValue;
    hide Number;
    DivMod(u, base);
    NumberNone(base);
    if u < base {
      DigitRoundTrip(u, caps);
      assert [] + [DigitChar(u, caps)] == [DigitChar(u, caps)];
      NumberAppend([], DigitChar(u, caps), base);
    } else {
      NumberOfDigits(u / base, base, caps);
      DigitRoundTrip(u % base, caps);
      NumberAppend(Digits(u / base, base, caps), DigitChar(u % base, caps), base);
    }
  }

  function Repeat(c: char, n: int): (r: string)
    ensures |r| == if 0 <= n then n else 0
    ensures forall i :: 0 <= i < |r| ==> r[i] == c
  {
    if n <= 0 then "" else Repeat(c, n - 1) + [c]
  }

  lemma {:induction false} NumberZeros(z: int, s: string, base: nat)
    ensures Number(Repeat('0', z) + s, base) == Number(s, base)
  {
    if s == [] {
      assert Repeat('0', z) + s == Repeat('0', z);
      if z > 0 {
        NumberZeros(z - 1, [], base);
        assert Repeat('0', z - 1) + [] == Repeat('0', z - 1);
        NumberAppend(Repeat('0', z - 1), '0', base);
      }
    } else {
      var t := Repeat('0', z) + s;
      assert t[..|t| - 1] == Repeat('0', z) + s[..|s| - 1];
      NumberZeros(z, s[..|s| - 1], base);
    }
  }

  lemma {:induction false} DigitsClean(u: nat, base: nat, caps: bool)
    requires 2 <= base <= 16
    ensures forall i :: 0 <= i < |Digits(u, base, caps)| ==> Digits(u, base, caps)[i] !in {' ', '+', '-'}
  {
    if u < base {
      DigitRoundTrip(u, caps);
    } else {
      DigitsClean(u / base, base, caps);
      DigitRoundTrip(u % base, caps);
    }
  }

  function Power8(n: nat): nat {
    if n == 0 then 1 else 8 * Power8(n - 1)
  }

  /** A number below 8^n has at most n digits in base 8 or more. */
  lemma {:induction false} DigitsFit(u: nat, base: nat, caps: bool, n: nat)
    requires 8 <= base <= 16 && 1 <= n && u < Power8(n)
    ensures |Digits(u, base, caps)| <= n
  {
    if u >= base {
      assert n > 1 by {
        assert Power8(1) == 8 * Power8(0);
      }
      Quotient(u, base, Power8(n - 1));
      DigitsFit(u / base, base, caps, n - 1);
    }
  }

  lemma Quotient(u: nat, base: nat, p: nat)
    requires 8 <= base && u < 8 * p
    ensures u / base < p
  {
  }

  /** The buffer of 20 characters is long enough: a word has at most 11 digits. */
  lemma WordFits(u: nat, base: nat, caps: bool)
    requires 8 <= base <= 16 && u < WORD
    ensures |Digits(u, base, caps)| <= 11
  {
    assert Power8(11) == 0x2_0000_0000 by {
      assert Power8(4) == 0x1000;
      assert Power8(8) == 0x100_0000;
    }
    DigitsFit(u, base, caps, 11);
  }

  // ---------------------------------------------------------------- integers

  function Max(a: int, b: int): int {
    if a >= b then a else b
  }

  /** The word that is converted: the value modulo 2^32, or its negative. */
  function Magnitude(value: int, flags: Flags): nat {
    if !flags.unsigned && value < 0 then -value % WORD else value % WORD
  }

  function Sign(value: int, flags: Flags): (s: string)
    ensures |s| <= 1
  {
    if flags.unsigned then ""
    else if value < 0 then "-" else if flags.plus then "+" else if flags.space then " " else ""
  }

  /** The number of zeros, and of spaces, around a sign and a number of digits. */
  function Zeros(place: nat, sign: nat, min: int, max: int, zero: bool): nat {
    var z, s := Max(0, Max(0, max) - place), Max(0, min - Max(Max(0, max), place) - sign);
    if zero then Max(z, s) else z
  }

  function Spaces(place: nat, sign: nat, min: int, max: int, zero: bool): nat {
    if zero then 0 else Max(0, min - Max(Max(0, max), place) - sign)
  }

  /** What fmtint writes. */
  function IntText(value: int, base: nat, min: int, max: int, flags: Flags): string
    requires 2 <= base <= 16
  {
    var digits, sign := Digits(Magnitude(value, flags), base, flags.up), Sign(value, flags);
    var z, s := Zeros(|digits|, |sign|, min, max, flags.zero), Spaces(|digits|, |sign|, min, max, flags.zero);
    var number := sign + Repeat('0', z) + digits;
    if flags.minus then number + Repeat(' ', s) else Repeat(' ', s) + number
  }

  /** The length is the width, or what the digits and the sign need; with the zero flag this holds
      exactly when the precision and the width do not both ask for padding. */
  lemma IntTextLength(value: int, base: nat, min: int, max: int, flags: Flags)
    requires 2 <= base <= 16
    ensures var place, sign := |Digits(Magnitude(value, flags), base, flags.up)|, |Sign(value, flags)|;
            var n := |IntText(value, base, min, max, flags)|;
            && (!flags.zero ==> n == Max(min, Max(Max(0, max), place) + sign))
            && (flags.zero ==> (n == Max(min, Max(Max(0, max), place) + sign) <==>
                                  max <= place || min <= Max(Max(0, max), place) + sign))
            && (flags.zero ==> n == place + sign + Zeros(place, sign, min, max, true))
  {
  }

  /** Six wide with a precision of three, 7 is 0007 with the zero flag. */
  lemma ZeroFlagExample()
    ensures |IntText(7, 10, 6, 3, NO_FLAGS.(zero := true))| == 4
    ensures |IntText(7, 10, 6, 3, NO_FLAGS)| == 6
  {
  }

  // ---------------------------------------------------------------- reading an integer back

  function DropFront(s: string): string {
    if s != [] && s[0] == ' ' then DropFront(s[1..]) else s
  }

  function DropBack(s: string): string {
    if s != [] && s[|s| - 1] == ' ' then DropBack(s[..|s| - 1]) else s
  }

  /** Spaces around it, a sign, and digits. */
  function Scan(s: string, base: nat): int {
    var t := DropBack(DropFront(s));
    if t != [] && t[0] == '-' then 0 - Number(t[1..], base) as int
    else if t != [] && t[0] == '+' then Number(t[1..], base)
    else Number(t, base)
  }

  lemma {:induction false} DropFrontSpaces(n: int, t: string)
    requires t == [] || t[0] != ' '
    ensures DropFront(Repeat(' ', n) + t) == t
  {
    if n > 0 {
      var s := Repeat(' ', n) + t;
      assert s[0] == ' ';
      assert s[1..] == Repeat(' ', n - 1) + t by {
        RepeatFront(' ', n);
        assert Repeat(' ', n) == [' '] + Repeat(' ', n - 1);
      }
      DropFrontSpaces(n - 1, t);
    } else {
      assert Repeat(' ', n) + t == t;
    }
  }

  lemma {:induction false} RepeatFront(c: char, n: int)
    requires 0 < n
    ensures Repeat(c, n) == [c] + Repeat(c, n - 1)
  {
  }

  lemma {:induction false} DropBackSpaces(n: int, t: string)
    requires t == [] || t[|t| - 1] != ' '
    ensures DropBack(t + Repeat(' ', n)) == t
  {
    if n > 0 {
      var s := t + Repeat(' ', n);
      assert s[|s| - 1] == ' ';
      assert s[..|s| - 1] == t + Repeat(' ', n - 1);
      DropBackSpaces(n - 1, t);
    } else {
      assert t + Repeat(' ', n) == t;
    }
  }

  /** What is written for a number reads back as the number: as the value itself, or modulo 2^32 for an
      unsigned conversion. */
  lemma IntTextParses(value: int, base: nat, min: int, max: int, flags: Flags)
    requires 2 <= base <= 16 && -WORD / 2 <= value < WORD
    requires flags.unsigned || value < WORD / 2
    ensures Scan(IntText(value, base, min, max, flags), base) == if flags.unsigned then value % WORD else value
  {
    hide Digits;
    hide Number;
    hide Repeat;
    hide Zeros;
    hide Spaces;
    hide DropFront;
    hide DropBack;
    hide Magnitude;
    hide Sign;
    var digits, sign := Digits(Magnitude(value, flags), base, flags.up), Sign(value, flags);
    var z, s := Zeros(|digits|, |sign|, min, max, flags.zero), Spaces(|digits|, |sign|, min, max, flags.zero);
    var body := Repeat('0', z) + digits;
    DigitsClean(Magnitude(value, flags), base, flags.up);
    NumberOfDigits(Magnitude(value, flags), base, flags.up);
    NumberZeros(z, digits, base);
    assert body != [] && body[0] !in {' ', '+', '-'} && body[|body| - 1] != ' ';
    StripNumber(sign, body, s, flags.minus);
    var number := sign + Repeat('0', z) + digits;
    assert number == sign + body;
    if sign == "-" || sign == "+" {
      assert (sign + body)[1..] == body;
    } else if sign == "" {
      assert sign + body == body;
    }
    NumberCase(value, flags);
  }

  lemma NumberCase(value: int, flags: Flags)
    requires -WORD / 2 <= value < WORD
    ensures Magnitude(value, flags) == if flags.unsigned then value % WORD else if value < 0 then -value else value
    ensures Sign(value, flags) == "-" <==> !flags.unsigned && value < 0
    ensures Sign(value, flags) in {"", "-", "+", " "}
  {
  }

  /** Spaces on both sides come off. */
  lemma StripSpaces(m: nat, t: string, n: nat)
    requires t != [] && t[0] != ' ' && t[|t| - 1] != ' '
    ensures DropBack(DropFront(Repeat(' ', m) + (t + Repeat(' ', n)))) == t
  {
    hide Repeat;
    DropFrontSpaces(m, t + Repeat(' ', n));
    DropBackSpaces(n, t);
  }

  lemma StripNumber(sign: string, body: string, s: nat, minus: bool)
    requires |sign| <= 1 && body != [] && body[0] != ' ' && body[|body| - 1] != ' '
    ensures DropBack(DropFront(if minus then sign + body + Repeat(' ', s) else Repeat(' ', s) + (sign + body)))
         == if sign == " " then body else sign + body
  {
    hide DropFront;
    hide DropBack;
    hide Repeat;
    OneSpace(s);
    var sp := Repeat(' ', s);
    if sign == " " {
      if minus {
        StripSpaces(1, body, s);
        Associate(" ", body, sp);
      } else {
        StripSpaces(s + 1, body, 0);
        Associate(sp, " ", body);
      }
    } else {
      var t := sign + body;
      assert t[0] == if sign == "" then body[0] else sign[0];
      if minus {
        StripSpaces(0, t, s);
        Associate("", "", t + sp);
      } else {
        StripSpaces(s, t, 0);
        Associate("", sp, t);
      }
    }
  }

  lemma Associate(a: string, b: string, c: string)
    ensures a + b + c == a + (b + c)
    ensures "" + c == c && c + "" == c
  {
  }

  lemma OneSpace(s: nat)
    ensures Repeat(' ', 0) == "" && Repeat(' ', 1) == " " && Repeat(' ', s + 1) == Repeat(' ', s) + " "
  {
  }

  // ---------------------------------------------------------------- strings

  /** What fmtstr writes: the string cut to max characters with its padding. */
  function StrText(value: string, minus: bool, min: int, max: int): string {
    var pad := Repeat(' ', min - |value|);
    var all := if minus then value + pad else pad + value;
    if max <= 0 then "" else if |all| <= max then all else all[..max]
  }
}
