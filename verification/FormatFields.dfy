/** What the parts of a directive mean: the text that asks for it, and the text that it becomes. */
module FormatFields {
  import opened Collections
  import opened FormatModel
  import opened FormatDirective

  // ---------------------------------------------------------------- reading a directive

  /** A number, or a star that takes it from the arguments. */
  datatype Amount = Written(digits: string) | Star

  /** A directive as it is written: flags, a width, a precision, a modifier, a conversion. */
  datatype Spec = Spec(flags: string, width: Amount, prec: Option<Amount>, mod: string, conv: char)

  predicate AllDigits(s: string) {
    forall i :: 0 <= i < |s| ==> IsDigit(s[i])
  }

  predicate AmountWell(a: Amount) {
    a.Written? ==> AllDigits(a.digits)
  }

  /** A width does not begin like a flag, and the conversion is none of the characters before it. */
  predicate Well(x: Spec) {
    && (forall i :: 0 <= i < |x.flags| ==> IsFlag(x.flags[i]))
    && AmountWell(x.width) && (x.width.Written? && x.width.digits != [] ==> x.width.digits[0] != '0')
    && (x.prec.Some? ==> AmountWell(x.prec.value))
    && (x.mod == [] || x.mod == ['h'] || x.mod == ['l'] || x.mod == ['L'])
    && !IsFlag(x.conv) && !IsDigit(x.conv) && !IsModifier(x.conv) && x.conv != '.' && x.conv != '*'
  }

  function ShowAmount(a: Amount): string {
    match a
    case Written(digits) => digits
    case Star => "*"
  }

  function ShowPrec(p: Option<Amount>): string {
    if p.None? then "" else "." + ShowAmount(p.value)
  }

  /** The text of a directive, behind its percent sign. */
  function Show(x: Spec): string {
    x.flags + ShowAmount(x.width) + ShowPrec(x.prec) + x.mod + [x.conv]
  }

  /** The number meant, none for a precision without digits. */
  function AmountOf(a: Amount, args: seq<Arg>, k: nat, none: int): int {
    match a
    case Star => IntArg(args, k)
    case Written(digits) => if digits == [] then none else Number(digits, 10)
  }

  function TakenBy(a: Amount): nat {
    if a.Star? then 1 else 0
  }

  /** The directive that is meant. */
  function Meant(x: Spec, from: nat, args: seq<Arg>, k: nat): Directive {
    var k1 := k + TakenBy(x.width);
    var k2 := if x.prec.Some? then k1 + TakenBy(x.prec.value) else k1;
    var flags := Flags('-' in x.flags, '+' in x.flags, ' ' in x.flags, '#' in x.flags, '0' in x.flags, false, false);
    Directive(flags, AmountOf(x.width, args, k, 0), if x.prec.Some? then AmountOf(x.prec.value, args, k1, -1) else -1,
              from + |Show(x)| - 1, k2, x.mod == ['h'])
  }

  /** A directive that is written down is read back as what it means, whatever stands around it. */
  lemma SpecParses(pre: string, x: Spec, post: string, args: seq<Arg>, k: nat)
    requires Well(x)
    ensures Parse(pre + Show(x) + post, |pre|, args, k) == Meant(x, |pre|, args, k)
    ensures (pre + Show(x) + post)[Meant(x, |pre|, args, k).at] == x.conv
  {
    hide Parse;
    hide Well;
    hide Show;
    hide Slices;
    hide Ends;
    hide Meant;
    var f := pre + Show(x) + post;
    ShowSlices(pre, x, post);
    Layout(f, |pre|, x);
    ParsesAt(f, |pre|, x, args, k);
  }

  lemma ShowSlices(pre: string, x: Spec, post: string)
    ensures Slices(pre + Show(x) + post, |pre|, x)
  {
    hide Show;
    hide ShowAmount;
    hide ShowPrec;
    ShowParts(pre, x, post);
    Parts(pre, x.flags, ShowAmount(x.width), ShowPrec(x.prec), x.mod, [x.conv], post);
  }

  lemma ShowLength(x: Spec)
    ensures |Show(x)| == |x.flags| + |ShowAmount(x.width)| + |ShowPrec(x.prec)| + |x.mod| + 1
  {
  }

  /** The parts of a directive are there, one behind the other. */
  predicate Slices(f: string, p: nat, x: Spec) {
    var a := p + |x.flags|;
    var c := a + |ShowAmount(x.width)|;
    var d := c + |ShowPrec(x.prec)|;
    && d + |x.mod| < |f| && f[p..a] == x.flags && f[a..c] == ShowAmount(x.width) && f[c..d] == ShowPrec(x.prec)
    && f[d..d + |x.mod|] == x.mod && f[d + |x.mod|..d + |x.mod| + 1] == [x.conv]
  }

  /** And each one ends where the next begins. */
  predicate Ends(f: string, p: nat, x: Spec)
    requires Slices(f, p, x)
  {
    var a := p + |x.flags|;
    var c := a + |ShowAmount(x.width)|;
    var d := c + |ShowPrec(x.prec)|;
    && (forall i :: p <= i < a ==> IsFlag(f[i])) && !IsFlag(f[a])
    && (x.width.Written? ==> !IsDigit(f[c]) && f[c] != '*')
    && (x.prec.None? <==> f[c] != '.') && |x.mod| <= 1 && f[d + |x.mod|] == x.conv
    && f[d] == (if x.mod == [] then x.conv else x.mod[0])
  }

  lemma Layout(f: string, p: nat, x: Spec)
    requires Well(x) && Slices(f, p, x)
    ensures Ends(f, p, x)
  {
    hide Well;
    hide ShowAmount;
    hide ShowPrec;
    var w, r := ShowAmount(x.width), ShowPrec(x.prec);
    var a := p + |x.flags|;
    var c := a + |w|;
    var d := c + |r|;
    PartAt(f, p, x.flags);
    PartAt(f, a, w);
    PartAt(f, c, r);
    PartAt(f, d, x.mod);
    PartAt(f, d + |x.mod|, [x.conv]);
    Apart(x);
  }

  lemma NumberNone()
    ensures Number("", 10) == 0
  {
  }

  lemma ParsesAt(f: string, p: nat, x: Spec, args: seq<Arg>, k: nat)
    requires Well(x) && Slices(f, p, x) && Ends(f, p, x) && p <= |f|
    ensures Parse(f, p, args, k) == Meant(x, p, args, k)
    ensures Meant(x, p, args, k).at < |f| && f[Meant(x, p, args, k).at] == x.conv
  {
    hide Number;
    hide IntArg;
    hide Precision;
    hide Show;
    hide ShowAmount;
    hide ShowPrec;
    hide Well;
    hide AmountOf;
    hide FlagsOf;
    hide FlagEnd;
    hide DigitEnd;
    hide IsFlag;
    var a := p + |x.flags|;
    var c := a + |ShowAmount(x.width)|;
    ShowLength(x);
    FlagsEnd(f, p, x);
    WidthParses(f, p, x, args, k);
    FlagsMeant(x);
    PrecisionParses(f, c, x, FlagsOf(x.flags), AmountOf(x.width, args, k, 0), args, k + TakenBy(x.width));
  }

  lemma FlagsEnd(f: string, p: nat, x: Spec)
    requires Slices(f, p, x) && Ends(f, p, x)
    ensures FlagEnd(f, p) == p + |x.flags| && f[p..p + |x.flags|] == x.flags
  {
    FlagEndIs(f, p, p + |x.flags|);
  }

  lemma FlagsMeant(x: Spec)
    ensures FlagsOf(x.flags)
         == Flags('-' in x.flags, '+' in x.flags, ' ' in x.flags, '#' in x.flags, '0' in x.flags, false, false)
  {
  }

  lemma WidthParses(f: string, p: nat, x: Spec, args: seq<Arg>, k: nat)
    requires Well(x) && Slices(f, p, x) && Ends(f, p, x)
    ensures var a := p + |x.flags|;
            var c := a + |ShowAmount(x.width)|;
            var b := DigitEnd(f, a);
            && (At(f, b) == '*' <==> x.width.Star?) && b == (if x.width.Star? then a else c)
            && (x.width.Star? ==> c == b + 1)
            && AmountOf(x.width, args, k, 0) == if x.width.Star? then IntArg(args, k) else Number(f[a..b], 10)
  {
    hide Number;
    hide IntArg;
    var a := p + |x.flags|;
    var c := a + |ShowAmount(x.width)|;
    if x.width.Star? {
      PartAt(f, a, "*");
      DigitEndIs(f, a, a);
    } else {
      DigitsAt(f, a, x.width.digits);
      DigitEndIs(f, a, c);
      NumberNone();
    }
  }

  lemma ShowParts(pre: string, x: Spec, post: string)
    ensures pre + Show(x) + post
         == pre + x.flags + ShowAmount(x.width) + ShowPrec(x.prec) + x.mod + [x.conv] + post
  {
    var w, r := ShowAmount(x.width), ShowPrec(x.prec);
    assert pre + (x.flags + w + r + x.mod + [x.conv]) == pre + x.flags + w + r + x.mod + [x.conv];
  }

  lemma PartAt(f: string, p: nat, s: string)
    requires p + |s| <= |f| && f[p..p + |s|] == s
    ensures forall i :: p <= i < p + |s| ==> f[i] == s[i - p]
  {
  }

  /** No part of a directive begins like the one before it goes on. */
  lemma Apart(x: Spec)
    requires Well(x)
    ensures (forall i :: 0 <= i < |x.flags| ==> IsFlag(x.flags[i])) && |x.mod| <= 1
    ensures var w, r := ShowAmount(x.width), ShowPrec(x.prec);
            var tail := if x.mod != [] then x.mod[0] else x.conv;
            var behind := if r != [] then r[0] else tail;
            && (if w != [] then !IsFlag(w[0]) else !IsFlag(behind))
            && (x.width.Written? ==> !IsDigit(behind) && behind != '*')
            && (x.prec.None? ==> r == [] && behind != '.') && (x.prec.Some? ==> r != [] && r[0] == '.')
  {
  }

  lemma Parts(pre: string, s0: string, s1: string, s2: string, s3: string, s4: string, post: string)
    ensures var f := pre + s0 + s1 + s2 + s3 + s4 + post;
            var p0 := |pre|;
            var p1 := p0 + |s0|;
            var p2 := p1 + |s1|;
            var p3 := p2 + |s2|;
            var p4 := p3 + |s3|;
            && p4 + |s4| <= |f|
            && f[p0..p1] == s0 && f[p1..p2] == s1 && f[p2..p3] == s2 && f[p3..p4] == s3 && f[p4..p4 + |s4|] == s4
  {
  }

  lemma {:induction false} FlagEndIs(f: string, p: nat, e: nat)
    requires p <= e < |f| && (forall i :: p <= i < e ==> IsFlag(f[i])) && !IsFlag(f[e])
    ensures FlagEnd(f, p) == e
    decreases e - p
  {
    if p < e {
      FlagEndIs(f, p + 1, e);
    }
  }

  lemma {:induction false} DigitEndIs(f: string, p: nat, e: nat)
    requires p <= e < |f| && (forall i :: p <= i < e ==> IsDigit(f[i])) && !IsDigit(f[e])
    ensures DigitEnd(f, p) == e
    decreases e - p
  {
    if p < e {
      DigitEndIs(f, p + 1, e);
    }
  }

  lemma DigitsAt(f: string, a: nat, s: string)
    requires a + |s| <= |f| && f[a..a + |s|] == s && AllDigits(s)
    ensures forall i :: a <= i < a + |s| ==> IsDigit(f[i])
  {
    assert forall i :: a <= i < a + |s| ==> f[i] == s[i - a];
  }

  lemma PrecisionParses(f: string, c: nat, x: Spec, flags: Flags, min: int, args: seq<Arg>, k: nat)
    requires Well(x) && var d := c + |ShowPrec(x.prec)|;
             && d + |x.mod| < |f| && f[c..d] == ShowPrec(x.prec) && f[d + |x.mod|] == x.conv && |x.mod| <= 1
             && (x.mod == [] ==> f[d] == x.conv) && (x.mod != [] ==> f[d] == x.mod[0])
             && (x.prec.None? <==> f[c] != '.')
    ensures var d := c + |ShowPrec(x.prec)|;
            Precision(f, c, flags, min, args, k)
            == Directive(flags, min, if x.prec.Some? then AmountOf(x.prec.value, args, k, -1) else -1, d + |x.mod|,
                         if x.prec.Some? then k + TakenBy(x.prec.value) else k, x.mod == ['h'])
  {
    hide Number;
    hide IntArg;
    var d := c + |ShowPrec(x.prec)|;
    if x.prec.Some? {
      assert f[c + 1..d] == f[c..d][1..] == ShowAmount(x.prec.value);
      if x.prec.value.Star? {
        assert f[c + 1] == f[c + 1..d][0] == '*';
        DigitEndIs(f, c + 1, c + 1);
      } else {
        DigitsAt(f, c + 1, x.prec.value.digits);
        DigitEndIs(f, c + 1, d);
      }
    }
  }

  // ---------------------------------------------------------------- what a conversion writes

  /** The base in which a conversion writes, and whether the number is one without a sign. */
  function BaseOf(conv: char): nat {
    if conv == 'o' then 8 else if conv == 'x' || conv == 'X' || conv == 'p' then 16 else 10
  }

  predicate Lower(s: string) {
    forall i :: 0 <= i < |s| ==> !('A' <= s[i] <= 'Z')
  }

  predicate Upper(s: string) {
    forall i :: 0 <= i < |s| ==> !('a' <= s[i] <= 'z')
  }

  /** The text of d, i and p reads back as the number, that of o, u, x and X as its 32-bit word: o in base 8,
      d, i and u in base 10, x, X and p in base 16, with small letters but for X. */
  lemma FieldReads(conv: char, d: Directive, args: seq<Arg>, maxlen: int)
    requires conv in "diouxXp" && !d.flags.unsigned && !d.flags.up
    ensures var s, v := Field(conv, d, args, maxlen), IntArg(args, d.k);
            && Scan(s, BaseOf(conv)) == (if conv in "dip" then v else v % 0x1_0000_0000)
            && (if conv == 'X' then Upper(s) else Lower(s))
  {
    hide IntText;
    hide Scan;
    hide IntArg;
    var v := IntArg(args, d.k);
    var flags := if conv in "dip" then d.flags else d.flags.(unsigned := true, up := conv == 'X');
    IntTextParses(v, BaseOf(conv), d.min, d.max, flags);
    IntTextLooks(v, BaseOf(conv), d.min, d.max, flags);
  }

  /** How a number stands in its field. The sign: a minus for a negative number, else a plus or a space if that
      is asked for. With the flag minus the spaces are behind it, else they are before it; the zero flag leaves
      none. */
  lemma IntTextLooks(value: int, base: nat, min: int, max: int, flags: Flags)
    requires 2 <= base <= 16
    ensures var s := IntText(value, base, min, max, flags);
            && s != [] && (if flags.up then Upper(s) else Lower(s))
            && ('-' in s <==> !flags.unsigned && value < 0)
            && ('+' in s <==> !flags.unsigned && 0 <= value && flags.plus)
            && (!flags.minus || flags.zero ==> DigitValue(s[|s| - 1]) < base)
            && (flags.minus && (flags.unsigned || value < 0 || flags.plus || !flags.space) ==> s[0] != ' ')
            && (!flags.unsigned && 0 <= value && !flags.plus && flags.space ==> ' ' in s)
            && (flags.zero && (flags.unsigned || value < 0 || flags.plus || !flags.space) ==> ' ' !in s)
  {
    hide Digits;
    hide Zeros;
    hide Spaces;
    hide Repeat;
    var digits, sign := Digits(Magnitude(value, flags), base, flags.up), Sign(value, flags);
    var z, n := Zeros(|digits|, |sign|, min, max, flags.zero), Spaces(|digits|, |sign|, min, max, flags.zero);
    DigitsLook(Magnitude(value, flags), base, flags.up);
    RepeatOnly('0', z);
    RepeatOnly(' ', n);
    NoSpaces(|digits|, |sign|, min, max, flags.zero);
    assert digits != [];
    NumberLooks(sign, z, digits, n, base, flags.up, flags.minus);
  }

  /** Without the zero flag it is spaces that make a number longer than it is with no width. */
  lemma IntTextPads(value: int, base: nat, min: int, max: int, flags: Flags)
    requires 2 <= base <= 16 && !flags.zero
    requires |IntText(value, base, 0, max, flags)| < |IntText(value, base, min, max, flags)|
    ensures var s := IntText(value, base, min, max, flags); (if flags.minus then s[|s| - 1] else s[0]) == ' '
  {
    hide Digits;
    hide Spaces;
    hide Repeat;
    var digits, sign := Digits(Magnitude(value, flags), base, flags.up), Sign(value, flags);
    var z, n := Zeros(|digits|, |sign|, min, max, false), Spaces(|digits|, |sign|, min, max, false);
    NoSpaces(|digits|, |sign|, min, max, false);
    RepeatOnly(' ', n);
    RepeatOnly(' ', Spaces(|digits|, |sign|, 0, max, false));
  }

  /** A sign, zeros and digits, with spaces on one side. */
  lemma NumberLooks(sign: string, z: nat, digits: string, n: nat, base: nat, caps: bool, minus: bool)
    requires |sign| <= 1 && sign in {"", "-", "+", " "} && digits != [] && 2 <= base <= 16
    requires forall i :: 0 <= i < |digits| ==> Looks(digits[i], base, caps)
    ensures var number := sign + Repeat('0', z) + digits;
            var s := if minus then number + Repeat(' ', n) else Repeat(' ', n) + number;
            && s != [] && (if caps then Upper(s) else Lower(s))
            && ('-' in s <==> sign == "-") && ('+' in s <==> sign == "+") && (sign == " " ==> ' ' in s)
            && (!minus || n == 0 ==> DigitValue(s[|s| - 1]) < base)
            && (minus && sign != " " ==> s[0] != ' ')
            && (0 < n ==> (if minus then s[|s| - 1] else s[0]) == ' ')
            && (n == 0 && sign != " " ==> ' ' !in s)
  {
    hide Repeat;
    RepeatOnly('0', z);
    RepeatOnly(' ', n);
    var number := sign + Repeat('0', z) + digits;
    assert number[|number| - 1] == digits[|digits| - 1];
    assert number[0] == if sign != "" then sign[0] else if z > 0 then '0' else digits[0];
    assert sign != "" ==> sign[0] in number;
    forall i | 0 <= i < |number|
      ensures number[i] == '0' || number[i] in sign || number[i] in digits
    {
    }
  }

  lemma NoSpaces(place: nat, sign: nat, min: int, max: int, zero: bool)
    ensures zero ==> Spaces(place, sign, min, max, zero) == 0
  {
  }

  lemma RepeatOnly(c: char, n: nat)
    ensures |Repeat(c, n)| == n && forall i :: 0 <= i < n ==> Repeat(c, n)[i] == c
  {
  }

  predicate Looks(c: char, base: nat, caps: bool) {
    DigitValue(c) < base && c !in {' ', '+', '-'} && (if caps then !('a' <= c <= 'z') else !('A' <= c <= 'Z'))
  }

  lemma {:induction false} DigitsLook(u: nat, base: nat, caps: bool)
    requires 2 <= base <= 16
    ensures forall i :: 0 <= i < |Digits(u, base, caps)| ==> Looks(Digits(u, base, caps)[i], base, caps)
  {
    hide Digits;
    hide DigitChar;
    hide Looks;
    DigitLooks(u % base, base, caps);
    DigitsStep(u, base, caps);
    if u >= base {
      DigitsLook(u / base, base, caps);
    }
  }

  lemma DigitsStep(u: nat, base: nat, caps: bool)
    requires 2 <= base <= 16
    ensures u / base < u || u < base
    ensures Digits(u, base, caps)
         == (if u < base then "" else Digits(u / base, base, caps)) + [DigitChar(u % base, caps)]
  {
    hide DigitChar;
    if u < base {
      assert u % base == u;
    }
  }

  lemma DigitLooks(d: nat, base: nat, caps: bool)
    requires d < base <= 16
    ensures Looks(DigitChar(d, caps), base, caps)
  {
  }

  /** A string in its field: on the left with the flag minus, else on the right, and cut at max. */
  lemma StrTextLooks(value: string, minus: bool, min: int, max: int)
    ensures var s, n := StrText(value, minus, min, max), |value|;
            var m := if min <= n then n else min;
            && |s| == (if max <= 0 then 0 else if max <= m then max else m)
            && forall i :: 0 <= i < |s| ==>
                 s[i] == if minus then (if i < n then value[i] else ' ')
                         else (if i < m - n then ' ' else value[i - (m - n)])
  {
    if min > |value| {
      RepeatOnly(' ', min - |value|);
    }
  }

  /** The conversions that write no number. */
  lemma OtherFields(conv: char, d: Directive, args: seq<Arg>, maxlen: int)
    ensures conv == 'c' ==> |Field(conv, d, args, maxlen)| == 1
                            && Field(conv, d, args, maxlen)[0] as int == IntArg(args, d.k) % 256
    ensures conv == '%' ==> Field(conv, d, args, maxlen) == "%"
    ensures conv !in "diouxXpfcs%" ==> Field(conv, d, args, maxlen) == ""
    ensures Takes(conv) <==> conv in {'d', 'i', 'o', 'u', 'x', 'X', 'p', 'f', 'e', 'E', 'g', 'G', 'c', 's', 'n'}
  {
  }

  /** What a conversion n stores: the length, or its low 16 bits as a signed number. */
  lemma StoredExact(n: nat)
    ensures Stored(n, false) == n
    ensures -0x8000 <= Stored(n, true) < 0x8000 && (n - Stored(n, true)) % 0x1_0000 == 0
  {
  }

  /** A conversion n writes nothing, takes an argument and stores how much has been written before it. */
  lemma NStores(f: string, i: nat, args: seq<Arg>, k: nat, text: string, lengths: seq<int>, maxlen: int)
    requires i < |f| && f[i] == '%' && |text| < maxlen
    requires var d := Parse(f, i + 1, args, k); i < d.at < |f| && f[d.at] == 'n'
    ensures var d := Parse(f, i + 1, args, k);
            Render(f, i, args, k, text, lengths, maxlen)
            == Render(f, d.at + 1, args, d.k + 1, text, lengths + [Stored(|text|, d.short)], maxlen)
  {
    hide Parse;
    assert text + "" == text;
  }
}
