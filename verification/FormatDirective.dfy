/** What a format means: text, and directives of flags, a width, a precision, a modifier and a
    conversion. */
module FormatDirective {
  import opened Collections
  import opened FormatModel

  /** An argument: an integer, a string or the null pointer, or a real number as the field that is written
      for it. */
  datatype Arg = Int(v: int) | Str(s: Option<string>) | Real(field: string)

  /** A word as a signed number. */
  function Signed(v: int): (r: int)
    ensures -WORD / 2 <= r < WORD / 2
  {
    (v + WORD / 2) % WORD - WORD / 2
  }

  /** What C leaves undefined, an argument that is missing or of another kind, is read as 0, as the null
      pointer, or as no field. */
  function IntArg(args: seq<Arg>, k: nat): (r: int)
    ensures -WORD / 2 <= r < WORD / 2
  {
    if k < |args| && args[k].Int? then Signed(args[k].v) else 0
  }

  function StrArg(args: seq<Arg>, k: nat): string {
    if k < |args| && args[k].Str? && args[k].s.Some? then args[k].s.value else "<NULL>"
  }

  function RealArg(args: seq<Arg>, k: nat): string {
    if k < |args| && args[k].Real? then args[k].field else ""
  }

  // ---------------------------------------------------------------- one directive

  predicate IsFlag(c: char) {
    c == '-' || c == '+' || c == ' ' || c == '#' || c == '0'
  }

  predicate IsDigit(c: char) {
    '0' <= c <= '9'
  }

  predicate IsModifier(c: char) {
    c == 'h' || c == 'l' || c == 'L'
  }

  /** The character at an index; past the end, the terminator. */
  function At(f: string, p: nat): char {
    if p < |f| then f[p] else 0 as char
  }

  /** The end of the flags that begin at p. */
  function FlagEnd(f: string, p: nat): (e: nat)
    requires p <= |f|
    ensures p <= e <= |f|
    ensures forall i :: p <= i < e ==> IsFlag(f[i])
    ensures e < |f| ==> !IsFlag(f[e])
    decreases |f| - p
  {
    if p < |f| && IsFlag(f[p]) then FlagEnd(f, p + 1) else p
  }

  function DigitEnd(f: string, p: nat): (e: nat)
    requires p <= |f|
    ensures p <= e <= |f|
    ensures forall i :: p <= i < e ==> IsDigit(f[i])
    ensures e < |f| ==> !IsDigit(f[e])
    decreases |f| - p
  {
    if p < |f| && IsDigit(f[p]) then DigitEnd(f, p + 1) else p
  }

  function FlagsOf(s: string): Flags {
    Flags('-' in s, '+' in s, ' ' in s, '#' in s, '0' in s, false, false)
  }

  /** A directive: what it asks for, the index of its conversion, the first argument left for it, and
      whether the modifier h is there. */
  datatype Directive = Directive(flags: Flags, min: int, max: int, at: nat, k: nat, short: bool)

  /** The directive that begins at i, after its percent sign. A star takes an argument, also after
      digits; a point without digits sets no precision. */
  function Parse(f: string, i: nat, args: seq<Arg>, k: nat): Directive
    requires i <= |f|
  {
    var a := FlagEnd(f, i);
    var b := DigitEnd(f, a);
    var wide := At(f, b) == '*';
    var min := if wide then IntArg(args, k) else Number(f[a..b], 10);
    var c := if wide then b + 1 else b;
    var k1 := if wide then k + 1 else k;
    Precision(f, c, FlagsOf(f[i..a]), min, args, k1)
  }

  function Precision(f: string, c: nat, flags: Flags, min: int, args: seq<Arg>, k: nat): Directive {
    if At(f, c) != '.' || c >= |f| then Modifier(f, c, flags, min, -1, k)
    else
      var e := DigitEnd(f, c + 1);
      if At(f, e) == '*' then Modifier(f, e + 1, flags, min, IntArg(args, k), k + 1)
      else Modifier(f, e, flags, min, if e == c + 1 then -1 else Number(f[c + 1..e], 10), k)
  }

  function Modifier(f: string, d: nat, flags: Flags, min: int, max: int, k: nat): Directive {
    Directive(flags, min, max, if IsModifier(At(f, d)) then d + 1 else d, k, At(f, d) == 'h')
  }

  /** The length that a conversion n stores, in 16 bits after an h. */
  function Stored(n: nat, short: bool): int {
    if short then (n + 0x8000) % 0x1_0000 - 0x8000 else n
  }

  /** Whether a conversion takes an argument. */
  predicate Takes(conv: char) {
    conv in "diouxXfEeGgcspn"
  }

  /** What a conversion writes. */
  function Field(conv: char, d: Directive, args: seq<Arg>, maxlen: int): string {
    match conv
    case 'd' => IntText(IntArg(args, d.k), 10, d.min, d.max, d.flags)
    case 'i' => IntText(IntArg(args, d.k), 10, d.min, d.max, d.flags)
    case 'o' => IntText(IntArg(args, d.k), 8, d.min, d.max, d.flags.(unsigned := true))
    case 'u' => IntText(IntArg(args, d.k), 10, d.min, d.max, d.flags.(unsigned := true))
    case 'x' => IntText(IntArg(args, d.k), 16, d.min, d.max, d.flags.(unsigned := true))
    case 'X' => IntText(IntArg(args, d.k), 16, d.min, d.max, d.flags.(unsigned := true, up := true))
    case 'p' => IntText(IntArg(args, d.k), 16, d.min, d.max, d.flags)
    case 'f' => RealArg(args, d.k)
    case 'c' => [(IntArg(args, d.k) % 256) as char]
    case 's' => StrText(StrArg(args, d.k), d.flags.minus, d.min, if d.max < 0 then maxlen else d.max)
    case '%' => "%"
    case _ => ""
  }

  // ---------------------------------------------------------------- a whole format

  /** The text written and the lengths stored by the conversions n; overrun if the terminator of the
      format is passed. */
  datatype Outcome = Outcome(text: string, lengths: seq<int>, overrun: bool)

  /** The meaning of a format from index i on. The limit is looked at between pieces only. */
  function Render(f: string, i: nat, args: seq<Arg>, k: nat, text: string, lengths: seq<int>, maxlen: int): Outcome
    decreases |f| - i
  {
    if i >= |f| || |text| >= maxlen then Outcome(text, lengths, false)
    else if f[i] != '%' then Render(f, i + 1, args, k, text + [f[i]], lengths, maxlen)
    else Finish(f, Parse(f, i + 1, args, k), i, args, text, lengths, maxlen)
  }

  function Finish(f: string, d: Directive, i: nat, args: seq<Arg>, text: string, lengths: seq<int>,
                  maxlen: int): Outcome
    requires i < |f|
    decreases |f| - i, 0
  {
    if d.at >= |f| || d.at <= i then Outcome(text, lengths, false)
    else if f[d.at] == 'w' then
      if d.at + 1 >= |f| then Outcome(text, lengths, true)
      else Render(f, d.at + 2, args, d.k, text, lengths, maxlen)
    else
      Render(f, d.at + 1, args, if Takes(f[d.at]) then d.k + 1 else d.k, text + Field(f[d.at], d, args, maxlen),
             if f[d.at] == 'n' then lengths + [Stored(|text|, d.short)] else lengths, maxlen)
  }

  lemma ParseAdvances(f: string, i: nat, args: seq<Arg>, k: nat)
    requires i <= |f|
    ensures i <= Parse(f, i, args, k).at
  {
  }
}
