/** The state machine of dopr, state by state, against the meaning of a directive. */
module FormatMachine {
  import opened FormatModel
  import opened FormatDirective

  datatype State = DEFAULT | FLAGS | MIN | DOT | MAX | MOD | CONV | DONE

  /** The order in which the states of a directive are passed without reading a character. */
  function Rank(s: State): nat {
    match s
    case FLAGS => 6
    case MIN => 5
    case DOT => 4
    case MAX => 3
    case MOD => 2
    case CONV => 1
    case DEFAULT => 0
    case DONE => 0
  }

  function WithFlag(flags: Flags, c: char): Flags {
    if c == '-' then flags.(minus := true)
    else if c == '+' then flags.(plus := true)
    else if c == ' ' then flags.(space := true)
    else if c == '#' then flags.(num := true)
    else flags.(zero := true)
  }

  function Merge(a: Flags, b: Flags): Flags {
    Flags(a.minus || b.minus, a.plus || b.plus, a.space || b.space, a.num || b.num, a.zero || b.zero, a.up, a.unsigned)
  }

  /** Digits read one by one. */
  function Extend(m: int, s: string): int
    decreases |s|
  {
    if s == [] then m else Extend(10 * m + DigitValue(s[0]), s[1..])
  }

  lemma {:induction false} ExtendLast(m: int, s: string, c: char)
    ensures Extend(m, s + [c]) == 10 * Extend(m, s) + DigitValue(c)
    decreases |s|
  {
    hide DigitValue;
    if s == [] {
      assert [] + [c] == [c];
      assert [c][1..] == [];
    } else {
      assert (s + [c])[1..] == s[1..] + [c];
      ExtendLast(10 * m + DigitValue(s[0]), s[1..], c);
    }
  }

  /** Reading digits one by one gives the number they stand for. */
  lemma {:induction false} ExtendNumber(s: string)
    ensures Extend(0, s) == Number(s, 10)
  {
    hide DigitValue;
    if s != [] {
      ExtendNumber(s[..|s| - 1]);
      ExtendLast(0, s[..|s| - 1], s[|s| - 1]);
      assert s[..|s| - 1] + [s[|s| - 1]] == s;
    }
  }

  // ---------------------------------------------------------------- the rest of a directive

  function FromFlags(f: string, p: nat, flags: Flags, args: seq<Arg>, k: nat): Directive
    requires p <= |f|
  {
    var a := FlagEnd(f, p);
    FromMin(f, a, Merge(flags, FlagsOf(f[p..a])), 0, args, k)
  }

  function FromMin(f: string, p: nat, flags: Flags, min: int, args: seq<Arg>, k: nat): Directive
    requires p <= |f|
  {
    var b := DigitEnd(f, p);
    if At(f, b) == '*' then Precision(f, b + 1, flags, IntArg(args, k), args, k + 1)
    else Precision(f, b, flags, Extend(min, f[p..b]), args, k)
  }

  function FromMax(f: string, p: nat, flags: Flags, min: int, max: int, args: seq<Arg>, k: nat): Directive
    requires p <= |f|
  {
    var e := DigitEnd(f, p);
    if At(f, e) == '*' then Modifier(f, e + 1, flags, min, IntArg(args, k), k + 1)
    else Modifier(f, e, flags, min, if e == p then max else Extend(if max < 0 then 0 else max, f[p..e]), k)
  }

  lemma ParseBegins(f: string, p: nat, args: seq<Arg>, k: nat)
    requires p <= |f|
    ensures Parse(f, p, args, k) == FromFlags(f, p, NO_FLAGS, args, k)
  {
    hide Precision;
    hide Number;
    hide Extend;
    var a := FlagEnd(f, p);
    ExtendNumber(f[a..DigitEnd(f, a)]);
  }

  lemma FlagStep(f: string, p: nat, flags: Flags, args: seq<Arg>, k: nat)
    requires p < |f|
    ensures IsFlag(f[p]) ==> FromFlags(f, p, flags, args, k) == FromFlags(f, p + 1, WithFlag(flags, f[p]), args, k)
    ensures !IsFlag(f[p]) ==> FromFlags(f, p, flags, args, k) == FromMin(f, p, flags, 0, args, k)
  {
    hide FromMin;
    var a := FlagEnd(f, p);
    if IsFlag(f[p]) {
      assert f[p..a] == [f[p]] + f[p + 1..a];
      MergeStep(flags, f[p], f[p + 1..a]);
    } else {
      assert f[p..a] == [];
    }
  }

  lemma MergeStep(flags: Flags, c: char, s: string)
    requires IsFlag(c)
    ensures Merge(flags, FlagsOf([c] + s)) == Merge(WithFlag(flags, c), FlagsOf(s))
  {
    hide FlagsOf;
    FlagsInFront(c, s);
  }

  lemma FlagsInFront(c: char, s: string)
    ensures var x, y := FlagsOf([c] + s), FlagsOf(s);
            && x.minus == (c == '-' || y.minus) && x.plus == (c == '+' || y.plus) && x.space == (c == ' ' || y.space)
            && x.num == (c == '#' || y.num) && x.zero == (c == '0' || y.zero) && !x.up && !x.unsigned
  {
  }

  lemma MinStep(f: string, p: nat, flags: Flags, min: int, args: seq<Arg>, k: nat)
    requires p < |f|
    ensures IsDigit(f[p]) ==>
              FromMin(f, p, flags, min, args, k) == FromMin(f, p + 1, flags, 10 * min + DigitValue(f[p]), args, k)
    ensures f[p] == '*' ==>
              FromMin(f, p, flags, min, args, k) == Precision(f, p + 1, flags, IntArg(args, k), args, k + 1)
    ensures !IsDigit(f[p]) && f[p] != '*' ==> FromMin(f, p, flags, min, args, k) == Precision(f, p, flags, min, args, k)
  {
    hide Precision;
    hide DigitValue;
    var b := DigitEnd(f, p);
    if IsDigit(f[p]) {
      assert f[p..b][1..] == f[p + 1..b] && f[p..b][0] == f[p];
    } else {
      assert f[p..b] == [];
    }
  }

  lemma DotStep(f: string, p: nat, flags: Flags, min: int, args: seq<Arg>, k: nat)
    requires p < |f|
    ensures f[p] == '.' ==> Precision(f, p, flags, min, args, k) == FromMax(f, p + 1, flags, min, -1, args, k)
    ensures f[p] != '.' ==> Precision(f, p, flags, min, args, k) == Modifier(f, p, flags, min, -1, k)
  {
    hide Modifier;
    hide Number;
    hide Extend;
    if f[p] == '.' {
      ExtendNumber(f[p + 1..DigitEnd(f, p + 1)]);
    }
  }

  lemma MaxStep(f: string, p: nat, flags: Flags, min: int, max: int, args: seq<Arg>, k: nat)
    requires p < |f|
    ensures var m := 10 * (if max < 0 then 0 else max) + DigitValue(f[p]);
            IsDigit(f[p]) ==> FromMax(f, p, flags, min, max, args, k) == FromMax(f, p + 1, flags, min, m, args, k)
    ensures f[p] == '*' ==>
              FromMax(f, p, flags, min, max, args, k) == Modifier(f, p + 1, flags, min, IntArg(args, k), k + 1)
    ensures !IsDigit(f[p]) && f[p] != '*' ==>
              FromMax(f, p, flags, min, max, args, k) == Modifier(f, p, flags, min, max, k)
  {
    hide Modifier;
    var e := DigitEnd(f, p);
    if IsDigit(f[p]) {
      var m := 10 * (if max < 0 then 0 else max) + DigitValue(f[p]);
      assert 0 <= m;
      assert f[p..e][1..] == f[p + 1..e] && f[p..e][0] == f[p];
      assert Extend(m, f[p + 1..e]) == Extend(if max < 0 then 0 else max, f[p..e]);
      assert DigitEnd(f, p + 1) == e;
      if e == p + 1 {
        assert f[p + 1..e] == [];
        assert Extend(m, []) == m;
      }
    }
  }

  // ---------------------------------------------------------------- the machine

  /** What the machine has before each turn of its loop: the format's meaning is what is written, and the
      meaning of the rest. */
  datatype Machine = Machine(state: State, p: nat, flags: Flags, min: int, max: int, k: nat, short: bool,
                             lengths: seq<int>)

  ghost function Goal(f: string, m: Machine, args: seq<Arg>, text: string, maxlen: int): Outcome
    requires m.p <= |f|
  {
    match m.state
    case DEFAULT => Render(f, m.p, args, m.k, text, m.lengths, maxlen)
    case FLAGS => Rest(f, FromFlags(f, m.p, m.flags, args, m.k), args, text, m.lengths, maxlen)
    case MIN => Rest(f, FromMin(f, m.p, m.flags, m.min, args, m.k), args, text, m.lengths, maxlen)
    case DOT => Rest(f, Precision(f, m.p, m.flags, m.min, args, m.k), args, text, m.lengths, maxlen)
    case MAX => Rest(f, FromMax(f, m.p, m.flags, m.min, m.max, args, m.k), args, text, m.lengths, maxlen)
    case MOD => Rest(f, Modifier(f, m.p, m.flags, m.min, m.max, m.k), args, text, m.lengths, maxlen)
    case CONV => Rest(f, Directive(m.flags, m.min, m.max, m.p, m.k, m.short), args, text, m.lengths, maxlen)
    case DONE => Outcome(text, m.lengths, false)
  }

  /** The meaning of the rest of a format from a directive on. */
  function Rest(f: string, d: Directive, args: seq<Arg>, text: string, lengths: seq<int>, maxlen: int): Outcome {
    if d.at >= |f| then Outcome(text, lengths, false)
    else if f[d.at] == 'w' then
      if d.at + 1 >= |f| then Outcome(text, lengths, true)
      else Render(f, d.at + 2, args, d.k, text, lengths, maxlen)
    else
      Render(f, d.at + 1, args, if Takes(f[d.at]) then d.k + 1 else d.k, text + Field(f[d.at], d, args, maxlen),
             if f[d.at] == 'n' then lengths + [Stored(|text|, d.short)] else lengths, maxlen)
  }

  ghost predicate Sane(f: string, m: Machine, text: string, maxlen: int) {
    && m.p <= |f|
    && (m.state == DEFAULT || m.state == FLAGS ==> m.min == 0 && m.max == -1)
    && (m.state == DEFAULT ==> m.flags == NO_FLAGS)
    && (m.state == MIN || m.state == DOT ==> m.max == -1)
    && (m.short ==> m.state == CONV || m.state == DONE)
    && (m.state == DEFAULT || m.state == DONE || |text| < maxlen)
  }

  /** A directive that the format ends in, and a limit that is reached, end the machine. */
  lemma GoalEnds(f: string, m: Machine, args: seq<Arg>, text: string, maxlen: int)
    requires Sane(f, m, text, maxlen) && (m.p == |f| || |text| >= maxlen)
    ensures Goal(f, m, args, text, maxlen) == Outcome(text, m.lengths, false)
  {
    hide Field;
    hide Extend;
    hide Number;
  }

  lemma FinishIsRest(f: string, d: Directive, i: nat, args: seq<Arg>, text: string, lengths: seq<int>, maxlen: int)
    requires i < |f| && i < d.at
    ensures Finish(f, d, i, args, text, lengths, maxlen) == Rest(f, d, args, text, lengths, maxlen)
  {
    hide Field;
  }

  lemma RenderPercent(f: string, i: nat, args: seq<Arg>, k: nat, text: string, lengths: seq<int>, maxlen: int)
    requires i < |f| && |text| < maxlen && f[i] == '%'
    ensures Render(f, i, args, k, text, lengths, maxlen)
            == Finish(f, Parse(f, i + 1, args, k), i, args, text, lengths, maxlen)
  {
    hide Field;
    hide Parse;
  }

  /** A percent sign begins a directive. */
  lemma GoalPercent(f: string, m: Machine, args: seq<Arg>, text: string, maxlen: int)
    requires Sane(f, m, text, maxlen) && m.state == DEFAULT && m.p < |f| && |text| < maxlen && f[m.p] == '%'
    ensures Goal(f, m, args, text, maxlen) == Goal(f, m.(state := FLAGS, p := m.p + 1), args, text, maxlen)
  {
    hide FromFlags;
    hide Parse;
    hide Finish;
    hide Rest;
    hide Render;
    ParseBegins(f, m.p + 1, args, m.k);
    ParseAdvances(f, m.p + 1, args, m.k);
    RenderPercent(f, m.p, args, m.k, text, m.lengths, maxlen);
    FinishIsRest(f, Parse(f, m.p + 1, args, m.k), m.p, args, text, m.lengths, maxlen);
  }

  /** Characters left, and then the rank of the state. */
  ghost predicate Nearer(f: string, m: Machine, m': Machine) {
    m'.p <= |f| && (m.p < m'.p || (m.p == m'.p && Rank(m'.state) < Rank(m.state)))
  }

  /** One turn in a state that writes nothing. */
  function Turn(f: string, m: Machine, args: seq<Arg>): Machine
    requires m.p < |f|
  {
    var ch := f[m.p];
    match m.state
    case FLAGS =>
      if IsFlag(ch) then m.(flags := WithFlag(m.flags, ch), p := m.p + 1) else m.(state := MIN)
    case MIN =>
      if IsDigit(ch) then m.(min := 10 * m.min + DigitValue(ch), p := m.p + 1)
      else if ch == '*' then m.(min := IntArg(args, m.k), k := m.k + 1, p := m.p + 1, state := DOT)
      else m.(state := DOT)
    case DOT =>
      if ch == '.' then m.(state := MAX, p := m.p + 1) else m.(state := MOD)
    case MAX =>
      if IsDigit(ch) then m.(max := 10 * (if m.max < 0 then 0 else m.max) + DigitValue(ch), p := m.p + 1)
      else if ch == '*' then m.(max := IntArg(args, m.k), k := m.k + 1, p := m.p + 1, state := MOD)
      else m.(state := MOD)
    case MOD =>
      m.(p := if IsModifier(ch) then m.p + 1 else m.p, short := ch == 'h', state := CONV)
    case _ => m
  }

  /** Such a turn does not change what the format means, and comes nearer to its end. */
  lemma TurnKeeps(f: string, m: Machine, args: seq<Arg>, text: string, maxlen: int)
    requires Sane(f, m, text, maxlen) && m.p < |f| && m.state !in {DEFAULT, CONV, DONE}
    ensures var m' := Turn(f, m, args);
            && Sane(f, m', text, maxlen) && Nearer(f, m, m')
            && Goal(f, m', args, text, maxlen) == Goal(f, m, args, text, maxlen)
  {
    hide Rest;
    hide FromFlags;
    hide FromMin;
    hide FromMax;
    hide Precision;
    match m.state
    case FLAGS => FlagStep(f, m.p, m.flags, args, m.k);
    case MIN => MinStep(f, m.p, m.flags, m.min, args, m.k);
    case DOT => DotStep(f, m.p, m.flags, m.min, args, m.k);
    case MAX => MaxStep(f, m.p, m.flags, m.min, m.max, args, m.k);
    case MOD =>
  }
}
