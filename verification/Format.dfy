/** The formatter with its output and its counters changed in place, as in kernel/snprintf.cc. */
module Formatter {
  import opened FormatModel
  import opened FormatDirective
  import opened FormatMachine

  /** The output stream and the length written so far. */
  class Output {
    var text: string
    var currlen: int

    ghost predicate Valid()
      reads this
    {
      currlen == |text|
    }

    constructor ()
      ensures Valid() && text == ""
    {
      text, currlen := "", 0;
    }

    /** No limit is checked here. */
    method Outch(c: char)
      requires Valid()
      modifies this
      ensures Valid() && text == old(text) + [c]
    {
      currlen := currlen + 1;
      text := text + [c];
    }

    method OutMany(c: char, n: int)
      requires Valid()
      modifies this
      ensures Valid() && text == old(text) + Repeat(c, n)
    {
      var k := n;
      while k > 0
        invariant k <= n && (0 <= k || k == n)
        invariant Valid() && text == old(text) + Repeat(c, n - k)
      {
        Outch(c);
        k := k - 1;
      }
    }

    /** The digits of a word, the least significant first, in a buffer of 20. */
    method Convert(u: nat, base: nat, caps: bool, convert: array<char>) returns (place: int)
      requires 8 <= base <= 16 && u < WORD && convert.Length == 20
      modifies convert
      ensures 1 <= place <= 11
      ensures place == |Digits(u, base, caps)|
      ensures forall i :: 0 <= i < place ==> convert[i] == Digits(u, base, caps)[place - 1 - i]
    {
      hide DigitChar;
      WordFits(u, base, caps);
      var uvalue := u;
      place := 0;
      ghost var done := "";
      while true
        invariant 0 <= uvalue < WORD && 0 <= place < 11 && |done| == place
        invariant Digits(u, base, caps) == Digits(uvalue, base, caps) + done
        invariant forall i :: 0 <= i < place ==> convert[i] == done[place - 1 - i]
        decreases 11 - place
      {
        convert[place] := DigitChar(uvalue % base, caps);
        place := place + 1;
        DigitsLast(uvalue, base, caps, done);
        done := [DigitChar(uvalue % base, caps)] + done;
        uvalue := uvalue / base;
        if uvalue == 0 || place >= 20 {
          break;
        }
      }
      if place == 20 {
        place := place - 1;
      }
      convert[place] := 0 as char;
    }

    /** The digits in the buffer are written from the last one down. */
    method OutDigits(convert: array<char>, n: int, ghost digits: string)
      requires Valid() && 0 <= n == |digits| <= convert.Length
      requires forall i :: 0 <= i < n ==> convert[i] == digits[n - 1 - i]
      modifies this
      ensures Valid() && text == old(text) + digits
    {
      var place := n;
      while place > 0
        invariant 0 <= place <= n
        invariant Valid() && text == old(text) + digits[..n - place]
      {
        place := place - 1;
        assert digits[..n - place] == digits[..n - place - 1] + [digits[n - 1 - place]];
        Outch(convert[place]);
      }
    }

    /** The parts of a number, in their order. */
    method Emit(sign: string, zpadlen: int, convert: array<char>, place: int, spadlen: int, minus: bool,
                ghost digits: string)
      requires Valid() && |sign| <= 1 && 0 <= place == |digits| <= convert.Length
      requires forall i :: 0 <= i < place ==> convert[i] == digits[place - 1 - i]
      modifies this
      ensures Valid()
      ensures var number := sign + Repeat('0', zpadlen) + digits;
              text == old(text) + (if minus then number + Repeat(' ', spadlen) else Repeat(' ', spadlen) + number)
    {
      hide Repeat;
      Padded(text, sign, Repeat('0', zpadlen), digits, Repeat(' ', spadlen), minus);
      if !minus {
        OutMany(' ', spadlen);
      }
      if sign != "" {
        assert sign == [sign[0]];
        Outch(sign[0]);
      }
      OutMany('0', zpadlen);
      OutDigits(convert, place, digits);
      if minus {
        OutMany(' ', spadlen);
      }
    }

    /** An integer with its padding, sign and digits. */
    method Fmtint(value: int, base: nat, min: int, max0: int, flags: Flags)
      requires Valid() && 8 <= base <= 16 && -WORD / 2 <= value < WORD
      modifies this
      ensures Valid() && text == old(text) + IntText(value, base, min, max0, flags)
    {
      hide Digits;
      hide Repeat;
      var max := if max0 < 0 then 0 else max0;
      var signvalue := "";
      var uvalue := value % WORD;
      if !flags.unsigned {
        if value < 0 {
          signvalue := "-";
          uvalue := -value % WORD;
        } else if flags.plus {
          signvalue := "+";
        } else if flags.space {
          signvalue := " ";
        }
      }
      var convert := new char[20];
      var place := Convert(uvalue, base, flags.up, convert);
      var zpadlen, spadlen := Padding(place, |signvalue|, min, max, flags.zero);
      Emit(signvalue, zpadlen, convert, place, spadlen, flags.minus, Digits(uvalue, base, flags.up));
    }

    method Padding(place: nat, sign: nat, min: int, max: nat, zero: bool) returns (zpadlen: int, spadlen: int)
      ensures zpadlen == Zeros(place, sign, min, max, zero) && spadlen == Spaces(place, sign, min, max, zero)
    {
      zpadlen := max - place;
      spadlen := min - Max(max, place) - sign;
      if zpadlen < 0 { zpadlen := 0; }
      if spadlen < 0 { spadlen := 0; }
      if zero {
        zpadlen := Max(zpadlen, spadlen);
        spadlen := 0;
      }
    }

    /** At most max characters in all: spaces. */
    method SpacesUpTo(n: int, cnt: int, max: int) returns (cnt': int)
      requires Valid()
      modifies this
      ensures Valid() && cnt' == cnt + Room(n, cnt, max) && text == old(text) + Repeat(' ', Room(n, cnt, max))
    {
      var padlen := n;
      cnt' := cnt;
      while padlen > 0 && cnt' < max
        invariant cnt' - cnt == n - padlen && 0 <= cnt' - cnt <= Room(n, cnt, max)
        invariant Valid() && text == old(text) + Repeat(' ', cnt' - cnt)
      {
        Outch(' ');
        padlen := padlen - 1;
        cnt' := cnt' + 1;
      }
    }

    /** At most max characters in all: the string. */
    method CharsUpTo(value: string, cnt: int, max: int) returns (cnt': int)
      requires Valid()
      modifies this
      ensures Valid() && cnt' == cnt + Room(|value|, cnt, max) && text == old(text) + value[..Room(|value|, cnt, max)]
    {
      var k := 0;
      cnt' := cnt;
      while k < |value| && cnt' < max
        invariant cnt' - cnt == k && 0 <= k <= Room(|value|, cnt, max)
        invariant Valid() && text == old(text) + value[..k]
      {
        Outch(value[k]);
        k := k + 1;
        cnt' := cnt' + 1;
      }
    }

    /** A string cut to max characters, with its padding. */
    method Fmtstr(value: string, minus: bool, min: int, max: int)
      requires Valid()
      modifies this
      ensures Valid() && text == old(text) + StrText(value, minus, min, max)
    {
      hide Repeat;
      hide Room;
      var padlen := min - |value|;
      if padlen < 0 { padlen := 0; }
      var cnt := 0;
      StrCut(text, value, minus, min, max);
      if !minus {
        cnt := SpacesUpTo(padlen, cnt, max);
      }
      cnt := CharsUpTo(value, cnt, max);
      if minus {
        cnt := SpacesUpTo(padlen, cnt, max);
      }
    }

    /** The conversion of a directive; w is not a conversion, it skips a character. */
    method Conversion(conv: char, d: Directive, args: seq<Arg>, maxlen: int) returns (k: nat)
      requires Valid() && conv != 'w'
      modifies this
      ensures Valid() && text == old(text) + Field(conv, d, args, maxlen)
      ensures k == if Takes(conv) then d.k + 1 else d.k
    {
      hide IntText;
      hide StrText;
      k := if Takes(conv) then d.k + 1 else d.k;
      match conv {
        case 'd' => Fmtint(IntArg(args, d.k), 10, d.min, d.max, d.flags);
        case 'i' => Fmtint(IntArg(args, d.k), 10, d.min, d.max, d.flags);
        case 'o' => Fmtint(IntArg(args, d.k), 8, d.min, d.max, d.flags.(unsigned := true));
        case 'u' => Fmtint(IntArg(args, d.k), 10, d.min, d.max, d.flags.(unsigned := true));
        case 'x' => Fmtint(IntArg(args, d.k), 16, d.min, d.max, d.flags.(unsigned := true));
        case 'X' => Fmtint(IntArg(args, d.k), 16, d.min, d.max, d.flags.(unsigned := true, up := true));
        case 'p' => Fmtint(IntArg(args, d.k), 16, d.min, d.max, d.flags);
        case 'f' => OutField(RealArg(args, d.k));
        case 'c' => Outch((IntArg(args, d.k) % 256) as char);
        case 's' => Fmtstr(StrArg(args, d.k), d.flags.minus, d.min, if d.max < 0 then maxlen else d.max);
        case '%' => Outch('%');
        case _ =>
      }
    }

    /** The characters that are written for a real number. */
    method OutField(field: string)
      requires Valid()
      modifies this
      ensures Valid() && text == old(text) + field
    {
      for i := 0 to |field|
        invariant Valid() && text == old(text) + field[..i]
      {
        Outch(field[i]);
      }
    }

    /** The state machine: it writes what the format means, and stops. overrun says that it read past the
        terminator of the format. */
    method Dopr(maxlen: int, f: string, args: seq<Arg>) returns (lengths: seq<int>, overrun: bool)
      requires Valid() && text == "" && (0 as char) !in f
      modifies this
      ensures Valid() && Outcome(text, lengths, overrun) == Render(f, 0, args, 0, "", [], maxlen)
    {
      hide Render;
      hide Goal;
      hide Sane;
      var m := Machine(DEFAULT, 0, NO_FLAGS, 0, -1, 0, false, []);
      ghost var goal := Render(f, 0, args, 0, "", [], maxlen);
      GoalBegins(f, args, maxlen);
      overrun := false;
      while m.state != DONE
        invariant Valid() && m.p <= |f|
        invariant !overrun ==> Sane(f, m, text, maxlen) && Goal(f, m, args, text, maxlen) == goal
        invariant overrun ==> m.state == DONE && goal == Outcome(text, m.lengths, true)
        decreases |f| - m.p, if m.state == DONE then 0 else 1 + Rank(m.state)
      {
        if m.p == |f| || currlen >= maxlen {
          GoalEnds(f, m, args, text, maxlen);
          GoalDone(f, m, args, text, maxlen);
          m := m.(state := DONE);
        } else if m.state == DEFAULT {
          m := Default(f, m, args, maxlen);
        } else if m.state == CONV {
          m, overrun := Direct(f, m, args, maxlen);
        } else {
          TurnKeeps(f, m, args, text, maxlen);
          m := Turn(f, m, args);
        }
      }
      lengths := m.lengths;
      if !overrun {
        GoalDone(f, m, args, text, maxlen);
      }
    }

    method Default(f: string, m: Machine, args: seq<Arg>, maxlen: int) returns (m': Machine)
      requires Valid() && Sane(f, m, text, maxlen) && m.state == DEFAULT && m.p < |f| && |text| < maxlen
      modifies this
      ensures Valid() && m'.p == m.p + 1 && Sane(f, m', text, maxlen)
      ensures m.p <= |f| && Goal(f, m', args, text, maxlen) == Goal(f, m, args, old(text), maxlen)
    {
      var ch := f[m.p];
      if ch == '%' {
        GoalPercent(f, m, args, text, maxlen);
        m' := m.(state := FLAGS, p := m.p + 1);
      } else {
        GoalChar(f, m, args, text, maxlen);
        Outch(ch);
        m' := m.(p := m.p + 1);
      }
    }

    method Direct(f: string, m: Machine, args: seq<Arg>, maxlen: int) returns (m': Machine, overrun: bool)
      requires Valid() && Sane(f, m, text, maxlen) && m.state == CONV && m.p < |f| && |text| < maxlen
      modifies this
      ensures Valid() && m.p <= |f|
      ensures !overrun ==> m.p < m'.p <= |f| && Sane(f, m', text, maxlen)
                           && Goal(f, m', args, text, maxlen) == Goal(f, m, args, old(text), maxlen)
      ensures overrun ==>
                && m'.p <= |f| && m.p <= m'.p && m'.state == DONE
                && Goal(f, m, args, old(text), maxlen) == Outcome(text, m'.lengths, true)
    {
      hide Field;
      var ch := f[m.p];
      overrun := false;
      if ch == 'w' {
        if m.p + 1 >= |f| {
          return m.(state := DONE), true;
        }
        m' := Machine(DEFAULT, m.p + 2, NO_FLAGS, 0, -1, m.k, false, m.lengths);
      } else {
        var lengths := if ch == 'n' then m.lengths + [Stored(currlen, m.short)] else m.lengths;
        var k := Conversion(ch, Directive(m.flags, m.min, m.max, m.p, m.k, m.short), args, maxlen);
        m' := Machine(DEFAULT, m.p + 1, NO_FLAGS, 0, -1, k, false, lengths);
      }
    }
  }

  lemma GoalBegins(f: string, args: seq<Arg>, maxlen: int)
    ensures var m := Machine(DEFAULT, 0, NO_FLAGS, 0, -1, 0, false, []);
            Sane(f, m, "", maxlen) && Goal(f, m, args, "", maxlen) == Render(f, 0, args, 0, "", [], maxlen)
  {
  }

  lemma GoalDone(f: string, m: Machine, args: seq<Arg>, text: string, maxlen: int)
    requires m.p <= |f|
    ensures Sane(f, m.(state := DONE), text, maxlen)
    ensures Goal(f, m.(state := DONE), args, text, maxlen) == Outcome(text, m.lengths, false)
  {
  }

  lemma GoalChar(f: string, m: Machine, args: seq<Arg>, text: string, maxlen: int)
    requires Sane(f, m, text, maxlen) && m.state == DEFAULT && m.p < |f| && |text| < maxlen && f[m.p] != '%'
    ensures Goal(f, m, args, text, maxlen) == Goal(f, m.(p := m.p + 1), args, text + [f[m.p]], maxlen)
  {
    hide Parse;
    hide Finish;
  }

  /** How many of n characters fit when cnt of max are used. */
  function Room(n: int, cnt: int, max: int): (r: nat)
    ensures r <= if 0 <= n then n else 0
  {
    if n <= 0 || max <= cnt then 0 else if n <= max - cnt then n else max - cnt
  }

  lemma StrCut(was: string, value: string, minus: bool, min: int, max: int)
    ensures var n := if min - |value| < 0 then 0 else min - |value|;
            var a, b := Room(n, 0, max), Room(|value|, 0, max);
            && (!minus ==>
                  was + Repeat(' ', a) + value[..Room(|value|, a, max)] == was + StrText(value, minus, min, max))
            && (minus ==> was + value[..b] + Repeat(' ', Room(n, b, max)) == was + StrText(value, minus, min, max))
  {
    var n := if min - |value| < 0 then 0 else min - |value|;
    var a, b := Room(n, 0, max), Room(|value|, 0, max);
    if minus {
      CutTwo(value, Repeat(' ', n), max);
      assert Repeat(' ', n)[..Room(n, b, max)] == Repeat(' ', Room(n, b, max));
    } else {
      CutTwo(Repeat(' ', n), value, max);
      assert Repeat(' ', n)[..a] == Repeat(' ', a);
    }
  }

  /** Two pieces, cut together. */
  lemma CutTwo(x: string, y: string, max: int)
    ensures var a := Room(|x|, 0, max);
            (x + y)[..Room(|x + y|, 0, max)] == x[..a] + y[..Room(|y|, a, max)]
  {
  }

  /** The order in which the parts are written. */
  lemma Padded(was: string, sign: string, zeros: string, digits: string, spaces: string, minus: bool)
    ensures minus ==> was + sign + zeros + digits + spaces == was + (sign + zeros + digits + spaces)
    ensures !minus ==> was + spaces + sign + zeros + digits == was + (spaces + (sign + zeros + digits))
    ensures was + "" == was
  {
  }

  /** The last digit comes off. */
  lemma DigitsLast(u: nat, base: nat, caps: bool, done: string)
    requires 2 <= base <= 16
    ensures var c := [DigitChar(u % base, caps)];
            if u / base == 0 then Digits(u, base, caps) + done == c + done
            else Digits(u, base, caps) + done == Digits(u / base, base, caps) + (c + done)
  {
    hide DigitChar;
    var c := [DigitChar(u % base, caps)];
    if u < base {
      assert u / base == 0 && u % base == u;
    } else {
      AtLeastOne(u, base);
      Associate(Digits(u / base, base, caps), c, done);
    }
  }

  lemma AtLeastOne(u: nat, base: nat)
    requires 2 <= base <= u
    ensures 1 <= u / base
  {
  }
}
