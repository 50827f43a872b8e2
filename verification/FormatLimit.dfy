/** What dopr writes under its limit, and when it passes the terminator of the format. */
module FormatLimit {
  import opened FormatModel
  import opened FormatDirective

  // ---------------------------------------------------------------- when the terminator is passed

  /** The index of the conversion, which no argument changes. */
  function ConversionAt(f: string, i: nat): nat
    requires i <= |f|
  {
    Parse(f, i, [], 0).at
  }

  lemma SameConversion(f: string, i: nat, args: seq<Arg>, k: nat)
    requires i <= |f|
    ensures Parse(f, i, args, k).at == ConversionAt(f, i)
  {
    hide Number;
    hide FlagsOf;
    hide IntArg;
  }

  /** The last directive of a format is a w without the character that it skips. */
  function EndsInW(f: string, i: nat): bool
    decreases |f| - i
  {
    if i >= |f| then false
    else if f[i] != '%' then EndsInW(f, i + 1)
    else
      var c := ConversionAt(f, i + 1);
      if c >= |f| || c <= i then false
      else if f[c] == 'w' then c + 1 >= |f| || EndsInW(f, c + 2)
      else EndsInW(f, c + 1)
  }

  /** So a format that does not end in the letter w is safe. */
  lemma {:induction false} LastLetter(f: string, i: nat)
    requires EndsInW(f, i)
    ensures f != [] && f[|f| - 1] == 'w'
    decreases |f| - i
  {
    hide ConversionAt;
    if f[i] != '%' {
      LastLetter(f, i + 1);
    } else {
      var c := ConversionAt(f, i + 1);
      if f[c] == 'w' {
        if c + 1 < |f| {
          LastLetter(f, c + 2);
        }
      } else {
        LastLetter(f, c + 1);
      }
    }
  }

  // ---------------------------------------------------------------- what the limit cuts

  /** What a format asks for, character by character and directive by directive, with no limit on the
      whole. */
  function Pieces(f: string, i: nat, args: seq<Arg>, k: nat, maxlen: int): seq<string>
    decreases |f| - i
  {
    if i >= |f| then []
    else if f[i] != '%' then [[f[i]]] + Pieces(f, i + 1, args, k, maxlen)
    else
      var d := Parse(f, i + 1, args, k);
      if d.at >= |f| || d.at <= i then []
      else if f[d.at] == 'w' then Pieces(f, d.at + 2, args, d.k, maxlen)
      else
        [Field(f[d.at], d, args, maxlen)]
        + Pieces(f, d.at + 1, args, if Takes(f[d.at]) then d.k + 1 else d.k, maxlen)
  }

  function Total(ps: seq<string>): nat {
    if ps == [] then 0 else |ps[0]| + Total(ps[1..])
  }

  /** The pieces that begin before the limit, when n characters are there already. */
  function Begun(ps: seq<string>, n: nat, maxlen: int): string {
    if ps == [] || n >= maxlen then "" else ps[0] + Begun(ps[1..], n + |ps[0]|, maxlen)
  }

  /** dopr writes the pieces that begin before the limit, each of them whole; and it passes the terminator
      exactly when the format ends in a w with nothing to skip and its pieces do not reach the limit. */
  lemma {:induction false} RenderBegun(f: string, i: nat, args: seq<Arg>, k: nat, text: string, lengths: seq<int>,
                                       maxlen: int)
    ensures var r, ps := Render(f, i, args, k, text, lengths, maxlen), Pieces(f, i, args, k, maxlen);
            && r.text == text + Begun(ps, |text|, maxlen)
            && (r.overrun <==> EndsInW(f, i) && |text| + Total(ps) < maxlen)
    decreases |f| - i
  {
    hide Parse;
    hide Field;
    hide Begun;
    hide Total;
    BegunEnds(Pieces(f, i, args, k, maxlen), |text|, maxlen);
    if i >= |f| || |text| >= maxlen {
    } else if f[i] != '%' {
      BegunPiece(text, [f[i]], Pieces(f, i + 1, args, k, maxlen), maxlen);
      RenderBegun(f, i + 1, args, k, text + [f[i]], lengths, maxlen);
    } else {
      ParseAdvances(f, i + 1, args, k);
      SameConversion(f, i + 1, args, k);
      SameConversion(f, i + 1, [], 0);
      var d := Parse(f, i + 1, args, k);
      if d.at < |f| {
        if f[d.at] == 'w' {
          if d.at + 1 < |f| {
            RenderBegun(f, d.at + 2, args, d.k, text, lengths, maxlen);
          }
        } else {
          var field := Field(f[d.at], d, args, maxlen);
          var k' := if Takes(f[d.at]) then d.k + 1 else d.k;
          var lengths' := if f[d.at] == 'n' then lengths + [Stored(|text|, d.short)] else lengths;
          RenderBegun(f, d.at + 1, args, k', text + field, lengths', maxlen);
          BegunPiece(text, field, Pieces(f, d.at + 1, args, k', maxlen), maxlen);
        }
      }
    }
  }

  lemma BegunEnds(ps: seq<string>, n: nat, maxlen: int)
    ensures ps == [] || n >= maxlen ==> Begun(ps, n, maxlen) == ""
    ensures ps == [] ==> Total(ps) == 0
  {
  }

  lemma BegunPiece(text: string, piece: string, ps: seq<string>, maxlen: int)
    requires |text| < maxlen
    ensures text + Begun([piece] + ps, |text|, maxlen) == text + piece + Begun(ps, |text| + |piece|, maxlen)
    ensures Total([piece] + ps) == |piece| + Total(ps)
  {
  }

  /** The terminator is passed exactly when the format ends in such a directive and what it asks for does
      not reach the limit. */
  lemma OverrunExact(f: string, args: seq<Arg>, maxlen: int)
    ensures Render(f, 0, args, 0, "", [], maxlen).overrun
            <==> EndsInW(f, 0) && Total(Pieces(f, 0, args, 0, maxlen)) < maxlen
  {
    RenderBegun(f, 0, args, 0, "", [], maxlen);
  }

  lemma OverrunExample()
    ensures Render("%w", 0, [], 0, "", [], 1).overrun
  {
    hide Field;
    hide FlagsOf;
    assert FlagEnd("%w", 1) == 1 && DigitEnd("%w", 1) == 1;
    assert Parse("%w", 1, [], 0).at == 1;
  }

  /** No piece begins before the limit and ends behind it. */
  ghost predicate Within(ps: seq<string>, maxlen: int) {
    forall j :: 0 <= j < |ps| && Total(ps[..j]) < maxlen ==> Total(ps[..j + 1]) <= maxlen
  }

  /** dopr keeps to its limit exactly when no piece goes across it. If one does, the output is what is
      asked for up to the end of that piece. */
  lemma LimitExact(f: string, args: seq<Arg>, maxlen: nat)
    ensures var text, ps := Render(f, 0, args, 0, "", [], maxlen).text, Pieces(f, 0, args, 0, maxlen);
            && (|text| <= maxlen <==> Within(ps, maxlen))
            && (|text| > maxlen ==> exists j ::
                  0 <= j < |ps| && Total(ps[..j]) < maxlen && |text| == Total(ps[..j + 1]) == Total(ps[..j]) + |ps[j]|)
  {
    hide Render;
    hide Pieces;
    hide Begun;
    RenderBegun(f, 0, args, 0, "", [], maxlen);
    var ps := Pieces(f, 0, args, 0, maxlen);
    var j := LastBegun(ps, 0, maxlen);
    forall i | 0 <= i < |ps| && Total(ps[..i]) < maxlen && |Begun(ps, 0, maxlen)| <= maxlen
      ensures Total(ps[..i + 1]) <= maxlen
    {
      if j <= i {
        TotalRising(ps, j, i);
      } else {
        TotalRising(ps, i + 1, j);
      }
    }
    if |Begun(ps, 0, maxlen)| > maxlen {
      TotalLast(ps, j - 1);
      assert Total(ps[..j]) > maxlen && Total(ps[..j - 1]) < maxlen;
      var j' := j - 1;
      assert ps[..j' + 1] == ps[..j];
    }
  }

  /** How many pieces begin before the limit. */
  lemma {:induction false} LastBegun(ps: seq<string>, n: nat, maxlen: int) returns (j: nat)
    ensures j <= |ps| && n + Total(ps[..j]) == n + |Begun(ps, n, maxlen)|
    ensures j < |ps| ==> maxlen <= n + Total(ps[..j])
    ensures 0 < j ==> n + Total(ps[..j - 1]) < maxlen
  {
    if ps == [] || n >= maxlen {
      j := 0;
    } else {
      var j0 := LastBegun(ps[1..], n + |ps[0]|, maxlen);
      j := j0 + 1;
      assert ps[..j][1..] == ps[1..][..j0];
      if j0 > 0 {
        assert ps[..j0][1..] == ps[1..][..j0 - 1];
      }
    }
  }

  lemma {:induction false} TotalRising(ps: seq<string>, i: nat, j: nat)
    requires i <= j <= |ps|
    ensures Total(ps[..i]) <= Total(ps[..j])
    decreases j
  {
    if i < j {
      TotalRising(ps, i, j - 1);
      TotalLast(ps, j - 1);
    }
  }

  lemma {:induction false} TotalLast(ps: seq<string>, j: nat)
    requires j < |ps|
    ensures Total(ps[..j + 1]) == Total(ps[..j]) + |ps[j]|
  {
    if j == 0 {
      assert ps[..1] == [ps[0]];
    } else {
      TotalLast(ps[1..], j - 1);
      assert ps[..j + 1][1..] == ps[1..][..j];
      assert ps[..j][1..] == ps[1..][..j - 1];
    }
  }

  /** Five characters with a limit of one. */
  lemma LimitExample()
    ensures |Render("%5d", 0, [Int(7)], 0, "", [], 1).text| == 5
  {
    hide Field;
    var d := Directive(NO_FLAGS, 5, -1, 2, 0, false);
    assert FlagEnd("%5d", 1) == 1 && DigitEnd("%5d", 1) == 2;
    assert FlagsOf("%5d"[1..1]) == NO_FLAGS && Number("%5d"[1..2], 10) == 5;
    assert Parse("%5d", 1, [Int(7)], 0) == d;
    FieldExample(d);
  }

  lemma FieldExample(d: Directive)
    requires d.flags == NO_FLAGS && d.min == 5 && d.max == -1 && d.k == 0
    ensures |Field('d', d, [Int(7)], 1)| == 5
  {
    IntTextLength(7, 10, 5, -1, NO_FLAGS);
  }
}
