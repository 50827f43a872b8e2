/** Directory entries as bytes: a name of up to 11 characters, a terminating zero, and the first block
    of the file. */
module DirectoryModel {
  import opened BlockDevice
  import opened FileModel

  const ENTRY: int := 16
  const NAME: int := 12

  /** A C string: no zero inside. */
  predicate CString(name: seq<byte>) {
    forall i :: 0 <= i < |name| ==> name[i] != 0
  }

  /** Character i of a zero-terminated name. */
  function CharAt(name: seq<byte>, i: nat): byte
    requires i <= |name|
  {
    if i < |name| then name[i] else 0
  }

  /** The entry holds this name. */
  predicate Holds(e: seq<byte>, name: seq<byte>)
    requires |e| == ENTRY
  {
    |name| < NAME && e[..|name|] == name && e[|name|] == 0
  }

  function StartOf(e: seq<byte>): uint32
    requires |e| == ENTRY
  {
    FromLe32(e[NAME..])
  }

  function EntryAt(c: seq<byte>, i: nat): (e: seq<byte>)
    requires ENTRY * (i + 1) <= |c|
    ensures |e| == ENTRY
  {
    c[ENTRY * i..ENTRY * (i + 1)]
  }

  /** The first block named by the first of n entries, from entry `from` on, that holds the name; 0 if
      none does. */
  function Find(c: seq<byte>, n: nat, name: seq<byte>, from: nat): int
    requires from <= n && ENTRY * n <= |c|
    decreases n - from
  {
    if from == n then 0
    else if Holds(EntryAt(c, from), name) then StartOf(EntryAt(c, from))
    else Find(c, n, name, from + 1)
  }

  const DOT: seq<byte> := [46]

  /** What lookup gives: the directory's own first block for ".", whatever its entries hold. */
  function LookupOf(dir: int, c: seq<byte>, n: nat, name: seq<byte>): int
    requires ENTRY * n <= |c|
  {
    if name == DOT then dir else Find(c, n, name, 0)
  }

  /** Some entry holds the name. */
  ghost predicate Listed(c: seq<byte>, n: nat, name: seq<byte>)
    requires ENTRY * n <= |c|
  {
    exists i: nat :: i < n && Holds(EntryAt(c, i), name)
  }

  /** The bytes of a new entry, on a stack that held `junk`: each character is followed by a zero that
      the next one overwrites, and the first block goes over bytes 12 to 15. */
  function EntryFor(name: seq<byte>, junk: seq<byte>, start: uint32): (e: seq<byte>)
    requires |name| < ENTRY && |junk| == ENTRY
    ensures |e| == ENTRY
  {
    seq(NAME, i requires 0 <= i < NAME =>
      if i < |name| then name[i] else if i == |name| && name != [] then 0 else junk[i]) + Le32(start)
  }

  // ---------------------------------------------------------------- lookup and append

  /** The name that an entry holds is found exactly when it has 1 to 11 characters; the empty name is
      left to whatever the stack held. */
  lemma EntryHolds(name: seq<byte>, junk: seq<byte>, start: uint32)
    requires CString(name) && |name| < ENTRY && |junk| == ENTRY
    ensures Holds(EntryFor(name, junk, start), name) <==> 1 <= |name| <= 11 || (name == [] && junk[0] == 0)
    ensures StartOf(EntryFor(name, junk, start)) == start == Number(EntryFor(name, junk, start), 3)
  {
    var e := EntryFor(name, junk, start);
    assert e[NAME..] == Le32(start);
    Le32RoundTrip(start);
    if |name| < NAME {
      assert e[..|name|] == name;
    }
  }

  /** The entry of a name that is not empty holds no other name. */
  lemma EntryHoldsOnly(name: seq<byte>, junk: seq<byte>, start: uint32, other: seq<byte>)
    requires CString(name) && CString(other) && 1 <= |name| < ENTRY && |junk| == ENTRY
    ensures Holds(EntryFor(name, junk, start), other) <==> other == name && |name| <= 11
  {
    var e := EntryFor(name, junk, start);
    EntryHolds(name, junk, start);
    if |name| > 11 {
      assert forall j :: 0 <= j < NAME ==> e[j] == name[j];
    } else if |name| < |other| {
      ShorterHolds(e, name, other);
    } else if |other| < |name| && Holds(e, other) {
      ShorterHolds(e, other, name);
    } else if Holds(e, other) {
      assert other == e[..|name|] == name;
    }
  }

  lemma ShorterHolds(e: seq<byte>, name: seq<byte>, longer: seq<byte>)
    requires |e| == ENTRY && Holds(e, name) && CString(longer) && |name| < |longer|
    ensures !Holds(e, longer)
  {
  }

  /** Appending an entry: names listed before are found as before, and the new entry serves the names
      it holds. */
  lemma {:induction false} FindAppend(c: seq<byte>, n: nat, e: seq<byte>, name: seq<byte>, from: nat)
    requires from <= n && ENTRY * n == |c| && |e| == ENTRY
    ensures Find(c + e, n + 1, name, from) ==
              if exists i: nat :: from <= i < n && Holds(EntryAt(c, i), name) then Find(c, n, name, from)
              else if Holds(e, name) then StartOf(e) else 0
    decreases n - from
  {
    var c' := c + e;
    assert EntryAt(c', n) == e;
    if from < n {
      assert EntryAt(c', from) == EntryAt(c, from);
      FindAppend(c, n, e, name, from + 1);
    }
  }

  /** The names by which newFile makes its file known to lookup. */
  predicate Served(name: seq<byte>, junk: seq<byte>)
    requires |junk| == ENTRY
  {
    (1 <= |name| <= 11 && name != DOT) || (name == [] && junk[0] == 0)
  }

  /** The directory after a new file: lookup of its name, if that was new, gives the file exactly if the
      name is served; and if the name is not empty, every other name is found as before. */
  lemma NewEntry(dir: int, c: seq<byte>, n: nat, name: seq<byte>, junk: seq<byte>, start: uint32, other: seq<byte>)
    requires ENTRY * n == |c| && CString(name) && CString(other) && |name| < ENTRY && |junk| == ENTRY
    requires start != 0 && start != dir && !Listed(c, n, name)
    ensures var c' := c + EntryFor(name, junk, start);
            && (LookupOf(dir, c', n + 1, name) == start <==> Served(name, junk))
            && (name != [] && other != name ==> LookupOf(dir, c', n + 1, other) == LookupOf(dir, c, n, other))
  {
    var e := EntryFor(name, junk, start);
    EntryHolds(name, junk, start);
    FindAppend(c, n, e, name, 0);
    FindAppend(c, n, e, other, 0);
    FindNothing(c, n, other, 0);
    if name != [] {
      EntryHoldsOnly(name, junk, start, other);
    }
  }

  /** What lookup finds after newFile: a new name exactly if it is served; and if it is not empty, every
      other name, and one that was listed, as before. */
  ghost predicate Serves(dir: int, c: seq<byte>, n: nat, c': seq<byte>, name: seq<byte>, junk: seq<byte>,
                         start: uint32) {
    && |junk| == ENTRY && |c| == ENTRY * n && |c'| == ENTRY * (n + 1)
    && (!Listed(c, n, name) ==> (LookupOf(dir, c', n + 1, name) == start <==> Served(name, junk)))
    && (name != [] ==> forall other :: CString(other) ==>
          LookupOf(dir, c', n + 1, other)
          == if other == name && !Listed(c, n, name) && Served(name, junk) then start else LookupOf(dir, c, n, other))
  }

  lemma NewServes(dir: int, c: seq<byte>, n: nat, name: seq<byte>, junk: seq<byte>, start: uint32)
    requires ENTRY * n == |c| && CString(name) && |name| < ENTRY && |junk| == ENTRY && start != 0 && start != dir
    ensures Serves(dir, c, n, c + EntryFor(name, junk, start), name, junk, start)
  {
    var e := EntryFor(name, junk, start);
    if !Listed(c, n, name) {
      NewEntry(dir, c, n, name, junk, start, name);
    }
    forall other | CString(other) && name != []
      ensures LookupOf(dir, c + e, n + 1, other)
           == if other == name && !Listed(c, n, name) && Served(name, junk) then start else LookupOf(dir, c, n, other)
    {
      EntryHolds(name, junk, start);
      EntryHoldsOnly(name, junk, start, other);
      FindAppend(c, n, e, other, 0);
      FindNothing(c, n, other, 0);
    }
  }

  /** Two names that are not served: ".", which its entry holds, and one of twelve characters. */
  lemma DotExample(junk: seq<byte>)
    requires |junk| == ENTRY
    ensures var c := EntryFor(DOT, junk, 9);
            Holds(EntryAt(c, 0), DOT) && Find(c, 1, DOT, 0) == 9 && LookupOf(5, c, 1, DOT) == 5 && !Served(DOT, junk)
  {
    var c := EntryFor(DOT, junk, 9);
    assert EntryAt(c, 0) == c;
    EntryHolds(DOT, junk, 9);
  }

  const TWELVE: seq<byte> := [97, 97, 97, 97, 97, 97, 97, 97, 97, 97, 97, 97]

  lemma TwelveExample(junk: seq<byte>)
    requires |junk| == ENTRY
    ensures LookupOf(5, EntryFor(TWELVE, junk, 9), 1, TWELVE) == 0 && !Served(TWELVE, junk)
  {
    var c := EntryFor(TWELVE, junk, 9);
    assert EntryAt(c, 0) == c;
    EntryHolds(TWELVE, junk, 9);
  }

  lemma {:induction false} FindNothing(c: seq<byte>, n: nat, name: seq<byte>, from: nat)
    requires from <= n && ENTRY * n <= |c|
    ensures !(exists i: nat :: from <= i < n && Holds(EntryAt(c, i), name)) ==> Find(c, n, name, from) == 0
    decreases n - from
  {
    if from < n {
      FindNothing(c, n, name, from + 1);
    }
  }

  // ---------------------------------------------------------------- what the loops rely on

  lemma EntryRead(before: seq<byte>, after: seq<byte>, c: seq<byte>, i: nat)
    requires |before| == ENTRY && ENTRY * (i + 1) <= |c| && after == Overlay(before, 0, c[ENTRY * i..ENTRY * i + ENTRY])
    ensures after == EntryAt(c, i)
  {
  }

  lemma FindStep(c: seq<byte>, n: nat, name: seq<byte>, from: nat)
    requires from <= n && ENTRY * n <= |c|
    ensures Find(c, n, name, from) ==
              if from == n then 0
              else if Holds(EntryAt(c, from), name) then StartOf(EntryAt(c, from))
              else Find(c, n, name, from + 1)
  {
  }
}
