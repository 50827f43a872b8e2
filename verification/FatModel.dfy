/** The table of block links that FAT439 files and the free list share, as a value. */
module FatModel {

  type Fat = seq<int>

  /** Where a chain goes on behind position i; 0 ends it. */
  function After(s: seq<int>, i: int): int
    requires 0 <= i < |s|
  {
    if i + 1 < |s| then s[i + 1] else 0
  }

  function HeadOf(s: seq<int>): int {
    if s == [] then 0 else s[0]
  }

  /** Block s[i] is a real block, and its link says what comes behind it. */
  ghost predicate Link(fat: Fat, s: seq<int>, i: int) {
    0 <= i < |s| && 0 < s[i] < |fat| && fat[s[i]] == After(s, i)
  }

  /** The chain that starts at `head` runs through exactly the blocks of s, in order, and ends. */
  ghost predicate Chain(fat: Fat, head: int, s: seq<int>) {
    head == HeadOf(s) && forall i {:trigger Link(fat, s, i)} :: 0 <= i < |s| ==> Link(fat, s, i)
  }

  datatype Fs = Fs(fat: Fat, avail: int, free: seq<int>, files: map<int, seq<int>>, owner: seq<int>)

  const RESERVED: int := -1
  const FREE: int := 0

  ghost predicate FileChains(fat: Fat, files: map<int, seq<int>>) {
    forall f :: f in files ==> files[f] != [] && Chain(fat, f, files[f])
  }

  /** The free list holds free blocks only, and every chain holds blocks that its file owns. */
  ghost predicate Owned(owner: seq<int>, free: seq<int>, files: map<int, seq<int>>) {
    && (forall i :: 0 <= i < |free| ==> 0 < free[i] < |owner| && owner[free[i]] == FREE)
    && (forall f, i {:trigger files[f][i]} :: f in files && 0 <= i < |files[f]| ==>
          0 < files[f][i] < |owner| && owner[files[f][i]] == f)
  }

  /** Every block from `first` on is held by the free list or by the file that owns it. */
  ghost predicate Covered(first: int, owner: seq<int>, free: seq<int>, files: map<int, seq<int>>) {
    forall b :: 0 <= b < |owner| ==>
      if b < first then owner[b] == RESERVED
      else if owner[b] == FREE then b in free
      else owner[b] in files && b in files[owner[b]]
  }

  /** The blocks from `first` on are split among the free list and the chains of the files. A file is
      named by its first block. */
  ghost predicate Partition(first: int, s: Fs) {
    && 0 < first && |s.owner| == |s.fat|
    && Chain(s.fat, s.avail, s.free)
    && FileChains(s.fat, s.files)
    && Owned(s.owner, s.free, s.files)
    && Covered(first, s.owner, s.free, s.files)
  }

  // ---------------------------------------------------------------- chains

  /** A chain visits no block twice: what follows a block is determined by its link. */
  lemma {:induction false} ChainDistinct(fat: Fat, s: seq<int>, i: int, j: int)
    requires Chain(fat, HeadOf(s), s) && 0 <= i < j < |s|
    ensures s[i] != s[j]
    decreases |s| - j
  {
    assert Link(fat, s, i) && Link(fat, s, i + 1) && Link(fat, s, j);
    if s[i] == s[j] {
      assert After(s, i) == After(s, j);
      if j + 1 < |s| {
        ChainDistinct(fat, s, i + 1, j + 1);
      }
    }
  }

  /** The links determine the chain. */
  lemma {:induction false} ChainUnique(fat: Fat, s: seq<int>, t: seq<int>, i: nat)
    requires Chain(fat, HeadOf(s), s) && Chain(fat, HeadOf(t), t)
    requires i <= |s| && i <= |t| && s[..i] == t[..i] && HeadOf(s[i..]) == HeadOf(t[i..])
    ensures s == t
    decreases |s| - i
  {
    assert i < |s| ==> Link(fat, s, i);
    assert i < |t| ==> Link(fat, t, i);
    if i < |s| && i < |t| {
      assert s[..i + 1] == s[..i] + [s[i]] && t[..i + 1] == t[..i] + [t[i]];
      assert HeadOf(s[i + 1..]) == After(s, i) && HeadOf(t[i + 1..]) == After(t, i);
      ChainUnique(fat, s, t, i + 1);
    }
  }

  /** Distinct numbers below n are at most n many. */
  lemma {:induction false} Pigeonhole(s: seq<int>, n: nat)
    requires forall i :: 0 <= i < |s| ==> 0 <= s[i] < n
    requires forall i, j :: 0 <= i < j < |s| ==> s[i] != s[j]
    ensures |s| <= n
    decreases n
  {
    assert 0 < |s| ==> 0 <= s[0] < n;
    if n == 0 {
    } else if n - 1 in s {
      var k :| 0 <= k < |s| && s[k] == n - 1;
      Pigeonhole(s[..k] + s[k + 1..], n - 1);
    } else {
      Pigeonhole(s, n - 1);
    }
  }

  /** Links of other blocks do not matter to a chain. */
  lemma ChainKept(fat: Fat, fat': Fat, head: int, s: seq<int>)
    requires Chain(fat, head, s) && |fat'| == |fat|
    requires forall i :: 0 <= i < |s| && 0 <= s[i] < |fat| ==> fat'[s[i]] == fat[s[i]]
    ensures Chain(fat', head, s)
  {
    forall i | 0 <= i < |s|
      ensures Link(fat', s, i)
    {
      assert Link(fat, s, i);
    }
  }

  // ---------------------------------------------------------------- taking a block off the free list

  /** The first free block, made a chain of its own (getBlock of mkfs, newFile of the kernel). */
  function Take(s: Fs): Fs
    requires 0 < s.avail < |s.fat| && s.free != [] && s.avail < |s.owner|
  {
    var b := s.avail;
    Fs(s.fat[b := 0], s.fat[b], s.free[1..], s.files[b := [b]], s.owner[b := b])
  }

  /** The first free block, put behind the last block of file f (write of the kernel). */
  function Extend(s: Fs, f: int): Fs
    requires 0 < s.avail < |s.fat| && s.free != [] && s.avail < |s.owner| && f in s.files && s.files[f] != []
    requires 0 <= s.files[f][|s.files[f]| - 1] < |s.fat|
  {
    var b := s.avail;
    var last := s.files[f][|s.files[f]| - 1];
    Fs(s.fat[b := 0][last := b], s.fat[b], s.free[1..], s.files[f := s.files[f] + [b]], s.owner[b := f])
  }

  lemma AvailFacts(first: int, s: Fs)
    requires Partition(first, s)
    ensures s.avail == 0 <==> s.free == []
    ensures s.avail != 0 ==>
              && 0 < first <= s.avail < |s.fat| == |s.owner| && s.free[0] == s.avail && s.owner[s.avail] == FREE
              && s.fat[s.avail] == HeadOf(s.free[1..]) && s.avail !in s.files
  {
    if s.free != [] {
      assert Link(s.fat, s.free, 0);
      forall f | f in s.files
        ensures f != s.avail
      {
        FileStart(first, s, f);
      }
    }
  }

  /** A file owns its first block. */
  lemma FileStart(first: int, s: Fs, f: int)
    requires Partition(first, s) && f in s.files
    ensures s.files[f] != [] && first <= f < |s.fat| && s.owner[f] == f && s.files[f][0] == f
  {
  }

  lemma FileDistinct(first: int, s: Fs, f: int)
    requires Partition(first, s) && f in s.files
    ensures forall i, j :: 0 <= i < j < |s.files[f]| ==> s.files[f][i] != s.files[f][j]
    ensures forall i :: 0 <= i < |s.files[f]| ==> 0 < s.files[f][i] < |s.fat|
    ensures |s.files[f]| <= |s.fat|
  {
    forall i, j | 0 <= i < j < |s.files[f]|
      ensures s.files[f][i] != s.files[f][j]
    {
      ChainDistinct(s.fat, s.files[f], i, j);
    }
    Pigeonhole(s.files[f], |s.fat|);
  }

  lemma FileOwns(first: int, s: Fs, f: int)
    requires Partition(first, s) && f in s.files
    ensures forall b :: b in s.files[f] ==> 0 <= b < |s.owner| && s.owner[b] == f
  {
  }

  /** Two files have no block in common. */
  lemma FilesDisjoint(first: int, s: Fs, f: int, g: int)
    requires Partition(first, s) && f in s.files && g in s.files && f != g
    ensures forall b :: b in s.files[g] ==> b !in s.files[f]
  {
    FileOwns(first, s, f);
    FileOwns(first, s, g);
  }

  /** The rest of the free list is still a chain after its first block has been cut off. */
  lemma FreeRest(first: int, s: Fs, fat': Fat)
    requires Partition(first, s) && s.avail != 0 && |fat'| == |s.fat|
    requires forall b :: first <= b < |s.fat| && s.owner[b] == FREE && b != s.avail ==> fat'[b] == s.fat[b]
    ensures Chain(fat', s.fat[s.avail], s.free[1..])
  {
    AvailFacts(first, s);
    var rest := s.free[1..];
    forall i | 0 <= i < |rest|
      ensures Link(fat', rest, i)
    {
      ChainDistinct(s.fat, s.free, 0, i + 1);
      assert Link(s.fat, s.free, i + 1) && rest[i] == s.free[i + 1];
    }
  }

  lemma OtherFile(first: int, s: Fs, f: int, fat': Fat)
    requires Partition(first, s) && f in s.files && |fat'| == |s.fat|
    requires forall b :: first <= b < |s.fat| && s.owner[b] == f ==> fat'[b] == s.fat[b]
    ensures Chain(fat', f, s.files[f])
  {
    forall i | 0 <= i < |s.files[f]|
      ensures Link(fat', s.files[f], i)
    {
      assert Link(s.fat, s.files[f], i);
      assert s.owner[s.files[f][i]] == f;
    }
  }

  lemma TakePartition(first: int, s: Fs)
    requires Partition(first, s) && s.avail != 0
    ensures s.free != [] && 0 < s.avail < |s.fat|
    ensures Partition(first, Take(s))
  {
    AvailFacts(first, s);
    var s' := Take(s);
    FreeRest(first, s, s'.fat);
    forall f | f in s'.files
      ensures s'.files[f] != [] && Chain(s'.fat, f, s'.files[f])
    {
      if f != s.avail {
        OtherFile(first, s, f, s'.fat);
      } else {
        assert Link(s'.fat, [f], 0);
      }
    }
    TakeOwned(first, s);
  }

  lemma TakeOwned(first: int, s: Fs)
    requires Partition(first, s) && s.avail != 0 && s.free != [] && 0 < s.avail < |s.fat|
    ensures var s' := Take(s); Owned(s'.owner, s'.free, s'.files) && Covered(first, s'.owner, s'.free, s'.files)
  {
    AvailFacts(first, s);
    var s' := Take(s);
    forall i | 0 <= i < |s'.free|
      ensures s'.free[i] == s.free[i + 1] && s'.free[i] != s.avail
    {
      ChainDistinct(s.fat, s.free, 0, i + 1);
    }
    forall b | 0 <= b < |s.owner| && b in s.free && b != s.avail
      ensures b in s'.free
    {
      var i :| 0 <= i < |s.free| && s.free[i] == b;
      assert s'.free[i - 1] == b;
    }
    assert s'.files[s.avail] == [s.avail];
  }

  // ---------------------------------------------------------------- growing a file

  lemma LastFacts(first: int, s: Fs, f: int)
    requires Partition(first, s) && f in s.files
    ensures var c := s.files[f];
            && c != [] && first <= c[|c| - 1] < |s.fat| && s.owner[c[|c| - 1]] == f && s.fat[c[|c| - 1]] == 0
            && c[0] == f
  {
    var c := s.files[f];
    assert Link(s.fat, c, |c| - 1);
    assert s.owner[c[|c| - 1]] == f;
    FileStart(first, s, f);
  }

  lemma ExtendChain(first: int, s: Fs, f: int)
    requires Partition(first, s) && s.avail != 0 && f in s.files
    requires s.free != [] && 0 < s.avail < |s.fat| && s.files[f] != [] && 0 <= s.files[f][|s.files[f]| - 1] < |s.fat|
    ensures Chain(Extend(s, f).fat, f, s.files[f] + [s.avail])
  {
    AvailFacts(first, s);
    LastFacts(first, s, f);
    var c, b, fat' := s.files[f], s.avail, Extend(s, f).fat;
    var c' := c + [b];
    forall i | 0 <= i < |c'|
      ensures Link(fat', c', i)
    {
      if i < |c| - 1 {
        ChainDistinct(s.fat, c, i, |c| - 1);
        assert Link(s.fat, c, i) && s.owner[c[i]] == f;
      } else if i < |c| {
        assert Link(s.fat, c, i);
      }
    }
  }

  lemma ExtendOwned(first: int, s: Fs, f: int)
    requires Partition(first, s) && s.avail != 0 && f in s.files
    requires s.free != [] && 0 < s.avail < |s.fat| && s.files[f] != [] && 0 <= s.files[f][|s.files[f]| - 1] < |s.fat|
    ensures var s' := Extend(s, f); Owned(s'.owner, s'.free, s'.files) && Covered(first, s'.owner, s'.free, s'.files)
  {
    AvailFacts(first, s);
    FileStart(first, s, f);
    var s' := Extend(s, f);
    forall i | 0 <= i < |s'.free|
      ensures s'.free[i] == s.free[i + 1] && s'.free[i] != s.avail
    {
      ChainDistinct(s.fat, s.free, 0, i + 1);
    }
    forall b | 0 <= b < |s.owner| && b in s.free && b != s.avail
      ensures b in s'.free
    {
      var i :| 0 <= i < |s.free| && s.free[i] == b;
      assert s'.free[i - 1] == b;
    }
    var c' := s'.files[f];
    assert c'[|c'| - 1] == s.avail && forall x :: x in s.files[f] ==> x in c';
  }

  lemma ExtendPartition(first: int, s: Fs, f: int)
    requires Partition(first, s) && s.avail != 0 && f in s.files
    ensures s.free != [] && 0 < s.avail < |s.fat| && s.avail < |s.owner|
    ensures s.files[f] != [] && 0 <= s.files[f][|s.files[f]| - 1] < |s.fat|
    ensures Partition(first, Extend(s, f))
  {
    AvailFacts(first, s);
    LastFacts(first, s, f);
    var s' := Extend(s, f);
    FreeRest(first, s, s'.fat);
    forall g | g in s'.files
      ensures s'.files[g] != [] && Chain(s'.fat, g, s'.files[g])
    {
      if g == f {
        ExtendChain(first, s, f);
      } else {
        OtherFile(first, s, g, s'.fat);
      }
    }
    ExtendOwned(first, s, f);
  }

  // ---------------------------------------------------------------- shortening a file

  /** The blocks of file f behind position i of its chain go to the head of the free list. */
  function Splice(s: Fs, f: int, i: nat): (Fat, int)
    requires f in s.files && i < |s.files[f]| && 0 <= s.files[f][|s.files[f]| - 1] < |s.fat|
  {
    var c := s.files[f];
    if i + 1 == |c| then (s.fat, s.avail) else (s.fat[c[|c| - 1] := s.avail], c[i + 1])
  }

  /** The same, with the link at position i cut: a repair, not what the repository does. */
  function SpliceAndCut(s: Fs, f: int, i: nat): Fs
    requires f in s.files && i < |s.files[f]| && forall k :: 0 <= k < |s.files[f]| ==> 0 <= s.files[f][k] < |s.fat|
    requires |s.owner| == |s.fat|
  {
    var c := s.files[f];
    var (fat, avail) := Splice(s, f, i);
    Fs(fat[c[i] := 0], avail, c[i + 1..] + s.free, s.files[f := c[..i + 1]],
       seq(|s.owner|, b requires 0 <= b < |s.owner| => if b in c[i + 1..] then FREE else s.owner[b]))
  }

  /** The spliced free list is the cut-off tail followed by the old free list. */
  lemma SpliceFree(first: int, s: Fs, f: int, i: nat)
    requires Partition(first, s) && f in s.files && i < |s.files[f]|
    requires 0 <= s.files[f][|s.files[f]| - 1] < |s.fat|
    ensures var (fat', avail') := Splice(s, f, i); Chain(fat', avail', s.files[f][i + 1..] + s.free)
  {
    var c := s.files[f];
    var (fat', avail') := Splice(s, f, i);
    var tail := c[i + 1..];
    if i + 1 == |c| {
      assert tail + s.free == s.free;
    } else {
      SplicedTail(first, s, f, i + 1, fat');
    }
  }

  /** From any position of the chain of f on, the spliced links run into the old free list. */
  lemma SplicedTail(first: int, s: Fs, f: int, from: nat, fat': Fat)
    requires Partition(first, s) && f in s.files && from < |s.files[f]|
    requires 0 <= s.files[f][|s.files[f]| - 1] < |s.fat| && fat' == s.fat[s.files[f][|s.files[f]| - 1] := s.avail]
    ensures Chain(fat', s.files[f][from], s.files[f][from..] + s.free)
  {
    var c := s.files[f];
    var t := c[from..] + s.free;
    forall k | 0 <= k < |t|
      ensures Link(fat', t, k)
    {
      if k < |c| - from {
        assert Link(s.fat, c, from + k);
        if from + k < |c| - 1 {
          ChainDistinct(s.fat, c, from + k, |c| - 1);
        }
      } else {
        var j := k - (|c| - from);
        assert Link(s.fat, s.free, j) && t[k] == s.free[j];
        assert s.owner[c[|c| - 1]] == f;
        FileStart(first, s, f);
      }
    }
  }

  /** As written, the file whose tail was freed still runs through that tail and then through the
      whole free list. */
  lemma SpliceAliases(first: int, s: Fs, f: int, i: nat)
    requires Partition(first, s) && f in s.files && i + 1 < |s.files[f]|
    requires 0 <= s.files[f][|s.files[f]| - 1] < |s.fat|
    ensures Chain(Splice(s, f, i).0, f, s.files[f] + s.free)
  {
    var c := s.files[f];
    SplicedTail(first, s, f, 0, Splice(s, f, i).0);
    assert c[0..] == c;
    FileStart(first, s, f);
  }

  /** The links after a shortening, read without the head of the free list: the file has all the blocks that
      it had and the free ones, and none is free. */
  function Aliased(s: Fs, f: int, i: nat): Fs
    requires f in s.files && i < |s.files[f]| && 0 <= s.files[f][|s.files[f]| - 1] < |s.fat|
  {
    Fs(Splice(s, f, i).0, 0, [], s.files[f := s.files[f] + s.free],
       seq(|s.owner|, b requires 0 <= b < |s.owner| => if s.owner[b] == FREE then f else s.owner[b]))
  }

  lemma AliasedPartition(first: int, s: Fs, f: int, i: nat)
    requires Partition(first, s) && f in s.files && i + 1 < |s.files[f]|
    requires 0 <= s.files[f][|s.files[f]| - 1] < |s.fat|
    ensures Partition(first, Aliased(s, f, i))
  {
    var s', c := Aliased(s, f, i), s.files[f];
    FileStart(first, s, f);
    LastFacts(first, s, f);
    SpliceAliases(first, s, f, i);
    forall g | g in s'.files
      ensures s'.files[g] != [] && Chain(s'.fat, g, s'.files[g])
    {
      if g != f {
        OtherFile(first, s, g, s'.fat);
      }
    }
    AliasedOwned(first, s, f, i);
  }

  lemma AliasedOwned(first: int, s: Fs, f: int, i: nat)
    requires Partition(first, s) && f in s.files && i + 1 < |s.files[f]|
    requires 0 <= s.files[f][|s.files[f]| - 1] < |s.fat|
    ensures var s' := Aliased(s, f, i);
            Owned(s'.owner, s'.free, s'.files) && Covered(first, s'.owner, s'.free, s'.files)
  {
    var s' := Aliased(s, f, i);
    FileStart(first, s, f);
    forall g, k {:trigger s'.files[g][k]} | g in s'.files && 0 <= k < |s'.files[g]|
      ensures 0 < s'.files[g][k] < |s'.owner| && s'.owner[s'.files[g][k]] == g
    {
      if g == f && |s.files[f]| <= k {
        assert s'.files[g][k] == s.free[k - |s.files[f]|];
      } else {
        assert s'.files[g][k] == s.files[g][k];
        FileStart(first, s, g);
      }
    }
    forall b | first <= b < |s'.owner|
      ensures s'.owner[b] != FREE && s'.owner[b] in s'.files && b in s'.files[s'.owner[b]]
    {
      if s.owner[b] != FREE {
        assert b in s.files[s.owner[b]];
      }
    }
  }

  /** The links and the free list head can still be explained as a partition in which f is a file. */
  ghost predicate Explained(first: int, fat: Fat, avail: int, f: int) {
    exists s' :: Partition(first, s') && s'.fat == fat && s'.avail == avail && f in s'.files
  }

  /** Shortening keeps the partition exactly when there is no tail to free. */
  lemma ShortenExact(first: int, s: Fs, f: int, i: nat)
    requires Partition(first, s) && f in s.files && i < |s.files[f]|
    requires 0 <= s.files[f][|s.files[f]| - 1] < |s.fat|
    ensures Explained(first, Splice(s, f, i).0, Splice(s, f, i).1, f) <==> i + 1 == |s.files[f]|
  {
    var (fat', avail') := Splice(s, f, i);
    if i + 1 < |s.files[f]| && Explained(first, fat', avail', f) {
      var s' :| Partition(first, s') && s'.fat == fat' && s'.avail == avail' && f in s'.files;
      SpliceAliases(first, s, f, i);
      var path := s.files[f] + s.free;
      ChainUnique(fat', s'.files[f], path, 0);
      assert s'.files[f][i + 1] == avail';
      AvailFacts(first, s');
      assert false;
    }
  }

  /** One such input: a file of two blocks cut down to one, with one free block. */
  lemma ShortenExample()
    ensures var s := Fs([0, 0, 3, 0, 0], 4, [4], map[2 := [2, 3]], [RESERVED, RESERVED, 2, 2, FREE]);
            Partition(2, s) && Splice(s, 2, 0) == ([0, 0, 3, 4, 0], 3) && !Explained(2, [0, 0, 3, 4, 0], 3, 2)
  {
    var s := Fs([0, 0, 3, 0, 0], 4, [4], map[2 := [2, 3]], [RESERVED, RESERVED, 2, 2, FREE]);
    assert Link(s.fat, s.free, 0) && Link(s.fat, s.files[2], 0) && Link(s.fat, s.files[2], 1);
    assert Covered(2, s.owner, s.free, s.files) by {
      assert s.files[2][0] == 2 && s.files[2][1] == 3 && s.free[0] == 4;
    }
    assert s.fat[3 := 4] == [0, 0, 3, 4, 0];
    ShortenExact(2, s, 2, 0);
  }

  /** What the stale link leads to: the next block handed out to a new file is also the last block of
      the shortened file. */
  lemma ShortenThenCreate(first: int, s: Fs, f: int, i: nat)
    requires Partition(first, s) && f in s.files && i + 1 < |s.files[f]|
    requires 0 <= s.files[f][|s.files[f]| - 1] < |s.fat|
    ensures var (fat', avail') := Splice(s, f, i);
            && 0 < avail' < |fat'|
            && Chain(fat'[avail' := 0], avail', [avail'])
            && Chain(fat'[avail' := 0], f, s.files[f][..i + 2]) && s.files[f][..i + 2][i + 1] == avail'
  {
    var c := s.files[f];
    var (fat', avail') := Splice(s, f, i);
    SpliceAliases(first, s, f, i);
    var path := c + s.free;
    assert Link(fat', path, i + 1);
    var fat'' := fat'[avail' := 0];
    assert Link(fat'', [avail'], 0);
    var shared := c[..i + 2];
    forall k | 0 <= k < |shared|
      ensures Link(fat'', shared, k)
    {
      assert Link(fat', path, k);
      if k < i + 1 {
        ChainDistinct(fat', path, k, i + 1);
      }
    }
    FileStart(first, s, f);
  }

  /** The repair: cutting the link keeps the partition, for every shortening. */
  lemma CutPartition(first: int, s: Fs, f: int, i: nat)
    requires Partition(first, s) && f in s.files && i < |s.files[f]|
    requires forall k :: 0 <= k < |s.files[f]| ==> 0 <= s.files[f][k] < |s.fat|
    ensures Partition(first, SpliceAndCut(s, f, i))
  {
    var c, s' := s.files[f], SpliceAndCut(s, f, i);
    FileStart(first, s, f);
    CutFree(first, s, f, i);
    forall g | g in s'.files
      ensures s'.files[g] != [] && Chain(s'.fat, g, s'.files[g])
    {
      if g == f {
        CutFile(first, s, f, i);
      } else {
        assert s.owner[c[i]] == f && s.owner[c[|c| - 1]] == f;
        OtherFile(first, s, g, s'.fat);
      }
    }
    CutOwned(first, s, f, i);
    CutCovered(first, s, f, i);
  }

  lemma CutFree(first: int, s: Fs, f: int, i: nat)
    requires Partition(first, s) && f in s.files && i < |s.files[f]|
    requires forall k :: 0 <= k < |s.files[f]| ==> 0 <= s.files[f][k] < |s.fat|
    ensures var s' := SpliceAndCut(s, f, i); Chain(s'.fat, s'.avail, s'.free)
  {
    var c, s' := s.files[f], SpliceAndCut(s, f, i);
    var (fat', avail') := Splice(s, f, i);
    SpliceFree(first, s, f, i);
    forall k | 0 <= k < |s'.free|
      ensures s'.free[k] != c[i]
    {
      if k < |c| - i - 1 {
        ChainDistinct(s.fat, c, i, i + 1 + k);
      } else {
        assert s'.free[k] == s.free[k - (|c| - i - 1)];
        assert s.owner[c[i]] == f;
        FileStart(first, s, f);
      }
    }
    ChainKept(fat', s'.fat, avail', s'.free);
  }

  lemma CutFile(first: int, s: Fs, f: int, i: nat)
    requires Partition(first, s) && f in s.files && i < |s.files[f]|
    requires forall k :: 0 <= k < |s.files[f]| ==> 0 <= s.files[f][k] < |s.fat|
    ensures var s' := SpliceAndCut(s, f, i); Chain(s'.fat, f, s'.files[f])
  {
    var c, s' := s.files[f], SpliceAndCut(s, f, i);
    var kept := c[..i + 1];
    forall k | 0 <= k < |kept|
      ensures Link(s'.fat, kept, k)
    {
      assert Link(s.fat, c, k);
      if k < i {
        ChainDistinct(s.fat, c, k, i);
      }
      if k < |c| - 1 {
        ChainDistinct(s.fat, c, k, |c| - 1);
      }
    }
    FileStart(first, s, f);
  }

  lemma CutOwned(first: int, s: Fs, f: int, i: nat)
    requires Partition(first, s) && f in s.files && i < |s.files[f]|
    requires forall k :: 0 <= k < |s.files[f]| ==> 0 <= s.files[f][k] < |s.fat|
    ensures var s' := SpliceAndCut(s, f, i); Owned(s'.owner, s'.free, s'.files)
  {
    var c, s' := s.files[f], SpliceAndCut(s, f, i);
    var tail := c[i + 1..];
    forall k | 0 <= k < |s'.free|
      ensures 0 < s'.free[k] < |s'.owner| && s'.owner[s'.free[k]] == FREE
    {
      if k < |tail| {
        assert s'.free[k] == tail[k] && tail[k] in tail && s'.free[k] == c[i + 1 + k];
      } else {
        assert s'.free[k] == s.free[k - |tail|];
      }
    }
    forall g, k {:trigger s'.files[g][k]} | g in s'.files && 0 <= k < |s'.files[g]|
      ensures 0 < s'.files[g][k] < |s'.owner| && s'.owner[s'.files[g][k]] == g
    {
      var b := s'.files[g][k];
      assert b == s.files[g][k];
      if b in tail {
        var j :| 0 <= j < |tail| && tail[j] == b;
        assert c[i + 1 + j] == b;
        ChainDistinct(s.fat, c, k, i + 1 + j);
      }
    }
  }

  lemma CutCovered(first: int, s: Fs, f: int, i: nat)
    requires Partition(first, s) && f in s.files && i < |s.files[f]|
    requires forall k :: 0 <= k < |s.files[f]| ==> 0 <= s.files[f][k] < |s.fat|
    ensures var s' := SpliceAndCut(s, f, i); Covered(first, s'.owner, s'.free, s'.files)
  {
    var c, s' := s.files[f], SpliceAndCut(s, f, i);
    var tail := c[i + 1..];
    FileStart(first, s, f);
    forall b | 0 <= b < |s'.owner|
      ensures if b < first then s'.owner[b] == RESERVED
              else if s'.owner[b] == FREE then b in s'.free
              else s'.owner[b] in s'.files && b in s'.files[s'.owner[b]]
    {
      if b in tail {
        var j :| 0 <= j < |tail| && tail[j] == b;
        assert s.owner[c[i + 1 + j]] == f;
      } else {
        assert c == c[..i + 1] + tail;
        assert s.owner[b] == f ==> (b in c ==> b in c[..i + 1]);
      }
    }
  }
}
