/** The block layout that the boundary-tag heap keeps in its array, as a value.

    The blocks are a map from the header index of each block to its signed size (negative: taken,
    positive: available, as in the header word); the free list holds headers in list order. */
module HeapModel {
  import opened Collections

  type Blocks = map<int, int>

  datatype Layout = Layout(len: int, blocks: Blocks, free: seq<int>)

  function Abs(x: int): int {
    if x < 0 then -x else x
  }

  /** The index just behind block i. */
  function End(b: Blocks, i: int): int
    requires i in b
  {
    i + Abs(b[i])
  }

  /** Blocks lie inside the array and do not overlap. */
  ghost predicate Spaced(len: int, b: Blocks) {
    && (forall i {:trigger i in b} :: i in b ==> 0 <= i && 2 <= Abs(b[i]) && i + Abs(b[i]) <= len)
    && (forall i, j {:trigger End(b, i), j in b} :: i in b && j in b && i < j ==> End(b, i) <= j)
  }

  /** The list holds distinct blocks with room for two links. */
  ghost predicate Fits(b: Blocks, free: seq<int>) {
    && NoDup(free)
    && (forall k :: 0 <= k < |free| ==> free[k] in b && 0 < free[k] && 4 <= b[free[k]])
  }

  /** Every block ends where another begins, or at the end of the array. */
  ghost predicate Tiled(len: int, b: Blocks) {
    forall i {:trigger End(b, i)} :: i in b ==> End(b, i) == len || End(b, i) in b
  }

  /** Two taken blocks of size 2 stand at the ends; all others have room for two links. */
  ghost predicate Sentinels(len: int, b: Blocks) {
    && 8 <= len
    && 0 in b && b[0] == -2
    && len - 2 in b && b[len - 2] == -2
    && forall i {:trigger i in b} :: i in b && i != 0 && i != len - 2 ==> 4 <= Abs(b[i])
  }

  /** No two available blocks touch. */
  ghost predicate Merged(b: Blocks) {
    forall i {:trigger End(b, i)} :: i in b && 0 < b[i] && End(b, i) in b ==> b[End(b, i)] < 0
  }

  /** The list holds exactly the available blocks. */
  ghost predicate Listed(b: Blocks, free: seq<int>) {
    && NoDup(free)
    && (forall i {:trigger i in b} :: i in b && 0 < b[i] ==> i in free)
    && (forall k :: 0 <= k < |free| ==> free[k] in b && 0 < b[free[k]])
  }

  ghost predicate Valid(h: Layout) {
    && Spaced(h.len, h.blocks)
    && Tiled(h.len, h.blocks)
    && Sentinels(h.len, h.blocks)
    && Merged(h.blocks)
    && Listed(h.blocks, h.free)
  }

  /** A block that some caller of malloc holds. */
  predicate Live(h: Layout, i: int) {
    i in h.blocks && h.blocks[i] < 0 && i != 0 && i != h.len - 2
  }

  // ---------------------------------------------------------------- operations

  /** The heap that init makes of `len` words. */
  function Initial(len: int): (h: Layout)
    ensures 8 <= len ==> Valid(h)
  {
    var b: Blocks := map[0 := -2, 2 := len - 4, len - 2 := -2];
    assert 8 <= len ==> End(b, 0) == 2 && End(b, 2) == len - 2 && End(b, len - 2) == len;
    Layout(len, b, [2])
  }

  /** The position in the list of the first block of at least `ints` words. */
  function FirstFit(b: Blocks, free: seq<int>, ints: int, from: nat): (r: Option<nat>)
    requires from <= |free|
    requires forall k :: 0 <= k < |free| ==> free[k] in b
    ensures r.Some? ==> from <= r.value < |free| && ints <= Abs(b[free[r.value]])
    ensures r.Some? ==> forall k :: from <= k < r.value ==> Abs(b[free[k]]) < ints
    ensures r.None? ==> forall k :: from <= k < |free| ==> Abs(b[free[k]]) < ints
    decreases |free| - from
  {
    if from == |free| then None
    else if ints <= Abs(b[free[from]]) then Some(from)
    else FirstFit(b, free, ints, from + 1)
  }

  function Without(s: seq<int>, x: int): (r: seq<int>)
    ensures forall y :: y in r ==> y in s
    ensures forall y :: y in s && y != x ==> y in r
  {
    if s == [] then []
    else if s[0] == x then s[1..]
    else
      assert forall y :: y in s[1..] ==> y in s;
      [s[0]] + Without(s[1..], x)
  }

  /** The blocks after [i, i + n) has become one available block. */
  function Cover(b: Blocks, i: int, n: int): Blocks {
    (map j | j in b && !(i <= j < i + n) :: b[j])[i := n]
  }

  /** The blocks after taking `ints` words from p, which is split when at least 4 words remain. */
  function Take(b: Blocks, p: int, ints: int): Blocks
    requires p in b
  {
    var sz := Abs(b[p]);
    if 4 <= sz - ints then Cover(b[p := -ints], p + ints, sz - ints) else b[p := -sz]
  }

  function TakeFrom(h: Layout, p: int, ints: int): Layout
    requires p in h.blocks
  {
    var rest := Without(h.free, p);
    Layout(h.len, Take(h.blocks, p, ints), if 4 <= Abs(h.blocks[p]) - ints then [p + ints] + rest else rest)
  }

  /** Taking `ints` words from the first block of the list that has them. */
  function Allocate(h: Layout, ints: int): (r: (Layout, Option<int>))
    requires forall k :: 0 <= k < |h.free| ==> h.free[k] in h.blocks
  {
    var k := FirstFit(h.blocks, h.free, ints, 0);
    if k.None? then (h, None) else (TakeFrom(h, h.free[k.value], ints), Some(h.free[k.value]))
  }

  // ---------------------------------------------------------------- sequences

  lemma {:induction false} WithoutNoDup(s: seq<int>, x: int)
    requires NoDup(s)
    ensures NoDup(Without(s, x)) && x !in Without(s, x)
  {
    if s != [] && s[0] != x {
      WithoutNoDup(s[1..], x);
      assert s[0] !in s[1..];
      assert s[0] !in Without(s[1..], x);
    }
  }

  lemma ConsNoDup(x: int, s: seq<int>)
    requires NoDup(s) && x !in s
    ensures NoDup([x] + s)
  {
    forall i, j | 0 <= i < j < |s| + 1
      ensures ([x] + s)[i] != ([x] + s)[j]
    {
      assert ([x] + s)[j] == s[j - 1] && s[j - 1] in s;
    }
  }

  // ---------------------------------------------------------------- the invariant is kept

  /** Every block lies outside [lo, hi) or entirely inside. */
  ghost predicate Aligned(b: Blocks, lo: int, hi: int) {
    forall j {:trigger j in b} :: j in b ==> j + Abs(b[j]) <= lo || (lo <= j && j + Abs(b[j]) <= hi) || hi <= j
  }

  lemma SpacedRetag(len: int, b: Blocks, p: int, tag: int)
    requires Spaced(len, b) && p in b && 2 <= Abs(tag) <= Abs(b[p])
    ensures Spaced(len, b[p := tag])
  {
    var b' := b[p := tag];
    assert forall i {:trigger End(b', i)} :: i in b ==> End(b', i) <= End(b, i);
  }

  lemma SpacedCover(len: int, b: Blocks, i: int, n: int)
    requires Spaced(len, b) && 0 <= i && 2 <= n && i + n <= len && Aligned(b, i, i + n)
    ensures Spaced(len, Cover(b, i, n))
  {
    var b' := Cover(b, i, n);
    assert forall j {:trigger End(b', j)} :: j in b' && j != i ==> End(b', j) == End(b, j);
  }

  lemma CutAligned(len: int, b: Blocks, p: int, ints: int)
    requires Spaced(len, b) && p in b && 2 <= ints <= Abs(b[p])
    ensures Aligned(b[p := -ints], p + ints, p + Abs(b[p]))
  {
    assert End(b, p) == p + Abs(b[p]);
    assert forall j {:trigger j in b} :: j in b && j < p ==> End(b, j) <= p;
  }

  lemma TakeSpaced(len: int, b: Blocks, p: int, ints: int)
    requires Spaced(len, b) && p in b && 4 <= ints <= Abs(b[p])
    ensures Spaced(len, Take(b, p, ints))
  {
    assert 0 <= p && p + Abs(b[p]) <= len;
    hide Spaced;
    hide Aligned;
    if 4 <= Abs(b[p]) - ints {
      SpacedRetag(len, b, p, -ints);
      CutAligned(len, b, p, ints);
      SpacedCover(len, b[p := -ints], p + ints, Abs(b[p]) - ints);
    } else {
      SpacedRetag(len, b, p, -Abs(b[p]));
    }
  }

  lemma TakeTiled(len: int, b: Blocks, p: int, ints: int)
    requires Spaced(len, b) && Tiled(len, b) && p in b && 4 <= ints <= Abs(b[p])
    ensures Tiled(len, Take(b, p, ints))
  {
    var b' := Take(b, p, ints);
    assert End(b, p) == p + Abs(b[p]);
    forall j | j in b'
      ensures End(b', j) == len || End(b', j) in b'
    {
      if j in b && j != p {
        assert End(b', j) == End(b, j);
      }
    }
  }

  lemma TakeMerged(len: int, b: Blocks, p: int, ints: int)
    requires Spaced(len, b) && Tiled(len, b) && Merged(b) && p in b && 0 < b[p] && 4 <= ints <= b[p]
    ensures Merged(Take(b, p, ints))
  {
    var b' := Take(b, p, ints);
    assert End(b, p) == p + b[p];
    forall j | j in b' && 0 < b'[j] && End(b', j) in b'
      ensures b'[End(b', j)] < 0
    {
      if j in b && j != p {
        assert End(b', j) == End(b, j);
      } else {
        assert End(b', j) == End(b, p);
      }
    }
  }

  lemma TakeListed(len: int, b: Blocks, free: seq<int>, p: int, ints: int)
    requires Spaced(len, b) && Listed(b, free) && p in b && 0 < b[p] && 4 <= ints <= b[p]
    ensures Listed(Take(b, p, ints), TakeFrom(Layout(len, b, free), p, ints).free)
  {
    var rest, b' := Without(free, p), Take(b, p, ints);
    WithoutNoDup(free, p);
    assert End(b, p) == p + b[p];
    forall k | 0 <= k < |rest|
      ensures rest[k] in b && rest[k] in b' && 0 < b'[rest[k]]
    {
      assert rest[k] in rest && rest[k] in free;
      assert b'[rest[k]] == b[rest[k]];
    }
    if 4 <= b[p] - ints {
      ConsListed(b', rest, p + ints);
    }
  }

  lemma ConsListed(b': Blocks, rest: seq<int>, q: int)
    requires NoDup(rest) && q !in rest && q in b' && 0 < b'[q]
    requires forall k :: 0 <= k < |rest| ==> rest[k] in b' && 0 < b'[rest[k]]
    requires forall i {:trigger i in b'} :: i in b' && 0 < b'[i] ==> i == q || i in rest
    ensures Listed(b', [q] + rest)
  {
    ConsNoDup(q, rest);
    var free' := [q] + rest;
    assert forall k :: 0 < k < |free'| ==> free'[k] == rest[k - 1];
  }

  lemma TakeSentinels(len: int, b: Blocks, p: int, ints: int)
    requires Sentinels(len, b) && Spaced(len, b) && p in b && 0 < b[p] && 4 <= ints <= b[p]
    ensures Sentinels(len, Take(b, p, ints))
  {
    assert End(b, p) == p + b[p];
    assert End(b, p) <= len - 2 || len - 2 < p;
  }

  lemma TakeValid(h: Layout, p: int, ints: int)
    requires Valid(h) && p in h.free && 4 <= ints <= Abs(h.blocks[p])
    ensures Valid(TakeFrom(h, p, ints))
  {
    TakeSpaced(h.len, h.blocks, p, ints);
    TakeTiled(h.len, h.blocks, p, ints);
    TakeSentinels(h.len, h.blocks, p, ints);
    TakeMerged(h.len, h.blocks, p, ints);
    TakeListed(h.len, h.blocks, h.free, p, ints);
  }

  lemma AllocateValid(h: Layout, ints: int)
    requires Valid(h) && 4 <= ints
    ensures Valid(Allocate(h, ints).0)
  {
    var k := FirstFit(h.blocks, h.free, ints, 0);
    if k.Some? {
      TakeValid(h, h.free[k.value], ints);
    }
  }

  // ---------------------------------------------------------------- releasing

  /** Walking right from any block to its left meets the left neighbour of i. */
  lemma {:induction false} LeftExists(len: int, b: Blocks, from: int, i: int)
    requires Spaced(len, b) && Tiled(len, b) && from in b && i in b && from < i
    ensures exists j :: j in b && End(b, j) == i
    decreases i - from
  {
    if End(b, from) != i {
      LeftExists(len, b, End(b, from), i);
    }
  }

  /** The block that ends at i. */
  ghost function LeftOf(len: int, b: Blocks, i: int): (j: int)
    requires Spaced(len, b) && Tiled(len, b) && 0 in b && i in b && 0 < i
    ensures j in b && End(b, j) == i
  {
    LeftExists(len, b, 0, i);
    var j :| j in b && End(b, j) == i;
    j
  }

  /** Releasing block i between l and r: it is merged with those of them that are available. */
  function Join(h: Layout, l: int, i: int, r: int): Layout
    requires l in h.blocks && i in h.blocks && r in h.blocks
  {
    var lo, hi := Low(h.blocks, l, i), High(h.blocks, r);
    Layout(h.len, Cover(h.blocks, lo, hi - lo), [lo] + Unlist(h.blocks, Unlist(h.blocks, h.free, l), r))
  }

  function Low(b: Blocks, l: int, i: int): int
    requires l in b
  {
    if 0 < b[l] then l else i
  }

  function High(b: Blocks, r: int): int
    requires r in b
  {
    if 0 < b[r] then End(b, r) else r
  }

  /** What block x adds to a neighbour that is freed. */
  function Room(b: Blocks, x: int): int
    requires x in b
  {
    if 0 < b[x] then b[x] else 0
  }

  /** The list without block x, when x is available. */
  function Unlist(b: Blocks, free: seq<int>, x: int): seq<int>
    requires x in b
  {
    if 0 < b[x] then Without(free, x) else free
  }

  ghost function Release(h: Layout, i: int): Layout
    requires Valid(h) && Live(h, i)
  {
    LiveInside(h, i);
    Join(h, LeftOf(h.len, h.blocks, i), i, End(h.blocks, i))
  }

  lemma LiveInside(h: Layout, i: int)
    requires Valid(h) && Live(h, i)
    ensures 2 <= i && End(h.blocks, i) in h.blocks && End(h.blocks, i) <= h.len - 2
    ensures exists j :: j in h.blocks && End(h.blocks, j) == i
  {
    assert End(h.blocks, 0) == 2;
    LeftExists(h.len, h.blocks, 0, i);
  }

  lemma LeftUnique(h: Layout, j: int, i: int)
    requires Valid(h) && i in h.blocks && 0 < i && j in h.blocks && End(h.blocks, j) == i
    ensures j == LeftOf(h.len, h.blocks, i)
  {
  }

  lemma HeadsAlign(len: int, b: Blocks, lo: int, hi: int)
    requires Spaced(len, b) && lo in b && hi in b
    ensures Aligned(b, lo, hi)
  {
    assert forall j {:trigger j in b} :: j in b ==> End(b, j) == j + Abs(b[j]);
  }

  lemma CoverTiled(len: int, b: Blocks, lo: int, hi: int)
    requires Spaced(len, b) && Tiled(len, b) && lo in b && hi in b && lo < hi
    ensures Tiled(len, Cover(b, lo, hi - lo))
  {
    var b' := Cover(b, lo, hi - lo);
    forall j | j in b'
      ensures End(b', j) == len || End(b', j) in b'
    {
      if j != lo {
        assert End(b', j) == End(b, j);
      }
    }
  }

  lemma CoverMerged(len: int, b: Blocks, l: int, lo: int, hi: int)
    requires Spaced(len, b) && Tiled(len, b) && Merged(b) && l in b && lo in b && hi in b && lo < hi
    requires End(b, l) == lo && b[l] < 0 && b[hi] < 0
    ensures Merged(Cover(b, lo, hi - lo))
  {
    var b' := Cover(b, lo, hi - lo);
    forall j | j in b' && 0 < b'[j] && End(b', j) in b'
      ensures b'[End(b', j)] < 0
    {
      if j != lo {
        assert End(b', j) == End(b, j);
        if j < l {
          assert End(b, j) <= l;
        }
        assert End(b, j) != lo;
      }
    }
  }

  lemma CoverSentinels(len: int, b: Blocks, lo: int, hi: int)
    requires Sentinels(len, b) && Spaced(len, b) && lo in b && hi in b && lo + 4 <= hi && 2 <= lo && hi <= len - 2
    ensures Sentinels(len, Cover(b, lo, hi - lo))
  {
  }

  lemma CoverListed(b: Blocks, free: seq<int>, rest: seq<int>, lo: int, hi: int)
    requires Listed(b, free) && lo < hi && NoDup(rest)
    requires forall x :: x in rest ==> x in free && !(lo <= x < hi)
    requires forall x :: x in free && !(lo <= x < hi) ==> x in rest
    ensures Listed(Cover(b, lo, hi - lo), [lo] + rest)
  {
    ConsNoDup(lo, rest);
    var b', free' := Cover(b, lo, hi - lo), [lo] + rest;
    forall k | 0 <= k < |free'|
      ensures free'[k] in b' && 0 < b'[free'[k]]
    {
      if 0 < k {
        assert free'[k] == rest[k - 1] && rest[k - 1] in rest;
      }
    }
  }

  /** Between the bounds that Join covers there are only the blocks it joins. */
  lemma JoinInside(h: Layout, l: int, i: int, j: int)
    requires Valid(h) && Live(h, i) && l in h.blocks && End(h.blocks, l) == i && j in h.blocks && l <= j
    requires End(h.blocks, i) in h.blocks && j < End(h.blocks, End(h.blocks, i))
    ensures j == l || j == i || j == End(h.blocks, i)
  {
    var r := End(h.blocks, i);
    assert l < j ==> End(h.blocks, l) <= j;
    assert i < j ==> End(h.blocks, i) <= j;
  }

  lemma UnlistSpec(b: Blocks, free: seq<int>, x: int)
    requires NoDup(free) && x in b && (x in free ==> 0 < b[x])
    ensures NoDup(Unlist(b, free, x))
    ensures forall y :: y in Unlist(b, free, x) <==> y in free && y != x
  {
    WithoutNoDup(free, x);
  }

  /** The region that Join covers can be made one block once the neighbours are off the list; the
      only taken block in it is i. */
  ghost predicate Joinable(h: Layout, l: int, i: int, r: int) {
    && l in h.blocks && i in h.blocks && r in h.blocks
    && var lo, hi := Low(h.blocks, l, i), High(h.blocks, r);
       && Aligned(h.blocks, lo, hi) && 2 <= lo && lo + 4 <= hi <= h.len
       && hi - lo == Abs(h.blocks[i]) + Room(h.blocks, l) + Room(h.blocks, r)
       && (0 < h.blocks[l] ==> l in h.free)
       && (0 < h.blocks[r] ==> r in Unlist(h.blocks, h.free, l))
       && (forall x :: x in Unlist(h.blocks, Unlist(h.blocks, h.free, l), r) ==> !(lo <= x < hi))
       && (forall j :: j in h.blocks && h.blocks[j] < 0 && lo <= j < hi ==> j == i)
  }

  lemma JoinInsideAll(h: Layout, l: int, i: int)
    requires Valid(h) && Live(h, i) && l in h.blocks && End(h.blocks, l) == i && End(h.blocks, i) in h.blocks
    ensures var r := End(h.blocks, i);
            forall j :: j in h.blocks && Low(h.blocks, l, i) <= j < High(h.blocks, r) ==>
              j == i || (j == l && 0 < h.blocks[l]) || (j == r && 0 < h.blocks[r])
  {
    var r := End(h.blocks, i);
    forall j | j in h.blocks && Low(h.blocks, l, i) <= j < High(h.blocks, r)
      ensures j == l || j == i || j == r
    {
      JoinInside(h, l, i, j);
    }
  }

  lemma JoinUnlist(h: Layout, l: int, r: int)
    requires Listed(h.blocks, h.free) && l in h.blocks && r in h.blocks && l != r
    ensures var rest := Unlist(h.blocks, Unlist(h.blocks, h.free, l), r);
            NoDup(rest) && forall x :: x in rest <==> x in h.free && x != l && x != r
    ensures 0 < h.blocks[r] ==> r in Unlist(h.blocks, h.free, l)
  {
    UnlistSpec(h.blocks, h.free, l);
    UnlistSpec(h.blocks, Unlist(h.blocks, h.free, l), r);
  }

  lemma JoinLists(h: Layout, l: int, i: int)
    requires Valid(h) && Live(h, i) && l in h.blocks
    ensures Listed(h.blocks, h.free) && Spaced(h.len, h.blocks)
    ensures (0 < h.blocks[l] ==> l in h.free) && i !in h.free && i in h.blocks
  {
  }

  lemma JoinReady(h: Layout, l: int, i: int)
    requires Valid(h) && Live(h, i) && l in h.blocks && End(h.blocks, l) == i && End(h.blocks, i) in h.blocks
    ensures Joinable(h, l, i, End(h.blocks, i))
  {
    hide Valid;
    hide Listed;
    hide Spaced;
    hide Aligned;
    hide Unlist;
    hide Live;
    JoinLists(h, l, i);
    var r := End(h.blocks, i);
    var k := JoinBounds(h, l, i);
    HeadsAlign(h.len, h.blocks, Low(h.blocks, l, i), High(h.blocks, r));
    JoinUnlist(h, l, r);
    JoinInsideAll(h, l, i);
  }

  lemma JoinListed(h: Layout, l: int, i: int)
    requires Valid(h) && Live(h, i) && l in h.blocks && End(h.blocks, l) == i && End(h.blocks, i) in h.blocks
    ensures var h' := Join(h, l, i, End(h.blocks, i)); Listed(h'.blocks, h'.free)
  {
    var r := End(h.blocks, i);
    assert Listed(h.blocks, h.free) && l < r;
    assert i !in h.free;
    hide Valid;
    hide Listed;
    hide Unlist;
    hide NoDup;
    hide Live;
    JoinUnlist(h, l, r);
    JoinInsideAll(h, l, i);
    var k := JoinBounds(h, l, i);
    CoverListed(h.blocks, h.free, Unlist(h.blocks, Unlist(h.blocks, h.free, l), r), Low(h.blocks, l, i),
                High(h.blocks, r));
  }

  lemma JoinBounds(h: Layout, l: int, i: int) returns (k: int)
    requires Valid(h) && Live(h, i) && l in h.blocks && End(h.blocks, l) == i && End(h.blocks, i) in h.blocks
    ensures var r := End(h.blocks, i);
            var lo, hi := Low(h.blocks, l, i), High(h.blocks, r);
            && lo in h.blocks && hi in h.blocks && 2 <= lo && lo + 4 <= hi <= h.len - 2 && h.blocks[hi] < 0
            && k in h.blocks && End(h.blocks, k) == lo && h.blocks[k] < 0
  {
    var r := End(h.blocks, i);
    LiveInside(h, i);
    assert End(h.blocks, 0) == 2;
    k := if 0 < h.blocks[l] then LeftOf(h.len, h.blocks, l) else l;
  }

  lemma CoverShape(len: int, b: Blocks, k: int, lo: int, hi: int)
    requires Spaced(len, b) && Tiled(len, b) && Sentinels(len, b) && Merged(b)
    requires lo in b && hi in b && 2 <= lo && lo + 4 <= hi <= len - 2 && b[hi] < 0
    requires k in b && End(b, k) == lo && b[k] < 0
    ensures var b' := Cover(b, lo, hi - lo); Spaced(len, b') && Tiled(len, b') && Sentinels(len, b') && Merged(b')
  {
    HeadsAlign(len, b, lo, hi);
    SpacedCover(len, b, lo, hi - lo);
    CoverTiled(len, b, lo, hi);
    CoverSentinels(len, b, lo, hi);
    CoverMerged(len, b, k, lo, hi);
  }

  lemma JoinShape(h: Layout, l: int, i: int)
    requires Valid(h) && Live(h, i) && l in h.blocks && End(h.blocks, l) == i && End(h.blocks, i) in h.blocks
    ensures var b' := Join(h, l, i, End(h.blocks, i)).blocks;
            Spaced(h.len, b') && Tiled(h.len, b') && Sentinels(h.len, b') && Merged(b')
  {
    assert Spaced(h.len, h.blocks) && Tiled(h.len, h.blocks) && Sentinels(h.len, h.blocks) && Merged(h.blocks);
    hide Valid;
    hide Spaced;
    hide Tiled;
    hide Sentinels;
    hide Merged;
    hide Cover;
    var r := End(h.blocks, i);
    var k := JoinBounds(h, l, i);
    var lo, hi := Low(h.blocks, l, i), High(h.blocks, r);
    CoverShape(h.len, h.blocks, k, lo, hi);
  }

  lemma ReleaseValid(h: Layout, i: int)
    requires Valid(h) && Live(h, i)
    ensures Valid(Release(h, i))
  {
    LiveInside(h, i);
    JoinShape(h, LeftOf(h.len, h.blocks, i), i);
    JoinListed(h, LeftOf(h.len, h.blocks, i), i);
  }
}
