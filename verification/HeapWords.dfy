/** How a layout is laid down in the words of the heap array, and what each group of writes does
    to it. */
module HeapWords {
  import opened Collections
  import opened HeapModel

  /** Header and footer of every block hold its tag. */
  ghost predicate Tags(a: seq<int>, b: Blocks) {
    forall i {:trigger i in b} :: i in b ==>
      0 <= i && 2 <= Abs(b[i]) && i + Abs(b[i]) <= |a| && a[i] == b[i] && a[i + Abs(b[i]) - 1] == b[i]
  }

  function NextOf(free: seq<int>, k: int): int
    requires 0 <= k < |free|
  {
    if k + 1 < |free| then free[k + 1] else 0
  }

  function PrevOf(free: seq<int>, k: int): int
    requires 0 <= k < |free|
  {
    if 0 < k then free[k - 1] else 0
  }

  function HeadOf(free: seq<int>): int {
    if free == [] then 0 else free[0]
  }

  /** The k-th node of the list names its neighbours, 0 standing for none. */
  ghost predicate Node(a: seq<int>, free: seq<int>, k: int) {
    && 0 <= k < |free|
    && 0 < free[k] && free[k] + 3 < |a|
    && a[free[k] + 1] == NextOf(free, k)
    && a[free[k] + 2] == PrevOf(free, k)
  }

  /** The doubly linked list threaded through the available blocks. */
  ghost predicate Links(a: seq<int>, avail: int, free: seq<int>) {
    avail == HeadOf(free) && forall k {:trigger Node(a, free, k)} :: 0 <= k < |free| ==> Node(a, free, k)
  }

  /** The k-th entry of the list, 0 behind its end. */
  function HeadAt(free: seq<int>, k: int): int
    requires 0 <= k
  {
    if k < |free| then free[k] else 0
  }

  ghost predicate Stored(a: seq<int>, avail: int, h: Layout) {
    && h.len == |a|
    && Spaced(h.len, h.blocks)
    && Fits(h.blocks, h.free)
    && Tags(a, h.blocks)
    && Links(a, avail, h.free)
  }

  /** x holds a link of a block of the list. */
  predicate IsLink(free: seq<int>, x: int) {
    x - 1 in free || x - 2 in free
  }

  /** Outside [lo, hi) only links of the list have been written. */
  ghost predicate OnlyLinks(a: seq<int>, a': seq<int>, free: seq<int>, lo: int, hi: int) {
    && |a'| == |a|
    && forall x {:trigger a'[x]} :: 0 <= x < |a| && !(lo <= x < hi) && !IsLink(free, x) ==> a'[x] == a[x]
  }

  /** Tags and the contents of taken blocks are never links. */
  lemma NotLink(len: int, b: Blocks, free: seq<int>, j: int, x: int)
    requires Spaced(len, b) && Fits(b, free) && j in b && j <= x < End(b, j)
    requires b[j] < 0 || x == j || x == End(b, j) - 1
    ensures !IsLink(free, x)
  {
    forall f | f in free
      ensures x != f + 1 && x != f + 2
    {
      assert End(b, f) == f + b[f];
      assert f < j ==> End(b, f) <= j;
      assert j < f ==> End(b, j) <= f;
    }
  }

  /** Writing the tags of one block and links of the list keeps all other tags. */
  lemma TagsKept(a: seq<int>, a': seq<int>, h: Layout, b': Blocks, lo: int, n: int)
    requires Spaced(|a|, h.blocks) && Fits(h.blocks, h.free) && Tags(a, h.blocks)
    requires 0 <= lo && 2 <= n && lo + n <= |a| && OnlyLinks(a, a', h.free, lo, lo + n)
    requires lo in b' && Abs(b'[lo]) == n && a'[lo] == b'[lo] && a'[lo + n - 1] == b'[lo]
    requires forall j {:trigger j in b'} :: j in b' && j != lo ==>
               j in h.blocks && b'[j] == h.blocks[j] && (j + Abs(b'[j]) <= lo || lo + n <= j)
    ensures Tags(a', b')
  {
    forall j | j in b' && j != lo
      ensures 0 <= j && 2 <= Abs(b'[j]) && j + Abs(b'[j]) <= |a|
      ensures a'[j] == b'[j] && a'[j + Abs(b'[j]) - 1] == b'[j]
    {
      NotLink(|a|, h.blocks, h.free, j, j);
      NotLink(|a|, h.blocks, h.free, j, j + Abs(b'[j]) - 1);
    }
  }

  /** The words of the taken blocks outside [lo, hi) are the same in both arrays. */
  ghost predicate TakenSame(b: Blocks, a: seq<int>, a': seq<int>, lo: int, hi: int) {
    && |a'| == |a|
    && forall j, x {:trigger j in b, a'[x]} ::
         j in b && b[j] < 0 && !(lo <= j < hi) && 0 <= j <= x < j + Abs(b[j]) && x < |a| ==> a'[x] == a[x]
  }

  lemma TakenKept(a: seq<int>, a': seq<int>, h: Layout, lo: int, hi: int)
    requires Spaced(|a|, h.blocks) && Fits(h.blocks, h.free) && Aligned(h.blocks, lo, hi)
    requires OnlyLinks(a, a', h.free, lo, hi)
    ensures TakenSame(h.blocks, a, a', lo, hi)
  {
    forall j, x {:trigger j in h.blocks, a'[x]} |
        j in h.blocks && h.blocks[j] < 0 && !(lo <= j < hi) && 0 <= j <= x < j + Abs(h.blocks[j]) && x < |a|
      ensures a'[x] == a[x]
    {
      NotLink(|a|, h.blocks, h.free, j, x);
    }
  }

  /** No block other than i reaches into [i, i + n). */
  ghost predicate Alone(b: Blocks, i: int, n: int) {
    forall j {:trigger j in b} :: j in b && j != i ==> j + Abs(b[j]) <= i || i + n <= j
  }

  lemma TakenReflexive(b: Blocks, a: seq<int>, lo: int, hi: int)
    ensures TakenSame(b, a, a, lo, hi)
  {
  }

  /** The write of malloc stays inside the available block p. */
  lemma TakenThroughTake(b: Blocks, p: int, ints: int, a0: seq<int>, a1: seq<int>, a2: seq<int>)
    requires Spaced(|a0|, b) && p in b && 0 < b[p] && 2 <= ints <= b[p]
    requires TakenSame(b, a0, a1, 0, 0) && OnlyTags(a1, a2, p, ints)
    ensures TakenSame(b, a0, a2, 0, 0)
  {
    BlockAlone(|a0|, b, p);
  }

  lemma TakenThroughSplit(b: Blocks, p: int, ints: int, a0: seq<int>, a1: seq<int>, a2: seq<int>, a3: seq<int>)
    requires Spaced(|a0|, b) && p in b && 4 <= ints && ints + 4 <= b[p]
    requires TakenSame(b, a0, a1, 0, 0) && OnlyTags(a1, a2, p, ints)
    requires TakenSame(b[p := -ints], a2, a3, p + ints, p + b[p])
    ensures TakenSame(b, a0, a3, 0, 0)
  {
    BlockAlone(|a0|, b, p);
    TakenThroughTake(b, p, ints, a0, a1, a2);
    forall j, x {:trigger j in b, a3[x]} | j in b && b[j] < 0 && 0 <= j <= x < j + Abs(b[j]) && x < |a0|
      ensures a3[x] == a0[x]
    {
      assert j in b[p := -ints];
      assert a2[x] == a0[x];
    }
  }

  lemma TakenTwice(b: Blocks, a0: seq<int>, a1: seq<int>, a2: seq<int>)
    requires TakenSame(b, a0, a1, 0, 0) && TakenSame(b, a1, a2, 0, 0)
    ensures TakenSame(b, a0, a2, 0, 0)
  {
  }

  /** Covering the region that is freed leaves the other taken blocks as they were. */
  lemma TakenThroughFree(b: Blocks, i: int, lo: int, hi: int, a0: seq<int>, a1: seq<int>, a2: seq<int>)
    requires forall j :: j in b && b[j] < 0 && lo <= j < hi ==> j == i
    requires TakenSame(b, a0, a1, 0, 0) && TakenSame(b, a1, a2, lo, hi)
    ensures TakenSame(b, a0, a2, i, i + 1)
  {
  }

  lemma BlockAlone(len: int, b: Blocks, i: int)
    requires Spaced(len, b) && i in b
    ensures Alone(b, i, Abs(b[i]))
  {
    assert End(b, i) == i + Abs(b[i]);
    assert forall j {:trigger j in b} :: j in b ==> End(b, j) == j + Abs(b[j]);
  }

  lemma SpacedPut(len: int, b: Blocks, i: int, tag: int)
    requires Spaced(len, b) && 0 <= i && 2 <= Abs(tag) && i + Abs(tag) <= len && Alone(b, i, Abs(tag))
    ensures Spaced(len, b[i := tag])
  {
    var b' := b[i := tag];
    assert forall j {:trigger End(b', j)} :: j in b' && j != i ==> End(b', j) == End(b, j);
  }

  /** Only the two tags of a block at i have been written. */
  ghost predicate OnlyTags(a: seq<int>, a': seq<int>, i: int, ints: int) {
    |a'| == |a| && forall x {:trigger a'[x]} :: 0 <= x < |a| && x != i && x != i + ints - 1 ==> a'[x] == a[x]
  }

  /** What makeTaken leaves behind. */
  lemma MakeTakenStored(a: seq<int>, a': seq<int>, avail: int, h: Layout, i: int, ints: int)
    requires Stored(a, avail, h) && 0 <= i && 2 <= ints && i + ints <= |a| && Alone(h.blocks, i, ints)
    requires i !in h.free
    requires OnlyTags(a, a', i, ints) && a'[i] == -ints && a'[i + ints - 1] == -ints
    ensures Stored(a', avail, h.(blocks := h.blocks[i := -ints]))
  {
    SpacedPut(h.len, h.blocks, i, -ints);
    TagsKept(a, a', h, h.blocks[i := -ints], i, ints);
    forall k | 0 <= k < |h.free|
      ensures Node(a', h.free, k)
    {
      assert Node(a, h.free, k) && h.free[k] in h.free;
    }
  }

  lemma ConsFits(b: Blocks, free: seq<int>, i: int, ints: int)
    requires Fits(b, free) && 0 < i && 4 <= ints
    requires forall x :: x in free ==> !(i <= x < i + ints)
    ensures Fits(Cover(b, i, ints), [i] + free)
  {
    ConsNoDup(i, free);
    forall k | 0 <= k < |free|
      ensures !(i <= free[k] < i + ints)
    {
      assert free[k] in free;
    }
  }

  /** The nodes of the list do not share words, with each other or with [lo, hi). */
  ghost predicate Apart(free: seq<int>, lo: int, hi: int) {
    && (forall j, k :: 0 <= j < k < |free| ==> free[j] + 4 <= free[k] || free[k] + 4 <= free[j])
    && (forall k :: 0 <= k < |free| ==> free[k] + 4 <= lo || hi <= free[k])
  }

  lemma FitsApart(len: int, b: Blocks, free: seq<int>)
    requires Spaced(len, b) && Fits(b, free)
    ensures Apart(free, 0, 0)
  {
    forall j, k | 0 <= j < k < |free|
      ensures free[j] + 4 <= free[k] || free[k] + 4 <= free[j]
    {
      assert End(b, free[j]) == free[j] + b[free[j]] && End(b, free[k]) == free[k] + b[free[k]];
    }
  }

  lemma ApartFrom(len: int, b: Blocks, free: seq<int>, lo: int, hi: int)
    requires Spaced(len, b) && Fits(b, free) && Aligned(b, lo, hi)
    requires forall x :: x in free ==> !(lo <= x < hi)
    ensures Apart(free, lo, hi)
  {
    FitsApart(len, b, free);
    forall k | 0 <= k < |free|
      ensures free[k] + 4 <= lo || hi <= free[k]
    {
      assert free[k] in free;
    }
  }

  lemma ConsLinks(a: seq<int>, a': seq<int>, avail: int, free: seq<int>, i: int, ints: int)
    requires Links(a, avail, free) && 0 < i && 4 <= ints && i + ints <= |a| && Apart(free, i, i + ints)
    requires |a'| == |a| && a'[i + 1] == avail && a'[i + 2] == 0
    requires avail != 0 ==> 0 <= avail && avail + 2 < |a| && a'[avail + 2] == i
    requires forall x {:trigger a'[x]} ::
               0 <= x < |a| && !(i <= x < i + ints) && (avail == 0 || x != avail + 2) ==> a'[x] == a[x]
    ensures Links(a', i, [i] + free)
  {
    var free' := [i] + free;
    forall k | 0 <= k < |free'|
      ensures Node(a', free', k)
    {
      if 0 < k {
        assert Node(a, free, k - 1) && free'[k] == free[k - 1];
      }
    }
  }

  /** What makeAvail leaves behind. */
  lemma MakeAvailStored(a: seq<int>, a': seq<int>, avail: int, h: Layout, i: int, ints: int)
    requires Stored(a, avail, h) && 0 < i && 4 <= ints && i + ints <= |a| && Aligned(h.blocks, i, i + ints)
    requires forall x :: x in h.free ==> !(i <= x < i + ints)
    requires |a'| == |a| && a'[i] == ints && a'[i + ints - 1] == ints && a'[i + 1] == avail && a'[i + 2] == 0
    requires avail != 0 ==> 0 <= avail && avail + 2 < |a| && a'[avail + 2] == i
    requires forall x {:trigger a'[x]} ::
               0 <= x < |a| && !(i <= x < i + ints) && (avail == 0 || x != avail + 2) ==> a'[x] == a[x]
    ensures Stored(a', i, Layout(h.len, Cover(h.blocks, i, ints), [i] + h.free))
    ensures TakenSame(h.blocks, a, a', i, i + ints)
  {
    var b' := Cover(h.blocks, i, ints);
    SpacedCover(h.len, h.blocks, i, ints);
    ConsFits(h.blocks, h.free, i, ints);
    ApartFrom(h.len, h.blocks, h.free, i, i + ints);
    ConsLinks(a, a', avail, h.free, i, ints);
    assert OnlyLinks(a, a', h.free, i, i + ints);
    TagsKept(a, a', h, b', i, ints);
    TakenKept(a, a', h, i, i + ints);
  }

  lemma {:induction false} WithoutAt(s: seq<int>, k: nat)
    requires NoDup(s) && k < |s|
    ensures Without(s, s[k]) == s[..k] + s[k + 1..]
  {
    if k == 0 {
      assert s[..0] + s[1..] == s[1..];
    } else {
      assert s[0] != s[k];
      WithoutAt(s[1..], k - 1);
      assert s[1..][..k - 1] + s[1..][k..] == s[1..k] + s[k + 1..];
      assert s[..k] + s[k + 1..] == [s[0]] + (s[1..k] + s[k + 1..]);
    }
  }

  /** The nodes p and n have been linked to each other, 0 standing for the ends of the list. */
  ghost predicate Bypassed(a: seq<int>, a': seq<int>, avail: int, avail': int, p: int, n: int) {
    && |a'| == |a|
    && avail' == (if p == 0 then n else avail)
    && (p != 0 ==> 0 < p && p + 1 < |a| && a'[p + 1] == n)
    && (n != 0 ==> 0 < n && n + 2 < |a| && a'[n + 2] == p)
    && forall x {:trigger a'[x]} :: 0 <= x < |a| && (p == 0 || x != p + 1) && (n == 0 || x != n + 2) ==> a'[x] == a[x]
  }

  ghost predicate Unlinked(a: seq<int>, a': seq<int>, avail: int, avail': int, free: seq<int>, k: int)
    requires 0 <= k < |free|
  {
    Bypassed(a, a', avail, avail', PrevOf(free, k), NextOf(free, k))
  }

  /** The neighbours of a node can be linked to each other inside the array. */
  lemma Neighbours(a: seq<int>, avail: int, h: Layout, k: nat)
    requires Stored(a, avail, h) && k < |h.free|
    ensures var p, n := PrevOf(h.free, k), NextOf(h.free, k);
            0 <= p && p + 3 < |a| && 0 <= n && n + 3 < |a| && (p != 0 && n != 0 ==> p + 1 != n + 2)
  {
    FitsApart(h.len, h.blocks, h.free);
    assert 0 < k ==> Node(a, h.free, k - 1);
    assert k + 1 < |h.free| ==> Node(a, h.free, k + 1);
  }

  lemma UnlinkedNode(a: seq<int>, a': seq<int>, avail: int, avail': int, free: seq<int>, k: int, j: int)
    requires 0 <= k < |free| && 0 <= j < |free| && j != k && Unlinked(a, a', avail, avail', free, k)
    requires Node(a, free, j) && Apart(free, 0, 0) && (0 < k ==> 0 < free[k - 1])
             && (k + 1 < |free| ==> 0 < free[k + 1])
    ensures Node(a', free[..k] + free[k + 1..], if j < k then j else j - 1)
  {
    var free' := free[..k] + free[k + 1..];
    var j' := if j < k then j else j - 1;
    assert free'[j'] == free[j];
    var f := free[j];
    assert NextOf(free', j') == if j == k - 1 then NextOf(free, k) else NextOf(free, j);
    assert PrevOf(free', j') == if j == k + 1 then PrevOf(free, k) else PrevOf(free, j);
    assert a'[f + 1] == NextOf(free', j');
    assert a'[f + 2] == PrevOf(free', j');
  }

  lemma UnlinkedLinks(a: seq<int>, a': seq<int>, avail: int, avail': int, free: seq<int>, k: int)
    requires Links(a, avail, free) && Apart(free, 0, 0) && 0 <= k < |free| && Unlinked(a, a', avail, avail', free, k)
    ensures Links(a', avail', free[..k] + free[k + 1..])
  {
    assert 0 < k ==> Node(a, free, k - 1);
    assert k + 1 < |free| ==> Node(a, free, k + 1);
    var free' := free[..k] + free[k + 1..];
    forall j | 0 <= j < |free'|
      ensures Node(a', free', j)
    {
      hide Apart;
      hide Unlinked;
      var i := if j < k then j else j + 1;
      assert Node(a, free, i);
      UnlinkedNode(a, a', avail, avail', free, k, i);
    }
  }

  lemma UnlinkedFits(b: Blocks, free: seq<int>, k: nat)
    requires Fits(b, free) && k < |free|
    ensures Fits(b, free[..k] + free[k + 1..])
  {
  }

  lemma UnlinkedOnlyLinks(a: seq<int>, a': seq<int>, avail: int, avail': int, free: seq<int>, k: int)
    requires 0 <= k < |free| && Unlinked(a, a', avail, avail', free, k)
    ensures OnlyLinks(a, a', free, 0, 0)
  {
  }

  lemma TagsThroughLinks(a: seq<int>, a': seq<int>, h: Layout)
    requires Spaced(|a|, h.blocks) && Fits(h.blocks, h.free) && Tags(a, h.blocks) && OnlyLinks(a, a', h.free, 0, 0)
    ensures Tags(a', h.blocks)
  {
    forall j | j in h.blocks
      ensures a'[j] == h.blocks[j] && a'[j + Abs(h.blocks[j]) - 1] == h.blocks[j]
    {
      NotLink(|a|, h.blocks, h.free, j, j);
      NotLink(|a|, h.blocks, h.free, j, j + Abs(h.blocks[j]) - 1);
    }
  }

  /** What remove leaves behind, for the block at position k of the list. */
  lemma RemoveStored(a: seq<int>, a': seq<int>, avail: int, avail': int, h: Layout, k: nat)
    requires Stored(a, avail, h) && k < |h.free| && Unlinked(a, a', avail, avail', h.free, k)
    ensures Stored(a', avail', h.(free := Without(h.free, h.free[k])))
    ensures TakenSame(h.blocks, a, a', 0, 0)
  {
    hide Tags;
    hide Links;
    hide Spaced;
    hide TakenSame;
    hide Apart;
    assert Fits(h.blocks, h.free) && |a'| == |a|;
    hide Fits;
    hide Unlinked;
    hide Without;
    assert Aligned(h.blocks, 0, 0) by { HeadsOutside(|a|, h.blocks); }
    hide Aligned;
    WithoutAt(h.free, k);
    FitsApart(h.len, h.blocks, h.free);
    UnlinkedLinks(a, a', avail, avail', h.free, k);
    UnlinkedFits(h.blocks, h.free, k);
    UnlinkedOnlyLinks(a, a', avail, avail', h.free, k);
    TakenKept(a, a', h, 0, 0);
    TagsThroughLinks(a, a', h);
  }

  lemma HeadsOutside(len: int, b: Blocks)
    requires Spaced(len, b)
    ensures Aligned(b, 0, 0)
  {
  }

  // ---------------------------------------------------------------- what the steps rely on

  lemma ListFacts(a: seq<int>, avail: int, h: Layout)
    requires Stored(a, avail, h) && Valid(h)
    ensures avail == HeadAt(h.free, 0) && TakenSame(h.blocks, a, a, 0, 0)
    ensures forall k :: 0 <= k < |h.free| ==> h.free[k] in h.blocks && 0 < h.free[k]
  {
  }

  lemma HeaderFacts(a: seq<int>, avail: int, h: Layout, i: int)
    requires Stored(a, avail, h) && i in h.blocks
    ensures 0 <= i && i + Abs(h.blocks[i]) <= h.len == |a| && a[i] == h.blocks[i] && h.blocks[i] != 0
  {
  }

  /** The head of the list does not share words with a region that holds no node. */
  lemma HeadOutside(a: seq<int>, avail: int, h: Layout, lo: int, hi: int)
    requires Stored(a, avail, h) && Aligned(h.blocks, lo, hi)
    requires forall x :: x in h.free ==> !(lo <= x < hi)
    ensures avail == 0 || (0 <= avail && avail + 3 < |a|)
    ensures avail != 0 ==> avail + 4 <= lo || hi <= avail
  {
    ApartFrom(h.len, h.blocks, h.free, lo, hi);
    assert h.free != [] ==> Node(a, h.free, 0);
  }

  lemma CutFacts(a: seq<int>, avail: int, h: Layout, p: int, ints: int)
    requires Stored(a, avail, h) && p in h.blocks && p in h.free && 4 <= ints <= h.blocks[p]
    ensures var h1 := h.(free := Without(h.free, p));
            && Spaced(|a|, h.blocks) && 0 < p && p + h.blocks[p] <= |a| == h.len
            && p !in h1.free && Alone(h.blocks, p, ints) && Alone(h.blocks, p, h.blocks[p])
            && Aligned(h.blocks[p := -ints], p + ints, p + h.blocks[p])
            && forall x :: x in h1.free ==> !(p + ints <= x < p + h.blocks[p])
  {
    BlockAlone(h.len, h.blocks, p);
    CutAligned(h.len, h.blocks, p, ints);
    WithoutNoDup(h.free, p);
  }

  /** The layouts that the calls of init run through. */
  lemma InitialSteps(a: seq<int>) returns (h: (Layout, Layout, Layout))
    requires 8 <= |a|
    ensures var h0 := Layout(|a|, map[], []);
            && Stored(a, 0, h0) && Alone(h0.blocks, 0, 2)
            && h.0 == h0.(blocks := h0.blocks[0 := -2])
            && h.1 == Layout(|a|, Cover(h.0.blocks, 2, |a| - 4), [2] + h.0.free)
            && h.2 == h.1.(blocks := h.1.blocks[|a| - 2 := -2])
            && Aligned(h.0.blocks, 2, |a| - 2) && Alone(h.1.blocks, |a| - 2, 2)
            && |a| - 2 !in h.1.free
            && Valid(h.2) && h.2 == Initial(|a|)
  {
    var len := |a|;
    var h1 := Layout(len, map[0 := -2], []);
    var h2 := Layout(len, map[0 := -2, 2 := len - 4], [2]);
    h := (h1, h2, Initial(len));
    assert h2.blocks == Cover(h1.blocks, 2, len - 4);
    assert h.2.blocks == h2.blocks[len - 2 := -2];
  }
}
