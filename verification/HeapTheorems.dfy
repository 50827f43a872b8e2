/** What malloc and free promise, over single calls and over whole runs. */
module HeapTheorems {
  import opened HeapModel

  const WORD_RANGE: int := 0x1_0000_0000

  /** A pointer into the heap array, counted in words; the array itself is Word(0). */
  datatype Ptr = Null | Word(at: int)

  /** The words of a block for a request, in 32-bit unsigned arithmetic. */
  function Ints(bytes: int): (r: int)
    ensures 4 <= r
    ensures 0 <= bytes < WORD_RANGE ==> (bytes <= 4 * (r - 2) <==> bytes + 3 < WORD_RANGE)
    ensures 0 < bytes && bytes + 3 < WORD_RANGE ==> r == 4 || 4 * (r - 2) < bytes + 4
  {
    var ints := (bytes + 3) % WORD_RANGE / 4 + 2;
    if ints < 4 then 4 else ints
  }

  /** The smallest request that wraps gets the smallest block, for two words; the one before it does not. */
  lemma IntsExample()
    ensures Ints(0xffff_fffd) == 4 && Ints(0xffff_fffc) == 0x4000_0001
  {
  }

  // ---------------------------------------------------------------- live blocks

  lemma AllocateLive(h: Layout, ints: int)
    requires Valid(h) && 4 <= ints
    ensures var (h', r) := Allocate(h, ints);
            h'.len == h.len &&
            if r.None? then
              h' == h && forall i :: i in h.blocks ==> h.blocks[i] < ints
            else
              && !Live(h, r.value) && ints <= -h'.blocks[r.value] < ints + 4
              && (forall i :: Live(h', i) <==> Live(h, i) || i == r.value)
              && (forall i :: Live(h, i) ==> h'.blocks[i] == h.blocks[i])
  {
    var k := FirstFit(h.blocks, h.free, ints, 0);
    if k.Some? {
      var p := h.free[k.value];
      assert End(h.blocks, p) == p + h.blocks[p];
      forall i | i in h.blocks && i != p
        ensures i in Allocate(h, ints).0.blocks && Allocate(h, ints).0.blocks[i] == h.blocks[i]
      {
        assert p < i ==> End(h.blocks, p) <= i;
      }
    }
  }

  lemma ReleaseLive(h: Layout, i: int)
    requires Valid(h) && Live(h, i)
    ensures var h' := Release(h, i);
            && (forall j :: Live(h', j) <==> Live(h, j) && j != i)
            && (forall j :: Live(h, j) && j != i ==> h'.blocks[j] == h.blocks[j])
  {
    forall j
      ensures Live(Release(h, i), j) <==> Live(h, j) && j != i
      ensures Live(h, j) && j != i ==> Release(h, i).blocks[j] == h.blocks[j]
    {
      ReleaseLiveAt(h, i, Release(h, i), j);
    }
  }

  lemma ReleaseLiveAt(h: Layout, i: int, h': Layout, j: int)
    requires Valid(h) && Live(h, i) && h' == Release(h, i)
    ensures Live(h', j) <==> Live(h, j) && j != i
    ensures Live(h, j) && j != i ==> h'.blocks[j] == h.blocks[j]
  {
    LiveInside(h, i);
    var l, r := LeftOf(h.len, h.blocks, i), End(h.blocks, i);
    var k := JoinBounds(h, l, i);
    if j in h.blocks && Low(h.blocks, l, i) <= j < High(h.blocks, r) && h.blocks[j] < 0 {
      JoinInside(h, l, i, j);
    }
  }

  /** The callers of malloc hold the same blocks in both heaps. */
  ghost predicate SameLive(h1: Layout, h2: Layout) {
    && h1.len == h2.len
    && (forall i :: Live(h1, i) <==> Live(h2, i))
    && (forall i :: Live(h1, i) && Live(h2, i) ==> h1.blocks[i] == h2.blocks[i])
  }

  /** The live blocks alone determine the whole tiling: available space is always as merged as it
      can be. */
  lemma Canonical(h1: Layout, h2: Layout)
    requires Valid(h1) && Valid(h2) && SameLive(h1, h2)
    ensures h1.blocks == h2.blocks
  {
    forall i | i in h1.blocks
      ensures i in h2.blocks && h2.blocks[i] == h1.blocks[i]
    {
      CanonicalAt(h1, h2, i);
    }
    forall i | i in h2.blocks
      ensures i in h1.blocks
    {
      CanonicalAt(h2, h1, i);
    }
  }

  lemma CanonicalAt(h1: Layout, h2: Layout, i: int)
    requires Valid(h1) && Valid(h2) && SameLive(h1, h2) && i in h1.blocks
    ensures i in h2.blocks && h2.blocks[i] == h1.blocks[i]
  {
    if 0 < h1.blocks[i] {
      var l := LeftOf(h1.len, h1.blocks, i);
      TakenCarries(h1, h2, l);
      var r1, r2 := End(h1.blocks, i), End(h2.blocks, i);
      TakenCarries(h1, h2, r1);
      assert !Live(h1, i);
      assert 0 < h2.blocks[i];
      TakenCarries(h2, h1, r2);
    } else {
      TakenCarries(h1, h2, i);
    }
  }

  lemma TakenCarries(h1: Layout, h2: Layout, i: int)
    requires Valid(h1) && Valid(h2) && SameLive(h1, h2) && i in h1.blocks && h1.blocks[i] < 0
    ensures i in h2.blocks && h2.blocks[i] == h1.blocks[i] && End(h2.blocks, i) == End(h1.blocks, i)
  {
    assert Live(h1, i) || i == 0 || i == h1.len - 2;
  }

  /** malloc followed by free of its result restores the tiling that malloc found. */
  lemma MallocFreeRoundTrip(h: Layout, ints: int)
    requires Valid(h) && 4 <= ints && Allocate(h, ints).1.Some?
    ensures var (h', p) := Allocate(h, ints);
            && Valid(h') && Live(h', p.value) && Valid(Release(h', p.value))
            && Release(h', p.value).blocks == h.blocks
  {
    var (h', p) := Allocate(h, ints);
    AllocateValid(h, ints);
    AllocateLive(h, ints);
    ReleaseValid(h', p.value);
    ReleaseLive(h', p.value);
    Canonical(Release(h', p.value), h);
  }

  /** The order in which two blocks are freed does not show in the tiling. */
  lemma FreeOrder(h: Layout, i: int, j: int)
    requires Valid(h) && Live(h, i) && Live(h, j) && i != j
    ensures var (hi, hj) := (Release(h, i), Release(h, j));
            && Valid(hi) && Live(hi, j) && Valid(hj) && Live(hj, i)
            && Release(hi, j).blocks == Release(hj, i).blocks
  {
    ReleaseValid(h, i);
    ReleaseLive(h, i);
    ReleaseValid(h, j);
    ReleaseLive(h, j);
    var hi, hj := Release(h, i), Release(h, j);
    ReleaseValid(hi, j);
    ReleaseLive(hi, j);
    ReleaseValid(hj, i);
    ReleaseLive(hj, i);
    Canonical(Release(hi, j), Release(hj, i));
  }

  // ---------------------------------------------------------------- the walk from block to block

  /** The headers met by going from block to block, from i to the end of the array. */
  ghost function Walk(len: int, b: Blocks, i: int): seq<int>
    requires Spaced(len, b) && Tiled(len, b) && (i == len || i in b)
    decreases len - i
  {
    if i == len then [] else [i] + Walk(len, b, End(b, i))
  }

  ghost function Total(b: Blocks, s: seq<int>): int
    requires forall k :: 0 <= k < |s| ==> s[k] in b
  {
    if s == [] then 0 else Abs(b[s[0]]) + Total(b, s[1..])
  }

  ghost predicate Rising(b: Blocks, i: int, w: seq<int>) {
    && (forall k :: 0 <= k < |w| ==> w[k] in b && i <= w[k])
    && (forall j, k :: 0 <= j < k < |w| ==> w[j] < w[k])
  }

  /** The headers of a walk rise, so each is met once. */
  lemma {:induction false} WalkRises(len: int, b: Blocks, i: int)
    requires Spaced(len, b) && Tiled(len, b) && (i == len || i in b)
    ensures Rising(b, i, Walk(len, b, i))
    decreases len - i
  {
    if i != len {
      var rest := Walk(len, b, End(b, i));
      WalkRises(len, b, End(b, i));
      RisingCons(b, i, End(b, i), rest);
    }
  }

  lemma RisingCons(b: Blocks, i: int, e: int, rest: seq<int>)
    requires Rising(b, e, rest) && i in b && i < e
    ensures Rising(b, i, [i] + rest)
  {
  }

  /** The walk from i meets every block from i on. */
  lemma {:induction false} WalkMeets(len: int, b: Blocks, i: int, j: int)
    requires Spaced(len, b) && Tiled(len, b) && i in b && j in b && i <= j
    ensures j in Walk(len, b, i)
    decreases len - i
  {
    if i != j {
      assert End(b, i) <= j;
      WalkMeets(len, b, End(b, i), j);
    }
  }

  /** The sizes of the blocks met add up to the words left: none is lost between blocks. */
  lemma {:induction false} WalkTotal(len: int, b: Blocks, i: int)
    requires Spaced(len, b) && Tiled(len, b) && (i == len || i in b)
    ensures forall k :: 0 <= k < |Walk(len, b, i)| ==> Walk(len, b, i)[k] in b
    ensures Total(b, Walk(len, b, i)) == len - i
    decreases len - i
  {
    WalkRises(len, b, i);
    if i != len {
      WalkTotal(len, b, End(b, i));
      assert Walk(len, b, i)[1..] == Walk(len, b, End(b, i));
    }
  }

  // ---------------------------------------------------------------- runs

  /** The header index of the block a pointer names. */
  function Header(p: Ptr): int {
    if p.Null? then -1 else p.at - 1
  }

  /** What the loop of malloc makes of a request for `ints` words. */
  function Allocated(h: Layout, ints: int): (Layout, Ptr)
    requires forall k :: 0 <= k < |h.free| ==> h.free[k] in h.blocks
  {
    var (h', p) := Allocate(h, ints);
    (h', if p.None? then Null else Word(p.value + 1))
  }

  /** malloc: Null stands for the panic "heap is full". */
  function Malloc(h: Layout, bytes: int): (r: (Layout, Ptr))
    requires forall k :: 0 <= k < |h.free| ==> h.free[k] in h.blocks
  {
    if bytes == 0 then (h, Word(0)) else Allocated(h, Ints(bytes))
  }

  /** The pointers that free can be given: null, the array itself, or just behind the header of a
      block that is not a sentinel. */
  predicate FreeAccepts(h: Layout, p: Ptr) {
    p.Null? || p.at == 0 || (p.at - 1 in h.blocks && p.at - 1 != 0 && p.at - 1 != h.len - 2)
  }

  /** free: a block that is already available is left alone (the kernel panics there). */
  ghost function Free(h: Layout, p: Ptr): Layout
    requires Valid(h) && FreeAccepts(h, p)
  {
    if p == Null || p == Word(0) || 0 < h.blocks[p.at - 1] then h else Release(h, p.at - 1)
  }

  /** h' has the live blocks of h, with the same sizes, but for block x; and x is live or not. */
  ghost predicate LiveBut(h: Layout, h': Layout, x: int, live: bool) {
    && h'.len == h.len && (Live(h', x) <==> live)
    && (forall i :: i != x ==> (Live(h', i) <==> Live(h, i)))
    && (forall i :: i != x && Live(h, i) && Live(h', i) ==> h'.blocks[i] == h.blocks[i])
  }

  /** No available block has so many words. */
  ghost predicate NoneFits(h: Layout, ints: int) {
    forall i :: i in h.blocks ==> h.blocks[i] < ints
  }

  /** What a caller of malloc gets: for 0 bytes the array itself; null exactly when no block fits; else
      one new block that has room for the bytes and less than five words more than it needs, and is the
      first in the list that fits. */
  lemma MallocGives(h: Layout, bytes: int)
    requires Valid(h) && 0 <= bytes < WORD_RANGE
    ensures forall k :: 0 <= k < |h.free| ==> h.free[k] in h.blocks
    ensures var (h', p) := Malloc(h, bytes);
            && Valid(h')
            && (bytes == 0 ==> p == Word(0) && h' == h)
            && (bytes != 0 && NoneFits(h, Ints(bytes)) ==> p == Null && h' == h)
            && (bytes != 0 && !NoneFits(h, Ints(bytes)) ==>
                  && p.Word? && !Live(h, p.at - 1) && LiveBut(h, h', p.at - 1, true)
                  && (bytes + 3 < WORD_RANGE ==> bytes <= 4 * (-h'.blocks[p.at - 1] - 2))
                  && Ints(bytes) <= -h'.blocks[p.at - 1] < Ints(bytes) + 4
                  && FirstThatFits(h, Ints(bytes), p.at - 1))
  {
    hide HeapModel.Valid;
    FreeInBlocks(h);
    if bytes != 0 {
      AllocateValid(h, Ints(bytes));
      AllocateLive(h, Ints(bytes));
      AllocateFirst(h, Ints(bytes));
    }
  }

  /** Block i is available, and no block before it in the list is large enough. */
  ghost predicate FirstThatFits(h: Layout, ints: int, i: int) {
    exists k :: 0 <= k < |h.free| && h.free[k] == i && FitsAt(h, ints, k)
                && forall j :: 0 <= j < k ==> !FitsAt(h, ints, j)
  }

  ghost predicate FitsAt(h: Layout, ints: int, k: int) {
    0 <= k < |h.free| && h.free[k] in h.blocks && ints <= h.blocks[h.free[k]]
  }

  lemma FreeInBlocks(h: Layout)
    requires Valid(h)
    ensures forall k :: 0 <= k < |h.free| ==> h.free[k] in h.blocks && 0 < h.blocks[h.free[k]]
  {
  }

  lemma AllocateFirst(h: Layout, ints: int)
    requires Valid(h)
    ensures forall k :: 0 <= k < |h.free| ==> h.free[k] in h.blocks
    ensures var r := Allocate(h, ints).1; r.Some? ==> FirstThatFits(h, ints, r.value) && !NoneFits(h, ints)
  {
    FreeInBlocks(h);
    hide HeapModel.Valid;
    hide TakeFrom;
    var k := FirstFit(h.blocks, h.free, ints, 0);
    if k.Some? {
      assert FitsAt(h, ints, k.value);
      assert h.free[k.value] in h.blocks;
    }
  }

  /** What a caller of free gets: a block that is in use, and no other, stops being so; for any other
      pointer that free takes nothing happens. */
  lemma FreeGives(h: Layout, p: Ptr)
    requires Valid(h) && FreeAccepts(h, p)
    ensures var h' := Free(h, p);
            && Valid(h')
            && (p.Word? && Live(h, p.at - 1) ==> LiveBut(h, h', p.at - 1, false))
            && (!(p.Word? && Live(h, p.at - 1)) ==> h' == h)
  {
    hide Release;
    if p.Word? && Live(h, p.at - 1) {
      ReleaseValid(h, p.at - 1);
      ReleaseLive(h, p.at - 1);
      ReleaseLen(h, p.at - 1);
    } else {
      SignedBlocks(h);
    }
  }

  lemma SignedBlocks(h: Layout)
    requires Valid(h)
    ensures forall i :: i in h.blocks ==> h.blocks[i] != 0
  {
  }

  lemma ReleaseLen(h: Layout, i: int)
    requires Valid(h) && Live(h, i)
    ensures Release(h, i).len == h.len
  {
  }

  datatype Op = DoMalloc(bytes: int) | DoFree(p: Ptr)

  ghost predicate Enabled(h: Layout, op: Op) {
    op.DoMalloc? || FreeAccepts(h, op.p)
  }

  ghost function Step(h: Layout, op: Op): (h': Layout)
    requires Valid(h) && Enabled(h, op)
    ensures Valid(h') && h'.len == h.len
  {
    match op
    case DoMalloc(bytes) => AllocateValid(h, Ints(bytes)); Malloc(h, bytes).0
    case DoFree(p) =>
      if p == Null || p == Word(0) || 0 < h.blocks[p.at - 1] then h
      else ReleaseValid(h, p.at - 1); Free(h, p)
  }

  /** h' can be reached from h by the calls in ops. */
  ghost predicate Run(h: Layout, ops: seq<Op>, h': Layout)
    requires Valid(h)
    decreases |ops|
  {
    if ops == [] then h == h' else Enabled(h, ops[0]) && Run(Step(h, ops[0]), ops[1..], h')
  }

  lemma {:induction false} RunValid(h: Layout, ops: seq<Op>, h': Layout)
    requires Valid(h) && Run(h, ops, h')
    ensures Valid(h') && h'.len == h.len
    decreases |ops|
  {
    if ops != [] {
      RunValid(Step(h, ops[0]), ops[1..], h');
    }
  }

  lemma OneFree(b: Blocks, free: seq<int>, x: int)
    requires Listed(b, free) && x in b && 0 < b[x]
    requires forall i :: i in b && 0 < b[i] ==> i == x
    ensures free == [x]
  {
    assert x in free;
    var first, last := free[0], free[|free| - 1];
    assert first == x && last == x;
  }

  /** However the calls before went: once every block has been freed, the heap is again the one
      block that init made. */
  lemma NothingLeaks(len: int, ops: seq<Op>, h: Layout)
    requires 8 <= len && Run(Initial(len), ops, h)
    requires forall i :: !Live(h, i)
    ensures h == Initial(len)
  {
    hide Step;
    hide Enabled;
    hide Run;
    RunValid(Initial(len), ops, h);
    Canonical(h, Initial(len));
    OneFree(h.blocks, h.free, 2);
  }
}
