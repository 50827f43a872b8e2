/** The user-level heap of user/heap.c: the same allocator, with realloc on top of it. */
module UserHeap {
  import opened HeapModel
  import opened HeapWords
  import opened HeapTheorems
  import opened FirstFitHeap

  // ---------------------------------------------------------------- bytes of words

  function U32(w: int): int {
    w % WORD_RANGE
  }

  function S32(u: int): int {
    if u < WORD_RANGE / 2 then u else u - WORD_RANGE
  }

  function Pow256(i: int): int
    requires 0 <= i <= 3
  {
    if i == 0 then 1 else if i == 1 then 0x100 else if i == 2 then 0x1_0000 else 0x100_0000
  }

  /** Byte i of a little-endian word. */
  function ByteOf(w: int, i: int): int
    requires 0 <= i <= 3
  {
    U32(w) / Pow256(i) % 256
  }

  /** The byte k bytes behind word `at`. */
  function Byte(a: seq<int>, at: int, k: int): int
    requires 0 <= k && 0 <= at && at + k / 4 < |a|
  {
    ByteOf(a[at + k / 4], k % 4)
  }

  /** The low r bytes of s under the other bytes of d. */
  function Splice(d: int, s: int, r: int): int
    requires 0 <= r <= 3
  {
    S32(U32(s) % Pow256(r) + U32(d) / Pow256(r) * Pow256(r))
  }

  /** The number with the given base-256 digits, least first. */
  function Number(b0: int, b1: int, b2: int, b3: int): int {
    b0 + 0x100 * b1 + 0x1_0000 * b2 + 0x100_0000 * b3
  }

  predicate Digits(b0: int, b1: int, b2: int, b3: int) {
    0 <= b0 < 0x100 && 0 <= b1 < 0x100 && 0 <= b2 < 0x100 && 0 <= b3 < 0x100
  }

  lemma DigitsOf(u: int) returns (b0: int, b1: int, b2: int, b3: int)
    requires 0 <= u < WORD_RANGE
    ensures Digits(b0, b1, b2, b3) && u == Number(b0, b1, b2, b3)
  {
    var q1 := u / 0x100;
    var q2 := q1 / 0x100;
    b0, b1, b2, b3 := u % 0x100, q1 % 0x100, q2 % 0x100, q2 / 0x100;
  }

  lemma NumberDigits(b0: int, b1: int, b2: int, b3: int)
    requires Digits(b0, b1, b2, b3)
    ensures var u := Number(b0, b1, b2, b3);
            && 0 <= u < WORD_RANGE
            && u / 0x100 == b1 + 0x100 * b2 + 0x1_0000 * b3
            && u / 0x1_0000 == b2 + 0x100 * b3
            && u / 0x100_0000 == b3
            && u % 0x100 == b0 && u % 0x1_0000 == b0 + 0x100 * b1 && u % 0x100_0000 == b0 + 0x100 * b1 + 0x1_0000 * b2
  {
  }

  lemma NumberBytes(w: int, b0: int, b1: int, b2: int, b3: int, i: int)
    requires Digits(b0, b1, b2, b3) && U32(w) == Number(b0, b1, b2, b3) && 0 <= i <= 3
    ensures ByteOf(w, i) == if i == 0 then b0 else if i == 1 then b1 else if i == 2 then b2 else b3
  {
    NumberDigits(b0, b1, b2, b3);
    var u := U32(w);
    assert u / 0x1 == u;
    if i == 1 {
      assert u / 0x100 == b1 + 0x100 * (b2 + 0x100 * b3);
      DigitMod(b1, b2 + 0x100 * b3);
    } else if i == 2 {
      DigitMod(b2, b3);
    }
  }

  lemma DigitMod(b: int, rest: int)
    requires 0 <= b < 0x100
    ensures (b + 0x100 * rest) % 0x100 == b
  {
  }

  lemma SpliceBytes(d: int, s: int, r: int, i: int)
    requires 0 <= r <= 3 && 0 <= i <= 3
    ensures ByteOf(Splice(d, s, r), i) == if i < r then ByteOf(s, i) else ByteOf(d, i)
  {
    var d0, d1, d2, d3 := DigitsOf(U32(d));
    var s0, s1, s2, s3 := DigitsOf(U32(s));
    NumberDigits(d0, d1, d2, d3);
    NumberDigits(s0, s1, s2, s3);
    NumberBytes(d, d0, d1, d2, d3, i);
    NumberBytes(s, s0, s1, s2, s3, i);
    var r0, r1, r2 := if 0 < r then s0 else d0, if 1 < r then s1 else d1, if 2 < r then s2 else d2;
    SpliceNumber(d, s, r, r0, r1, r2, d3);
    NumberBytes(Splice(d, s, r), r0, r1, r2, d3, i);
  }

  lemma SpliceNumber(d: int, s: int, r: int, r0: int, r1: int, r2: int, r3: int)
    requires 0 <= r <= 3 && Digits(r0, r1, r2, r3)
    requires U32(s) % Pow256(r) + U32(d) / Pow256(r) * Pow256(r) == Number(r0, r1, r2, r3)
    ensures U32(Splice(d, s, r)) == Number(r0, r1, r2, r3)
  {
    NumberDigits(r0, r1, r2, r3);
  }

  // ---------------------------------------------------------------- memcpy

  /** The words that hold `bytes` bytes. */
  function WordsOf(bytes: int): int {
    (bytes + 3) / 4
  }

  ghost predicate SameBytes(a: seq<int>, at: int, a': seq<int>, at': int, n: int) {
    && 0 <= at && at + WordsOf(n) <= |a| && 0 <= at' && at' + WordsOf(n) <= |a'|
    && forall k :: 0 <= k < n ==> Byte(a', at', k) == Byte(a, at, k)
  }

  method Memcpy(a: array<int>, dst: int, src: int, bytes: int)
    requires 0 <= bytes && 0 <= dst && dst + WordsOf(bytes) <= a.Length && 0 <= src && src + WordsOf(bytes) <= a.Length
    requires dst + WordsOf(bytes) <= src || src + WordsOf(bytes) <= dst
    modifies a
    ensures forall x :: 0 <= x < a.Length && !(dst <= x < dst + WordsOf(bytes)) ==> a[x] == old(a[x])
    ensures SameBytes(old(a[..]), src, a[..], dst, bytes)
  {
    var full := bytes / 4;
    for i := 0 to full
      invariant forall x :: 0 <= x < a.Length && !(dst <= x < dst + i) ==> a[x] == old(a[x])
      invariant forall x {:trigger a[x]} :: dst <= x < dst + i ==> a[x] == old(a[x - dst + src])
    {
      a[dst + i] := a[src + i];
    }
    if bytes % 4 != 0 {
      SpliceAll(a[dst + full], a[src + full], bytes % 4);
      a[dst + full] := Splice(a[dst + full], a[src + full], bytes % 4);
    }
    forall k | 0 <= k < bytes
      ensures Byte(a[..], dst, k) == Byte(old(a[..]), src, k)
    {
      assert a[..][dst + k / 4] == a[dst + k / 4];
      assert old(a[..])[src + k / 4] == old(a[src + k / 4]);
    }
  }

  lemma SpliceAll(d: int, s: int, r: int)
    requires 0 <= r <= 3
    ensures forall i :: 0 <= i < r ==> ByteOf(Splice(d, s, r), i) == ByteOf(s, i)
  {
    forall i | 0 <= i < r
      ensures ByteOf(Splice(d, s, r), i) == ByteOf(s, i)
    {
      SpliceBytes(d, s, r, i);
    }
  }

  // ---------------------------------------------------------------- realloc

  /** Writing inside the payload of a taken block leaves the heap as it is. */
  lemma PayloadStored(a: seq<int>, a': seq<int>, avail: int, h: Layout, i: int)
    requires Stored(a, avail, h) && i in h.blocks && h.blocks[i] < 0 && |a'| == |a|
    requires forall x {:trigger a'[x]} :: 0 <= x < |a| && !(i < x < End(h.blocks, i) - 1) ==> a'[x] == a[x]
    ensures Stored(a', avail, h)
  {
    forall j | j in h.blocks
      ensures a'[j] == h.blocks[j] && a'[j + Abs(h.blocks[j]) - 1] == h.blocks[j]
    {
      assert End(h.blocks, j) == j + Abs(h.blocks[j]);
    }
    forall k | 0 <= k < |h.free|
      ensures Node(a', h.free, k)
    {
      assert Node(a, h.free, k);
      assert End(h.blocks, h.free[k]) == h.free[k] + h.blocks[h.free[k]];
    }
  }

  /** What realloc leaves behind: a new block, when there is room, in place of the old one. */
  ghost function Reallocated(h: Layout, p: Ptr, newSize: int): (r: (Layout, Ptr))
    requires Valid(h) && FreeAccepts(h, p) && (p == Word(0) ==> newSize == 0)
  {
    if p.Null? then Malloc(h, newSize)
    else if newSize == 0 then (Free(h, p), Null)
    else if 0 < h.blocks[p.at - 1] then (h, Null)
    else
      AllocateValid(h, Ints(newSize));
      AllocateLive(h, Ints(newSize));
      var (h', q) := Malloc(h, newSize);
      (Release(h', p.at - 1), q)
  }

  /** The bytes of the block that realloc promises to keep. */
  function Kept(h: Layout, p: Ptr, newSize: int): int
    requires p.Word? && p.at - 1 in h.blocks
  {
    var payload := 4 * (Abs(h.blocks[p.at - 1]) - 2);
    if newSize < payload then newSize else payload
  }

  /** The blocks that are taken in b0 are the same in b1. */
  ghost predicate TakenStay(b0: Blocks, b1: Blocks) {
    forall j {:trigger j in b0} :: j in b0 && b0[j] < 0 ==> j in b1 && b1[j] == b0[j]
  }

  /** The taken block q of h1 is not in h0 and has room for n bytes. */
  ghost predicate NewBlock(h0: Layout, h1: Layout, q: int, n: int) {
    && 0 < q && q in h1.blocks && h1.blocks[q] < 0 && (q in h0.blocks ==> 0 <= h0.blocks[q])
    && n <= 4 * (-h1.blocks[q] - 2)
  }

  lemma AllocateStays(h: Layout, ints: int)
    requires Valid(h) && 4 <= ints
    ensures TakenStay(h.blocks, Allocate(h, ints).0.blocks)
  {
    var h' := Allocate(h, ints).0;
    AllocateValid(h, ints);
    AllocateLive(h, ints);
    StayFrom(h, h');
  }

  lemma StayFrom(h: Layout, h': Layout)
    requires Sentinels(h.len, h.blocks) && Sentinels(h'.len, h'.blocks) && h.len == h'.len
    requires forall i :: Live(h, i) ==> Live(h', i) && h'.blocks[i] == h.blocks[i]
    ensures TakenStay(h.blocks, h'.blocks)
  {
  }

  /** Blocks that were taken before malloc are taken after it, and the new block has room. */
  lemma MallocFacts(h: Layout, newSize: int)
    requires Valid(h) && 0 < newSize && newSize + 3 < WORD_RANGE
    ensures var (h', q) := Malloc(h, newSize);
            && Valid(h') && h'.len == h.len && TakenStay(h.blocks, h'.blocks)
            && (q == Null || (q.Word? && NewBlock(h, h', q.at - 1, newSize) && Live(h', q.at - 1)))
  {
    hide Allocate;
    hide TakenStay;
    var ints := Ints(newSize);
    AllocateValid(h, ints);
    AllocateLive(h, ints);
    AllocateStays(h, ints);
  }

  lemma LiveStays(h: Layout, h': Layout, idx: int)
    requires Valid(h) && h'.len == h.len && Live(h, idx) && TakenStay(h.blocks, h'.blocks)
    ensures Live(h', idx) && h'.blocks[idx] == h.blocks[idx]
    ensures 2 <= idx && End(h.blocks, idx) <= h.len - 2
  {
    LiveInside(h, idx);
  }

  lemma TakenWiden(b: Blocks, a: seq<int>, a': seq<int>, lo: int, hi: int)
    requires TakenSame(b, a, a', 0, 0)
    ensures TakenSame(b, a, a', lo, hi)
  {
  }

  lemma TakenCompose(b0: Blocks, b1: Blocks, a0: seq<int>, a1: seq<int>, a2: seq<int>, i: int)
    requires TakenStay(b0, b1)
    requires TakenSame(b0, a0, a1, 0, 0) && TakenSame(b1, a1, a2, i, i + 1)
    ensures TakenSame(b0, a0, a2, i, i + 1)
  {
  }

  /** Bytes copied into a taken block stay there while another block is freed. */
  lemma SameBytesThrough(b: Blocks, a: seq<int>, at: int, a1: seq<int>, a2: seq<int>, q: int, n: int, i: int)
    requires SameBytes(a, at, a1, q + 1, n) && TakenSame(b, a1, a2, i, i + 1)
    requires 0 <= q && q in b && b[q] < 0 && q != i && n <= 4 * (-b[q] - 2)
    ensures SameBytes(a, at, a2, q + 1, n)
  {
  }

  /** A copy that stays inside the payload of a new block leaves older taken blocks alone. */
  lemma TakenThroughCopy(b0: Blocks, b1: Blocks, q: int, a0: seq<int>, a1: seq<int>, a2: seq<int>)
    requires Spaced(|a0|, b1) && q in b1 && b1[q] < 0 && (q in b0 ==> 0 <= b0[q])
    requires TakenStay(b0, b1)
    requires TakenSame(b0, a0, a1, 0, 0) && |a2| == |a1|
    requires forall x {:trigger a2[x]} :: 0 <= x < |a1| && !(q < x < End(b1, q) - 1) ==> a2[x] == a1[x]
    ensures TakenSame(b0, a0, a2, 0, 0)
  {
    forall j, x {:trigger j in b0, a2[x]} | j in b0 && b0[j] < 0 && 0 <= j <= x < j + Abs(b0[j]) && x < |a0|
      ensures a2[x] == a0[x]
    {
      assert j in b1 && End(b1, j) == j + Abs(b0[j]);
      assert a1[x] == a0[x];
    }
  }

  /** What the copy of realloc leaves behind; m is the number of bytes copied. */
  lemma CopyDone(h0: Layout, h1: Layout, avail: int, idx: int, q: int, n: int, m: int, a0: seq<int>, a1: seq<int>,
                 a2: seq<int>)
    requires Stored(a1, avail, h1) && TakenSame(h0.blocks, a0, a1, 0, 0) && TakenStay(h0.blocks, h1.blocks)
    requires idx in h0.blocks && h0.blocks[idx] < 0 && 0 <= idx && idx + 1 + Abs(h0.blocks[idx]) <= |a0|
    requires 0 < n && NewBlock(h0, h1, q, n)
    requires m == if 4 * Abs(h0.blocks[idx]) < n then 4 * Abs(h0.blocks[idx]) else n
    requires |a2| == |a1|
    requires forall x {:trigger a2[x]} :: 0 <= x < |a1| && !(q + 1 <= x < q + 1 + WordsOf(m)) ==> a2[x] == a1[x]
    requires SameBytes(a1, idx + 1, a2, q + 1, m)
    ensures Stored(a2, avail, h1) && TakenSame(h0.blocks, a0, a2, 0, 0)
    ensures SameBytes(a0, idx + 1, a2, q + 1, Kept(h0, Word(idx + 1), n))
  {
    hide Tags;
    hide Links;
    assert End(h1.blocks, q) == q - h1.blocks[q];
    PayloadStored(a1, a2, avail, h1, q);
    TakenThroughCopy(h0.blocks, h1.blocks, q, a0, a1, a2);
    var from, to := idx + 1, q + 1;
    forall k | 0 <= k < Kept(h0, Word(idx + 1), n)
      ensures Byte(a2, to, k) == Byte(a0, from, k)
    {
      assert Byte(a2, to, k) == Byte(a1, from, k);
      assert idx in h0.blocks && a1[idx + 1 + k / 4] == a0[idx + 1 + k / 4];
    }
  }

  /** The source and the destination of the copy lie inside the array and apart. */
  lemma CopyApart(a: seq<int>, avail: int, h0: Layout, h1: Layout, idx: int, q: int, n: int)
    requires Stored(a, avail, h1) && TakenStay(h0.blocks, h1.blocks) && NewBlock(h0, h1, q, n)
    requires idx in h0.blocks && h0.blocks[idx] < 0 && 0 < n
    ensures q != idx && 0 <= idx && 0 <= q && q - h1.blocks[q] <= |a|
    ensures var m := if 4 * Abs(h0.blocks[idx]) < n then 4 * Abs(h0.blocks[idx]) else n;
            && q + 1 + WordsOf(m) <= |a|
            && (q + 1 + WordsOf(m) <= idx + 1 || idx + 1 + WordsOf(m) <= q + 1)
  {
    assert idx in h1.blocks && End(h1.blocks, idx) == idx + Abs(h0.blocks[idx]);
    assert End(h1.blocks, q) == q - h1.blocks[q];
  }

  /** The part of realloc that moves the contents of block idx. Up to two words behind the payload
      are copied as well when the new block is larger. */
  method Move(h: Heap, idx: int, newSize: int) returns (q: Ptr)
    requires h.Valid() && Live(h.layout, idx) && 0 < newSize && newSize + 3 < WORD_RANGE / 2
    modifies h`avail, h`layout, h.words
    ensures h.Valid() && (h.layout, q) == Malloc(old(h.layout), newSize)
    ensures TakenSame(old(h.layout).blocks, old(h.words[..]), h.words[..], 0, 0)
    ensures q != Null ==>
              SameBytes(old(h.words[..]), idx + 1, h.words[..], q.at, Kept(old(h.layout), Word(idx + 1), newSize))
  {
    hide Stored;
    hide HeapModel.Valid;
    hide TakenSame;
    hide TakenStay;
    hide NewBlock;
    hide Malloc;
    hide SameBytes;
    ghost var h0, a0 := h.layout, h.words[..];
    ListFacts(a0, h.avail, h0);
    MallocFacts(h0, newSize);
    LiveStays(h0, Malloc(h0, newSize).0, idx);
    HeaderFacts(a0, h.avail, h0, idx);
    var size := h.Size(idx);
    q := h.Malloc(newSize);
    if q != Null {
      var sz := size * 4;
      var m := if sz < newSize then sz else newSize;
      ghost var a1 := h.words[..];
      CopyApart(a1, h.avail, h0, h.layout, idx, q.at - 1, newSize);
      Memcpy(h.words, q.at, idx + 1, m);
      CopyDone(h0, h.layout, h.avail, idx, q.at - 1, newSize, m, a0, a1, h.words[..]);
    }
  }

  /** realloc. When there is no room for the new block the old one is freed all the same. */
  method Realloc(h: Heap, p: Ptr, newSize: int) returns (q: Ptr)
    requires h.Valid() && FreeAccepts(h.layout, p) && (p == Word(0) ==> newSize == 0)
    requires 0 <= newSize && newSize + 3 < WORD_RANGE / 2
    modifies h`avail, h`layout, h.words
    ensures h.Valid() && (h.layout, q) == Reallocated(old(h.layout), p, newSize)
    ensures TakenSame(old(h.layout).blocks, old(h.words[..]), h.words[..], Header(p), Header(p) + 1)
    ensures p.Word? && q.Word? && p != Word(0) && newSize != 0 ==>
              SameBytes(old(h.words[..]), p.at, h.words[..], q.at, Kept(old(h.layout), p, newSize))
  {
    hide Stored;
    hide HeapModel.Valid;
    hide TakenSame;
    hide SameBytes;
    hide Malloc;
    hide HeapTheorems.Free;
    hide Release;
    if p == Null {
      q := h.Malloc(newSize);
      TakenWiden(old(h.layout).blocks, old(h.words[..]), h.words[..], -1, 0);
      return;
    }
    if newSize == 0 {
      h.Free(p);
      return Null;
    }
    HeaderFacts(h.words[..], h.avail, h.layout, p.at - 1);
    var idx := h.Sanity(p.at - 1);
    if 0 < h.words[idx] {
      TakenReflexive(h.layout.blocks, h.words[..], Header(p), Header(p) + 1);
      return Null;
    }
    q := MoveAndFree(h, p, newSize);
  }

  method MoveAndFree(h: Heap, p: Ptr, newSize: int) returns (q: Ptr)
    requires h.Valid() && p.Word? && Live(h.layout, p.at - 1) && 0 < newSize && newSize + 3 < WORD_RANGE / 2
    modifies h`avail, h`layout, h.words
    ensures h.Valid() && (h.layout, q) == Reallocated(old(h.layout), p, newSize)
    ensures TakenSame(old(h.layout).blocks, old(h.words[..]), h.words[..], p.at - 1, p.at)
    ensures q.Word? ==> SameBytes(old(h.words[..]), p.at, h.words[..], q.at, Kept(old(h.layout), p, newSize))
  {
    hide Stored;
    hide HeapModel.Valid;
    hide TakenSame;
    hide TakenStay;
    hide SameBytes;
    hide Malloc;
    hide Release;
    ghost var h0, a0 := h.layout, h.words[..];
    ListFacts(a0, h.avail, h0);
    MallocFacts(h0, newSize);
    LiveStays(h0, Malloc(h0, newSize).0, p.at - 1);
    q := Move(h, p.at - 1, newSize);
    ghost var b1, a1 := h.layout.blocks, h.words[..];
    h.Free(p);
    TakenCompose(h0.blocks, b1, a0, a1, h.words[..], p.at - 1);
    if q.Word? {
      SameBytesThrough(b1, a0, p.at, a1, h.words[..], q.at - 1, Kept(h0, p, newSize), p.at - 1);
    }
  }

  /** What a caller of realloc gets, for every pointer and size. Null is as malloc; a size of 0 is as free; a
      block that is not in use is left alone; and a block in use is always released, with a new one in its
      place exactly when some available block has room for the new size, with as many bytes kept as both hold. */
  lemma ReallocGives(h: Layout, p: Ptr, newSize: int)
    requires Valid(h) && FreeAccepts(h, p) && (p == Word(0) ==> newSize == 0)
    requires 0 <= newSize && newSize + 3 < WORD_RANGE / 2
    ensures var (h', q) := Reallocated(h, p, newSize);
            && Valid(h')
            && (p.Null? && newSize == 0 ==> q == Word(0) && h' == h)
            && (p.Null? && 0 < newSize ==>
                  if NoneFits(h, Ints(newSize)) then q == Null && h' == h
                  else q.Word? && !Live(h, q.at - 1) && LiveBut(h, h', q.at - 1, true)
                       && newSize <= 4 * (-h'.blocks[q.at - 1] - 2))
            && (p.Word? && newSize == 0 ==>
                  q == Null && if Live(h, p.at - 1) then LiveBut(h, h', p.at - 1, false) else h' == h)
            && (p.Word? && 0 < newSize && !Live(h, p.at - 1) ==> q == Null && h' == h)
            && (p.Word? && 0 < newSize && Live(h, p.at - 1) ==>
                  if NoneFits(h, Ints(newSize)) then q == Null && LiveBut(h, h', p.at - 1, false)
                  else Replaced(h, h', p, q, newSize))
            && (p.Word? && 0 < newSize && Live(h, p.at - 1) ==>
                  var kept, payload := Kept(h, p, newSize), 4 * (-h.blocks[p.at - 1] - 2);
                  kept <= newSize && kept <= payload && (kept == newSize || kept == payload))
  {
    hide HeapModel.Valid;
    hide Malloc;
    hide HeapTheorems.Free;
    hide Release;
    MallocGives(h, newSize);
    FreeGives(h, p);
    if p.Word? && 0 < newSize {
      if Live(h, p.at - 1) {
        ReallocLive(h, p, newSize);
        ReallocSizes(h, p, newSize);
      } else {
        SignedBlocks(h);
      }
    }
  }

  /** Block p has gone, block q has come, with room for n bytes, and the others are the same. */
  ghost predicate Replaced(h: Layout, h': Layout, p: Ptr, q: Ptr, n: int) {
    && p.Word? && q.Word? && q != p && h'.len == h.len && !Live(h, q.at - 1)
    && (forall i :: Live(h', i) <==> (Live(h, i) && i != p.at - 1) || i == q.at - 1)
    && (forall i :: Live(h, i) && Live(h', i) ==> h'.blocks[i] == h.blocks[i])
    && n <= 4 * (-h'.blocks[q.at - 1] - 2)
  }

  lemma ReallocSizes(h: Layout, p: Ptr, newSize: int)
    requires Valid(h) && p.Word? && Live(h, p.at - 1) && 0 < newSize && newSize + 3 < WORD_RANGE / 2
    ensures var (h', q) := Reallocated(h, p, newSize);
            && h'.len == h.len && (forall i :: Live(h, i) && Live(h', i) ==> h'.blocks[i] == h.blocks[i])
            && (q != Null ==> q.Word? && q != p && !Live(h, q.at - 1) && Live(h', q.at - 1)
                              && newSize <= 4 * (-h'.blocks[q.at - 1] - 2))
  {
    hide HeapModel.Valid;
    hide Malloc;
    hide Release;
    MallocGives(h, newSize);
    var (m, q) := Malloc(h, newSize);
    LiveStaysThrough(h, p.at - 1, newSize);
    ReleaseLive(m, p.at - 1);
    ReleaseLen(m, p.at - 1);
  }

  /** realloc of a live block: it is always released, and a new one takes its place exactly when some
      available block has room for the new size. */
  lemma ReallocLive(h: Layout, p: Ptr, newSize: int)
    requires Valid(h) && p.Word? && Live(h, p.at - 1) && 0 < newSize && newSize + 3 < WORD_RANGE / 2
    ensures var (h', q) := Reallocated(h, p, newSize);
            && Valid(h')
            && (q == Null <==> forall i :: i in h.blocks ==> h.blocks[i] < Ints(newSize))
            && (forall i :: Live(h', i) <==> (Live(h, i) && i != p.at - 1) || (q != Null && i == q.at - 1))
  {
    hide Valid;
    hide Allocate;
    hide Release;
    FreeInBlocks(h);
    var idx := p.at - 1;
    LiveStaysThrough(h, idx, newSize);
    AllocateLive(h, Ints(newSize));
    var (h', q) := Malloc(h, newSize);
    ReleaseValid(h', idx);
    ReleaseLive(h', idx);
    AllocateFits(h, Ints(newSize));
  }

  lemma LiveStaysThrough(h: Layout, idx: int, newSize: int)
    requires Valid(h) && Live(h, idx) && 0 < newSize && newSize + 3 < WORD_RANGE
    ensures var h' := Malloc(h, newSize).0; Valid(h') && Live(h', idx)
  {
    MallocFacts(h, newSize);
    LiveStays(h, Malloc(h, newSize).0, idx);
  }

  lemma AllocateFits(h: Layout, ints: int)
    requires Valid(h)
    ensures Allocate(h, ints).1.Some? ==> exists i :: i in h.blocks && ints <= h.blocks[i]
  {
    var k := FirstFit(h.blocks, h.free, ints, 0);
    if k.Some? {
      assert h.free[k.value] in h.blocks && ints <= h.blocks[h.free[k.value]];
    }
  }
}
