/** The first-fit heap itself: one array of words, changed in place. */
module FirstFitHeap {
  import opened HeapModel
  import opened HeapWords
  import opened HeapTheorems

  class Heap {
    var words: array<int>
    var avail: int
    ghost var layout: Layout

    /** The array stores the layout; this holds between any two of the steps below. */
    ghost predicate Consistent()
      reads this, words
    {
      Stored(words[..], avail, layout)
    }

    /** This holds between calls of malloc and free. */
    ghost predicate Valid()
      reads this, words
    {
      Consistent() && HeapModel.Valid(layout)
    }

    // ------------------------------------------------------------- reading blocks

    method Size(i: int) returns (n: int)
      requires 0 <= i < words.Length
      ensures n == Abs(words[i])
    {
      n := if words[i] < 0 then -words[i] else words[i];
    }

    /** The index check of every step; each panic is a dead branch. */
    method Sanity(i: int) returns (r: int)
      requires Consistent() && (i == 0 || i in layout.blocks)
      ensures r == i
    {
      if i == 0 {
        return 0;
      }
      if i < 0 || words.Length <= i {
        assert false;
      }
      var size := Size(i);
      var footer := i + size - 1;
      assert words[..][i] == layout.blocks[i] && words[..][footer] == layout.blocks[i];
      if footer < 0 || words.Length <= footer {
        assert false;
      }
      if words[i] != words[footer] {
        assert false;
      }
      return i;
    }

    method Left(i: int) returns (l: int)
      requires Consistent() && 1 <= i <= words.Length
      requires exists j :: j in layout.blocks && End(layout.blocks, j) == i
      ensures l in layout.blocks && End(layout.blocks, l) == i
    {
      ghost var j :| j in layout.blocks && End(layout.blocks, j) == i;
      assert words[..][i - 1] == layout.blocks[j];
      var size := Size(i - 1);
      l := Sanity((i - 1) - size + 1);
    }

    method Right(i: int) returns (r: int)
      requires Consistent() && i in layout.blocks && End(layout.blocks, i) in layout.blocks
      ensures r == End(layout.blocks, i)
    {
      assert words[..][i] == layout.blocks[i];
      var size := Size(i);
      r := Sanity(i + size);
    }

    method Next(ghost k: nat, i: int) returns (n: int)
      requires Consistent() && k < |layout.free| && i == layout.free[k]
      ensures n == NextOf(layout.free, k)
    {
      assert Node(words[..], layout.free, k);
      n := Sanity(words[i + 1]);
    }

    method Prev(ghost k: nat, i: int) returns (p: int)
      requires Consistent() && k < |layout.free| && i == layout.free[k]
      ensures p == PrevOf(layout.free, k)
    {
      assert Node(words[..], layout.free, k);
      p := Sanity(words[i + 2]);
    }

    // ------------------------------------------------------------- writing blocks

    method Remove(ghost k: nat, i: int)
      requires Consistent() && k < |layout.free| && i == layout.free[k]
      modifies this`avail, this`layout, words
      ensures Consistent()
      ensures layout == old(layout).(free := Without(old(layout).free, i))
      ensures TakenSame(layout.blocks, old(words[..]), words[..], 0, 0)
    {
      hide Stored;
      hide TakenSame;
      hide Bypassed;
      ghost var before, free := words[..], layout.free;
      Neighbours(before, avail, layout, k);
      var prevIndex := Prev(k, i);
      var nextIndex := Next(k, i);
      Bypass(prevIndex, nextIndex);
      RemoveStored(before, words[..], old(avail), avail, layout, k);
      layout := layout.(free := Without(free, i));
    }

    /** The writes of remove. */
    method Bypass(prevIndex: int, nextIndex: int)
      requires 0 <= prevIndex && prevIndex + 3 < words.Length && 0 <= nextIndex && nextIndex + 3 < words.Length
      requires prevIndex != 0 && nextIndex != 0 ==> prevIndex + 1 != nextIndex + 2
      modifies this`avail, words
      ensures Bypassed(old(words[..]), words[..], old(avail), avail, prevIndex, nextIndex)
    {
      if prevIndex == 0 {
        avail := nextIndex;
      } else {
        words[prevIndex + 1] := nextIndex;
      }
      if nextIndex != 0 {
        words[nextIndex + 2] := prevIndex;
      }
    }

    method MakeTaken(i: int, ints: int)
      requires Consistent() && 0 <= i && 2 <= ints && i + ints <= words.Length
      requires Alone(layout.blocks, i, ints) && i !in layout.free
      modifies this`layout, words
      ensures Consistent()
      ensures layout == old(layout).(blocks := old(layout).blocks[i := -ints])
      ensures OnlyTags(old(words[..]), words[..], i, ints)
    {
      hide Stored;
      hide Alone;
      ghost var before := words[..];
      words[i] := -ints;
      var size := Size(i);
      words[i + size - 1] := -ints;
      MakeTakenStored(before, words[..], avail, layout, i, ints);
      layout := layout.(blocks := layout.blocks[i := -ints]);
    }

    method MakeAvail(i: int, ints: int)
      requires Consistent() && 0 < i && 4 <= ints && i + ints <= words.Length
      requires Aligned(layout.blocks, i, i + ints)
      requires forall x :: x in layout.free ==> !(i <= x < i + ints)
      modifies this`avail, this`layout, words
      ensures Consistent()
      ensures layout == Layout(old(layout).len, Cover(old(layout).blocks, i, ints), [i] + old(layout).free)
      ensures TakenSame(old(layout).blocks, old(words[..]), words[..], i, i + ints)
    {
      hide Stored;
      hide Aligned;
      hide TakenSame;
      hide Cover;
      ghost var before := words[..];
      HeadOutside(before, avail, layout, i, i + ints);
      words[i] := ints;
      var size := Size(i);
      words[i + size - 1] := ints;
      words[i + 1] := avail;
      words[i + 2] := 0;
      if avail != 0 {
        words[avail + 2] := i;
      }
      MakeAvailStored(before, words[..], avail, layout, i, ints);
      layout := Layout(layout.len, Cover(layout.blocks, i, ints), [i] + layout.free);
      avail := i;
    }

    // ------------------------------------------------------------- init, malloc, free

    constructor (base: array<int>)
      requires 8 <= base.Length
      ensures Valid() && words == base && layout == Initial(base.Length)
      modifies base
    {
      words := base;
      avail := 0;
      layout := Layout(base.Length, map[], []);
      new;
      Format();
    }

    /** The calls of init, on an array of arbitrary contents. */
    method Format()
      requires 8 <= words.Length && avail == 0 && layout == Layout(words.Length, map[], [])
      modifies this`avail, this`layout, words
      ensures Valid() && layout == Initial(words.Length)
    {
      hide Stored;
      hide HeapModel.Valid;
      hide TakenSame;
      hide OnlyTags;
      hide Initial;
      hide Cover;
      hide Alone;
      hide Aligned;
      ghost var steps := InitialSteps(words[..]);
      MakeTaken(0, 2);
      assert layout == steps.0;
      MakeAvail(2, words.Length - 4);
      assert layout == steps.1;
      MakeTaken(words.Length - 2, 2);
      assert layout == steps.2;
    }

    /** Null is the panic "heap is full". Blocks that are taken keep all their words. */
    method Malloc(bytes: int) returns (p: Ptr)
      requires Valid() && 0 <= bytes < WORD_RANGE
      modifies this`avail, this`layout, words
      ensures Valid() && (layout, p) == HeapTheorems.Malloc(old(layout), bytes)
      ensures TakenSame(old(layout).blocks, old(words[..]), words[..], 0, 0)
    {
      hide Stored;
      hide HeapModel.Valid;
      hide TakenSame;
      ListFacts(words[..], avail, layout);
      if bytes == 0 {
        return Word(0);
      }
      var ints := (bytes + 3) % WORD_RANGE / 4 + 2;
      if ints < 4 {
        ints := 4;
      }
      p := Search(ints);
    }

    /** The loop of malloc. */
    method Search(ints: int) returns (p: Ptr)
      requires Valid() && 4 <= ints
      modifies this`avail, this`layout, words
      ensures Valid() && TakenSame(old(layout).blocks, old(words[..]), words[..], 0, 0)
      ensures (layout, p) == Allocated(old(layout), ints)
    {
      hide Stored;
      hide HeapModel.Valid;
      hide TakenSame;
      hide TakeFrom;
      ghost var a0, free := words[..], layout.free;
      ListFacts(a0, avail, layout);
      ghost var target := FirstFit(layout.blocks, free, ints, 0);
      var b := Sanity(avail);
      ghost var k := 0;
      while b != 0
        invariant unchanged(this) && unchanged(words)
        invariant k <= |free| && b == HeadAt(free, k)
        invariant target.Some? ==> k <= target.value
        decreases |free| - k
      {
        var size := ReadAvailable(k, b);
        if ints <= size {
          assert words[..] == a0;
          TakeBlock(k, b, size, ints);
          return Word(b + 1);
        }
        b := Next(k, b);
        k := k + 1;
      }
      assert words[..] == a0;
      return Null;
    }

    /** The size of a block of the list; malloc panics on a block that is not available. */
    method ReadAvailable(ghost k: nat, b: int) returns (size: int)
      requires Consistent() && k < |layout.free| && b == layout.free[k]
      ensures b in layout.blocks && 0 < size == layout.blocks[b]
    {
      assert words[..][b] == layout.blocks[b];
      if words[b] <= 0 {
        assert false;
      }
      size := Size(b);
    }

    /** The part of malloc that takes the block found. */
    method TakeBlock(ghost k: nat, b: int, size: int, ints: int)
      requires Valid() && k < |layout.free| && b == layout.free[k] && b in layout.blocks
      requires size == layout.blocks[b] && 4 <= ints <= size
      modifies this`avail, this`layout, words
      ensures Valid() && layout == TakeFrom(old(layout), b, ints)
      ensures TakenSame(old(layout).blocks, old(words[..]), words[..], 0, 0)
    {
      hide Stored;
      hide HeapModel.Valid;
      hide TakenSame;
      hide TakeFrom;
      TakeValid(layout, b, ints);
      Cut(k, b, size, ints);
    }

    method Cut(ghost k: nat, b: int, size: int, ints: int)
      requires Consistent() && k < |layout.free| && b == layout.free[k] && b in layout.blocks
      requires size == layout.blocks[b] && 4 <= ints <= size
      modifies this`avail, this`layout, words
      ensures Consistent() && layout == TakeFrom(old(layout), b, ints)
      ensures TakenSame(old(layout).blocks, old(words[..]), words[..], 0, 0)
    {
      hide Stored;
      hide TakenSame;
      hide OnlyTags;
      hide Without;
      hide Cover;
      hide Alone;
      hide Aligned;
      ghost var h, a0 := layout, words[..];
      CutFacts(a0, avail, layout, b, ints);
      Remove(k, b);
      ghost var a1 := words[..];
      var extra := size - ints;
      if 4 <= extra {
        MakeTaken(b, ints);
        ghost var a2 := words[..];
        MakeAvail(b + ints, extra);
        TakenThroughSplit(h.blocks, b, ints, a0, a1, a2, words[..]);
      } else {
        MakeTaken(b, size);
        TakenThroughTake(h.blocks, b, size, a0, a1, words[..]);
      }
    }

    /** A block that is not taken is left alone (the kernel panics there). All taken blocks but the
        one freed keep all their words. */
    method Free(p: Ptr)
      requires Valid() && FreeAccepts(layout, p)
      modifies this`avail, this`layout, words
      ensures Valid() && layout == HeapTheorems.Free(old(layout), p)
      ensures TakenSame(old(layout).blocks, old(words[..]), words[..], Header(p), Header(p) + 1)
    {
      hide Stored;
      hide HeapModel.Valid;
      hide TakenSame;
      hide Release;
      TakenReflexive(layout.blocks, words[..], Header(p), Header(p) + 1);
      if p == Null || p == Word(0) {
        return;
      }
      HeaderFacts(words[..], avail, layout, p.at - 1);
      var idx := Sanity(p.at - 1);
      if 0 < words[idx] {
        return;
      }
      ReleaseValid(layout, idx);
      FreeBlock(idx);
    }

    /** The part of free that merges block idx with its neighbours. */
    method FreeBlock(idx: int)
      requires Valid() && Live(layout, idx)
      modifies this`avail, this`layout, words
      ensures Consistent() && layout == Release(old(layout), idx)
      ensures TakenSame(old(layout).blocks, old(words[..]), words[..], idx, idx + 1)
    {
      hide Stored;
      hide HeapModel.Valid;
      hide TakenSame;
      hide Joinable;
      hide Join;
      LiveInside(layout, idx);
      HeaderFacts(words[..], avail, layout, idx);
      var leftIndex := Left(idx);
      var rightIndex := Right(idx);
      LeftUnique(layout, leftIndex, idx);
      JoinReady(layout, leftIndex, idx);
      var sz := Size(idx);
      Merge(leftIndex, idx, rightIndex, sz);
    }

    method Merge(leftIndex: int, idx: int, rightIndex: int, size: int)
      requires Consistent() && layout.len == words.Length
      requires Joinable(layout, leftIndex, idx, rightIndex) && size == Abs(layout.blocks[idx])
      modifies this`avail, this`layout, words
      ensures Consistent() && layout == Join(old(layout), leftIndex, idx, rightIndex)
      ensures TakenSame(old(layout).blocks, old(words[..]), words[..], idx, idx + 1)
    {
      hide Stored;
      hide TakenSame;
      hide Aligned;
      hide Unlist;
      hide Cover;
      ghost var blocks, a0 := layout.blocks, words[..];
      var start, sz := AbsorbBoth(leftIndex, idx, rightIndex, size);
      ghost var a2 := words[..];
      MakeAvail(start, sz);
      TakenThroughFree(blocks, idx, start, start + sz, a0, a2, words[..]);
    }

    method AbsorbBoth(leftIndex: int, idx: int, rightIndex: int, size: int) returns (start: int, sz: int)
      requires Consistent() && leftIndex in layout.blocks && rightIndex in layout.blocks
      requires 0 < layout.blocks[leftIndex] ==> leftIndex in layout.free
      requires 0 < layout.blocks[rightIndex] ==> rightIndex in Unlist(layout.blocks, layout.free, leftIndex)
      modifies this`avail, this`layout, words
      ensures Consistent()
      ensures var b := old(layout).blocks;
              && start == Low(b, leftIndex, idx) && sz == size + Room(b, leftIndex) + Room(b, rightIndex)
              && layout == old(layout).(free := Unlist(b, Unlist(b, old(layout).free, leftIndex), rightIndex))
      ensures TakenSame(layout.blocks, old(words[..]), words[..], 0, 0)
    {
      hide Stored;
      hide TakenSame;
      hide Unlist;
      ghost var blocks, a0 := layout.blocks, words[..];
      start, sz := idx, size;
      var extra := Absorb(leftIndex);
      ghost var a1 := words[..];
      if 0 < extra {
        start := leftIndex;
        sz := sz + extra;
      }
      extra := Absorb(rightIndex);
      if 0 < extra {
        sz := sz + extra;
      }
      TakenTwice(blocks, a0, a1, words[..]);
    }

    /** Takes block x off the list when it is available and tells how many words it has. */
    method Absorb(x: int) returns (extra: int)
      requires Consistent() && x in layout.blocks && (0 < layout.blocks[x] ==> x in layout.free)
      modifies this`avail, this`layout, words
      ensures Consistent() && extra == Room(old(layout).blocks, x)
      ensures layout == old(layout).(free := Unlist(old(layout).blocks, old(layout).free, x))
      ensures TakenSame(layout.blocks, old(words[..]), words[..], 0, 0)
    {
      hide Stored;
      hide TakenSame;
      hide Without;
      HeaderFacts(words[..], avail, layout, x);
      TakenReflexive(layout.blocks, words[..], 0, 0);
      if words[x] <= 0 {
        return 0;
      }
      ghost var k :| 0 <= k < |layout.free| && layout.free[k] == x;
      Remove(k, x);
      HeaderFacts(words[..], avail, layout, x);
      extra := Size(x);
    }
  }
}
