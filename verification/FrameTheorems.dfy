/** Mapping, fork, exec and destruction, in terms of who has which frame. */
module FrameTheorems {
  import opened Collections
  import opened FrameModel
  import opened FrameProofs

  predicate Held(o: Owner) {
    o != Free && o != Untouched && o != Reserved
  }

  predicate TablesOf(o: Owner, b: Space) {
    (o.Directory? && o.a == b) || (o.Table? && o.a == b)
  }

  /** A directory or a table keeps the entries that it has. */
  ghost predicate OnlyGains(w: World, w': World, f: nat) {
    forall i: nat :: i < SIZE && Present(WordAt(w.mem, f, i)) ==> WordAt(w'.mem, f, i) == WordAt(w.mem, f, i)
  }

  /** One frame keeps its owner and its contents; a directory or a table of b may gain entries. */
  ghost predicate Stays(w: World, w': World, b: Space, f: nat) {
    && OwnerAt(w'.owner, f) == OwnerAt(w.owner, f)
    && f < |w.mem| && f < |w'.mem|
    && (if TablesOf(OwnerAt(w.owner, f), b) then OnlyGains(w, w', f) else w'.mem[f] == w.mem[f])
  }

  /** A frame that had no use has none still, or is a new table of b. */
  ghost predicate Gains(w: World, w': World, b: Space, f: nat) {
    var o := OwnerAt(w'.owner, f);
    !Held(OwnerAt(w.owner, f)) && Held(o) ==> o.Table? && o.a == b
  }

  /** Space b grows: every frame in use stays, and of the frames without a use only g, if any, gets another
      than that of a table of b. */
  ghost predicate Grown(w: World, w': World, b: Space, g: Option<nat>) {
    && w'.pds == w.pds && w'.first == w.first && w'.limit == w.limit
    && (forall f: nat :: f < w.limit && Held(OwnerAt(w.owner, f)) && Some(f) != g ==> Stays(w, w', b, f))
    && (forall f: nat :: f < w.limit && Some(f) != g ==> Gains(w, w', b, f))
  }

  // ---------------------------------------------------------------- mapping one page

  /** An entry of a directory is present exactly when the space has the table. */
  lemma PresentTable(w: World, a: Space, i0: nat)
    requires Inv(w) && a in w.pds && i0 < SIZE
    ensures w.pds[a] < w.limit
    ensures Present(WordAt(w.mem, w.pds[a], i0)) <==> HasTable(w, a, i0)
    ensures !Present(WordAt(w.mem, w.pds[a], i0)) ==> WordAt(w.mem, w.pds[a], i0) == 0
  {
    hide AllHold;
    hide FreeListed;
    hide Tagged;
    DirectoryAt(w, a);
    DirectoryWord(w, a, i0);
    ZeroReserved(w);
  }

  /** An entry of a table is present exactly when the page is mapped. */
  lemma PresentPage(w: World, a: Space, i0: nat, i1: nat)
    requires Inv(w) && HasTable(w, a, i0) && 512 <= i0 && i1 < SIZE
    ensures TableOf(w.mem, w.pds, a, i0) < w.limit
    ensures var x := WordAt(w.mem, TableOf(w.mem, w.pds, a, i0), i1);
            && Walk(w, a, i0, i1) == (if Present(x) then Some(FrameOf(x)) else None)
            && (!Present(x) ==> x == 0)
            && (Present(x) ==> FrameOf(x) < w.limit && w.owner[FrameOf(x)] == Page(a, i0, i1))
  {
    hide AllHold;
    hide FreeListed;
    hide Tagged;
    TableAt(w, a, i0);
    PresentTable(w, a, i0);
    TableWord(w, TableOf(w.mem, w.pds, a, i0), a, i0, i1);
  }

  /** getPTE: the table for i0, made if it is missing. */
  ghost function WithTableFor(w: World, a: Space, i0: nat): World
    requires Inv(w) && a in w.pds && i0 < SIZE
  {
    if Present(WordAt(w.mem, w.pds[a], i0)) || !HasFrame(w) then w
    else
      NextFrameFree(w);
      AllocatedListed(w);
      PresentTable(w, a, i0);
      WithTable(Allocated(w), a, i0, NextFrame(w))
  }

  lemma AllocatedGrown(w: World, a: Space)
    requires Inv(w) && HasFrame(w)
    ensures NextFrame(w) < w.limit && Inv(Allocated(w)) && Grown(w, Allocated(w), a, Some(NextFrame(w)))
    ensures !Held(OwnerAt(w.owner, NextFrame(w)))
    ensures Allocated(w).owner[NextFrame(w)] == Loose && Allocated(w).mem[NextFrame(w)] == Zeros()
    ensures forall b: Space, i: nat ::
              b in w.pds ==> WordAt(Allocated(w).mem, w.pds[b], i) == WordAt(w.mem, w.pds[b], i)
  {
    NextFrameFree(w);
    AllocatedInv(w, None);
  }

  lemma WithTableForInv(w: World, a: Space, i0: nat)
    requires Inv(w) && a in w.pds && (i0 == 0 || 512 <= i0 < SIZE)
    requires Present(WordAt(w.mem, w.pds[a], i0)) || HasFrame(w)
    ensures var w' := WithTableFor(w, a, i0);
            Inv(w') && HasTable(w', a, i0) && Grown(w, w', a, None)
  {
    hide AllHold;
    hide Tagged;
    hide FreeListed;
    hide Grown;
    hide Allocated;
    PresentTable(w, a, i0);
    if !Present(WordAt(w.mem, w.pds[a], i0)) {
      NextFrameFree(w);
      AllocatedGrown(w, a);
      var m := Allocated(w);
      WithTableInv(m, a, i0, NextFrame(w));
      WithTableGrown(m, a, i0, NextFrame(w));
      GrownTwice(w, m, WithTable(m, a, i0, NextFrame(w)), a, Some(NextFrame(w)));
      GrownTable(w, WithTable(m, a, i0, NextFrame(w)), a, i0, NextFrame(w));
    } else {
      GrownNot(w, a);
    }
  }

  lemma GrownNot(w: World, a: Space)
    requires Shaped(w)
    ensures Grown(w, w, a, None)
  {
  }

  lemma GrownTwice(w: World, m: World, w': World, a: Space, g: Option<nat>)
    requires Grown(w, m, a, g) && Grown(m, w', a, g)
    ensures Grown(w, w', a, g)
  {
    forall f: nat | f < w.limit && Some(f) != g
      ensures Held(OwnerAt(w.owner, f)) ==> Stays(w, w', a, f)
      ensures Gains(w, w', a, f)
    {
      assert Held(OwnerAt(w.owner, f)) ==> Stays(w, m, a, f);
      assert Held(OwnerAt(m.owner, f)) ==> Stays(m, w', a, f);
      assert Gains(w, m, a, f) && Gains(m, w', a, f);
    }
  }

  /** Frame t has become a table. */
  lemma GrownTable(w: World, w': World, a: Space, i0: nat, t: nat)
    requires Grown(w, w', a, Some(t)) && !Held(OwnerAt(w.owner, t)) && OwnerAt(w'.owner, t) == Table(a, i0)
    ensures Grown(w, w', a, None)
  {
  }

  lemma GrownWider(w: World, w': World, a: Space, g: nat)
    requires Grown(w, w', a, None)
    ensures Grown(w, w', a, Some(g))
  {
  }

  lemma WithTableGrown(m: World, a: Space, i0: nat, t: nat)
    requires Inv(m) && a in m.pds && m.pds[a] < m.limit && t < m.limit && m.owner[t] == Loose && i0 < SIZE
    requires WordAt(m.mem, m.pds[a], i0) == 0
    ensures var w' := WithTable(m, a, i0, t);
            Grown(m, w', a, Some(t)) && HasTable(w', a, i0) && OwnerAt(w'.owner, t) == Table(a, i0)
  {
    hide AllHold;
    hide Tagged;
    hide FreeListed;
    DirectoryAt(m, a);
    var w' := WithTable(m, a, i0, t);
    PutGains(m, w', m.pds[a], i0, UserEntry(t));
  }

  /** A word that is written where none was present. */
  lemma PutGains(w: World, w': World, t: nat, i: nat, v: Word)
    requires t < |w.mem| && i < |w.mem[t]| && w'.mem == Put(w.mem, t, i, v)
    requires !Present(WordAt(w.mem, t, i)) || WordAt(w.mem, t, i) == v
    ensures OnlyGains(w, w', t)
  {
  }

  lemma WithPageGrown(m: World, a: Space, i0: nat, i1: nat, g: nat)
    requires Inv(m) && HasTable(m, a, i0) && g < m.limit && m.owner[g] == Loose && i1 < SIZE
    requires WordAt(m.mem, TableOf(m.mem, m.pds, a, i0), i1) == 0
    ensures TableOf(m.mem, m.pds, a, i0) < m.limit
    ensures var w' := WithPage(m, a, i0, i1, g);
            && Grown(m, w', a, Some(g)) && OwnerAt(w'.owner, g) == Page(a, i0, i1)
            && g < |w'.mem| && w'.mem[g] == m.mem[g]
  {
    hide AllHold;
    hide Tagged;
    hide FreeListed;
    TableAt(m, a, i0);
    var w', t := WithPage(m, a, i0, i1, g), TableOf(m.mem, m.pds, a, i0);
    PutGains(m, w', t, i1, UserEntry(g));
  }

  /** A new table is empty. */
  lemma NewTableEmpty(w: World, a: Space, i0: nat)
    requires Inv(w) && a in w.pds && i0 < SIZE && !Present(WordAt(w.mem, w.pds[a], i0)) && HasFrame(w)
    ensures var w' := WithTableFor(w, a, i0);
            forall i1: nat :: i1 < SIZE ==> WordAt(w'.mem, TableOf(w'.mem, w'.pds, a, i0), i1) == 0
  {
    hide AllHold;
    hide Tagged;
    hide FreeListed;
    hide Allocated;
    PresentTable(w, a, i0);
    AllocatedGrown(w, a);
    NextFrameFree(w);
    EntryParts(NextFrame(w));
  }

  /** The kernel's part of a space: table 0 maps the pages from 1 to n - 1 to themselves and no more. */
  ghost predicate KernelUpTo(w: World, a: Space, n: nat) {
    HasTable(w, a, 0) && forall i1: nat :: i1 < SIZE ==> KernelWord(w, a, i1, n)
  }

  ghost predicate KernelWord(w: World, a: Space, i1: nat, n: nat) {
    WordAt(w.mem, TableOf(w.mem, w.pds, a, 0), i1) == if 1 <= i1 < n && i1 < 1024 then KernelEntry(i1) else 0
  }

  /** One more kernel page. */
  lemma KernelNext(w: World, a: Space, n: nat)
    requires Inv(w) && a in w.pds && 1 <= n < SIZE
    requires if n == 1 then !Present(WordAt(w.mem, w.pds[a], 0)) && HasFrame(w) else KernelUpTo(w, a, n)
    ensures var m := WithTableFor(w, a, 0);
            && Inv(m) && HasTable(m, a, 0) && Grown(w, m, a, None)
            && var t := TableOf(m.mem, m.pds, a, 0);
               && t < m.limit
               && var w' := Entered(m, t, n, KernelEntry(n));
                  Inv(w') && KernelUpTo(w', a, n + 1) && Grown(w, w', a, None)
  {
    hide AllHold;
    hide Tagged;
    hide FreeListed;
    hide WithTableFor;
    var m := WithTableFor(w, a, 0);
    PresentTable(w, a, 0);
    WithTableForInv(w, a, 0);
    TableAt(m, a, 0);
    WithKernelInv(m, a, n);
    if n == 1 {
      NewTableEmpty(w, a, 0);
    } else {
      TableForSame(w, a, 0);
      assert forall i1: nat :: i1 < SIZE ==> KernelWord(w, a, i1, n);
    }
    KernelEntered(w, m, a, n);
  }

  lemma TableForSame(w: World, a: Space, i0: nat)
    requires Inv(w) && a in w.pds && i0 < SIZE && Present(WordAt(w.mem, w.pds[a], i0))
    ensures WithTableFor(w, a, i0) == w
  {
  }

  lemma KernelEntered(w: World, m: World, a: Space, n: nat)
    requires Inv(m) && HasTable(m, a, 0) && Grown(w, m, a, None) && 1 <= n < SIZE && w.limit == m.limit
    requires forall i1: nat :: i1 < SIZE ==>
               KernelWord(m, a, i1, n) || (n == 1 && WordAt(m.mem, TableOf(m.mem, m.pds, a, 0), i1) == 0)
    requires TableOf(m.mem, m.pds, a, 0) < m.limit
    ensures var w' := Entered(m, TableOf(m.mem, m.pds, a, 0), n, KernelEntry(n));
            KernelUpTo(w', a, n + 1) && Grown(w, w', a, None)
  {
    hide AllHold;
    hide Tagged;
    hide FreeListed;
    TableAt(m, a, 0);
    DirectoryAt(m, a);
    var t := TableOf(m.mem, m.pds, a, 0);
    var w' := Entered(m, t, n, KernelEntry(n));
    assert TableOf(w'.mem, w'.pds, a, 0) == t;
    var n' := n + 1;
    forall i1: nat | i1 < SIZE
      ensures KernelWord(w', a, i1, n')
    {
      assert KernelWord(m, a, i1, n) || WordAt(m.mem, t, i1) == 0;
    }
    forall f: nat | f < w.limit
      ensures Held(OwnerAt(w.owner, f)) ==> Stays(w, w', a, f)
      ensures Gains(w, w', a, f)
    {
      assert Held(OwnerAt(w.owner, f)) ==> Stays(w, m, a, f);
      assert Gains(w, m, a, f);
    }
  }

  /** pmap of a loose frame for the user. */
  ghost function Mapped(w: World, a: Space, i0: nat, i1: nat, g: nat): World
    requires Inv(w) && a in w.pds && 512 <= i0 < SIZE && i1 < SIZE && g < w.limit
    requires Present(WordAt(w.mem, w.pds[a], i0)) || HasFrame(w)
  {
    WithTableForInv(w, a, i0);
    TableAt(WithTableFor(w, a, i0), a, i0);
    WithPage(WithTableFor(w, a, i0), a, i0, i1, g)
  }

  lemma StillUnmapped(w: World, w': World, a: Space, i0: nat, i1: nat)
    requires Inv(w) && Inv(w') && Grown(w, w', a, None) && a in w.pds && 512 <= i0 < SIZE && i1 < SIZE
    requires Walk(w, a, i0, i1) == None && HasTable(w', a, i0)
    ensures TableOf(w'.mem, w'.pds, a, i0) < w'.limit && WordAt(w'.mem, TableOf(w'.mem, w'.pds, a, i0), i1) == 0
  {
    hide Inv;
    hide Walk;
    hide HasTable;
    PresentPage(w', a, i0, i1);
    if Walk(w', a, i0, i1).Some? {
      var h := Walk(w', a, i0, i1).value;
      WalkOwner(w', a, i0, i1, h);
      WalkOwner(w, a, i0, i1, h);
      InLimit(w', h);
      OldPage(w, w', a, None, h);
    }
  }

  /** A page other than g was that page before. */
  lemma OldPage(w: World, w': World, b: Space, g: Option<nat>, h: nat)
    requires Grown(w, w', b, g) && h < w.limit && OwnerAt(w'.owner, h).Page? && Some(h) != g
    ensures OwnerAt(w.owner, h) == OwnerAt(w'.owner, h)
  {
    assert Gains(w, w', b, h);
    assert Held(OwnerAt(w.owner, h)) ==> Stays(w, w', b, h);
  }

  lemma InLimit(w: World, h: nat)
    requires Inv(w) && OwnerAt(w.owner, h) != Reserved
    ensures h < w.limit
  {
  }

  lemma MappedInv(w: World, a: Space, i0: nat, i1: nat, g: nat)
    requires Inv(w) && a in w.pds && 512 <= i0 < SIZE && i1 < SIZE && g < w.limit && w.owner[g] == Loose
    requires Present(WordAt(w.mem, w.pds[a], i0)) || HasFrame(w)
    requires Walk(w, a, i0, i1) == None
    ensures var w' := Mapped(w, a, i0, i1, g);
            && Inv(w') && Grown(w, w', a, Some(g))
            && OwnerAt(w'.owner, g) == Page(a, i0, i1) && g < |w.mem| && g < |w'.mem| && w'.mem[g] == w.mem[g]
  {
    hide AllHold;
    hide Tagged;
    hide FreeListed;
    hide Walk;
    hide WithTableFor;
    WithTableForInv(w, a, i0);
    var m := WithTableFor(w, a, i0);
    StillUnmapped(w, m, a, i0, i1);
    assert Stays(w, m, a, g);
    WithPageInv(m, a, i0, i1, g);
    WithPageGrown(m, a, i0, i1, g);
    GrownWider(w, m, a, g);
    GrownTwice(w, m, Mapped(w, a, i0, i1, g), a, Some(g));
  }

  /** alloc, fill and pmap: a page of b with these contents, at a place that was empty. */
  ghost function Placed(w: World, b: Space, i0: nat, i1: nat, page: seq<Word>): World
    requires Inv(w) && b in w.pds && 512 <= i0 < SIZE && i1 < SIZE && HasFrame(w) && |page| == SIZE
    requires var m := Filled(w, page); Present(WordAt(m.mem, m.pds[b], i0)) || HasFrame(m)
  {
    FilledInv(w, b, page);
    Mapped(Filled(w, page), b, i0, i1, NextFrame(w))
  }

  ghost function Filled(w: World, page: seq<Word>): World
    requires Inv(w) && HasFrame(w)
  {
    NextFrameFree(w);
    Allocated(w).(mem := Allocated(w).mem[NextFrame(w) := page])
  }

  lemma FilledInv(w: World, b: Space, page: seq<Word>)
    requires Inv(w) && HasFrame(w) && |page| == SIZE
    ensures var m, g := Filled(w, page), NextFrame(w);
            Inv(m) && g < m.limit && m.owner[g] == Loose && m.mem[g] == page && Grown(w, m, b, Some(g))
              && !Held(OwnerAt(w.owner, g))
  {
    hide AllHold;
    hide Threaded;
    hide Allocated;
    hide Grown;
    NextFrameFree(w);
    AllocatedGrown(w, b);
    LooseInv(Allocated(w), NextFrame(w), page);
    LooseGrown(w, Allocated(w), NextFrame(w), page, b);
  }

  lemma LooseGrown(w: World, m: World, g: nat, page: seq<Word>, b: Space)
    requires Grown(w, m, b, Some(g)) && g < |m.mem|
    ensures Grown(w, m.(mem := m.mem[g := page]), b, Some(g))
  {
    var m' := m.(mem := m.mem[g := page]);
    forall f: nat | f < w.limit && Held(OwnerAt(w.owner, f)) && f != g
      ensures Stays(w, m', b, f)
    {
      assert Stays(w, m, b, f);
    }
    forall f: nat | f < w.limit && f != g
      ensures Gains(w, m', b, f)
    {
      assert Gains(w, m, b, f);
    }
  }

  lemma LooseInv(w: World, g: nat, page: seq<Word>)
    requires Inv(w) && g < w.limit && w.owner[g] == Loose && |page| == SIZE
    ensures Inv(w.(mem := w.mem[g := page]))
  {
    hide Holds;
    hide Threaded;
    assert forall a :: a in w.pds ==> w.pds[a] != g;
    AllHoldFrame(w, g, page, Loose, None);
    ThreadedOther(w.mem, w.free, g, page);
    assert w.owner[g := Loose] == w.owner;
  }

  /** What every space maps after b has got a page: the page at its place, and all else as before. */
  lemma WalkGrown(w: World, w': World, b: Space, g: nat, j0: nat, j1: nat, a: Space, i0: nat, i1: nat)
    requires Inv(w) && Inv(w') && Grown(w, w', b, Some(g)) && OwnerAt(w'.owner, g) == Page(b, j0, j1)
    requires !OwnerAt(w.owner, g).Page?
    requires a in w.pds && 512 <= i0 < SIZE && i1 < SIZE
    ensures Walk(w', a, i0, i1) == if a == b && i0 == j0 && i1 == j1 then Some(g) else Walk(w, a, i0, i1)
    ensures Walk(w, a, i0, i1).Some? ==> var h := Walk(w, a, i0, i1).value;
                                         h < |w.mem| && h < |w'.mem| && w'.mem[h] == w.mem[h]
  {
    hide Inv;
    hide Walk;
    WalkOwner(w', a, i0, i1, g);
    if Walk(w', a, i0, i1).Some? {
      var h := Walk(w', a, i0, i1).value;
      WalkOwner(w', a, i0, i1, h);
      WalkOwner(w, a, i0, i1, h);
      InLimit(w', h);
      if h != g {
        OldPage(w, w', b, Some(g), h);
      }
    }
    if Walk(w, a, i0, i1).Some? {
      var h := Walk(w, a, i0, i1).value;
      WalkOwner(w, a, i0, i1, h);
      WalkOwner(w', a, i0, i1, h);
      InLimit(w, h);
      assert Stays(w, w', b, h);
    }
  }

  /** Taking and filling a frame maps nothing. */
  lemma UnmappedFilled(w: World, b: Space, i0: nat, i1: nat, page: seq<Word>)
    requires Inv(w) && HasFrame(w) && |page| == SIZE && b in w.pds && 512 <= i0 < SIZE && i1 < SIZE
    requires Walk(w, b, i0, i1) == None
    ensures Filled(w, page).pds == w.pds && Walk(Filled(w, page), b, i0, i1) == None
  {
    hide Inv;
    hide Walk;
    hide Allocated;
    FilledInv(w, b, page);
    var m := Filled(w, page);
    if Walk(m, b, i0, i1).Some? {
      var h := Walk(m, b, i0, i1).value;
      WalkOwner(m, b, i0, i1, h);
      WalkOwner(w, b, i0, i1, h);
      InLimit(m, h);
    }
  }

  // ---------------------------------------------------------------- fork

  ghost predicate Same(w: World, w': World, f: nat) {
    f < |w.mem| && f < |w'.mem| && OwnerAt(w'.owner, f) == OwnerAt(w.owner, f) && w'.mem[f] == w.mem[f]
  }

  /** At one place, b maps a copy of what a mapped, or nothing if a mapped nothing. */
  ghost predicate Copied(w0: World, w: World, a: Space, b: Space, i0: nat, i1: nat) {
    match Walk(w0, a, i0, i1)
    case None => Walk(w, b, i0, i1) == None
    case Some(f) =>
      && Walk(w, b, i0, i1).Some?
      && var h := Walk(w, b, i0, i1).value; f < |w0.mem| && h < |w.mem| && w.mem[h] == w0.mem[f]
  }

  ghost predicate CopiedUpTo(w0: World, w: World, a: Space, b: Space, i0: nat, i1: nat, c: nat) {
    if i0 * SIZE + i1 < c then Copied(w0, w, a, b, i0, i1) else Walk(w, b, i0, i1) == None
  }

  /** A frame that had no use has none still, or belongs to space b. */
  ghost predicate GainedBy(w: World, w': World, b: Space, f: nat) {
    var o := OwnerAt(w'.owner, f);
    !Held(OwnerAt(w.owner, f)) && Held(o) ==> SpaceOf(o) == Some(b)
  }

  /** A frame in use keeps its owner. */
  ghost predicate KeepsOwner(w: World, w': World, f: nat) {
    Held(OwnerAt(w.owner, f)) ==> OwnerAt(w'.owner, f) == OwnerAt(w.owner, f)
  }

  /** fork of a into b has dealt with the places before c. */
  ghost predicate Forking(w0: World, w: World, a: Space, b: Space, c: nat) {
    && Inv(w) && w.pds == w0.pds && w.first == w0.first && w.limit == w0.limit
    && (forall f: nat :: f < w0.limit && SpaceOf(OwnerAt(w0.owner, f)) !in {None, Some(b)} ==> Same(w0, w, f))
    && (forall f: nat :: f < w0.limit && SpaceOf(OwnerAt(w0.owner, f)) == Some(b) ==> Stays(w0, w, b, f))
    && (forall f: nat :: f < w0.limit ==> KeepsOwner(w0, w, f) && GainedBy(w0, w, b, f))
    && (forall i0: nat, i1: nat :: 512 <= i0 < SIZE && i1 < SIZE ==> CopiedUpTo(w0, w, a, b, i0, i1, c))
  }

  ghost predicate Fresh(w: World, b: Space) {
    b in w.pds && forall i0: nat, i1: nat :: 512 <= i0 < SIZE && i1 < SIZE ==> Walk(w, b, i0, i1) == None
  }

  lemma ForkBegins(w: World, a: Space, b: Space)
    requires Inv(w) && a in w.pds && Fresh(w, b)
    ensures Forking(w, w, a, b, 512 * SIZE)
  {
  }

  lemma SlotOrder(i0: nat, i1: nat, j0: nat, j1: nat)
    requires i1 < SIZE && j1 < SIZE
    ensures j0 * SIZE + j1 < i0 * SIZE + i1 + 1 <==> j0 * SIZE + j1 < i0 * SIZE + i1 || (j0 == i0 && j1 == i1)
    ensures j0 * SIZE + j1 == i0 * SIZE + i1 <==> j0 == i0 && j1 == i1
  {
  }

  lemma ForkStep(w0: World, w: World, w': World, a: Space, b: Space, i0: nat, i1: nat, g: nat)
    requires Inv(w0) && a in w0.pds && b in w0.pds && a != b && 512 <= i0 < SIZE && i1 < SIZE
    requires Forking(w0, w, a, b, i0 * SIZE + i1) && Walk(w0, a, i0, i1).Some?
    requires Inv(w') && Grown(w, w', b, Some(g)) && OwnerAt(w'.owner, g) == Page(b, i0, i1)
    requires !Held(OwnerAt(w.owner, g))
    requires var f := Walk(w0, a, i0, i1).value; f < |w0.mem| && g < |w'.mem| && w'.mem[g] == w0.mem[f]
    ensures Forking(w0, w', a, b, i0 * SIZE + i1 + 1)
  {
    hide Inv;
    hide Walk;
    forall f: nat | f < w0.limit && SpaceOf(OwnerAt(w0.owner, f)) !in {None, Some(b)}
      ensures Same(w0, w', f)
    {
      assert Same(w0, w, f);
      assert Stays(w, w', b, f);
    }
    forall f: nat | f < w0.limit && SpaceOf(OwnerAt(w0.owner, f)) == Some(b)
      ensures Stays(w0, w', b, f)
    {
      assert Stays(w0, w, b, f);
      assert Stays(w, w', b, f);
    }
    forall f: nat | f < w0.limit
      ensures KeepsOwner(w0, w', f) && GainedBy(w0, w', b, f)
    {
      assert KeepsOwner(w0, w, f) && GainedBy(w0, w, b, f);
      assert Held(OwnerAt(w.owner, f)) ==> Stays(w, w', b, f);
      assert f != g ==> Gains(w, w', b, f);
    }
    var c := i0 * SIZE + i1 + 1;
    forall j0: nat, j1: nat | 512 <= j0 < SIZE && j1 < SIZE
      ensures CopiedUpTo(w0, w', a, b, j0, j1, c)
    {
      assert CopiedUpTo(w0, w, a, b, j0, j1, i0 * SIZE + i1);
      SlotOrder(i0, i1, j0, j1);
      WalkGrown(w, w', b, g, i0, i1, b, j0, j1);
    }
  }

  lemma ForkSkip(w0: World, w: World, a: Space, b: Space, c: nat, c': nat)
    requires Forking(w0, w, a, b, c) && c <= c'
    requires forall i0: nat, i1: nat ::
               512 <= i0 < SIZE && i1 < SIZE && c <= i0 * SIZE + i1 < c' ==> Walk(w0, a, i0, i1) == None
    ensures Forking(w0, w, a, b, c')
  {
    hide Inv;
    hide Walk;
    forall i0: nat, i1: nat | 512 <= i0 < SIZE && i1 < SIZE
      ensures CopiedUpTo(w0, w, a, b, i0, i1, c')
    {
      assert CopiedUpTo(w0, w, a, b, i0, i1, c);
    }
  }

  /** After fork the child maps exactly the pages of the parent, with the same contents, in frames that
      nobody else maps; and the parent is as it was. */
  lemma ForkIsolates(w0: World, w: World, a: Space, b: Space, i0: nat, i1: nat)
    requires Inv(w0) && a in w0.pds && b in w0.pds && a != b && Forking(w0, w, a, b, SIZE * SIZE)
    requires 512 <= i0 < SIZE && i1 < SIZE
    ensures Walk(w, b, i0, i1).Some? <==> Walk(w0, a, i0, i1).Some?
    ensures Walk(w, b, i0, i1).Some? ==> UserFlags(w, b, i0, i1)
    ensures Walk(w, a, i0, i1) == Walk(w0, a, i0, i1)
    ensures Walk(w0, a, i0, i1).Some? ==>
              var f, h := Walk(w0, a, i0, i1).value, Walk(w, b, i0, i1).value;
              && f < |w0.mem| && f < |w.mem| && h < |w.mem|
              && w.mem[f] == w0.mem[f] && w.mem[h] == w0.mem[f]
              && forall x: Space, j0: nat, j1: nat ::
                   x in w.pds && 512 <= j0 < SIZE && j1 < SIZE && Walk(w, x, j0, j1) == Some(h) ==>
                     x == b && j0 == i0 && j1 == i1
  {
    hide Inv;
    hide Walk;
    assert CopiedUpTo(w0, w, a, b, i0, i1, SIZE * SIZE);
    assert i0 * SIZE + i1 < SIZE * SIZE;
    ParentKept(w0, w, a, b, i0, i1);
    if Walk(w, b, i0, i1).Some? {
      WalkFlagsAt(w, b, i0, i1);
      var h := Walk(w, b, i0, i1).value;
      WalkOwner(w, b, i0, i1, h);
      forall x: Space, j0: nat, j1: nat | x in w.pds && 512 <= j0 < SIZE && j1 < SIZE && Walk(w, x, j0, j1) == Some(h)
        ensures x == b && j0 == i0 && j1 == i1
      {
        WalkOwner(w, x, j0, j1, h);
      }
    }
  }

  lemma ParentKept(w0: World, w: World, a: Space, b: Space, i0: nat, i1: nat)
    requires Inv(w0) && a in w0.pds && a != b && Forking(w0, w, a, b, SIZE * SIZE)
    requires 512 <= i0 < SIZE && i1 < SIZE
    ensures Walk(w, a, i0, i1) == Walk(w0, a, i0, i1)
    ensures Walk(w0, a, i0, i1).Some? ==> Same(w0, w, Walk(w0, a, i0, i1).value)
  {
    hide AllHold;
    hide Tagged;
    hide FreeListed;
    PresentTable(w0, a, i0);
    assert Same(w0, w, w0.pds[a]);
    if HasTable(w0, a, i0) {
      PresentPage(w0, a, i0, i1);
      var t := TableOf(w0.mem, w0.pds, a, i0);
      assert Same(w0, w, t);
      if Walk(w0, a, i0, i1).Some? {
        WalkOwner(w0, a, i0, i1, Walk(w0, a, i0, i1).value);
        assert Same(w0, w, Walk(w0, a, i0, i1).value);
      }
    }
  }

  // ---------------------------------------------------------------- exec

  function EmptiedOwner(o: Owner, a: Space, c: nat): Owner {
    if o.Page? && o.a == a && o.i0 * SIZE + o.i1 < c then Free else o
  }

  predicate UserTableOf(o: Owner, a: Space) {
    o.Table? && o.a == a && o.i0 != 0
  }

  /** exec of a has freed the pages before c, and changed nothing else but the tables of a for its pages. */
  ghost predicate Emptying(w0: World, w: World, a: Space, c: nat) {
    && Inv(w) && w.pds == w0.pds && w.first == w0.first && w.limit == w0.limit && w.avail == w0.avail
    && (forall f: nat :: f < w0.limit ==> OwnerAt(w.owner, f) == EmptiedOwner(OwnerAt(w0.owner, f), a, c))
    && (forall f: nat ::
          f < w0.limit && Held(OwnerAt(w.owner, f)) && !UserTableOf(OwnerAt(w.owner, f), a) ==> Same(w0, w, f))
  }

  ghost function Taken(w: World, a: Space, i0: nat, i1: nat, g: nat): World
    requires Inv(w) && g < w.limit && w.owner[g] == Page(a, i0, i1)
  {
    WithoutPageInv(w, a, i0, i1, g);
    Released(WithoutPage(w, a, i0, i1, g), g)
  }

  lemma EmptyBegins(w: World, a: Space)
    requires Inv(w)
    ensures Emptying(w, w, a, 512 * SIZE)
  {
    forall f: nat | f < w.limit
      ensures OwnerAt(w.owner, f) == EmptiedOwner(OwnerAt(w.owner, f), a, 512 * SIZE)
    {
      assert Holds(w.owner, w.mem, w.pds, f);
    }
  }

  lemma EmptyStep(w0: World, w: World, a: Space, i0: nat, i1: nat, g: nat)
    requires Inv(w0) && Emptying(w0, w, a, i0 * SIZE + i1) && g < w.limit && w.owner[g] == Page(a, i0, i1)
    ensures Emptying(w0, Taken(w, a, i0, i1, g), a, i0 * SIZE + i1 + 1)
  {
    hide AllHold;
    hide Tagged;
    hide FreeListed;
    WithoutPageInv(w, a, i0, i1, g);
    var m := WithoutPage(w, a, i0, i1, g);
    ReleasedInv(m, g, None);
    var w' := Taken(w, a, i0, i1, g);
    PageAt(w, a, i0, i1, g);
    TableAt(w, a, i0);
    forall f: nat | f < w0.limit
      ensures OwnerAt(w'.owner, f) == EmptiedOwner(OwnerAt(w0.owner, f), a, i0 * SIZE + i1 + 1)
    {
      NextEmptied(w0, a, i0, i1, f, g);
    }
    forall f: nat | f < w0.limit && Held(OwnerAt(w'.owner, f)) && !UserTableOf(OwnerAt(w'.owner, f), a)
      ensures Same(w0, w', f)
    {
      assert Same(w0, w, f);
    }
  }

  lemma NextEmptied(w0: World, a: Space, i0: nat, i1: nat, f: nat, g: nat)
    requires Inv(w0) && f < w0.limit && g < w0.limit && i1 < SIZE
    requires EmptiedOwner(w0.owner[g], a, i0 * SIZE + i1) == Page(a, i0, i1)
    ensures EmptiedOwner(w0.owner[f], a, i0 * SIZE + i1 + 1)
         == if f == g then Free else EmptiedOwner(w0.owner[f], a, i0 * SIZE + i1)
  {
    if w0.owner[f].Page? && w0.owner[f].a == a {
      PageAt(w0, a, w0.owner[f].i0, w0.owner[f].i1, f);
      SlotOrder(i0, i1, w0.owner[f].i0, w0.owner[f].i1);
      if w0.owner[f] == Page(a, i0, i1) {
        OnlyPage(w0, a, i0, i1, g, f);
      }
    }
  }

  lemma EmptySkip(w0: World, w: World, a: Space, c: nat, c': nat)
    requires Inv(w0) && Emptying(w0, w, a, c) && c <= c' && a in w.pds
    requires forall i0: nat, i1: nat ::
               512 <= i0 < SIZE && i1 < SIZE && c <= i0 * SIZE + i1 < c' ==> Walk(w, a, i0, i1) == None
    ensures Emptying(w0, w, a, c')
  {
    hide Inv;
    hide Walk;
    forall f: nat | f < w0.limit
      ensures OwnerAt(w.owner, f) == EmptiedOwner(OwnerAt(w0.owner, f), a, c')
    {
      var o := OwnerAt(w.owner, f);
      if o.Page? && o.a == a {
        InLimit(w, f);
        OwnerIndex(w, f);
        PageAt(w, a, o.i0, o.i1, f);
        WalkOwner(w, a, o.i0, o.i1, f);
      }
    }
  }

  lemma OwnerIndex(w: World, f: nat)
    requires Inv(w) && f < w.limit
    ensures f < |w.owner| && OwnerAt(w.owner, f) == w.owner[f]
  {
  }

  /** After exec the space maps no user page, its pages are free, each frame exactly as often as it was
      mapped, and every frame of another space is as it was. */
  lemma ExecEmpties(w0: World, w: World, a: Space, i0: nat, i1: nat, f: nat)
    requires Inv(w0) && Emptying(w0, w, a, SIZE * SIZE) && a in w.pds && f < w0.limit
    requires 512 <= i0 < SIZE && i1 < SIZE
    ensures Walk(w, a, i0, i1) == None
    ensures OwnerAt(w.owner, f)
         == if OwnerAt(w0.owner, f).Page? && OwnerAt(w0.owner, f).a == a then Free else OwnerAt(w0.owner, f)
    ensures SpaceOf(OwnerAt(w0.owner, f)) !in {None, Some(a)} ==> Same(w0, w, f)
  {
    hide Walk;
    if Walk(w, a, i0, i1).Some? {
      var g := Walk(w, a, i0, i1).value;
      WalkOwner(w, a, i0, i1, g);
      InLimit(w, g);
      NeverEmptied(w0, a, g);
    }
    NeverEmptied(w0, a, f);
  }

  lemma NeverEmptied(w0: World, a: Space, g: nat)
    requires Inv(w0) && g < w0.limit
    ensures var o := EmptiedOwner(OwnerAt(w0.owner, g), a, SIZE * SIZE);
            o == if OwnerAt(w0.owner, g).Page? && OwnerAt(w0.owner, g).a == a then Free else OwnerAt(w0.owner, g)
  {
    assert Holds(w0.owner, w0.mem, w0.pds, g);
  }

  // ---------------------------------------------------------------- destruction

  const STRIDE: nat := 1025

  /** The order in which the destructor frees the frames of a space. */
  function Slot(o: Owner): nat {
    match o
    case Page(_, i0, i1) => i0 * STRIDE + i1
    case Table(_, i0) => i0 * STRIDE + SIZE
    case _ => SIZE * STRIDE
  }

  function DestroyedOwner(o: Owner, a: Space, c: nat): Owner {
    if SpaceOf(o) == Some(a) && Slot(o) < c then Free else o
  }

  /** Space a, which is no longer in use, has lost its frames before c; all else is as it was. */
  ghost predicate Destroying(w0: World, w: World, a: Space, c: nat) {
    && Shaped(w) && Tagged(w) && FreeListed(w) && Directories(w.owner, w.pds) && AllHold(w, Some(a))
    && w.pds == w0.pds - {a} && w.first == w0.first && w.limit == w0.limit && w.avail == w0.avail
    && (forall f: nat :: f < w0.limit ==> OwnerAt(w.owner, f) == DestroyedOwner(OwnerAt(w0.owner, f), a, c))
    && (forall f: nat :: f < w0.limit && Held(OwnerAt(w.owner, f)) ==> Same(w0, w, f))
  }

  lemma DestroyBegins(w: World, a: Space)
    requires Inv(w) && a in w.pds
    ensures Destroying(w, w.(pds := w.pds - {a}), a, 0)
  {
    hide Holds;
    hide Threaded;
    var w' := w.(pds := w.pds - {a});
    forall f: nat | f < |w'.owner| && SpaceOf(w'.owner[f]) != Some(a)
      ensures Holds(w'.owner, w'.mem, w'.pds, f)
    {
      assert Holds(w.owner, w.mem, w.pds, f);
      HoldsWithout(w.owner, w.mem, w.pds, a, f);
    }
  }

  lemma HoldsWithout(owner: seq<Owner>, mem: seq<seq<Word>>, pds: map<Space, nat>, a: Space, f: nat)
    requires Holds(owner, mem, pds, f) && SpaceOf(OwnerAt(owner, f)) != Some(a)
    ensures Holds(owner, mem, pds - {a}, f)
  {
  }

  /** No two frames of a space are freed at the same time. */
  lemma OneSlot(w: World, a: Space, f: nat, g: nat)
    requires Inv(w) && f < w.limit && g < w.limit
    requires SpaceOf(w.owner[f]) == Some(a) && SpaceOf(w.owner[g]) == Some(a) && Slot(w.owner[f]) == Slot(w.owner[g])
    ensures f == g
  {
    hide IsDirectory;
    hide IsTable;
    hide FreeListed;
    hide Tagged;
    SlotRange(w, f);
    SlotRange(w, g);
    match w.owner[f]
    case Page(_, i0, i1) => OnlyPage(w, a, i0, i1, f, g);
    case Table(_, i0) => OnlyTable(w, a, i0, f, g);
    case _ =>
  }

  lemma SlotRange(w: World, f: nat)
    requires Inv(w) && f < w.limit && SpaceOf(w.owner[f]).Some?
    ensures match w.owner[f]
            case Page(_, i0, i1) => i0 < SIZE && i1 < SIZE
            case Table(_, i0) => i0 < SIZE
            case Directory(a) => a in w.pds && w.pds[a] == f
            case _ => true
  {
    assert Holds(w.owner, w.mem, w.pds, f);
  }

  lemma DestroyStep(w0: World, w: World, a: Space, c: nat, g: nat)
    requires Inv(w0) && Destroying(w0, w, a, c) && g < w0.limit
    requires SpaceOf(w0.owner[g]) == Some(a) && Slot(w0.owner[g]) == c
    ensures Destroying(w0, Released(w, g), a, c + 1)
  {
    hide AllHold;
    hide Tagged;
    hide FreeListed;
    hide Slot;
    assert w.owner[g] == OwnerAt(w.owner, g) == OwnerAt(w0.owner, g);
    ReleasedInv(w, g, Some(a));
    var w' := Released(w, g);
    forall f: nat | f < w0.limit
      ensures OwnerAt(w'.owner, f) == DestroyedOwner(OwnerAt(w0.owner, f), a, c + 1)
      ensures Held(OwnerAt(w'.owner, f)) ==> Same(w0, w', f)
    {
      if f != g && SpaceOf(w0.owner[f]) == Some(a) && Slot(w0.owner[f]) == c {
        OneSlot(w0, a, f, g);
      }
      assert Held(OwnerAt(w.owner, f)) ==> Same(w0, w, f);
    }
  }

  lemma DestroySkip(w0: World, w: World, a: Space, c: nat, c': nat)
    requires Destroying(w0, w, a, c) && c <= c' && Inv(w0)
    requires forall f: nat ::
               f < w0.limit && SpaceOf(OwnerAt(w0.owner, f)) == Some(a) ==> !(c <= Slot(OwnerAt(w0.owner, f)) < c')
    ensures Destroying(w0, w, a, c')
  {
    hide AllHold;
    hide Tagged;
    hide FreeListed;
    hide Slot;
  }

  /** Destruction gives back exactly the frames the space had: each is on the free list, once, and every
      other frame has the owner and the contents it had. */
  lemma DestroyReturns(w0: World, w: World, a: Space, f: nat)
    requires Inv(w0) && a in w0.pds && Destroying(w0, w, a, SIZE * STRIDE + 1) && f < w0.limit
    ensures Inv(w) && NoDup(w.free)
    ensures OwnerAt(w.owner, f) == if SpaceOf(OwnerAt(w0.owner, f)) == Some(a) then Free else OwnerAt(w0.owner, f)
    ensures f in w.free <==> f in w0.free || SpaceOf(OwnerAt(w0.owner, f)) == Some(a)
    ensures SpaceOf(OwnerAt(w0.owner, f)) !in {None, Some(a)} ==> Same(w0, w, f)
  {
    hide Holds;
    hide Tagged;
    forall g: nat | g < w0.limit
      ensures OwnerAt(w.owner, g) == if SpaceOf(OwnerAt(w0.owner, g)) == Some(a) then Free else OwnerAt(w0.owner, g)
    {
      if SpaceOf(OwnerAt(w0.owner, g)) == Some(a) {
        SlotRange(w0, g);
      }
    }
    forall g: nat | g < |w.owner|
      ensures SpaceOf(w.owner[g]) != Some(a)
    {
      assert w.owner[g] == OwnerAt(w.owner, g);
    }
  }

  // ---------------------------------------------------------------- linear ownership

  ghost predicate IsDirectoryOf(w: World, f: nat, a: Space) {
    a in w.pds && w.pds[a] == f
  }

  ghost predicate IsTableOf(w: World, f: nat, a: Space, i0: nat) {
    a in w.pds && i0 < SIZE && Present(WordAt(w.mem, w.pds[a], i0)) && FrameOf(WordAt(w.mem, w.pds[a], i0)) == f
  }

  ghost predicate IsPageOf(w: World, f: nat, a: Space, i0: nat, i1: nat) {
    a in w.pds && 512 <= i0 < SIZE && i1 < SIZE && Walk(w, a, i0, i1) == Some(f)
  }

  /** The owner of a frame is what the lists, directories and tables in memory say; so a frame is free, or
      untouched, or has one use in one space. */
  lemma OneUse(w: World, f: nat, a: Space, i0: nat, i1: nat)
    requires Inv(w) && w.first <= f < w.limit
    ensures f in w.free <==> w.owner[f] == Free
    ensures w.avail <= f <==> w.owner[f] == Untouched
    ensures IsDirectoryOf(w, f, a) <==> w.owner[f] == Directory(a)
    ensures IsTableOf(w, f, a, i0) <==> w.owner[f] == Table(a, i0)
    ensures IsPageOf(w, f, a, i0, i1) <==> w.owner[f] == Page(a, i0, i1)
  {
    hide Walk;
    assert Holds(w.owner, w.mem, w.pds, f);
    assert f in w.free <==> OwnerAt(w.owner, f) == Free;
    if a in w.pds {
      DirectoryAt(w, a);
    }
    if a in w.pds && i0 < SIZE {
      PresentTable(w, a, i0);
      EntryParts(f);
    }
    if a in w.pds && 512 <= i0 < SIZE && i1 < SIZE {
      WalkOwner(w, a, i0, i1, f);
    }
  }
}
