/** Every run of the operations on frames and spaces, from the start of the machine. */
module FrameRuns {
  import opened Collections
  import opened FrameModel
  import opened FrameProofs
  import opened FrameTheorems

  // ---------------------------------------------------------------- what the operations leave behind

  /** A frame that had no use has none still, or is the directory or a table of the new space a. */
  ghost predicate Founds(w: World, w': World, a: Space, f: nat) {
    !Held(OwnerAt(w.owner, f)) && Held(OwnerAt(w'.owner, f)) ==> TablesOf(OwnerAt(w'.owner, f), a)
  }

  /** The space a is new: it maps no user page, and nothing else has changed hands. */
  ghost predicate Created(w: World, w': World, a: Space) {
    && w'.first == w.first && w'.limit == w.limit
    && (forall b :: b in w'.pds <==> b in w.pds || b == a)
    && (forall f: nat :: f < w.limit && Held(OwnerAt(w.owner, f)) ==> Same(w, w', f))
    && (forall f: nat :: f < w.limit ==> Founds(w, w', a, f))
  }

  /** A new space is fresh: fork may copy into it. */
  lemma CreatedFresh(w: World, w': World, a: Space)
    requires Inv(w) && Inv(w') && a !in w.pds && Created(w, w', a)
    ensures Fresh(w', a)
  {
    hide Walk;
    hide Tagged;
    hide FreeListed;
    forall i0: nat, i1: nat | 512 <= i0 < SIZE && i1 < SIZE
      ensures Walk(w', a, i0, i1) == None
    {
      if Walk(w', a, i0, i1).Some? {
        var g := Walk(w', a, i0, i1).value;
        WalkOwner(w', a, i0, i1, g);
        InLimit(w', g);
        NobodyYet(w, a, g);
        PageFounded(w, w', a, g);
      }
    }
  }

  /** A page of the new space would have been a page before. */
  lemma PageFounded(w: World, w': World, a: Space, g: nat)
    requires Created(w, w', a) && g < w.limit && OwnerAt(w'.owner, g).Page?
    ensures OwnerAt(w.owner, g) == OwnerAt(w'.owner, g)
  {
    assert Held(OwnerAt(w.owner, g)) ==> Same(w, w', g);
    assert Founds(w, w', a, g);
  }

  lemma NobodyYet(w: World, a: Space, f: nat)
    requires Inv(w) && a !in w.pds && f < w.limit
    ensures SpaceOf(OwnerAt(w.owner, f)) != Some(a)
  {
    assert Holds(w.owner, w.mem, w.pds, f);
  }

  /** Frame g is the page of space a at an address, with these contents. */
  ghost predicate PageIs(w: World, g: nat, a: Space, va: Word, page: seq<Word>) {
    OwnerAt(w.owner, g) == Page(a, I0(va), I1(va)) && g < |w.mem| && w.mem[g] == page
  }

  /** The faulting address is mapped to an empty page; every other place of every space is as it was. */
  ghost predicate FaultMapped(w: World, w': World, a: Space, va: Word) {
    && Walk(w', a, I0(va), I1(va)).Some? && UserFlags(w', a, I0(va), I1(va))
    && (var g := Walk(w', a, I0(va), I1(va)).value; g < |w'.mem| && w'.mem[g] == Zeros() && !Held(OwnerAt(w.owner, g)))
    && forall b: Space, i0: nat, i1: nat ::
         b in w.pds && 512 <= i0 < SIZE && i1 < SIZE && (b, i0, i1) != (a, I0(va), I1(va)) ==>
           SameWalk(w, w', b, i0, i1)
  }

  ghost predicate SameWalk(w: World, w': World, b: Space, i0: nat, i1: nat) {
    && Walk(w', b, i0, i1) == Walk(w, b, i0, i1)
    && (Walk(w, b, i0, i1).Some? ==>
          var h := Walk(w, b, i0, i1).value; h < |w.mem| && h < |w'.mem| && w'.mem[h] == w.mem[h])
  }

  // ---------------------------------------------------------------- events

  /** A space is made, a page fault above the kernel's half is resolved, a space is forked into a fresh one,
      is emptied by exec, or is destroyed. */
  datatype Event = NewSpace(a: Space) | FaultAt(a: Space, va: Word) | ForkTo(a: Space, b: Space)
                 | ExecOf(a: Space) | DestroyOf(a: Space)

  ghost predicate Resolves(w: World, w': World, a: Space, va: Word, g: nat) {
    Grown(w, w', a, Some(g)) && !Held(OwnerAt(w.owner, g)) && PageIs(w', g, a, va, Zeros())
  }

  /** An event that ends without a panic takes w to w'. */
  ghost predicate Happens(w: World, e: Event, w': World) {
    Inv(w') &&
    match e
    case NewSpace(a) =>
      a !in w.pds && Created(w, w', a) && (1 < w.limit ==> KernelUpTo(w', a, w.limit))
    case FaultAt(a, va) =>
      && a in w.pds && 0x8000_0000 <= va && Walk(w, a, I0(va), I1(va)) == None
      && FaultMapped(w, w', a, va) && exists g: nat :: Resolves(w, w', a, va, g)
    case ForkTo(a, b) =>
      && a in w.pds && a != b && Fresh(w, b) && Forking(w, w', a, b, SIZE * SIZE)
      && forall i0: nat, i1: nat ::
           512 <= i0 < SIZE && i1 < SIZE && Walk(w, a, i0, i1).Some? ==> UserFlags(w', b, i0, i1)
    case ExecOf(a) =>
      a in w.pds && Emptying(w, w', a, SIZE * SIZE)
    case DestroyOf(a) =>
      a in w.pds && Destroying(w, w', a, SIZE * STRIDE + 1)
  }

  /** No frame is taken and entered nowhere. */
  ghost predicate NoLoose(w: World) {
    forall f: nat :: OwnerAt(w.owner, f) != Loose
  }

  /** Every operation that ends leaves no frame behind. */
  lemma NothingLost(w: World, e: Event, w': World)
    requires Inv(w) && NoLoose(w) && Happens(w, e, w')
    ensures NoLoose(w')
  {
    hide AllHold;
    hide FreeListed;
    hide Tagged;
    hide Walk;
    hide KernelUpTo;
    hide FaultMapped;
    hide CopiedUpTo;
    forall f: nat
      ensures OwnerAt(w'.owner, f) != Loose
    {
      LostNowhere(w, e, w', f);
    }
  }

  lemma LostNowhere(w: World, e: Event, w': World, f: nat)
    requires Inv(w) && NoLoose(w) && Happens(w, e, w')
    ensures OwnerAt(w'.owner, f) != Loose
  {
    hide AllHold;
    hide FreeListed;
    hide Tagged;
    hide Walk;
    hide KernelUpTo;
    hide FaultMapped;
    hide CopiedUpTo;
    if f < w.limit {
      match e
      case NewSpace(a) =>
        assert Founds(w, w', a, f);
        assert Held(OwnerAt(w.owner, f)) ==> Same(w, w', f);
      case FaultAt(a, va) =>
        var g: nat :| Resolves(w, w', a, va, g);
        assert f != g ==> Gains(w, w', a, f);
        assert f != g && Held(OwnerAt(w.owner, f)) ==> Stays(w, w', a, f);
      case ForkTo(a, b) =>
        assert KeepsOwner(w, w', f) && GainedBy(w, w', b, f);
      case ExecOf(a) =>
      case DestroyOf(a) =>
    }
  }

  // ---------------------------------------------------------------- exactly one use

  /** What the free list, the bound of the untouched frames, the directories and the tables in memory say
      about a frame. */
  ghost predicate Uses(w: World, f: nat, o: Owner) {
    match o
    case Free => f in w.free
    case Untouched => w.avail <= f < w.limit
    case Directory(a) => IsDirectoryOf(w, f, a)
    case Table(a, i0) => IsTableOf(w, f, a, i0)
    case Page(a, i0, i1) => IsPageOf(w, f, a, i0, i1)
    case Reserved => false
    case Loose => false
  }

  ghost predicate ExactlyOneUse(w: World, f: nat) {
    exists o :: Uses(w, f, o) && forall p :: Uses(w, f, p) ==> p == o
  }

  lemma OneUseEach(w: World, f: nat)
    requires Inv(w) && NoLoose(w) && w.first <= f < w.limit
    ensures ExactlyOneUse(w, f)
  {
    hide AllHold;
    hide FreeListed;
    var o := OwnerAt(w.owner, f);
    UseIsOwner(w, f, o);
    forall p | Uses(w, f, p)
      ensures p == o
    {
      UseIsOwner(w, f, p);
    }
    assert Uses(w, f, o);
  }

  lemma UseIsOwner(w: World, f: nat, o: Owner)
    requires Inv(w) && w.first <= f < w.limit && o != Loose && o != Reserved
    ensures Uses(w, f, o) <==> OwnerAt(w.owner, f) == o
  {
    hide AllHold;
    hide FreeListed;
    hide Tagged;
    if o.Page? {
      OneUse(w, f, o.a, o.i0, o.i1);
    } else if o.Table? {
      OneUse(w, f, o.a, o.i0, 0);
    } else if o.Directory? {
      OneUse(w, f, o.a, 0, 0);
    } else {
      OneUse(w, f, 0, 0, 0);
    }
  }

  // ---------------------------------------------------------------- every run

  /** Memory at the start: every managed frame is untouched. */
  ghost predicate Started(w: World) {
    Inv(w) && NoLoose(w) && w.pds == map[] && w.free == [] && w.avail == w.first
  }

  ghost predicate Run(ws: seq<World>, es: seq<Event>) {
    |ws| == |es| + 1 && Started(ws[0]) && forall i: nat :: i < |es| ==> Happens(ws[i], es[i], ws[i + 1])
  }

  lemma {:induction false} RunInv(ws: seq<World>, es: seq<Event>, i: nat)
    requires Run(ws, es) && i < |ws|
    ensures Inv(ws[i]) && NoLoose(ws[i])
  {
    hide Inv;
    hide Happens;
    hide NoLoose;
    StartedInv(ws[0]);
    if i > 0 {
      RunInv(ws, es, i - 1);
      assert Happens(ws[i - 1], es[i - 1], ws[i - 1 + 1]);
      NothingLost(ws[i - 1], es[i - 1], ws[i]);
      HappensInv(ws[i - 1], es[i - 1], ws[i]);
    }
  }

  lemma StartedInv(w: World)
    requires Started(w)
    ensures Inv(w) && NoLoose(w)
  {
  }

  lemma HappensInv(w: World, e: Event, w': World)
    requires Happens(w, e, w')
    ensures Inv(w')
  {
  }

  /** In every reachable state, each managed frame is in exactly one of the free list, the untouched frames,
      the directories, the tables and the pages, and there once. */
  lemma FramesAccounted(ws: seq<World>, es: seq<Event>, i: nat, f: nat)
    requires Run(ws, es) && i < |ws| && ws[i].first <= f < ws[i].limit
    ensures ExactlyOneUse(ws[i], f)
  {
    hide Inv;
    hide Happens;
    hide NoLoose;
    RunInv(ws, es, i);
    OneUseEach(ws[i], f);
  }

  // ---------------------------------------------------------------- the kernel's half of every space

  /** The kernel sees its own pages in a space, each at its own address. */
  ghost predicate KernelSees(w: World, a: Space) {
    forall n: nat :: 1 <= n < w.limit ==> Walk(w, a, 0, n) == Some(n) && KernelFlags(w, a, n)
  }

  /** The directory and the kernel's table of a space keep what they have. */
  lemma KernelStays(w: World, w': World, a: Space)
    requires Inv(w) && Inv(w') && a in w.pds && a in w'.pds && w'.pds[a] == w.pds[a] && w'.limit == w.limit
    requires HasTable(w, a, 0)
    requires OnlyGains(w, w', w.pds[a]) && OnlyGains(w, w', TableOf(w.mem, w.pds, a, 0))
    ensures KernelSees(w, a) ==> KernelSees(w', a)
  {
    hide Inv;
    hide OwnerAt;
    DirectoryWord(w, a, 0);
    var x := WordAt(w.mem, w.pds[a], 0);
    EntryParts(FrameOf(x));
    if KernelSees(w, a) {
      KernelWords(w, a);
      LimitIs(w);
      forall n: nat | 1 <= n < w'.limit
        ensures Walk(w', a, 0, n) == Some(n) && KernelFlags(w', a, n)
      {
        assert Walk(w, a, 0, n) == Some(n) && KernelFlags(w, a, n);
      }
    }
  }

  lemma LimitIs(w: World)
    requires Inv(w)
    ensures w.limit <= SIZE
  {
  }

  lemma KernelWords(w: World, a: Space)
    requires Inv(w) && a in w.pds && KernelSees(w, a)
    ensures FlagsRight(w, a)
  {
    WalkFlags(w, a);
  }

  lemma KernelTable(w: World, a: Space)
    requires Inv(w) && a in w.pds && KernelSees(w, a) && 1 < w.limit
    ensures HasTable(w, a, 0) && OwnerAt(w.owner, w.pds[a]) == Directory(a)
    ensures OwnerAt(w.owner, TableOf(w.mem, w.pds, a, 0)) == Table(a, 0)
    ensures w.pds[a] < w.limit && TableOf(w.mem, w.pds, a, 0) < w.limit
  {
    hide AllHold;
    hide Tagged;
    hide FreeListed;
    assert Walk(w, a, 0, 1) == Some(1);
    PresentTable(w, a, 0);
    DirectoryAt(w, a);
    TableAt(w, a, 0);
  }

  lemma SameGains(w: World, w': World, f: nat)
    requires Same(w, w', f)
    ensures OnlyGains(w, w', f)
  {
  }

  lemma StaysGains(w: World, w': World, b: Space, f: nat)
    requires Stays(w, w', b, f)
    ensures OnlyGains(w, w', f)
  {
  }

  /** A directory that is still its space's. */
  lemma PdsKept(w': World, a: Space, p: nat)
    requires Inv(w') && OwnerAt(w'.owner, p) == Directory(a)
    ensures a in w'.pds && w'.pds[a] == p
  {
    assert Holds(w'.owner, w'.mem, w'.pds, p);
  }

  /** The owner and the contents, or what is added to them. */
  ghost predicate KernelKeeps(w: World, w': World, f: nat) {
    OnlyGains(w, w', f) && OwnerAt(w'.owner, f) == OwnerAt(w.owner, f)
  }

  /** A frame of the kernel's half of a space is left alone by every event, or gains entries. */
  lemma KernelFrame(w: World, e: Event, w': World, b: Space, f: nat)
    requires Inv(w) && Happens(w, e, w') && b in w.pds && b in w'.pds && f < w.limit
    requires OwnerAt(w.owner, f) == Directory(b) || OwnerAt(w.owner, f) == Table(b, 0)
    ensures KernelKeeps(w, w', f)
  {
    hide Inv;
    hide FaultMapped;
    hide Created;
    hide Grown;
    hide Forking;
    hide Emptying;
    hide Destroying;
    hide KernelKeeps;
    match e
    case NewSpace(a) => KernelCreated(w, w', a, b, f);
    case FaultAt(a, va) =>
      var g: nat :| Resolves(w, w', a, va, g);
      KernelGrown(w, w', a, g, f);
    case ForkTo(a, c) => KernelForked(w, w', a, c, b, f);
    case ExecOf(a) => KernelEmptied(w, w', a, b, f);
    case DestroyOf(a) => DestroyedSpaces(w, w', a); KernelDestroyed(w, w', a, b, f);
  }

  lemma KernelCreated(w: World, w': World, a: Space, b: Space, f: nat)
    requires Created(w, w', a) && f < w.limit
    requires OwnerAt(w.owner, f) == Directory(b) || OwnerAt(w.owner, f) == Table(b, 0)
    ensures KernelKeeps(w, w', f)
  {
    hide OnlyGains;
    assert Same(w, w', f);
    SameGains(w, w', f);
  }

  lemma KernelGrown(w: World, w': World, a: Space, g: nat, f: nat)
    requires Grown(w, w', a, Some(g)) && !Held(OwnerAt(w.owner, g)) && f < w.limit && Held(OwnerAt(w.owner, f))
    ensures KernelKeeps(w, w', f)
  {
    hide OnlyGains;
    assert Stays(w, w', a, f);
    StaysGains(w, w', a, f);
  }

  lemma KernelForked(w: World, w': World, a: Space, c: Space, b: Space, f: nat)
    requires Forking(w, w', a, c, SIZE * SIZE) && f < w.limit && SpaceOf(OwnerAt(w.owner, f)) == Some(b)
    ensures KernelKeeps(w, w', f)
  {
    hide Inv;
    hide CopiedUpTo;
    hide OnlyGains;
    if b == c {
      assert Stays(w, w', c, f);
      StaysGains(w, w', c, f);
    } else {
      assert Same(w, w', f);
      SameGains(w, w', f);
    }
  }

  lemma KernelEmptied(w: World, w': World, a: Space, b: Space, f: nat)
    requires Emptying(w, w', a, SIZE * SIZE) && f < w.limit
    requires OwnerAt(w.owner, f) == Directory(b) || OwnerAt(w.owner, f) == Table(b, 0)
    ensures KernelKeeps(w, w', f)
  {
    hide Inv;
    hide OnlyGains;
    assert OwnerAt(w'.owner, f) == EmptiedOwner(OwnerAt(w.owner, f), a, SIZE * SIZE);
    assert Same(w, w', f);
    SameGains(w, w', f);
  }

  lemma KernelDestroyed(w: World, w': World, a: Space, b: Space, f: nat)
    requires Destroying(w, w', a, SIZE * STRIDE + 1) && f < w.limit && a != b && SpaceOf(OwnerAt(w.owner, f)) == Some(b)
    ensures KernelKeeps(w, w', f)
  {
    hide AllHold;
    hide Tagged;
    hide FreeListed;
    hide OnlyGains;
    assert OwnerAt(w'.owner, f) == DestroyedOwner(OwnerAt(w.owner, f), a, SIZE * STRIDE + 1);
    assert Same(w, w', f);
    SameGains(w, w', f);
  }

  lemma DestroyedSpaces(w: World, w': World, a: Space)
    requires Destroying(w, w', a, SIZE * STRIDE + 1)
    ensures w'.pds == w.pds - {a}
  {
  }

  lemma KernelKept(w: World, e: Event, w': World, b: Space)
    requires Inv(w) && Happens(w, e, w') && b in w.pds && b in w'.pds && KernelSees(w, b) && 1 < w.limit
    ensures KernelSees(w', b)
  {
    hide Inv;
    hide Happens;
    hide KernelSees;
    hide OnlyGains;
    HappensInv(w, e, w');
    HappensLimit(w, e, w');
    KernelTable(w, b);
    KernelFrame(w, e, w', b, w.pds[b]);
    KernelFrame(w, e, w', b, TableOf(w.mem, w.pds, b, 0));
    PdsKept(w', b, w.pds[b]);
    KernelStays(w, w', b);
  }

  /** A space that an event makes has the kernel's half from the start. */
  lemma KernelBegins(w: World, e: Event, w': World, b: Space)
    requires Inv(w) && Happens(w, e, w') && b !in w.pds && b in w'.pds && 1 < w.limit
    ensures KernelSees(w', b)
  {
    hide AllHold;
    hide FreeListed;
    hide Tagged;
    hide Forking;
    hide FaultMapped;
    match e
    case NewSpace(a) =>
      WalkFlags(w', a);
      PresentTable(w', a, 0);
      LimitIs(w');
      forall n: nat | 1 <= n < w'.limit
        ensures Walk(w', a, 0, n) == Some(n) && KernelFlags(w', a, n)
      {
        assert KernelWord(w', a, n, w.limit);
        EntryParts(n);
      }
    case FaultAt(a, va) =>
    case ForkTo(a, c) => ForkSpaces(w, w', a, c);
    case ExecOf(a) =>
    case DestroyOf(a) =>
  }

  lemma ForkSpaces(w: World, w': World, a: Space, b: Space)
    requires Forking(w, w', a, b, SIZE * SIZE)
    ensures w'.pds == w.pds
  {
  }

  /** In every reachable state every space maps the kernel's pages to themselves, writable for the kernel
      alone, and whatever it maps for its user is writable for the user. */
  lemma {:induction false} SpacesRight(ws: seq<World>, es: seq<Event>, i: nat, a: Space)
    requires Run(ws, es) && i < |ws| && 1 < ws[0].limit && a in ws[i].pds
    ensures ws[i].limit == ws[0].limit && KernelSees(ws[i], a) && FlagsRight(ws[i], a)
    decreases i
  {
    hide Inv;
    hide Happens;
    hide KernelSees;
    hide NoLoose;
    RunInv(ws, es, i);
    WalkFlags(ws[i], a);
    RunLimit(ws, es, i);
    if i > 0 {
      RunInv(ws, es, i - 1);
      RunLimit(ws, es, i - 1);
      assert Happens(ws[i - 1], es[i - 1], ws[i - 1 + 1]);
      if a in ws[i - 1].pds {
        SpacesRight(ws, es, i - 1, a);
        KernelKept(ws[i - 1], es[i - 1], ws[i], a);
      } else {
        KernelBegins(ws[i - 1], es[i - 1], ws[i], a);
      }
    }
  }

  lemma {:induction false} RunLimit(ws: seq<World>, es: seq<Event>, i: nat)
    requires Run(ws, es) && i < |ws|
    ensures ws[i].limit == ws[0].limit
    decreases i
  {
    hide Inv;
    hide Happens;
    hide NoLoose;
    if i > 0 {
      RunLimit(ws, es, i - 1);
      assert Happens(ws[i - 1], es[i - 1], ws[i - 1 + 1]);
      HappensLimit(ws[i - 1], es[i - 1], ws[i]);
    }
  }

  lemma HappensLimit(w: World, e: Event, w': World)
    requires Happens(w, e, w')
    ensures w'.limit == w.limit
  {
    hide Inv;
    hide FaultMapped;
    hide CopiedUpTo;
    hide KernelUpTo;
  }
}
