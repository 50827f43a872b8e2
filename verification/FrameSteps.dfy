/** Operations on frames and spaces by many processes at once. The source disables interrupts only inside
    alloc, free and pmap, so between these any other process may run; a frame that an operation has taken
    and not yet entered is in the hand of the process at work. */
module FrameSteps {
  import opened Collections
  import opened FrameModel
  import opened FrameProofs
  import opened FrameTheorems
  import opened FrameRuns

  type Pid = nat

  /** hand: who has each frame that is taken and not entered. */
  datatype System = System(w: World, hand: map<nat, Pid>)

  /** What process p does without being interrupted: it takes a frame, which is cleared later; it gives one
      back; it writes to one in its hand, one piece of bzero or memcpy; it makes one the directory of a new
      space; it maps a page of the kernel, or a frame from its hand; as a user it writes to a page that is
      mapped; it takes a page out of its table; it begins to destroy a space, whose frames are then in its
      hand. */
  datatype Step = Takes(p: Pid) | Gives(p: Pid, f: nat) | Fills(p: Pid, f: nat, page: seq<Word>)
                | Founds(p: Pid, f: nat, a: Space) | MapsKernel(p: Pid, a: Space, n: nat)
                | Maps(p: Pid, a: Space, i0: nat, i1: nat, f: nat) | Unmaps(p: Pid, a: Space, i0: nat, i1: nat)
                | Stores(p: Pid, a: Space, i0: nat, i1: nat, page: seq<Word>) | Dooms(p: Pid, a: Space)

  /** The frames taken are those in a hand, each in one. */
  ghost predicate SysInv(s: System) {
    Inv(s.w) && forall f: nat :: f in s.hand <==> OwnerAt(s.w.owner, f) == Loose
  }

  predicate Has(s: System, p: Pid, f: nat) {
    f in s.hand && s.hand[f] == p
  }

  /** There is a frame for the table, if that is missing. */
  ghost predicate TableToHave(w: World, a: Space, i0: nat) {
    a in w.pds && (Present(WordAt(w.mem, w.pds[a], i0)) || HasFrame(w))
  }

  ghost predicate Enabled(s: System, e: Step) {
    match e
    case Takes(p) => HasFrame(s.w)
    case Gives(p, f) => Has(s, p, f)
    case Fills(p, f, page) => Has(s, p, f) && |page| == SIZE
    case Founds(p, f, a) => Has(s, p, f) && a !in s.w.pds && f < |s.w.mem| && s.w.mem[f] == Zeros()
    case MapsKernel(p, a, n) => n < SIZE && TableToHave(s.w, a, 0)
    case Maps(p, a, i0, i1, f) =>
      Has(s, p, f) && 512 <= i0 < SIZE && i1 < SIZE && TableToHave(s.w, a, i0) && Walk(s.w, a, i0, i1) == None
    case Unmaps(p, a, i0, i1) => a in s.w.pds && 512 <= i0 < SIZE && i1 < SIZE && Walk(s.w, a, i0, i1).Some?
    case Stores(p, a, i0, i1, page) =>
      a in s.w.pds && 512 <= i0 < SIZE && i1 < SIZE && Walk(s.w, a, i0, i1).Some? && |page| == SIZE
    case Dooms(p, a) => a in s.w.pds
  }

  // ---------------------------------------------------------------- what the steps do

  ghost function Taken(w: World): World
    requires Inv(w) && HasFrame(w)
  {
    NextFrameFree(w);
    Filled(w, w.mem[NextFrame(w)])
  }

  ghost function KernelMapped(w: World, a: Space, n: nat): World
    requires Inv(w) && n < SIZE && TableToHave(w, a, 0)
  {
    WithTableForInv(w, a, 0);
    var m := WithTableFor(w, a, 0);
    WithKernelInv(m, a, n);
    Entered(m, TableOf(m.mem, m.pds, a, 0), n, KernelEntry(n))
  }

  ghost function Unmapped(w: World, a: Space, i0: nat, i1: nat): World
    requires Inv(w) && 512 <= i0 < SIZE && i1 < SIZE && Walk(w, a, i0, i1).Some?
  {
    var g := Walk(w, a, i0, i1).value;
    WalkOwner(w, a, i0, i1, g);
    InLimit(w, g);
    WithoutPageInv(w, a, i0, i1, g);
    WithoutPage(w, a, i0, i1, g)
  }

  ghost function Stored(w: World, a: Space, i0: nat, i1: nat, page: seq<Word>): World
    requires Inv(w) && 512 <= i0 < SIZE && i1 < SIZE && Walk(w, a, i0, i1).Some?
  {
    var g := Walk(w, a, i0, i1).value;
    WalkOwner(w, a, i0, i1, g);
    InLimit(w, g);
    w.(mem := w.mem[g := page])
  }

  /** The frames of a space are nobody's page or table any more. */
  function DoomedOwner(o: Owner, a: Space): Owner {
    if SpaceOf(o) == Some(a) then Loose else o
  }

  ghost function Doomed(w: World, a: Space): World {
    w.(owner := seq(|w.owner|, f requires 0 <= f < |w.owner| => DoomedOwner(w.owner[f], a)), pds := w.pds - {a})
  }

  ghost function FramesOf(w: World, a: Space): set<nat> {
    set f: nat | f < |w.owner| && SpaceOf(w.owner[f]) == Some(a)
  }

  ghost function Done(s: System, e: Step): System
    requires SysInv(s) && Enabled(s, e)
  {
    match e
    case Takes(p) => System(Taken(s.w), s.hand[NextFrame(s.w) := p])
    case Gives(p, f) => InLimit(s.w, f); System(Released(s.w, f), s.hand - {f})
    case Fills(p, f, page) => InLimit(s.w, f); System(s.w.(mem := s.w.mem[f := page]), s.hand)
    case Founds(p, f, a) => InLimit(s.w, f); System(WithDirectory(s.w, a, f), s.hand - {f})
    case MapsKernel(p, a, n) => System(KernelMapped(s.w, a, n), s.hand)
    case Maps(p, a, i0, i1, f) => InLimit(s.w, f); System(Mapped(s.w, a, i0, i1, f), s.hand - {f})
    case Unmaps(p, a, i0, i1) =>
      System(Unmapped(s.w, a, i0, i1), s.hand[Walk(s.w, a, i0, i1).value := p])
    case Stores(p, a, i0, i1, page) => System(Stored(s.w, a, i0, i1, page), s.hand)
    case Dooms(p, a) =>
      System(Doomed(s.w, a), s.hand + map f | f in FramesOf(s.w, a) :: p)
  }

  /** The space that a step works on. */
  function SpaceFor(e: Step): Option<Space> {
    match e
    case Founds(_, _, a) => Some(a)
    case MapsKernel(_, a, _) => Some(a)
    case Maps(_, a, _, _, _) => Some(a)
    case Unmaps(_, a, _, _) => Some(a)
    case Stores(_, a, _, _, _) => Some(a)
    case Dooms(_, a) => Some(a)
    case _ => None
  }

  // ---------------------------------------------------------------- what each step keeps

  /** A frame in the hand of another process, or of another space than the step works on. */
  ghost predicate Foreign(s: System, e: Step, f: nat) {
    var o := OwnerAt(s.w.owner, f);
    (f in s.hand && s.hand[f] != e.p) || (SpaceOf(o).Some? && SpaceOf(o) != SpaceFor(e))
  }

  /** Foreign frames stay what they are, and none becomes foreign. */
  ghost predicate KeptAt(s: System, e: Step, s': System, f: nat) {
    && (Foreign(s, e, f) ==> Same(s.w, s'.w, f) && (f in s.hand ==> Has(s', s.hand[f], f)))
    && (Foreign(s', e, f) ==>
          OwnerAt(s.w.owner, f) == OwnerAt(s'.w.owner, f) && (f in s'.hand ==> Has(s, s'.hand[f], f)))
  }

  ghost predicate Kept(s: System, e: Step, s': System) {
    && s'.w.first == s.w.first && s'.w.limit == s.w.limit
    && (forall b :: b in s.w.pds && SpaceFor(e) != Some(b) ==> b in s'.w.pds)
    && forall f: nat :: KeptAt(s, e, s', f)
  }

  lemma StepKeeps(s: System, e: Step)
    requires SysInv(s) && Enabled(s, e)
    ensures SysInv(Done(s, e)) && Kept(s, e, Done(s, e))
  {
    hide SysInv;
    hide Kept;
    hide Enabled;
    hide Done;
    match e
    case Takes(_) => TakesKeeps(s, e);
    case Gives(_, _) => GivesKeeps(s, e);
    case Fills(_, _, _) => FillsKeeps(s, e);
    case Founds(_, _, _) => FoundsKeeps(s, e);
    case MapsKernel(_, _, _) => MapsKernelKeeps(s, e);
    case Maps(_, _, _, _, _) => MapsKeeps(s, e);
    case Unmaps(_, _, _, _) => UnmapsKeeps(s, e);
    case Stores(_, _, _, _, _) => StoresKeeps(s, e);
    case Dooms(_, _) => DoomsKeeps(s, e);
  }

  lemma TakesKeeps(s: System, e: Step)
    requires SysInv(s) && Enabled(s, e) && e.Takes?
    ensures SysInv(Done(s, e)) && Kept(s, e, Done(s, e))
  {
    hide AllHold;
    hide Tagged;
    hide FreeListed;
    NextFrameFree(s.w);
    FilledInv(s.w, 0, s.w.mem[NextFrame(s.w)]);
    assert Taken(s.w).mem == s.w.mem;
  }

  lemma GivesKeeps(s: System, e: Step)
    requires SysInv(s) && Enabled(s, e) && e.Gives?
    ensures SysInv(Done(s, e)) && Kept(s, e, Done(s, e))
  {
    hide AllHold;
    hide Tagged;
    hide FreeListed;
    InLimit(s.w, e.f);
    ReleasedInv(s.w, e.f, None);
  }

  lemma FillsKeeps(s: System, e: Step)
    requires SysInv(s) && Enabled(s, e) && e.Fills?
    ensures SysInv(Done(s, e)) && Kept(s, e, Done(s, e))
  {
    hide AllHold;
    hide Tagged;
    hide FreeListed;
    InLimit(s.w, e.f);
    LooseInv(s.w, e.f, e.page);
  }

  lemma FoundsKeeps(s: System, e: Step)
    requires SysInv(s) && Enabled(s, e) && e.Founds?
    ensures SysInv(Done(s, e)) && Kept(s, e, Done(s, e))
  {
    hide AllHold;
    hide Tagged;
    hide FreeListed;
    InLimit(s.w, e.f);
    WithDirectoryInv(s.w, e.a, e.f);
  }

  lemma MapsKernelKeeps(s: System, e: Step)
    requires SysInv(s) && Enabled(s, e) && e.MapsKernel?
    ensures SysInv(Done(s, e)) && Kept(s, e, Done(s, e))
  {
    hide Inv;
    KernelMappedGrown(s.w, e.a, e.n);
    GrownKept(s, e, Done(s, e), e.a, None);
  }

  lemma KernelMappedGrown(w: World, a: Space, n: nat)
    requires Inv(w) && n < SIZE && TableToHave(w, a, 0)
    ensures Inv(KernelMapped(w, a, n)) && Grown(w, KernelMapped(w, a, n), a, None)
  {
    hide AllHold;
    hide Tagged;
    hide FreeListed;
    hide WithTableFor;
    WithTableForInv(w, a, 0);
    var m := WithTableFor(w, a, 0);
    WithKernelInv(m, a, n);
    TableAt(m, a, 0);
    var w' := KernelMapped(w, a, n);
    forall f: nat | f < w.limit
      ensures Held(OwnerAt(w.owner, f)) ==> Stays(w, w', a, f)
      ensures Gains(w, w', a, f)
    {
      assert Held(OwnerAt(w.owner, f)) ==> Stays(w, m, a, f);
      assert Gains(w, m, a, f);
    }
  }

  lemma MapsKeeps(s: System, e: Step)
    requires SysInv(s) && Enabled(s, e) && e.Maps?
    ensures SysInv(Done(s, e)) && Kept(s, e, Done(s, e))
  {
    hide Inv;
    hide Walk;
    InLimit(s.w, e.f);
    LooseAt(s.w, e.f);
    MappedInv(s.w, e.a, e.i0, e.i1, e.f);
    GrownKept(s, e, Done(s, e), e.a, Some(e.f));
  }

  lemma LooseAt(w: World, f: nat)
    requires Inv(w) && OwnerAt(w.owner, f) == Loose
    ensures f < |w.owner| && w.owner[f] == Loose
  {
  }

  /** A step that lets a space grow. */
  lemma GrownKept(s: System, e: Step, s': System, a: Space, g: Option<nat>)
    requires SysInv(s) && Inv(s'.w) && Grown(s.w, s'.w, a, g) && SpaceFor(e) == Some(a)
    requires g.Some? ==> Has(s, e.p, g.value) && SpaceOf(OwnerAt(s'.w.owner, g.value)) == Some(a)
    requires s'.hand == if g.Some? then s.hand - {g.value} else s.hand
    ensures SysInv(s') && Kept(s, e, s')
  {
    hide AllHold;
    hide Tagged;
    hide FreeListed;
    forall f: nat
      ensures f in s'.hand <==> OwnerAt(s'.w.owner, f) == Loose
      ensures KeptAt(s, e, s', f)
    {
      if f < s.w.limit && Some(f) != g {
        assert Gains(s.w, s'.w, a, f);
        assert Held(OwnerAt(s.w.owner, f)) ==> Stays(s.w, s'.w, a, f);
      }
    }
  }

  lemma UnmapsKeeps(s: System, e: Step)
    requires SysInv(s) && Enabled(s, e) && e.Unmaps?
    ensures SysInv(Done(s, e)) && Kept(s, e, Done(s, e))
  {
    hide AllHold;
    hide Tagged;
    hide FreeListed;
    hide Walk;
    var g := Walk(s.w, e.a, e.i0, e.i1).value;
    WalkOwner(s.w, e.a, e.i0, e.i1, g);
    InLimit(s.w, g);
    WithoutPageInv(s.w, e.a, e.i0, e.i1, g);
    TableAt(s.w, e.a, e.i0);
  }

  lemma StoresKeeps(s: System, e: Step)
    requires SysInv(s) && Enabled(s, e) && e.Stores?
    ensures SysInv(Done(s, e)) && Kept(s, e, Done(s, e))
  {
    hide AllHold;
    hide Tagged;
    hide FreeListed;
    hide Walk;
    var g := Walk(s.w, e.a, e.i0, e.i1).value;
    WalkOwner(s.w, e.a, e.i0, e.i1, g);
    InLimit(s.w, g);
    OwnerIndex(s.w, g);
    StoredInv(s.w, g, e.page);
  }

  /** Nothing is kept in the pages of users. */
  lemma StoredInv(w: World, g: nat, page: seq<Word>)
    requires Inv(w) && g < w.limit && w.owner[g].Page? && |page| == SIZE
    ensures Inv(w.(mem := w.mem[g := page]))
  {
    hide Holds;
    hide Threaded;
    var mem' := w.mem[g := page];
    ThreadedOther(w.mem, w.free, g, page);
    forall f: nat | f < |w.owner|
      ensures Holds(w.owner, mem', w.pds, f)
    {
      assert Holds(w.owner, w.mem, w.pds, f);
      HoldsStored(w.owner, w.mem, w.pds, g, page, f);
    }
  }

  lemma HoldsStored(owner: seq<Owner>, mem: seq<seq<Word>>, pds: map<Space, nat>, g: nat, page: seq<Word>, f: nat)
    requires Holds(owner, mem, pds, f) && Directories(owner, pds) && |mem| == |owner| && g < |owner| && owner[g].Page?
    ensures Holds(owner, mem[g := page], pds, f)
  {
    hide IsDirectory;
    hide IsTable;
    var mem' := mem[g := page];
    if OwnerAt(owner, f).Page? {
      var a, i0 := OwnerAt(owner, f).a, OwnerAt(owner, f).i0;
      assert TableOf(mem', pds, a, i0) == TableOf(mem, pds, a, i0);
    }
  }

  lemma DoomsKeeps(s: System, e: Step)
    requires SysInv(s) && Enabled(s, e) && e.Dooms?
    ensures SysInv(Done(s, e)) && Kept(s, e, Done(s, e))
  {
    hide Inv;
    DoomedInv(s.w, e.a);
    DoomedKept(s, e);
  }

  lemma DoomedKept(s: System, e: Step)
    requires SysInv(s) && e.Dooms? && e.a in s.w.pds && Inv(Doomed(s.w, e.a))
    ensures SysInv(Done(s, e)) && Kept(s, e, Done(s, e))
  {
    hide Inv;
    hide KeptAt;
    hide OwnerAt;
    hide FramesOf;
    var s' := Done(s, e);
    forall f: nat
      ensures f in s'.hand <==> OwnerAt(s'.w.owner, f) == Loose
      ensures KeptAt(s, e, s', f)
    {
      DoomedAt(s, e, f);
    }
  }

  lemma DoomedAt(s: System, e: Step, f: nat)
    requires SysInv(s) && e.Dooms? && e.a in s.w.pds && Enabled(s, e)
    ensures f in Done(s, e).hand <==> OwnerAt(Done(s, e).w.owner, f) == Loose
    ensures KeptAt(s, e, Done(s, e), f)
  {
    hide AllHold;
    hide Tagged;
    hide FreeListed;
  }

  lemma DoomedInv(w: World, a: Space)
    requires Inv(w) && a in w.pds
    ensures Inv(Doomed(w, a))
  {
    hide Holds;
    hide Threaded;
    var w' := Doomed(w, a);
    forall f: nat | f < |w'.owner|
      ensures Holds(w'.owner, w'.mem, w'.pds, f)
    {
      assert Holds(w.owner, w.mem, w.pds, f);
      HoldsDoomed(w, a, f);
    }
  }

  lemma HoldsDoomed(w: World, a: Space, f: nat)
    requires Holds(w.owner, w.mem, w.pds, f)
    ensures Holds(Doomed(w, a).owner, w.mem, w.pds - {a}, f)
  {
  }

  // ---------------------------------------------------------------- what each step is for

  /** In terms of the free list, the walks, the contents and the hands. */
  ghost predicate Does(s: System, e: Step, s': System) {
    match e
    case Takes(p) =>
      exists f: nat :: f !in s.hand && OwnerAt(s.w.owner, f) in {Free, Untouched} && s'.hand == s.hand[f := p]
    case Gives(p, f) => s'.hand == s.hand - {f} && s'.w.free == [f] + s.w.free
    case Fills(p, f, page) => s'.hand == s.hand && f < |s'.w.mem| && s'.w.mem[f] == page
    case Founds(p, f, a) => s'.hand == s.hand - {f} && s'.w.pds == s.w.pds[a := f]
    case MapsKernel(p, a, n) => s'.hand == s.hand && Walk(s'.w, a, 0, n) == Some(n) && KernelFlags(s'.w, a, n)
    case Maps(p, a, i0, i1, f) =>
      && s'.hand == s.hand - {f} && Walk(s'.w, a, i0, i1) == Some(f) && UserFlags(s'.w, a, i0, i1)
      && f < |s.w.mem| && f < |s'.w.mem| && s'.w.mem[f] == s.w.mem[f]
    case Unmaps(p, a, i0, i1) =>
      && Walk(s.w, a, i0, i1).Some? && Walk(s'.w, a, i0, i1) == None
      && s'.hand == s.hand[Walk(s.w, a, i0, i1).value := p]
    case Stores(p, a, i0, i1, page) =>
      && s'.hand == s.hand && Walk(s.w, a, i0, i1).Some? && Walk(s'.w, a, i0, i1) == Walk(s.w, a, i0, i1)
      && var g := Walk(s.w, a, i0, i1).value; g < |s'.w.mem| && s'.w.mem[g] == page
    case Dooms(p, a) =>
      s'.w.pds == s.w.pds - {a} && forall f: nat :: SpaceOf(OwnerAt(s.w.owner, f)) == Some(a) ==> Has(s', p, f)
  }

  lemma StepDoes(s: System, e: Step)
    requires SysInv(s) && Enabled(s, e)
    ensures Does(s, e, Done(s, e))
  {
    hide SysInv;
    hide Enabled;
    hide Does;
    hide Done;
    match e
    case Takes(p) => TakesDoes(s, p);
    case MapsKernel(_, _, _) => KernelDoes(s, e);
    case Maps(_, _, _, _, _) => MapsDoes(s, e);
    case Unmaps(_, _, _, _) => UnmapsDoes(s, e);
    case Stores(_, _, _, _, _) => StoresDoes(s, e);
    case _ => SmallDoes(s, e);
  }

  lemma SmallDoes(s: System, e: Step)
    requires SysInv(s) && Enabled(s, e) && (e.Gives? || e.Fills? || e.Founds? || e.Dooms?)
    ensures Does(s, e, Done(s, e))
  {
    hide AllHold;
    hide Tagged;
    hide FreeListed;
  }

  lemma KernelDoes(s: System, e: Step)
    requires SysInv(s) && Enabled(s, e) && e.MapsKernel?
    ensures Does(s, e, Done(s, e))
  {
    hide Inv;
    hide Walk;
    hide KernelMapped;
    KernelThere(s.w, e.a, e.n);
  }

  lemma KernelThere(w: World, a: Space, n: nat)
    requires Inv(w) && n < SIZE && TableToHave(w, a, 0)
    ensures var w' := KernelMapped(w, a, n); Walk(w', a, 0, n) == Some(n) && KernelFlags(w', a, n)
  {
    hide AllHold;
    hide Tagged;
    hide FreeListed;
    hide WithTableFor;
    KernelMappedGrown(w, a, n);
    WithTableForInv(w, a, 0);
    var m := WithTableFor(w, a, 0);
    WithKernelInv(m, a, n);
    TableAt(m, a, 0);
    DirectoryAt(m, a);
    PresentTable(m, a, 0);
    EntryParts(n);
    WalkFlagsAt(KernelMapped(w, a, n), a, 0, n);
  }

  lemma TakesDoes(s: System, p: Pid)
    requires SysInv(s) && Enabled(s, Takes(p))
    ensures Does(s, Takes(p), Done(s, Takes(p)))
  {
    hide AllHold;
    hide Tagged;
    hide FreeListed;
    NextFrameFree(s.w);
    var f := NextFrame(s.w);
    assert OwnerAt(s.w.owner, f) in {Free, Untouched} && Done(s, Takes(p)).hand == s.hand[f := p];
  }

  lemma MapsDoes(s: System, e: Step)
    requires SysInv(s) && Enabled(s, e) && e.Maps?
    ensures Does(s, e, Done(s, e))
  {
    hide Inv;
    hide Walk;
    hide Mapped;
    InLimit(s.w, e.f);
    LooseAt(s.w, e.f);
    MappedInv(s.w, e.a, e.i0, e.i1, e.f);
    var w' := Mapped(s.w, e.a, e.i0, e.i1, e.f);
    GrownPds(s.w, w', e.a, Some(e.f));
    WalkOwner(w', e.a, e.i0, e.i1, e.f);
    WalkFlagsAt(w', e.a, e.i0, e.i1);
  }

  lemma GrownPds(w: World, w': World, a: Space, g: Option<nat>)
    requires Grown(w, w', a, g)
    ensures w'.pds == w.pds
  {
  }

  lemma UnmapsDoes(s: System, e: Step)
    requires SysInv(s) && Enabled(s, e) && e.Unmaps?
    ensures Does(s, e, Done(s, e))
  {
    hide Inv;
    hide Walk;
    hide Unmapped;
    UnmappedThere(s.w, e.a, e.i0, e.i1);
  }

  lemma UnmappedThere(w: World, a: Space, i0: nat, i1: nat)
    requires Inv(w) && a in w.pds && 512 <= i0 < SIZE && i1 < SIZE && Walk(w, a, i0, i1).Some?
    ensures Walk(Unmapped(w, a, i0, i1), a, i0, i1) == None
  {
    hide AllHold;
    hide Tagged;
    hide FreeListed;
    var g := Walk(w, a, i0, i1).value;
    WalkOwner(w, a, i0, i1, g);
    InLimit(w, g);
    WithoutPageInv(w, a, i0, i1, g);
    TableAt(w, a, i0);
    DirectoryAt(w, a);
    assert w.pds[a] != TableOf(w.mem, w.pds, a, i0);
  }

  lemma StoresDoes(s: System, e: Step)
    requires SysInv(s) && Enabled(s, e) && e.Stores?
    ensures Does(s, e, Done(s, e))
  {
    hide Inv;
    hide Walk;
    StepKeeps(s, e);
    var g, w' := Walk(s.w, e.a, e.i0, e.i1).value, Done(s, e).w;
    WalkOwner(s.w, e.a, e.i0, e.i1, g);
    InLimit(s.w, g);
    OwnerIndex(s.w, g);
    MemAt(s.w, g);
    WalkOwner(w', e.a, e.i0, e.i1, g);
  }

  // ---------------------------------------------------------------- every run, in every interleaving

  ghost function Ran(s: System, es: seq<Step>): (r: System)
    requires SysInv(s)
    ensures SysInv(r)
    decreases |es|
  {
    if es == [] then s
    else if Enabled(s, es[0]) then StepKeeps(s, es[0]); Ran(Done(s, es[0]), es[1..])
    else Ran(s, es[1..])
  }

  /** A use that memory tells of, or the hand of a process. */
  datatype Whereabouts = Used(o: Owner) | InHand(p: Pid)

  ghost predicate IsAt(s: System, f: nat, at: Whereabouts) {
    match at
    case Used(o) => Uses(s.w, f, o)
    case InHand(p) => Has(s, p, f)
  }

  ghost predicate OnePlace(s: System, f: nat) {
    exists at :: IsAt(s, f, at) && forall b :: IsAt(s, f, b) ==> b == at
  }

  lemma OnePlaceEach(s: System, f: nat)
    requires SysInv(s) && s.w.first <= f < s.w.limit
    ensures OnePlace(s, f)
  {
    hide Inv;
    hide Uses;
    ManagedOwner(s.w, f);
    var o := OwnerAt(s.w.owner, f);
    var at := if o == Loose then InHand(s.hand[f]) else Used(o);
    forall b | IsAt(s, f, b)
      ensures b == at
    {
      if b.Used? {
        UseIs(s.w, f, b.o);
      }
    }
    if o != Loose {
      UseIs(s.w, f, o);
    }
    assert IsAt(s, f, at);
  }

  lemma ManagedOwner(w: World, f: nat)
    requires Inv(w) && w.first <= f < w.limit
    ensures OwnerAt(w.owner, f) != Reserved
  {
  }

  lemma UseIs(w: World, f: nat, o: Owner)
    requires Inv(w) && w.first <= f < w.limit
    ensures Uses(w, f, o) <==> o != Loose && OwnerAt(w.owner, f) == o
  {
    hide AllHold;
    hide FreeListed;
    ManagedOwner(w, f);
    if o != Loose && o != Reserved {
      UseIsOwner(w, f, o);
    }
  }

  /** From the start of the machine, whatever processes do in whatever order: each managed frame is on the
      free list, or untouched, or a directory, a table or a page, or in the hand of one process; never two
      of these, and never none. */
  lemma EveryInterleaving(w: World, es: seq<Step>, f: nat)
    requires Started(w)
    ensures SysInv(System(w, map[]))
    ensures var r := Ran(System(w, map[]), es); r.w.first <= f < r.w.limit ==> OnePlace(r, f)
  {
    hide OnePlace;
    StartedSys(w);
    var r := Ran(System(w, map[]), es);
    if r.w.first <= f < r.w.limit {
      OnePlaceEach(r, f);
    }
  }

  lemma StartedSys(w: World)
    requires Started(w)
    ensures SysInv(System(w, map[]))
  {
  }

  /** When no operation is in progress, no frame is taken and unused. */
  lemma NobodyAtWork(s: System)
    requires SysInv(s) && s.hand == map[]
    ensures NoLoose(s.w)
  {
    hide Inv;
  }

  // ---------------------------------------------------------------- what others cannot disturb

  /** While other processes run, what is in the hand of a process stays there as it is. */
  lemma {:induction false} HandKept(s: System, es: seq<Step>, p: Pid, f: nat)
    requires SysInv(s) && Has(s, p, f) && forall i :: 0 <= i < |es| ==> es[i].p != p
    ensures var r := Ran(s, es); Has(r, p, f) && f < |s.w.mem| && f < |r.w.mem| && r.w.mem[f] == s.w.mem[f]
    decreases |es|
  {
    hide Enabled;
    hide Done;
    hide Inv;
    InLimit(s.w, f);
    LooseAt(s.w, f);
    MemAt(s.w, f);
    if es == [] {
    } else if Enabled(s, es[0]) {
      StepKeeps(s, es[0]);
      assert KeptAt(s, es[0], Done(s, es[0]), f);
      HandKept(Done(s, es[0]), es[1..], p, f);
    } else {
      HandKept(s, es[1..], p, f);
    }
  }

  lemma MemAt(w: World, f: nat)
    requires Inv(w) && f < |w.owner|
    ensures f < |w.mem|
  {
  }

  /** While nobody works on a space, it maps what it maps, with the same contents. */
  lemma {:induction false} SpaceKept(s: System, es: seq<Step>, a: Space, i0: nat, i1: nat)
    requires SysInv(s) && a in s.w.pds && forall i :: 0 <= i < |es| ==> SpaceFor(es[i]) != Some(a)
    requires 512 <= i0 < SIZE && i1 < SIZE
    ensures a in Ran(s, es).w.pds && SameWalk(s.w, Ran(s, es).w, a, i0, i1)
    decreases |es|
  {
    hide Enabled;
    hide Done;
    hide Inv;
    hide Walk;
    hide KeptAt;
    if es == [] {
      SpaceStays(s.w, a, i0, i1);
    } else if Enabled(s, es[0]) {
      StepKeeps(s, es[0]);
      StepSpace(s, es[0], Done(s, es[0]), a, i0, i1);
      SpaceKept(Done(s, es[0]), es[1..], a, i0, i1);
    } else {
      SpaceKept(s, es[1..], a, i0, i1);
    }
  }

  lemma SpaceStays(w: World, a: Space, i0: nat, i1: nat)
    requires Inv(w) && a in w.pds && 512 <= i0 < SIZE && i1 < SIZE
    ensures SameWalk(w, w, a, i0, i1)
  {
    hide Inv;
    hide Walk;
    if Walk(w, a, i0, i1).Some? {
      var h := Walk(w, a, i0, i1).value;
      WalkOwner(w, a, i0, i1, h);
      InLimit(w, h);
      OwnerIndex(w, h);
      MemAt(w, h);
    }
  }

  lemma StepSpace(s: System, e: Step, s': System, a: Space, i0: nat, i1: nat)
    requires Inv(s.w) && Inv(s'.w) && Kept(s, e, s') && a in s.w.pds && SpaceFor(e) != Some(a)
    requires 512 <= i0 < SIZE && i1 < SIZE
    ensures a in s'.w.pds && SameWalk(s.w, s'.w, a, i0, i1)
  {
    hide Inv;
    hide Walk;
    if Walk(s.w, a, i0, i1).Some? {
      var h := Walk(s.w, a, i0, i1).value;
      WalkOwner(s.w, a, i0, i1, h);
      assert KeptAt(s, e, s', h);
      WalkOwner(s'.w, a, i0, i1, h);
    } else if Walk(s'.w, a, i0, i1).Some? {
      var h := Walk(s'.w, a, i0, i1).value;
      WalkOwner(s'.w, a, i0, i1, h);
      assert KeptAt(s, e, s', h);
      WalkOwner(s.w, a, i0, i1, h);
    }
  }

  /** If nobody comes between, the steps of a page fault are the page fault. */
  lemma FaultSteps(s: System, p: Pid, a: Space, i0: nat, i1: nat)
    requires SysInv(s) && a in s.w.pds && 512 <= i0 < SIZE && i1 < SIZE && Walk(s.w, a, i0, i1) == None
    requires HasFrame(s.w) && var m := Filled(s.w, Zeros()); TableToHave(m, a, i0)
    ensures var m := Filled(s.w, Zeros()); Present(WordAt(m.mem, m.pds[a], i0)) || HasFrame(m)
    ensures var g := NextFrame(s.w);
            Ran(s, [Takes(p), Fills(p, g, Zeros()), Maps(p, a, i0, i1, g)])
            == System(Placed(s.w, a, i0, i1, Zeros()), s.hand)
  {
    hide SysInv;
    hide Walk;
    hide HasFrame;
    hide Done;
    hide Enabled;
    hide Ran;
    var g := NextFrame(s.w);
    FaultTakes(s, p);
    StepKeeps(s, Takes(p));
    var s1 := Done(s, Takes(p));
    FaultFills(s, s1, p);
    StepKeeps(s1, Fills(p, g, Zeros()));
    var s2 := Done(s1, Fills(p, g, Zeros()));
    FaultMaps(s, s2, p, a, i0, i1);
    StepKeeps(s2, Maps(p, a, i0, i1, g));
    ThreeSteps(s, Takes(p), Fills(p, g, Zeros()), Maps(p, a, i0, i1, g));
  }

  lemma ThreeSteps(s: System, e0: Step, e1: Step, e2: Step)
    requires SysInv(s) && Enabled(s, e0) && SysInv(Done(s, e0)) && Enabled(Done(s, e0), e1)
    requires SysInv(Done(Done(s, e0), e1)) && Enabled(Done(Done(s, e0), e1), e2)
    ensures Ran(s, [e0, e1, e2]) == Done(Done(Done(s, e0), e1), e2)
  {
    hide SysInv;
    hide Enabled;
    hide Done;
    var s1 := Done(s, e0);
    var s2 := Done(s1, e1);
    assert [e0, e1, e2][1..] == [e1, e2] && [e1, e2][1..] == [e2] && [e2][1..] == [];
    StepKeeps(s2, e2);
    assert Ran(s2, [e2]) == Ran(Done(s2, e2), []);
    assert Ran(s1, [e1, e2]) == Ran(s2, [e2]);
  }

  lemma FaultTakes(s: System, p: Pid)
    requires SysInv(s) && HasFrame(s.w)
    ensures var g := NextFrame(s.w);
            && Enabled(s, Takes(p)) && g < |s.w.mem| && g !in s.hand
            && Done(s, Takes(p)) == System(Filled(s.w, s.w.mem[g]), s.hand[g := p])
  {
    hide AllHold;
    hide FreeListed;
    NextFrameFree(s.w);
  }

  lemma FaultFills(s: System, s1: System, p: Pid)
    requires SysInv(s) && HasFrame(s.w) && SysInv(s1) && NextFrame(s.w) < |s.w.mem|
    requires s1 == System(Filled(s.w, s.w.mem[NextFrame(s.w)]), s.hand[NextFrame(s.w) := p])
    ensures var e := Fills(p, NextFrame(s.w), Zeros());
            Enabled(s1, e) && Done(s1, e) == System(Filled(s.w, Zeros()), s1.hand)
  {
    hide AllHold;
    hide Tagged;
    hide FreeListed;
    NextFrameFree(s.w);
    InLimit(s1.w, NextFrame(s.w));
  }

  lemma FaultMaps(s: System, s2: System, p: Pid, a: Space, i0: nat, i1: nat)
    requires SysInv(s) && a in s.w.pds && 512 <= i0 < SIZE && i1 < SIZE && Walk(s.w, a, i0, i1) == None
    requires HasFrame(s.w) && NextFrame(s.w) !in s.hand && TableToHave(Filled(s.w, Zeros()), a, i0)
    requires SysInv(s2) && s2 == System(Filled(s.w, Zeros()), s.hand[NextFrame(s.w) := p])
    ensures var e := Maps(p, a, i0, i1, NextFrame(s.w));
            Enabled(s2, e) && Done(s2, e) == System(Placed(s.w, a, i0, i1, Zeros()), s.hand)
  {
    hide Inv;
    hide Walk;
    hide Filled;
    UnmappedFilled(s.w, a, i0, i1, Zeros());
    FilledInv(s.w, a, Zeros());
    assert s2.hand - {NextFrame(s.w)} == s.hand;
  }
}
