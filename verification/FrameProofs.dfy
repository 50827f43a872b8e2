/** What each change to frames and tables does to the ownership of frames. */
module FrameProofs {
  import opened Collections
  import opened FrameModel

  predicate Unowned(o: Owner) {
    SpaceOf(o) == None
  }

  /** Frame t belongs to no space, or to another one than frame f. */
  predicate Stranger(owner: seq<Owner>, t: nat, f: nat) {
    SpaceOf(OwnerAt(owner, t)) == None || SpaceOf(OwnerAt(owner, t)) != SpaceOf(OwnerAt(owner, f))
  }

  // ---------------------------------------------------------------- one frame's view of a change

  lemma HoldsOwner(owner: seq<Owner>, mem: seq<seq<Word>>, pds: map<Space, nat>, t: nat, o: Owner, f: nat)
    requires Holds(owner, mem, pds, f) && t < |owner| && f != t && Stranger(owner, t, f)
    ensures Holds(owner[t := o], mem, pds, f)
  {
    match OwnerAt(owner, f)
    case Directory(a) => DirectoryOwner(owner, mem[f], a, t, o);
    case Table(a, i0) => TableOwner(owner, mem[f], a, i0, t, o);
    case _ =>
  }

  lemma DirectoryOwner(owner: seq<Owner>, page: seq<Word>, a: Space, t: nat, o: Owner)
    requires IsDirectory(owner, page, a) && t < |owner| && SpaceOf(owner[t]) != Some(a)
    ensures IsDirectory(owner[t := o], page, a)
  {
  }

  lemma TableOwner(owner: seq<Owner>, page: seq<Word>, a: Space, i0: nat, t: nat, o: Owner)
    requires IsTable(owner, page, a, i0) && t < |owner| && SpaceOf(owner[t]) != Some(a)
    ensures IsTable(owner[t := o], page, a, i0)
  {
  }

  /** A change to a frame that another space or no space owns. */
  lemma HoldsMem(owner: seq<Owner>, mem: seq<seq<Word>>, pds: map<Space, nat>, t: nat, page: seq<Word>, f: nat)
    requires Holds(owner, mem, pds, f) && Directories(owner, pds) && |mem| == |owner|
    requires t < |owner| && f != t && Stranger(owner, t, f)
    ensures Holds(owner, mem[t := page], pds, f)
  {
    hide IsDirectory;
    hide IsTable;
    var mem' := mem[t := page];
    match OwnerAt(owner, f)
    case Table(a, i0) =>
      assert pds[a] != t;
    case Page(a, i0, i1) =>
      assert pds[a] != t;
      assert TableOf(mem', pds, a, i0) == TableOf(mem, pds, a, i0);
    case _ =>
  }

  /** A change to one word of a directory or a table: nobody else is entered there. */
  ghost predicate NotThere(o: Owner, at: Owner, i: nat) {
    match at
    case Directory(a) => !(o.Table? && o.a == a && o.i0 == i) && !(o.Page? && o.a == a && o.i0 == i)
    case Table(a, i0) => o != Page(a, i0, i)
    case _ => true
  }

  lemma HoldsWord(owner: seq<Owner>, mem: seq<seq<Word>>, pds: map<Space, nat>, t: nat, i: nat, v: Word, f: nat)
    requires Holds(owner, mem, pds, f) && Directories(owner, pds) && |mem| == |owner|
    requires t < |owner| && i < |mem[t]| && f != t && (owner[t].Directory? || owner[t].Table?)
    requires NotThere(OwnerAt(owner, f), owner[t], i)
    ensures Holds(owner, Put(mem, t, i, v), pds, f)
  {
    hide IsDirectory;
    hide IsTable;
    var mem' := Put(mem, t, i, v);
    match OwnerAt(owner, f)
    case Table(a, i0) =>
      assert WordAt(mem', pds[a], i0) == WordAt(mem, pds[a], i0);
    case Page(a, i0, i1) =>
      assert WordAt(mem', pds[a], i0) == WordAt(mem, pds[a], i0);
      assert TableOf(mem', pds, a, i0) == TableOf(mem, pds, a, i0);
      assert WordAt(mem', TableOf(mem, pds, a, i0), i1) == WordAt(mem, TableOf(mem, pds, a, i0), i1);
    case _ =>
  }

  lemma HoldsSpace(owner: seq<Owner>, mem: seq<seq<Word>>, pds: map<Space, nat>, a: Space, p: nat, f: nat)
    requires Holds(owner, mem, pds, f) && a !in pds
    ensures Holds(owner, mem, pds[a := p], f)
  {
  }

  // ---------------------------------------------------------------- alloc and free

  ghost predicate HasFrame(w: World) {
    w.free != [] || w.avail < w.limit
  }

  function NextFrame(w: World): nat {
    if w.free != [] then w.free[0] else w.avail
  }

  /** alloc: the first free frame or the next untouched one, cleared. */
  ghost function Allocated(w: World): World
    requires Shaped(w) && HasFrame(w) && NextFrame(w) < w.limit
  {
    var p := NextFrame(w);
    var w' := w.(mem := w.mem[p := Zeros()], owner := w.owner[p := Loose]);
    if w.free != [] then w'.(free := w.free[1..], firstFree := WordAt(w.mem, p, 0)) else w'.(avail := w.avail + 1)
  }

  /** free: the frame goes to the head of the list. */
  ghost function Released(w: World, p: nat): World
    requires Shaped(w) && p < w.limit
  {
    w.(mem := Put(w.mem, p, 0, w.firstFree), owner := w.owner[p := Free], free := [p] + w.free, firstFree := Address(p))
  }

  lemma NextFrameFree(w: World)
    requires Shaped(w) && Tagged(w) && FreeListed(w) && HasFrame(w)
    ensures NextFrame(w) < w.limit && w.first <= NextFrame(w)
    ensures Unowned(w.owner[NextFrame(w)]) && w.owner[NextFrame(w)] == (if w.free != [] then Free else Untouched)
  {
    if w.free != [] {
      assert w.free[0] in w.free;
    }
  }

  lemma AllocatedListed(w: World)
    requires Shaped(w) && Tagged(w) && FreeListed(w) && HasFrame(w) && NextFrame(w) < w.limit
    ensures Shaped(Allocated(w)) && Tagged(Allocated(w)) && FreeListed(Allocated(w))
  {
    NextFrameFree(w);
    var p := NextFrame(w);
    var w' := Allocated(w);
    if w.free != [] {
      NoDupTail(w.free);
      ThreadedTail(w.mem, w.free, Zeros());
    } else {
      ThreadedOther(w.mem, w.free, p, Zeros());
    }
  }

  lemma ThreadedTail(mem: seq<seq<Word>>, free: seq<nat>, page: seq<Word>)
    requires Threaded(mem, free) && free != [] && NoDup(free) && free[0] < |mem|
    ensures WordAt(mem, free[0], 0) == Head(free[1..])
    ensures Threaded(mem[free[0] := page], free[1..])
  {
  }

  /** A change to a frame that is not free. */
  lemma ThreadedOther(mem: seq<seq<Word>>, free: seq<nat>, t: nat, page: seq<Word>)
    requires Threaded(mem, free) && t !in free && t < |mem|
    ensures Threaded(mem[t := page], free)
  {
  }

  lemma AllocatedInv(w: World, x: Option<Space>)
    requires Shaped(w) && Tagged(w) && FreeListed(w) && Directories(w.owner, w.pds) && AllHold(w, x) && HasFrame(w)
    ensures NextFrame(w) < w.limit
    ensures var w' := Allocated(w);
            Shaped(w') && Tagged(w') && FreeListed(w') && Directories(w'.owner, w'.pds) && AllHold(w', x)
  {
    hide FreeListed;
    hide Tagged;
    hide Holds;
    NextFrameFree(w);
    AllocatedListed(w);
    assert forall a :: a in w.pds ==> w.pds[a] != NextFrame(w);
    AllHoldFrame(w, NextFrame(w), Zeros(), Loose, x);
    AllHoldSame(w.(mem := w.mem[NextFrame(w) := Zeros()], owner := w.owner[NextFrame(w) := Loose]), Allocated(w), x);
  }

  lemma AllHoldSame(w: World, w': World, x: Option<Space>)
    requires AllHold(w, x) && w'.owner == w.owner && w'.mem == w.mem && w'.pds == w.pds
    ensures AllHold(w', x)
  {
  }

  /** A frame without a space, or of the space x that is left out, changes its contents and its owner, to
      one without a space. */
  lemma AllHoldFrame(w: World, t: nat, page: seq<Word>, o: Owner, x: Option<Space>)
    requires Shaped(w) && Directories(w.owner, w.pds) && AllHold(w, x)
    requires t < w.limit && (Unowned(w.owner[t]) || SpaceOf(w.owner[t]) == x) && Unowned(o)
    requires forall a :: a in w.pds ==> w.pds[a] != t
    ensures var w' := w.(mem := w.mem[t := page], owner := w.owner[t := o]);
            AllHold(w', x) && Directories(w'.owner, w'.pds)
  {
    hide Holds;
    var mem', owner' := w.mem[t := page], w.owner[t := o];
    forall f: nat | f < |owner'| && (x == None || SpaceOf(owner'[f]) != x)
      ensures Holds(owner', mem', w.pds, f)
    {
      if f == t {
        HoldsNone(owner', mem', w.pds, t);
      } else {
        HoldsMem(w.owner, w.mem, w.pds, t, page, f);
        HoldsOwner(w.owner, mem', w.pds, t, o, f);
      }
    }
  }

  lemma HoldsNone(owner: seq<Owner>, mem: seq<seq<Word>>, pds: map<Space, nat>, f: nat)
    requires f < |mem| && f < 1024 && Unowned(OwnerAt(owner, f))
    ensures Holds(owner, mem, pds, f)
  {
  }

  lemma ThreadedPush(mem: seq<seq<Word>>, free: seq<nat>, p: nat)
    requires Threaded(mem, free) && p < |mem| && WordAt(mem, p, 0) == Head(free)
    ensures Threaded(mem, [p] + free)
  {
  }

  /** A loose frame, or one of a space that is being taken apart, becomes free. */
  lemma ReleasedListed(w: World, p: nat)
    requires Shaped(w) && Tagged(w) && FreeListed(w) && p < w.limit
             && OwnerAt(w.owner, p) !in {Free, Reserved, Untouched}
    ensures var w' := Released(w, p); Shaped(w') && Tagged(w') && FreeListed(w')
  {
    hide Threaded;
    hide NoDup;
    var w' := Released(w, p);
    ThreadedOther(w.mem, w.free, p, Put(w.mem, p, 0, w.firstFree)[p]);
    ThreadedPush(w'.mem, w.free, p);
    assert p !in w.free;
    NoDupPush(w.free, p);
    forall f: nat
      ensures f in w'.free <==> OwnerAt(w'.owner, f) == Free
    {
      assert f in w'.free <==> f == p || f in w.free;
    }
  }

  lemma NoDupPush(q: seq<nat>, p: nat)
    requires NoDup(q) && p !in q
    ensures NoDup([p] + q)
  {
  }

  lemma ReleasedInv(w: World, p: nat, x: Option<Space>)
    requires Shaped(w) && Tagged(w) && FreeListed(w) && Directories(w.owner, w.pds) && AllHold(w, x)
    requires p < w.limit && (w.owner[p] == Loose || (x.Some? && SpaceOf(w.owner[p]) == x && x.value !in w.pds))
    ensures var w' := Released(w, p);
            Shaped(w') && Tagged(w') && FreeListed(w') && Directories(w'.owner, w'.pds) && AllHold(w', x)
  {
    hide FreeListed;
    hide Tagged;
    hide Holds;
    ReleasedListed(w, p);
    assert forall a :: a in w.pds ==> w.pds[a] != p;
    AllHoldFrame(w, p, Put(w.mem, p, 0, w.firstFree)[p], Free, x);
    AllHoldSame(w.(mem := Put(w.mem, p, 0, w.firstFree), owner := w.owner[p := Free]), Released(w, p), x);
  }

  // ---------------------------------------------------------------- entering frames

  ghost function Entered(w: World, t: nat, i: nat, v: Word): World
    requires Shaped(w) && t < w.limit && i < SIZE
  {
    w.(mem := Put(w.mem, t, i, v))
  }

  /** A cleared loose frame becomes the directory of a new space. */
  ghost function WithDirectory(w: World, a: Space, p: nat): World
    requires p < |w.owner|
  {
    w.(owner := w.owner[p := Directory(a)], pds := w.pds[a := p])
  }

  lemma WithDirectoryInv(w: World, a: Space, p: nat)
    requires Inv(w) && a !in w.pds && p < w.limit && w.owner[p] == Loose && w.mem[p] == Zeros()
    ensures Inv(WithDirectory(w, a, p))
  {
    hide Holds;
    hide Threaded;
    var w' := WithDirectory(w, a, p);
    forall f: nat | f < |w'.owner|
      ensures Holds(w'.owner, w'.mem, w'.pds, f)
    {
      if f == p {
        EmptyDirectory(w'.owner, w'.mem, w'.pds, a, p);
      } else {
        HoldsOwner(w.owner, w.mem, w.pds, p, Directory(a), f);
        HoldsSpace(w'.owner, w.mem, w.pds, a, p, f);
      }
    }
    TaggedKept(w, p, Directory(a));
  }

  lemma EmptyDirectory(owner: seq<Owner>, mem: seq<seq<Word>>, pds: map<Space, nat>, a: Space, p: nat)
    requires p < |mem| && p < 1024 && OwnerAt(owner, p) == Directory(a) && a in pds && pds[a] == p && mem[p] == Zeros()
    ensures Holds(owner, mem, pds, p)
  {
  }

  lemma TaggedKept(w: World, t: nat, o: Owner)
    requires Shaped(w) && Tagged(w) && FreeListed(w) && t < w.limit
    requires w.owner[t] !in {Reserved, Untouched, Free} && o !in {Reserved, Untouched, Free}
    ensures Tagged(w.(owner := w.owner[t := o])) && FreeListed(w.(owner := w.owner[t := o]))
  {
  }

  lemma EnteredListed(w: World, t: nat, i: nat, v: Word)
    requires Shaped(w) && FreeListed(w) && t < w.limit && i < SIZE && w.owner[t] != Free
    ensures Shaped(Entered(w, t, i, v)) && FreeListed(Entered(w, t, i, v))
  {
    ThreadedOther(w.mem, w.free, t, Put(w.mem, t, i, v)[t]);
  }

  /** A cleared loose frame becomes a table. */
  ghost function WithTable(w: World, a: Space, i0: nat, t: nat): World
    requires Shaped(w) && t < w.limit && a in w.pds && w.pds[a] < w.limit && i0 < SIZE
  {
    Entered(w, w.pds[a], i0, UserEntry(t)).(owner := w.owner[t := Table(a, i0)])
  }

  lemma DirectoryAt(w: World, a: Space)
    requires Inv(w) && a in w.pds
    ensures w.pds[a] < w.limit && w.owner[w.pds[a]] == Directory(a) && Holds(w.owner, w.mem, w.pds, w.pds[a])
  {
  }

  /** Nobody is entered in an empty entry of a directory. */
  lemma NobodyInDirectory(w: World, a: Space, i0: nat, f: nat)
    requires Inv(w) && a in w.pds && i0 < SIZE && WordAt(w.mem, w.pds[a], i0) == 0 && f < w.limit
    ensures NotThere(w.owner[f], Directory(a), i0)
  {
    assert Holds(w.owner, w.mem, w.pds, f);
    assert OwnerAt(w.owner, 0) == Reserved;
  }

  lemma WithTableInv(w: World, a: Space, i0: nat, t: nat)
    requires Inv(w) && a in w.pds && (i0 == 0 || 512 <= i0 < SIZE) && WordAt(w.mem, w.pds[a], i0) == 0
    requires t < w.limit && w.owner[t] == Loose && w.mem[t] == Zeros()
    ensures w.pds[a] < w.limit && Inv(WithTable(w, a, i0, t))
  {
    hide Holds;
    hide Threaded;
    DirectoryAt(w, a);
    var p, w' := w.pds[a], WithTable(w, a, i0, t);
    EnteredListed(w, p, i0, UserEntry(t));
    forall f: nat | f < |w'.owner|
      ensures Holds(w'.owner, w'.mem, w'.pds, f)
    {
      if f == t {
        EmptyTable(w'.owner, w'.mem, w'.pds, a, i0, t);
      } else if f == p {
        HoldsOwner(w.owner, w.mem, w.pds, t, Table(a, i0), p);
        DirectoryEntered(w'.owner, w.mem, w.pds, a, i0, t);
      } else {
        NobodyInDirectory(w, a, i0, f);
        HoldsWord(w.owner, w.mem, w.pds, p, i0, UserEntry(t), f);
        HoldsOwner(w.owner, w'.mem, w.pds, t, Table(a, i0), f);
      }
    }
    TaggedKept(Entered(w, p, i0, UserEntry(t)), t, Table(a, i0));
  }

  lemma EmptyTable(owner: seq<Owner>, mem: seq<seq<Word>>, pds: map<Space, nat>, a: Space, i0: nat, t: nat)
    requires t < |mem| && t < 1024 && OwnerAt(owner, t) == Table(a, i0) && mem[t] == Zeros() && a in pds
    requires (i0 == 0 || 512 <= i0 < SIZE) && WordAt(mem, pds[a], i0) == UserEntry(t)
    ensures Holds(owner, mem, pds, t)
  {
  }

  lemma DirectoryEntered(owner: seq<Owner>, mem: seq<seq<Word>>, pds: map<Space, nat>, a: Space, i0: nat, t: nat)
    requires a in pds && pds[a] < |owner| && owner[pds[a]] == Directory(a) && Holds(owner, mem, pds, pds[a])
    requires t < 1024 && OwnerAt(owner, t) == Table(a, i0) && i0 < |mem[pds[a]]|
    ensures var p := pds[a]; Holds(owner, Put(mem, p, i0, UserEntry(t)), pds, p)
  {
    var p := pds[a];
    var page: seq<Word> := mem[p][i0 := UserEntry(t)];
    EntryParts(t);
    forall i | 0 <= i < |page|
      ensures DirEntry(owner, page[i], a, i)
    {
      assert DirEntry(owner, mem[p][i], a, i);
    }
  }

  /** A loose frame becomes a page. */
  ghost function WithPage(w: World, a: Space, i0: nat, i1: nat, g: nat): World
    requires Shaped(w) && g < w.limit && TableOf(w.mem, w.pds, a, i0) < w.limit && i1 < SIZE
  {
    Entered(w, TableOf(w.mem, w.pds, a, i0), i1, UserEntry(g)).(owner := w.owner[g := Page(a, i0, i1)])
  }

  /** Space a has a table for i0. */
  ghost predicate HasTable(w: World, a: Space, i0: nat) {
    a in w.pds && i0 < SIZE && OwnerAt(w.owner, TableOf(w.mem, w.pds, a, i0)) == Table(a, i0)
  }

  lemma NobodyInTable(w: World, a: Space, i0: nat, i1: nat, f: nat)
    requires Inv(w) && HasTable(w, a, i0) && i1 < SIZE && f < w.limit
    requires WordAt(w.mem, TableOf(w.mem, w.pds, a, i0), i1) == 0
    ensures NotThere(w.owner[f], Table(a, i0), i1)
  {
    assert Holds(w.owner, w.mem, w.pds, f);
  }

  lemma TableAt(w: World, a: Space, i0: nat)
    requires Inv(w) && HasTable(w, a, i0)
    ensures var t := TableOf(w.mem, w.pds, a, i0);
            t < w.limit && w.owner[t] == Table(a, i0) && Holds(w.owner, w.mem, w.pds, t)
  {
  }

  lemma WithPageInv(w: World, a: Space, i0: nat, i1: nat, g: nat)
    requires Inv(w) && HasTable(w, a, i0) && 512 <= i0 && i1 < SIZE
    requires WordAt(w.mem, TableOf(w.mem, w.pds, a, i0), i1) == 0
    requires g < w.limit && w.owner[g] == Loose
    ensures TableOf(w.mem, w.pds, a, i0) < w.limit && Inv(WithPage(w, a, i0, i1, g))
  {
    hide Holds;
    hide Threaded;
    hide TableOf;
    TableAt(w, a, i0);
    var t, w' := TableOf(w.mem, w.pds, a, i0), WithPage(w, a, i0, i1, g);
    EnteredListed(w, t, i1, UserEntry(g));
    forall f: nat | f < |w'.owner|
      ensures Holds(w'.owner, w'.mem, w'.pds, f)
    {
      if f == g {
        PageEntered(w, a, i0, i1, g);
      } else if f == t {
        HoldsOwner(w.owner, w.mem, w.pds, g, Page(a, i0, i1), t);
        TableEntered(w'.owner, w.mem, w.pds, a, i0, i1, t, UserEntry(g));
      } else {
        NobodyInTable(w, a, i0, i1, f);
        HoldsWord(w.owner, w.mem, w.pds, t, i1, UserEntry(g), f);
        HoldsOwner(w.owner, w'.mem, w.pds, g, Page(a, i0, i1), f);
      }
    }
    TaggedKept(Entered(w, t, i1, UserEntry(g)), g, Page(a, i0, i1));
  }

  lemma PageEntered(w: World, a: Space, i0: nat, i1: nat, g: nat)
    requires Inv(w) && HasTable(w, a, i0) && 512 <= i0 && i1 < SIZE && g < w.limit && w.owner[g] == Loose
    requires TableOf(w.mem, w.pds, a, i0) < w.limit
    ensures var w' := WithPage(w, a, i0, i1, g); Holds(w'.owner, w'.mem, w'.pds, g)
  {
    hide AllHold;
    hide FreeListed;
    hide Tagged;
    hide IsTable;
    hide IsDirectory;
    var w' := WithPage(w, a, i0, i1, g);
    assert WordAt(w'.mem, w.pds[a], i0) == WordAt(w.mem, w.pds[a], i0);
  }

  lemma TableEntered(owner: seq<Owner>, mem: seq<seq<Word>>, pds: map<Space, nat>, a: Space, i0: nat, i1: nat,
                     t: nat, v: Word)
    requires t < |owner| == |mem| && owner[t] == Table(a, i0) && Holds(owner, mem, pds, t) && Directories(owner, pds)
    requires i1 < |mem[t]| && TableEntry(owner, v, a, i0, i1)
    ensures Holds(owner, Put(mem, t, i1, v), pds, t)
  {
    var page: seq<Word> := mem[t][i1 := v];
    forall i | 0 <= i < |page|
      ensures TableEntry(owner, page[i], a, i0, i)
    {
      assert TableEntry(owner, mem[t][i], a, i0, i);
    }
    assert pds[a] != t;
  }

  /** A kernel page, mapped to itself. */
  lemma WithKernelInv(w: World, a: Space, i1: nat)
    requires Inv(w) && HasTable(w, a, 0) && i1 < SIZE
    ensures var t := TableOf(w.mem, w.pds, a, 0); t < w.limit && Inv(Entered(w, t, i1, KernelEntry(i1)))
  {
    hide Holds;
    hide Threaded;
    hide TableOf;
    TableAt(w, a, 0);
    var t := TableOf(w.mem, w.pds, a, 0);
    var w' := Entered(w, t, i1, KernelEntry(i1));
    EnteredListed(w, t, i1, KernelEntry(i1));
    forall f: nat | f < |w'.owner|
      ensures Holds(w'.owner, w'.mem, w'.pds, f)
    {
      if f == t {
        TableEntered(w.owner, w.mem, w.pds, a, 0, i1, t, KernelEntry(i1));
      } else {
        NoPageInFirst(w, a, i1, f);
        HoldsWord(w.owner, w.mem, w.pds, t, i1, KernelEntry(i1), f);
      }
    }
  }

  lemma NoPageInFirst(w: World, a: Space, i1: nat, f: nat)
    requires Inv(w) && f < w.limit
    ensures w.owner[f] != Page(a, 0, i1)
  {
    assert Holds(w.owner, w.mem, w.pds, f);
  }

  /** A page is taken out of its table and is loose again. */
  ghost function WithoutPage(w: World, a: Space, i0: nat, i1: nat, g: nat): World
    requires Shaped(w) && g < w.limit && TableOf(w.mem, w.pds, a, i0) < w.limit && i1 < SIZE
  {
    Entered(w, TableOf(w.mem, w.pds, a, i0), i1, 0).(owner := w.owner[g := Loose])
  }

  lemma WithoutPageInv(w: World, a: Space, i0: nat, i1: nat, g: nat)
    requires Inv(w) && g < w.limit && w.owner[g] == Page(a, i0, i1)
    ensures HasTable(w, a, i0) && i1 < SIZE && TableOf(w.mem, w.pds, a, i0) < w.limit
    ensures Inv(WithoutPage(w, a, i0, i1, g))
  {
    hide Holds;
    hide Threaded;
    hide TableOf;
    PageAt(w, a, i0, i1, g);
    TableAt(w, a, i0);
    var t, w' := TableOf(w.mem, w.pds, a, i0), WithoutPage(w, a, i0, i1, g);
    EnteredListed(w, t, i1, 0);
    forall f: nat | f < |w'.owner|
      ensures Holds(w'.owner, w'.mem, w'.pds, f)
    {
      if f == g {
        HoldsNone(w'.owner, w'.mem, w'.pds, g);
      } else if f == t {
        TableLess(w, a, i0, i1, t, g);
      } else {
        NotPageThere(w, a, i0, i1, g, f);
        HoldsWord(w.owner, w.mem, w.pds, t, i1, 0, f);
        NotTableThere(w, a, i0, t, f);
        HoldsLess(w.owner, w'.mem, w.pds, g, f);
      }
    }
    TaggedKept(Entered(w, t, i1, 0), g, Loose);
  }

  lemma PageAt(w: World, a: Space, i0: nat, i1: nat, g: nat)
    requires Inv(w) && g < w.limit && w.owner[g] == Page(a, i0, i1)
    ensures HasTable(w, a, i0) && 512 <= i0 < SIZE && i1 < SIZE
    ensures WordAt(w.mem, TableOf(w.mem, w.pds, a, i0), i1) == UserEntry(g)
  {
    assert Holds(w.owner, w.mem, w.pds, g);
  }

  lemma OnlyPage(w: World, a: Space, i0: nat, i1: nat, g: nat, f: nat)
    requires Inv(w) && g < w.limit && f < w.limit && w.owner[g] == Page(a, i0, i1) && w.owner[f] == Page(a, i0, i1)
    ensures f == g
  {
    PageAt(w, a, i0, i1, g);
    PageAt(w, a, i0, i1, f);
    EntryParts(g);
    EntryParts(f);
  }

  lemma TableLess(w: World, a: Space, i0: nat, i1: nat, t: nat, g: nat)
    requires Inv(w) && t < w.limit && g < w.limit && w.owner[t] == Table(a, i0) && w.owner[g] == Page(a, i0, i1)
    requires i1 < SIZE
    ensures Holds(w.owner[g := Loose], Put(w.mem, t, i1, 0), w.pds, t)
  {
    var owner', mem' := w.owner[g := Loose], Put(w.mem, t, i1, 0);
    assert Holds(w.owner, w.mem, w.pds, t);
    forall i | 0 <= i < |mem'[t]|
      ensures TableEntry(owner', mem'[t][i], a, i0, i)
    {
      assert TableEntry(w.owner, w.mem[t][i], a, i0, i);
    }
    assert w.pds[a] != t;
  }

  lemma NotPageThere(w: World, a: Space, i0: nat, i1: nat, g: nat, f: nat)
    requires Inv(w) && g < w.limit && f < w.limit && w.owner[g] == Page(a, i0, i1) && f != g
    ensures NotThere(w.owner[f], Table(a, i0), i1)
  {
    if w.owner[f] == Page(a, i0, i1) {
      OnlyPage(w, a, i0, i1, g, f);
    }
  }

  lemma NotTableThere(w: World, a: Space, i0: nat, t: nat, f: nat)
    requires Inv(w) && t < w.limit && f < w.limit && w.owner[t] == Table(a, i0) && f != t
    ensures w.owner[f] != Table(a, i0)
  {
    if w.owner[f] == Table(a, i0) {
      OnlyTable(w, a, i0, t, f);
    }
  }

  /** The table of another space, or for another index, does not mention the page. */
  lemma HoldsLess(owner: seq<Owner>, mem: seq<seq<Word>>, pds: map<Space, nat>, g: nat, f: nat)
    requires Holds(owner, mem, pds, f) && g < |owner| && owner[g].Page? && f != g
    requires OwnerAt(owner, f) != Table(owner[g].a, owner[g].i0)
    ensures Holds(owner[g := Loose], mem, pds, f)
  {
    match OwnerAt(owner, f)
    case Directory(a) =>
      forall i | 0 <= i < |mem[f]|
        ensures DirEntry(owner[g := Loose], mem[f][i], a, i)
      {
        assert DirEntry(owner, mem[f][i], a, i);
      }
    case Table(a, i0) =>
      forall i | 0 <= i < |mem[f]|
        ensures TableEntry(owner[g := Loose], mem[f][i], a, i0, i)
      {
        assert TableEntry(owner, mem[f][i], a, i0, i);
      }
    case _ =>
  }

  lemma OnlyTable(w: World, a: Space, i0: nat, t: nat, f: nat)
    requires Inv(w) && t < w.limit && f < w.limit && w.owner[t] == Table(a, i0) && w.owner[f] == Table(a, i0)
    ensures f == t
  {
    assert Holds(w.owner, w.mem, w.pds, f);
    assert Holds(w.owner, w.mem, w.pds, t);
    EntryParts(f);
    EntryParts(t);
  }
}
