/** Physical memory and address spaces, changed in place as in kernel/vmm.cc. Frames are named by their
    number, 4096 bytes each. */
module Vmm {
  import opened Collections
  import opened FrameModel
  import opened FrameProofs
  import opened FrameTheorems
  import opened FrameRuns

  class PhysMem {
    const first: nat
    const limit: nat
    const mem: array<seq<Word>>
    var avail: nat
    var firstFree: Word
    ghost var free: seq<nat>
    ghost var owner: seq<Owner>
    ghost var pds: map<Space, nat>

    ghost function State(): World
      reads this, mem
    {
      World(first, avail, limit, firstFree, mem[..], free, owner, pds)
    }

    constructor (start: nat, end: nat)
      requires 0 < start <= end <= 1024
      ensures Started(State()) && fresh(mem) && first == start && limit == end
    {
      first, avail, limit, firstFree := start, start, end, 0;
      mem := new seq<Word>[end](_ => Zeros());
      free, pds := [], map[];
      owner := seq(end, f => if f < start then Reserved else Untouched);
      new;
      assert forall f: nat :: f < |owner| ==> Holds(owner, mem[..], pds, f);
    }

    /** A frame, cleared; none when there is none, where the source panics. */
    method Alloc() returns (ok: bool, p: nat)
      requires Shaped(State()) && Tagged(State()) && FreeListed(State())
      modifies this, mem
      ensures ok == HasFrame(old(State()))
      ensures !ok ==> State() == old(State())
      ensures ok ==> p == NextFrame(old(State())) && p < limit && State() == Allocated(old(State()))
      ensures ok ==> mem[p] == Zeros() && forall f :: 0 <= f < mem.Length && f != p ==> mem[f] == old(mem[f])
      ensures ok ==> if old(free) != [] then p == old(free)[0] && free == old(free)[1..] && avail == old(avail)
                     else p == old(avail) && free == [] && avail == old(avail) + 1
    {
      ghost var w := State();
      ok := true;
      if HasFrame(w) { NextFrameFree(w); }
      if firstFree != 0 {
        p := FrameOf(firstFree);
        HeadFrame(w);
        firstFree := mem[p][0];
        free := free[1..];
      } else {
        HeadFrame(w);
        if avail == limit {
          return false, 0;
        }
        p := avail;
        avail := avail + 1;
      }
      owner := owner[p := Loose];
      mem[p] := Zeros();
      assert mem[..] == w.mem[p := Zeros()];
    }

    method Free(p: nat)
      requires Shaped(State()) && p < limit
      modifies this, mem
      ensures State() == Released(old(State()), p)
      ensures free == [p] + old(free) && avail == old(avail) && |mem[p]| == |old(mem[p])|
      ensures forall f, i {:trigger mem[f][i]} :: 0 <= f < mem.Length && 0 <= i < |mem[f]| && (f != p || i != 0) ==>
                mem[f][i] == old(mem[f])[i]
    {
      Write(p, 0, firstFree);
      firstFree := Address(p);
      free := [p] + free;
      owner := owner[p := Owner.Free];
    }

    method Write(f: nat, i: nat, v: Word)
      requires f < mem.Length && i < |mem[f]|
      modifies mem
      ensures mem[..] == Put(old(mem[..]), f, i, v)
    {
      ghost var was := mem[..];
      mem[f] := mem[f][i := v];
      assert mem[..] == Put(was, f, i, v);
    }
  }

  /** The head of the free list, read from its address. */
  lemma HeadFrame(w: World)
    requires Shaped(w) && Tagged(w) && FreeListed(w)
    ensures w.firstFree != 0 <==> w.free != []
    ensures w.free != [] ==> FrameOf(w.firstFree) == w.free[0] && w.free[0] < |w.mem|
                             && WordAt(w.mem, w.free[0], 0) == w.mem[w.free[0]][0]
  {
    if w.free != [] {
      assert w.free[0] in w.free;
      EntryParts(w.free[0]);
    }
  }

  /** What pmap writes. */
  function EntryFor(g: nat, forUser: bool, forWrite: bool): Word
    requires g < 1024
  {
    g * 4096 + (if forUser then 4 else 0) + (if forWrite then 2 else 0) + 1
  }

  datatype Fault = Killed | Resolved | Panic | NoFrames

  class AddressSpace {
    const m: PhysMem
    var pd: nat
    ghost const id: Space

    ghost predicate Valid()
      reads this, m, m.mem
    {
      Inv(m.State()) && id in m.pds && m.pds[id] == pd
    }

    /** The table for an address, made if it is missing. */
    method GetPTE(va: Word) returns (ok: bool, t: nat)
      requires Valid() && (I0(va) == 0 || 512 <= I0(va))
      modifies m, m.mem
      ensures ok == (Present(WordAt(old(m.State()).mem, pd, I0(va))) || HasFrame(old(m.State())))
      ensures !ok ==> m.State() == old(m.State())
      ensures ok ==>
                m.State() == WithTableFor(old(m.State()), id, I0(va)) && t == TableOf(m.State().mem, m.pds, id, I0(va))
    {
      hide Holds;
      hide Tagged;
      hide FreeListed;
      ghost var w := m.State();
      var i0 := I0(va);
      DirectoryAt(w, id);
      ok := true;
      if !Present(m.mem[pd][i0]) {
        var p;
        ok, p := m.Alloc();
        if !ok {
          return false, 0;
        }
        AllocatedGrown(w, id);
        m.Write(pd, i0, UserEntry(p));
        m.owner := m.owner[p := Table(id, i0)];
      }
      t := FrameOf(m.mem[pd][i0]);
    }

    /** A mapping is entered. */
    method PMap(va: Word, g: nat, forUser: bool, forWrite: bool) returns (ok: bool)
      requires Valid() && (I0(va) == 0 || 512 <= I0(va)) && g < m.limit
      modifies m, m.mem
      ensures ok == (Present(WordAt(old(m.State()).mem, pd, I0(va))) || HasFrame(old(m.State())))
      ensures !ok ==> m.State() == old(m.State())
      ensures ok ==> var w := WithTableFor(old(m.State()), id, I0(va));
                     && Inv(w) && HasTable(w, id, I0(va)) && TableOf(w.mem, w.pds, id, I0(va)) < w.limit
                     && m.State() == Entered(w, TableOf(w.mem, w.pds, id, I0(va)), I1(va),
                                             EntryFor(g, forUser, forWrite))
    {
      hide AllHold;
      hide Tagged;
      hide FreeListed;
      hide WithTableFor;
      ghost var w := m.State();
      var t;
      ok, t := GetPTE(va);
      if ok {
        WithTableForInv(w, id, I0(va));
        TableAt(m.State(), id, I0(va));
        m.Write(t, I1(va), EntryFor(g, forUser, forWrite));
      }
    }

    /** A user page is mapped to a loose frame. */
    method PMapUser(va: Word, g: nat) returns (ok: bool)
      requires Valid() && 512 <= I0(va) && g < m.limit && m.owner[g] == Loose
      requires Walk(m.State(), id, I0(va), I1(va)) == None
      modifies m, m.mem
      ensures ok == (Present(WordAt(old(m.State()).mem, pd, I0(va))) || HasFrame(old(m.State())))
      ensures !ok ==> m.State() == old(m.State())
      ensures ok ==> Valid() && Grown(old(m.State()), m.State(), id, Some(g))
      ensures ok ==> PageIs(m.State(), g, id, va, ContentsOf(old(m.State()).mem, g))
    {
      hide AllHold;
      hide Tagged;
      hide FreeListed;
      hide WithTableFor;
      hide Walk;
      hide I0;
      hide I1;
      hide Grown;
      hide HasFrame;
      ghost var w := m.State();
      UserHalf(va);
      ok := PMap(va, g, true, true);
      if ok {
        m.owner := m.owner[g := Page(id, I0(va), I1(va))];
        MappedInv(w, id, I0(va), I1(va), g);
        GrownSpaces(w, m.State(), id, Some(g));
      }
    }

    /** A fresh frame is filled and mapped; fork and the page fault do this. */
    method Place(va: Word, page: seq<Word>) returns (ok: bool, ghost g: nat)
      requires Valid() && 512 <= I0(va) && |page| == SIZE && Walk(m.State(), id, I0(va), I1(va)) == None
      modifies m, m.mem
      ensures Valid()
      ensures Grown(old(m.State()), m.State(), id, Some(g))
      ensures ok == HasRoom(old(m.State()), id, I0(va))
      ensures !ok ==> !HasFrame(m.State())
      ensures ok ==> !Held(OwnerAt(old(m.owner), g))
      ensures ok ==> PageIs(m.State(), g, id, va, page) && UserFlags(m.State(), id, I0(va), I1(va))
    {
      hide AllHold;
      hide Tagged;
      hide FreeListed;
      hide Allocated;
      hide Walk;
      hide Grown;
      ghost var w := m.State();
      var p;
      ok, p := m.Alloc();
      g := p;
      GrownNot(w, id);
      GrownWider(w, w, id, g);
      RoomFor(w, id, I0(va), page);
      if ok {
        FilledInv(w, id, page);
        m.mem[p] := page;
        assert m.State() == Filled(w, page);
        UnmappedFilled(w, id, I0(va), I1(va), page);
        ghost var m1 := m.State();
        ok := PMapUser(va, p);
        if ok {
          GrownTwice(w, m1, m.State(), id, Some(p));
          PageFlags(m.State(), p, id, va, page);
        }
      }
    }

    /** A page fault: a place above the kernel's half gets an empty page. */
    method HandlePageFault(va: Word) returns (r: Fault)
      requires Valid() && (0x8000_0000 <= va ==> Walk(m.State(), id, I0(va), I1(va)) == None)
      modifies m, m.mem
      ensures Valid()
      ensures r == Killed <==> va < 0x1000
      ensures r == Panic <==> 0x1000 <= va < 0x8000_0000
      ensures r == Resolved || r == NoFrames <==> 0x8000_0000 <= va
      ensures r == NoFrames <==> 0x8000_0000 <= va && !HasRoom(old(m.State()), id, I0(va))
      ensures r == Killed || r == Panic ==> m.State() == old(m.State())
      ensures r == Resolved ==> Happens(old(m.State()), FaultAt(id, va), m.State())
    {
      hide Inv;
      hide Walk;
      hide Grown;
      if va < 0x1000 {
        r := Killed;
      } else if va >= 0x8000_0000 {
        ghost var w := m.State();
        UserHalf(va);
        var ok;
        ghost var g;
        ok, g := Place(va, Zeros());
        r := if ok then Resolved else NoFrames;
        if ok {
          FaultWalks(w, m.State(), id, va, g);
          assert Resolves(w, m.State(), id, va, g);
        }
      } else {
        r := Panic;
      }
    }

    /** The child gets a copy of every user page; false if the frames run out, where the source panics. */
    method Fork(child: AddressSpace) returns (ok: bool)
      requires Valid() && child.m == m && child.Valid() && child.id != id && Fresh(m.State(), child.id)
      modifies m, m.mem
      ensures Valid() && child.Valid()
      ensures !ok ==> !HasFrame(m.State())
      ensures ok ==> Happens(old(m.State()), ForkTo(id, child.id), m.State())
    {
      hide Inv;
      hide Walk;
      hide Fresh;
      hide Forking;
      ghost var w0 := m.State();
      ForkBegins(w0, id, child.id);
      ok := true;
      var i0 := 512;
      while i0 < SIZE
        invariant 512 <= i0 <= SIZE
        invariant Copying(child, w0, i0 * SIZE)
      {
        ok := ForkTable(child, i0, w0);
        if !ok {
          return;
        }
        i0 := i0 + 1;
      }
      ForkFlags(w0, m.State(), id, child.id);
    }

    /** A child process: a new space, and a copy of every user page in it. */
    method ForkChild(ghost b: Space) returns (child: AddressSpace, ok: bool)
      requires Valid() && b !in m.pds && 2 <= FramesLeft(m.State())
      modifies m, m.mem
      ensures Valid() && child.m == m && child.id == b && child.Valid() && fresh(child)
      ensures ok ==> exists w :: Happens(old(m.State()), NewSpace(b), w) && Happens(w, ForkTo(id, b), m.State())
      ensures !ok ==> !HasFrame(m.State())
    {
      hide Inv;
      hide Happens;
      hide Fresh;
      ghost var w0 := m.State();
      child := new AddressSpace(m, b);
      ghost var w := m.State();
      NewIsFresh(w0, w, b);
      assert m.pds[id] == pd;
      ok := Fork(child);
    }

    /** fork has dealt with the places before c. */
    ghost predicate Copying(child: AddressSpace, w0: World, c: nat)
      reads this, m, m.mem, child, child.m, child.m.mem
    {
      && Valid() && child.m == m && child.Valid() && child.id != id && Inv(w0) && m.pds == w0.pds
      && Forking(w0, m.State(), id, child.id, c)
    }

    method ForkTable(child: AddressSpace, i0: nat, ghost w0: World) returns (ok: bool)
      requires Copying(child, w0, i0 * SIZE) && 512 <= i0 < SIZE
      modifies m, m.mem
      ensures Valid() && child.Valid()
      ensures !ok ==> !HasFrame(m.State())
      ensures ok ==> Copying(child, w0, (i0 + 1) * SIZE)
    {
      hide Inv;
      hide Walk;
      hide Forking;
      ParentEntry(w0, m.State(), id, child.id, i0, i0 * SIZE);
      ok := true;
      if Present(m.mem[pd][i0]) {
        var t := FrameOf(m.mem[pd][i0]);
        var i1 := 0;
        while i1 < SIZE
          invariant i1 <= SIZE
          invariant Copying(child, w0, i0 * SIZE + i1)
        {
          ParentTable(w0, m.State(), id, child.id, i0, i1, i0 * SIZE + i1);
          if Present(m.mem[t][i1]) {
            ok := ForkPage(child, i0, i1, FrameOf(m.mem[t][i1]), w0);
            if !ok {
              return;
            }
          } else {
            ForkSkipOne(w0, m.State(), id, child.id, i0, i1);
          }
          i1 := i1 + 1;
        }
      } else {
        ForkSkipTable(w0, m.State(), id, child.id, i0);
      }
    }

    method ForkPage(child: AddressSpace, i0: nat, i1: nat, src: nat, ghost w0: World) returns (ok: bool)
      requires Copying(child, w0, i0 * SIZE + i1) && 512 <= i0 < SIZE && i1 < SIZE
      requires Source(w0, m.State(), id, i0, i1, src)
      modifies m, m.mem
      ensures Valid() && child.Valid()
      ensures !ok ==> !HasFrame(m.State())
      ensures ok ==> Copying(child, w0, i0 * SIZE + i1 + 1)
    {
      hide Inv;
      hide Walk;
      hide Forking;
      hide Grown;
      hide HasFrame;
      hide I0;
      hide I1;
      hide Join;
      var va := Join(i0, i1);
      SplitJoin(0, i0, i1);
      ghost var w := m.State();
      NotYet(w0, w, id, child.id, i0, i1);
      ghost var g;
      ok, g := child.Place(va, m.mem[src]);
      GrownSpaces(w, m.State(), child.id, Some(g));
      if ok {
        ForkStep(w0, w, m.State(), id, child.id, i0, i1, g);
      }
    }

    /** Every user page is unmapped and freed; the tables stay. */
    method Exec()
      requires Valid()
      modifies m, m.mem
      ensures Valid() && Happens(old(m.State()), ExecOf(id), m.State())
    {
      hide Inv;
      hide Walk;
      hide Emptying;
      ghost var w0 := m.State();
      EmptyBegins(w0, id);
      var i0 := 512;
      while i0 < SIZE
        invariant 512 <= i0 <= SIZE
        invariant Clearing(w0, i0 * SIZE)
      {
        ExecEntry(m.State(), id, i0);
        if Present(m.mem[pd][i0]) {
          var t := FrameOf(m.mem[pd][i0]);
          var i1 := 0;
          while i1 < SIZE
            invariant i1 <= SIZE
            invariant Clearing(w0, i0 * SIZE + i1) && TableIs(m.State(), id, i0, t)
          {
            ExecTable(m.State(), id, i0, i1, t);
            if Present(m.mem[t][i1]) {
              ExecPage(i0, i1, t, w0);
            } else {
              ExecSkipOne(w0, m.State(), id, i0, i1);
            }
            i1 := i1 + 1;
          }
        } else {
          ExecSkipTable(w0, m.State(), id, i0);
        }
        i0 := i0 + 1;
      }
    }

    ghost predicate Clearing(w0: World, c: nat)
      reads this, m, m.mem
    {
      Valid() && Inv(w0) && Emptying(w0, m.State(), id, c)
    }

    method ExecPage(i0: nat, i1: nat, t: nat, ghost w0: World)
      requires Clearing(w0, i0 * SIZE + i1) && 512 <= i0 < SIZE && i1 < SIZE
      requires TableIs(m.State(), id, i0, t) && t < m.mem.Length && i1 < |m.mem[t]| && Present(m.mem[t][i1])
      modifies m, m.mem
      ensures Clearing(w0, i0 * SIZE + i1 + 1) && TableIs(m.State(), id, i0, t)
    {
      hide Inv;
      hide Emptying;
      hide Walk;
      ghost var w := m.State();
      var pa := FrameOf(m.mem[t][i1]);
      ExecTaken(w0, w, id, i0, i1, t, pa);
      m.Write(t, i1, 0);
      m.owner := m.owner[pa := Loose];
      m.Free(pa);
    }

    /** The space gives back its frames: its pages, its tables, its directory. */
    method Destroy()
      requires Valid()
      modifies m, m.mem
      ensures Happens(old(m.State()), DestroyOf(id), m.State())
    {
      hide Inv;
      hide Destroying;
      ghost var w0 := m.State();
      DestroyBegins(w0, id);
      m.pds := m.pds - {id};
      var i0 := 0;
      while i0 < SIZE
        invariant i0 <= SIZE
        invariant Dying(w0, i0 * STRIDE)
      {
        DestroyTable(i0, w0);
        i0 := i0 + 1;
      }
      DestroyDirectory(w0, m.State(), id, pd);
      m.Free(pd);
      DestroyReturns(w0, m.State(), id, pd);
    }

    ghost predicate Dying(w0: World, c: nat)
      reads this, m, m.mem
    {
      Inv(w0) && id in w0.pds && w0.pds[id] == pd && Destroying(w0, m.State(), id, c)
    }

    method DestroyTable(i0: nat, ghost w0: World)
      requires Dying(w0, i0 * STRIDE) && i0 < SIZE
      modifies m, m.mem
      ensures Dying(w0, (i0 + 1) * STRIDE)
    {
      hide Inv;
      hide Destroying;
      DyingEntry(w0, m.State(), id, i0, i0 * STRIDE);
      if Present(m.mem[pd][i0]) {
        var t := FrameOf(m.mem[pd][i0]);
        if i0 > 0 {
          var i1 := 0;
          while i1 < SIZE
            invariant i1 <= SIZE
            invariant Dying(w0, i0 * STRIDE + i1)
          {
            DyingTable(w0, m.State(), id, i0, i1, i0 * STRIDE + i1);
            if Present(m.mem[t][i1]) {
              var pa := FrameOf(m.mem[t][i1]);
              DestroyStep(w0, m.State(), id, i0 * STRIDE + i1, pa);
              m.Free(pa);
            } else {
              DyingSkipOne(w0, m.State(), id, i0, i1);
            }
            i1 := i1 + 1;
          }
        } else {
          DyingSkipKernel(w0, m.State(), id);
        }
        DyingEntry(w0, m.State(), id, i0, i0 * STRIDE + SIZE);
        DestroyStep(w0, m.State(), id, i0 * STRIDE + SIZE, t);
        m.Free(t);
      } else {
        DyingSkipTable(w0, m.State(), id, i0);
      }
    }

    /** The constructor's loop maps one page of the kernel to itself. */
    method KernelPage(n: nat)
      requires Valid() && 1 <= n < m.limit
      requires KernelSoFar(m.State(), id, n)
      modifies m, m.mem
      ensures Valid() && KernelSoFar(m.State(), id, n + 1) && Grown(old(m.State()), m.State(), id, None)
    {
      hide AllHold;
      hide Tagged;
      hide FreeListed;
      hide WithTableFor;
      ghost var w := m.State();
      KernelAddress(n);
      KernelNext(w, id, n);
      PresentTable(w, id, 0);
      var ok := PMap(n * 4096, n, false, true);
    }

    /** A new space: a directory, and a table that maps the kernel's pages to themselves. */
    constructor (m: PhysMem, ghost a: Space)
      requires Inv(m.State()) && a !in m.pds && 2 <= FramesLeft(m.State())
      modifies m, m.mem
      ensures this.m == m && id == a && Valid() && Happens(old(m.State()), NewSpace(a), m.State())
    {
      hide AllHold;
      hide Tagged;
      hide FreeListed;
      hide Allocated;
      hide Created;
      hide KernelUpTo;
      hide HasFrame;
      ghost var w := m.State();
      AllocatedCount(w);
      var ok, p := m.Alloc();
      AllocatedGrown(w, a);
      this.m := m;
      id := a;
      pd := p;
      new;
      WithDirectoryInv(m.State(), a, p);
      m.owner := m.owner[p := Directory(a)];
      m.pds := m.pds[a := p];
      DirectoryCreated(w, a);
      var n := 1;
      while n < m.limit
        invariant 1 <= n && (n == 1 || n <= m.limit)
        invariant Valid() && Created(w, m.State(), a) && KernelSoFar(m.State(), a, n)
      {
        ghost var was := m.State();
        KernelPage(n);
        CreatedGrown(w, was, m.State(), a);
        n := n + 1;
      }
    }
  }

  // ---------------------------------------------------------------- page faults and fork

  function ContentsOf(mem: seq<seq<Word>>, f: nat): seq<Word> {
    if f < |mem| then mem[f] else []
  }

  /** The frames that are left. */
  function FramesLeft(w: World): int {
    |w.free| + (w.limit - w.avail)
  }

  /** There is a frame for a page, and one for its table if that is missing. */
  ghost predicate HasRoom(w: World, a: Space, i0: nat) {
    (if a in w.pds && Present(WordAt(w.mem, w.pds[a], i0)) then 1 else 2) <= FramesLeft(w)
  }

  lemma RoomFor(w: World, a: Space, i0: nat, page: seq<Word>)
    requires Inv(w) && a in w.pds && i0 < SIZE
    ensures HasRoom(w, a, i0) ==> HasFrame(w)
    ensures HasFrame(w) ==>
              var m := Filled(w, page);
              m.pds == w.pds && (HasRoom(w, a, i0) <==> Present(WordAt(m.mem, m.pds[a], i0)) || HasFrame(m))
  {
    hide AllHold;
    if HasFrame(w) {
      NextFrameFree(w);
      AllocatedGrown(w, a);
    }
  }

  lemma PageFlags(w: World, g: nat, a: Space, va: Word, page: seq<Word>)
    requires Inv(w) && a in w.pds && 512 <= I0(va) && PageIs(w, g, a, va, page)
    ensures UserFlags(w, a, I0(va), I1(va))
  {
    hide Inv;
    hide Walk;
    UserHalf(va);
    WalkOwner(w, a, I0(va), I1(va), g);
    WalkFlagsAt(w, a, I0(va), I1(va));
  }

  lemma UserHalf(va: Word)
    ensures 0x8000_0000 <= va <==> 512 <= I0(va)
    ensures I0(va) < SIZE && I1(va) < SIZE
  {
  }

  lemma FaultWalks(w: World, w': World, a: Space, va: Word, g: nat)
    requires Inv(w) && Inv(w') && a in w.pds && 512 <= I0(va) < SIZE && I1(va) < SIZE
    requires Grown(w, w', a, Some(g)) && !Held(OwnerAt(w.owner, g))
    requires PageIs(w', g, a, va, Zeros())
    ensures FaultMapped(w, w', a, va)
  {
    hide Inv;
    hide Walk;
    hide Grown;
    WalkGrown(w, w', a, g, I0(va), I1(va), a, I0(va), I1(va));
    GrownSpaces(w, w', a, Some(g));
    WalkFlagsAt(w', a, I0(va), I1(va));
    forall b: Space, i0: nat, i1: nat | b in w.pds && 512 <= i0 < SIZE && i1 < SIZE
      && (b, i0, i1) != (a, I0(va), I1(va))
      ensures SameWalk(w, w', b, i0, i1)
    {
      WalkGrown(w, w', a, g, I0(va), I1(va), b, i0, i1);
    }
  }

  /** Frame src is what the parent maps at a place, and still holds it. */
  ghost predicate Source(w0: World, w: World, a: Space, i0: nat, i1: nat, src: nat) {
    Walk(w0, a, i0, i1) == Some(src) && src < |w0.mem| && src < |w.mem| && |w.mem[src]| == SIZE
      && w.mem[src] == w0.mem[src]
  }

  lemma GrownSpaces(w: World, w': World, b: Space, g: Option<nat>)
    requires Grown(w, w', b, g)
    ensures w'.pds == w.pds
  {
  }

  /** The directory and the tables of the parent are as they were when fork began. */
  lemma ParentEntry(w0: World, w: World, a: Space, b: Space, i0: nat, c: nat)
    requires Inv(w0) && a in w0.pds && a != b && Forking(w0, w, a, b, c) && 512 <= i0 < SIZE
    ensures w.pds[a] < |w.mem| && |w.mem[w.pds[a]]| == SIZE && w.mem[w.pds[a]][i0] == WordAt(w0.mem, w0.pds[a], i0)
  {
    hide AllHold;
    hide Tagged;
    hide FreeListed;
    hide CopiedUpTo;
    DirectoryAt(w0, a);
    assert Same(w0, w, w0.pds[a]);
  }

  lemma ParentTable(w0: World, w: World, a: Space, b: Space, i0: nat, i1: nat, c: nat)
    requires Inv(w0) && a in w0.pds && a != b && Forking(w0, w, a, b, c) && 512 <= i0 < SIZE && i1 < SIZE
    requires Present(WordAt(w0.mem, w0.pds[a], i0))
    ensures var t := FrameOf(WordAt(w0.mem, w0.pds[a], i0));
            && t < |w.mem| && |w.mem[t]| == SIZE
            && (Present(w.mem[t][i1]) <==> Walk(w0, a, i0, i1).Some?)
            && (Present(w.mem[t][i1]) ==> Source(w0, w, a, i0, i1, FrameOf(w.mem[t][i1])))
  {
    hide AllHold;
    hide Tagged;
    hide FreeListed;
    hide CopiedUpTo;
    PresentTable(w0, a, i0);
    PresentPage(w0, a, i0, i1);
    var t := TableOf(w0.mem, w0.pds, a, i0);
    assert Same(w0, w, t);
    if Walk(w0, a, i0, i1).Some? {
      assert Same(w0, w, Walk(w0, a, i0, i1).value);
    }
  }

  lemma ForkSkipOne(w0: World, w: World, a: Space, b: Space, i0: nat, i1: nat)
    requires Forking(w0, w, a, b, i0 * SIZE + i1) && 512 <= i0 < SIZE && i1 < SIZE && Walk(w0, a, i0, i1) == None
    ensures Forking(w0, w, a, b, i0 * SIZE + i1 + 1)
  {
    hide Inv;
    hide Walk;
    var c := i0 * SIZE + i1;
    forall j0: nat, j1: nat | 512 <= j0 < SIZE && j1 < SIZE && c <= j0 * SIZE + j1 < c + 1
      ensures Walk(w0, a, j0, j1) == None
    {
      SlotOrder(i0, i1, j0, j1);
    }
    ForkSkip(w0, w, a, b, c, c + 1);
  }

  lemma ForkSkipTable(w0: World, w: World, a: Space, b: Space, i0: nat)
    requires Forking(w0, w, a, b, i0 * SIZE) && 512 <= i0 < SIZE && a in w0.pds
    requires !Present(WordAt(w0.mem, w0.pds[a], i0))
    ensures Forking(w0, w, a, b, (i0 + 1) * SIZE)
  {
    hide Inv;
    forall j0: nat, j1: nat | 512 <= j0 < SIZE && j1 < SIZE && i0 * SIZE <= j0 * SIZE + j1 < (i0 + 1) * SIZE
      ensures Walk(w0, a, j0, j1) == None
    {
      assert j0 == i0;
    }
    ForkSkip(w0, w, a, b, i0 * SIZE, (i0 + 1) * SIZE);
  }

  /** The pages of the child are as those of every user. */
  lemma ForkFlags(w0: World, w: World, a: Space, b: Space)
    requires Inv(w0) && Forking(w0, w, a, b, SIZE * SIZE) && b in w.pds
    ensures forall i0: nat, i1: nat ::
              512 <= i0 < SIZE && i1 < SIZE && Walk(w0, a, i0, i1).Some? ==> UserFlags(w, b, i0, i1)
  {
    hide Inv;
    hide Walk;
    WalkFlags(w, b);
    forall i0: nat, i1: nat | 512 <= i0 < SIZE && i1 < SIZE && Walk(w0, a, i0, i1).Some?
      ensures UserFlags(w, b, i0, i1)
    {
      assert CopiedUpTo(w0, w, a, b, i0, i1, SIZE * SIZE);
      assert i0 * SIZE + i1 < SIZE * SIZE;
    }
  }

  lemma NotYet(w0: World, w: World, a: Space, b: Space, i0: nat, i1: nat)
    requires Forking(w0, w, a, b, i0 * SIZE + i1) && 512 <= i0 < SIZE && i1 < SIZE
    ensures Walk(w, b, i0, i1) == None
  {
    assert CopiedUpTo(w0, w, a, b, i0, i1, i0 * SIZE + i1);
  }

  // ---------------------------------------------------------------- exec

  ghost predicate TableIs(w: World, a: Space, i0: nat, t: nat) {
    HasTable(w, a, i0) && TableOf(w.mem, w.pds, a, i0) == t
  }

  lemma ExecEntry(w: World, a: Space, i0: nat)
    requires Inv(w) && a in w.pds && 512 <= i0 < SIZE
    ensures w.pds[a] < |w.mem| && |w.mem[w.pds[a]]| == SIZE
    ensures var x := w.mem[w.pds[a]][i0];
            x == WordAt(w.mem, w.pds[a], i0) && (Present(x) <==> HasTable(w, a, i0))
              && (Present(x) ==> TableIs(w, a, i0, FrameOf(x)))
  {
    hide AllHold;
    DirectoryAt(w, a);
    PresentTable(w, a, i0);
  }

  lemma ExecTable(w: World, a: Space, i0: nat, i1: nat, t: nat)
    requires Inv(w) && TableIs(w, a, i0, t) && 512 <= i0 < SIZE && i1 < SIZE
    ensures t < |w.mem| && |w.mem[t]| == SIZE
    ensures Present(w.mem[t][i1]) <==> Walk(w, a, i0, i1).Some?
  {
    hide AllHold;
    PresentPage(w, a, i0, i1);
  }

  /** What ExecPage does is Taken. */
  lemma ExecTaken(w0: World, w: World, a: Space, i0: nat, i1: nat, t: nat, g: nat)
    requires Inv(w0) && Emptying(w0, w, a, i0 * SIZE + i1) && 512 <= i0 < SIZE && i1 < SIZE && a in w.pds
    requires TableIs(w, a, i0, t) && t < |w.mem| && i1 < |w.mem[t]| && Present(w.mem[t][i1])
             && g == FrameOf(w.mem[t][i1])
    ensures g < w.limit && g < |w.owner| == |w.mem| == w.limit && Shaped(WithoutPage(w, a, i0, i1, g))
    ensures WithoutPage(w, a, i0, i1, g) == w.(mem := Put(w.mem, t, i1, 0), owner := w.owner[g := Loose])
    ensures var w' := Released(WithoutPage(w, a, i0, i1, g), g);
            Emptying(w0, w', a, i0 * SIZE + i1 + 1) && TableIs(w', a, i0, t) && Inv(w') && w'.pds == w.pds
  {
    hide AllHold;
    hide Tagged;
    hide FreeListed;
    PresentPage(w, a, i0, i1);
    EmptyStep(w0, w, a, i0, i1, g);
    DirectoryAt(w, a);
  }

  lemma ExecSkipOne(w0: World, w: World, a: Space, i0: nat, i1: nat)
    requires Inv(w0) && Emptying(w0, w, a, i0 * SIZE + i1) && a in w.pds && 512 <= i0 < SIZE && i1 < SIZE
    requires Walk(w, a, i0, i1) == None
    ensures Emptying(w0, w, a, i0 * SIZE + i1 + 1)
  {
    hide Inv;
    hide Walk;
    var c := i0 * SIZE + i1;
    forall j0: nat, j1: nat | 512 <= j0 < SIZE && j1 < SIZE && c <= j0 * SIZE + j1 < c + 1
      ensures Walk(w, a, j0, j1) == None
    {
      SlotOrder(i0, i1, j0, j1);
    }
    EmptySkip(w0, w, a, c, c + 1);
  }

  lemma ExecSkipTable(w0: World, w: World, a: Space, i0: nat)
    requires Inv(w0) && Emptying(w0, w, a, i0 * SIZE) && a in w.pds && 512 <= i0 < SIZE
    requires !Present(WordAt(w.mem, w.pds[a], i0))
    ensures Emptying(w0, w, a, (i0 + 1) * SIZE)
  {
    hide Inv;
    forall j0: nat, j1: nat | 512 <= j0 < SIZE && j1 < SIZE && i0 * SIZE <= j0 * SIZE + j1 < (i0 + 1) * SIZE
      ensures Walk(w, a, j0, j1) == None
    {
      assert j0 == i0;
    }
    EmptySkip(w0, w, a, i0 * SIZE, (i0 + 1) * SIZE);
  }

  // ---------------------------------------------------------------- destruction

  /** The directory of a dying space is as it was until it goes. */
  lemma DyingEntry(w0: World, w: World, a: Space, i0: nat, c: nat)
    requires Inv(w0) && a in w0.pds && Destroying(w0, w, a, c) && i0 < SIZE && c <= i0 * STRIDE + SIZE
    ensures Shaped(w) && w.limit == w0.limit && w0.pds[a] < |w.mem| && |w.mem[w0.pds[a]]| == SIZE
    ensures var x := w.mem[w0.pds[a]][i0];
            && x == WordAt(w0.mem, w0.pds[a], i0)
            && (Present(x) <==> HasTable(w0, a, i0))
            && (Present(x) ==> FrameOf(x) < w0.limit && SpaceOf(w0.owner[FrameOf(x)]) == Some(a)
                               && Slot(w0.owner[FrameOf(x)]) == i0 * STRIDE + SIZE)
  {
    hide AllHold;
    hide Tagged;
    hide FreeListed;
    DirectoryAt(w0, a);
    PresentTable(w0, a, i0);
    assert OwnerAt(w.owner, w0.pds[a]) == DestroyedOwner(OwnerAt(w0.owner, w0.pds[a]), a, c);
    assert Same(w0, w, w0.pds[a]);
  }

  lemma DyingTable(w0: World, w: World, a: Space, i0: nat, i1: nat, c: nat)
    requires Inv(w0) && a in w0.pds && Destroying(w0, w, a, c) && 0 < i0 < SIZE && i1 < SIZE && c <= i0 * STRIDE + SIZE
    requires HasTable(w0, a, i0)
    ensures var t := TableOf(w0.mem, w0.pds, a, i0);
            && Shaped(w) && w.limit == w0.limit && 512 <= i0 && t < |w.mem| && |w.mem[t]| == SIZE
            && (var x := w.mem[t][i1];
                && (Present(x) <==> Walk(w0, a, i0, i1).Some?)
                && (Present(x) ==> FrameOf(x) < w0.limit && SpaceOf(w0.owner[FrameOf(x)]) == Some(a)
                                   && Slot(w0.owner[FrameOf(x)]) == i0 * STRIDE + i1))
  {
    hide AllHold;
    hide Tagged;
    hide FreeListed;
    TableAt(w0, a, i0);
    UserTable(w0, a, i0);
    PresentPage(w0, a, i0, i1);
    var t := TableOf(w0.mem, w0.pds, a, i0);
    assert OwnerAt(w.owner, t) == DestroyedOwner(OwnerAt(w0.owner, t), a, c);
    assert Same(w0, w, t);
  }

  lemma UserTable(w: World, a: Space, i0: nat)
    requires Inv(w) && HasTable(w, a, i0) && 0 < i0
    ensures 512 <= i0
  {
    TableAt(w, a, i0);
  }

  lemma DyingSkipOne(w0: World, w: World, a: Space, i0: nat, i1: nat)
    requires Inv(w0) && a in w0.pds && Destroying(w0, w, a, i0 * STRIDE + i1) && 512 <= i0 < SIZE && i1 < SIZE
    requires Walk(w0, a, i0, i1) == None
    ensures Destroying(w0, w, a, i0 * STRIDE + i1 + 1)
  {
    hide Inv;
    hide Walk;
    hide Destroying;
    var c := i0 * STRIDE + i1;
    forall f: nat | f < w0.limit && SpaceOf(OwnerAt(w0.owner, f)) == Some(a)
      ensures !(c <= Slot(OwnerAt(w0.owner, f)) < c + 1)
    {
      OwnerIndex(w0, f);
      SlotRange(w0, f);
      WalkOwner(w0, a, i0, i1, f);
    }
    DestroySkip(w0, w, a, c, c + 1);
  }

  lemma DyingSkipKernel(w0: World, w: World, a: Space)
    requires Inv(w0) && a in w0.pds && Destroying(w0, w, a, 0)
    ensures Destroying(w0, w, a, SIZE)
  {
    hide Inv;
    hide Destroying;
    forall f: nat | f < w0.limit && SpaceOf(OwnerAt(w0.owner, f)) == Some(a)
      ensures !(0 <= Slot(OwnerAt(w0.owner, f)) < SIZE)
    {
      OwnerIndex(w0, f);
      SlotRange(w0, f);
      if w0.owner[f].Page? {
        PageAt(w0, a, w0.owner[f].i0, w0.owner[f].i1, f);
      }
    }
    DestroySkip(w0, w, a, 0, SIZE);
  }

  lemma DyingSkipTable(w0: World, w: World, a: Space, i0: nat)
    requires Inv(w0) && a in w0.pds && Destroying(w0, w, a, i0 * STRIDE) && i0 < SIZE && !HasTable(w0, a, i0)
    ensures Destroying(w0, w, a, (i0 + 1) * STRIDE)
  {
    hide Inv;
    hide Destroying;
    hide HasTable;
    forall f: nat | f < w0.limit && SpaceOf(OwnerAt(w0.owner, f)) == Some(a)
      ensures !(i0 * STRIDE <= Slot(OwnerAt(w0.owner, f)) < (i0 + 1) * STRIDE)
    {
      OwnerIndex(w0, f);
      SlotRange(w0, f);
      OwnTable(w0, f);
    }
    DestroySkip(w0, w, a, i0 * STRIDE, (i0 + 1) * STRIDE);
  }

  lemma OwnTable(w: World, f: nat)
    requires Inv(w) && f < w.limit
    ensures w.owner[f].Page? ==> HasTable(w, w.owner[f].a, w.owner[f].i0)
    ensures w.owner[f].Table? ==> HasTable(w, w.owner[f].a, w.owner[f].i0)
  {
    assert Holds(w.owner, w.mem, w.pds, f);
    EntryParts(f);
  }

  lemma DestroyDirectory(w0: World, w: World, a: Space, p: nat)
    requires Inv(w0) && a in w0.pds && p == w0.pds[a] && Destroying(w0, w, a, SIZE * STRIDE)
    ensures p < w.limit && Shaped(w) && p < w0.limit && Destroying(w0, Released(w, p), a, SIZE * STRIDE + 1)
  {
    hide Tagged;
    hide FreeListed;
    hide AllHold;
    DirectoryAt(w0, a);
    DestroyStep(w0, w, a, SIZE * STRIDE, p);
  }

  // ---------------------------------------------------------------- construction

  /** Before the first kernel page the directory is empty. */
  ghost predicate KernelSoFar(w: World, a: Space, n: nat) {
    if n == 1 then a in w.pds && !Present(WordAt(w.mem, w.pds[a], 0)) && HasFrame(w) else KernelUpTo(w, a, n)
  }

  lemma KernelAddress(n: nat)
    requires n < 1024
    ensures I0(n * 4096) == 0 && I1(n * 4096) == n && EntryFor(n, false, true) == KernelEntry(n)
  {
  }

  lemma AllocatedCount(w: World)
    requires Inv(w) && 2 <= FramesLeft(w)
    ensures HasFrame(w) && NextFrame(w) < w.limit && HasFrame(Allocated(w)) && Allocated(w).pds == w.pds
  {
    NextFrameFree(w);
  }

  lemma DirectoryCreated(w: World, a: Space)
    requires Inv(w) && a !in w.pds && HasFrame(w) && NextFrame(w) < w.limit
    ensures var w' := WithDirectory(Allocated(w), a, NextFrame(w));
            Created(w, w', a) && (HasFrame(Allocated(w)) ==> KernelSoFar(w', a, 1))
  {
    hide AllHold;
    AllocatedGrown(w, a);
    NextFrameFree(w);
    var m := Allocated(w);
    forall f: nat | f < w.limit
      ensures Held(OwnerAt(w.owner, f)) ==> Same(w, WithDirectory(m, a, NextFrame(w)), f)
      ensures Founds(w, WithDirectory(m, a, NextFrame(w)), a, f)
    {
      assert Held(OwnerAt(w.owner, f)) ==> Stays(w, m, a, f);
      assert f != NextFrame(w) ==> Gains(w, m, a, f);
    }
  }

  lemma CreatedGrown(w: World, m: World, w': World, a: Space)
    requires Inv(w) && a !in w.pds && Created(w, m, a) && Grown(m, w', a, None)
    ensures Created(w, w', a)
  {
    forall f: nat | f < w.limit
      ensures Held(OwnerAt(w.owner, f)) ==> Same(w, w', f)
      ensures Founds(w, w', a, f)
    {
      NobodyYet(w, a, f);
      assert Held(OwnerAt(w.owner, f)) ==> Same(w, m, f);
      assert Founds(w, m, a, f) && Gains(m, w', a, f);
      assert Held(OwnerAt(m.owner, f)) ==> Stays(m, w', a, f);
    }
  }

  /** The space that the constructor made can be forked into, and the spaces before it are still there. */
  lemma NewIsFresh(w: World, w': World, b: Space)
    requires Inv(w) && Happens(w, NewSpace(b), w')
    ensures Inv(w') && Fresh(w', b)
    ensures forall a :: a in w.pds ==> a in w'.pds && w'.pds[a] == w.pds[a]
  {
    hide Walk;
    hide Fresh;
    hide FreeListed;
    hide Tagged;
    CreatedFresh(w, w', b);
    forall a | a in w.pds
      ensures w'.pds[a] == w.pds[a]
    {
      DirectoryAt(w, a);
      assert Same(w, w', w.pds[a]);
      assert Holds(w'.owner, w'.mem, w'.pds, w.pds[a]);
    }
  }
}
