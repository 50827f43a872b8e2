/** Physical frames and the two-level page tables that lie in them. A frame is a sequence of 1024 words;
    an address is 4096 times a frame number; an entry of a directory or a table is the address of a
    frame plus flags. */
module FrameModel {
  import opened Collections

  type Word = x: int | 0 <= x < 0x1_0000_0000

  type Space = nat

  const SIZE: nat := 1024

  /** Who has a frame. Loose: taken by alloc and not entered anywhere yet. */
  datatype Owner = Reserved | Untouched | Free | Loose
                 | Directory(a: Space) | Table(a: Space, i0: nat) | Page(a: Space, i0: nat, i1: nat)

  /** Frames first to limit - 1 are managed; those below first belong to the kernel. free, owner and pds
      are not in the source: the free list, who has each frame, and the directory of each space. */
  datatype World = World(first: nat, avail: nat, limit: nat, firstFree: Word, mem: seq<seq<Word>>,
                         free: seq<nat>, owner: seq<Owner>, pds: map<Space, nat>)

  // ---------------------------------------------------------------- addresses and entries

  predicate Present(x: Word) {
    x % 2 == 1
  }

  function FrameOf(x: Word): nat {
    x / 4096
  }

  function Address(f: nat): Word
    requires f < 1024
  {
    f * 4096
  }

  /** A frame and the flags user, writable, present. */
  function UserEntry(f: nat): Word
    requires f < 1024
  {
    f * 4096 + 7
  }

  /** A frame and the flags writable, present. */
  function KernelEntry(f: nat): Word
    requires f < 1024
  {
    f * 4096 + 3
  }

  function I0(va: Word): nat {
    va / 0x40_0000 % 1024
  }

  function I1(va: Word): nat {
    va / 4096 % 1024
  }

  function Join(i0: nat, i1: nat): Word
    requires i0 < 1024 && i1 < 1024
  {
    i0 * 0x40_0000 + i1 * 4096
  }

  /** Splitting an address and joining it again gives its page; joining and splitting gives the indices. */
  lemma SplitJoin(va: Word, i0: nat, i1: nat)
    requires i0 < 1024 && i1 < 1024
    ensures Join(I0(va), I1(va)) == va - va % 4096
    ensures I0(Join(i0, i1)) == i0 && I1(Join(i0, i1)) == i1
  {
    SplitPage(va);
    JoinPage(i0, i1);
  }

  lemma SplitPage(va: Word)
    ensures I0(va) * 1024 + I1(va) == va / 4096
  {
    var page := va / 4096;
    assert page / 1024 == va / 0x40_0000 < 1024;
  }

  lemma JoinPage(i0: nat, i1: nat)
    requires i0 < 1024 && i1 < 1024
    ensures I0(Join(i0, i1)) == i0 && I1(Join(i0, i1)) == i1
  {
    var page := i0 * 1024 + i1;
    assert Join(i0, i1) / 4096 == page;
    assert Join(i0, i1) / 0x40_0000 == i0;
  }

  /** The same with the shifts and masks of the source. */
  lemma SplitJoinBits(va: bv32)
    ensures (((va >> 22) & 0x3ff) << 22) | (((va >> 12) & 0x3ff) << 12) == va & 0xffff_f000
    ensures var w := va & 0xffff_f000;
            ((w >> 22) & 0x3ff) == ((va >> 22) & 0x3ff) && ((w >> 12) & 0x3ff) == ((va >> 12) & 0x3ff)
  {
  }

  lemma EntryParts(f: nat)
    requires f < 1024
    ensures Present(UserEntry(f)) && FrameOf(UserEntry(f)) == f
    ensures Present(KernelEntry(f)) && FrameOf(KernelEntry(f)) == f
    ensures FrameOf(Address(f)) == f
    ensures UserEntry(f) % 4096 == 7 && KernelEntry(f) % 4096 == 3 && Address(f) % 4096 == 0
  {
    WordParts(f, 7);
    WordParts(f, 3);
    WordParts(f, 0);
  }

  lemma WordParts(f: nat, flags: nat)
    requires f < 1024 && flags < 4096
    ensures (f * 4096 + flags) % 4096 == flags && (f * 4096 + flags) / 4096 == f
  {
  }

  function Zeros(): (r: seq<Word>)
    ensures |r| == SIZE && forall i :: 0 <= i < SIZE ==> r[i] == 0
  {
    seq(SIZE, i => 0)
  }

  /** One word of memory is written. */
  function Put(mem: seq<seq<Word>>, f: nat, i: nat, v: Word): seq<seq<Word>>
    requires f < |mem| && i < |mem[f]|
  {
    var page: seq<Word> := mem[f][i := v];
    mem[f := page]
  }

  function WordAt(mem: seq<seq<Word>>, f: nat, i: nat): Word {
    if f < |mem| && i < |mem[f]| then mem[f][i] else 0
  }

  function OwnerAt(owner: seq<Owner>, f: nat): Owner {
    if f < |owner| then owner[f] else Reserved
  }

  // ---------------------------------------------------------------- the invariant

  ghost predicate Shaped(w: World) {
    && |w.mem| == |w.owner| == w.limit <= 1024 && 0 < w.first <= w.avail <= w.limit
    && forall f :: 0 <= f < |w.mem| ==> |w.mem[f]| == SIZE
  }

  ghost predicate Tagged(w: World) {
    forall f :: 0 <= f < |w.owner| ==>
      (w.owner[f] == Reserved <==> f < w.first) && (w.owner[f] == Untouched <==> w.avail <= f)
  }

  function Head(free: seq<nat>): Word {
    if free != [] && free[0] < 1024 then Address(free[0]) else 0
  }

  /** The free list is threaded through the first words of its frames. */
  ghost predicate Threaded(mem: seq<seq<Word>>, free: seq<nat>) {
    forall i :: 0 <= i < |free| ==> WordAt(mem, free[i], 0) == Head(free[i + 1..])
  }

  ghost predicate FreeListed(w: World) {
    && NoDup(w.free) && w.firstFree == Head(w.free) && Threaded(w.mem, w.free)
    && (forall f: nat :: f in w.free <==> OwnerAt(w.owner, f) == Free)
  }

  /** An entry of a directory of a: empty, or a table of a. */
  ghost predicate DirEntry(owner: seq<Owner>, x: Word, a: Space, i0: nat) {
    x == 0 || (FrameOf(x) < 1024 && x == UserEntry(FrameOf(x)) && OwnerAt(owner, FrameOf(x)) == Table(a, i0))
  }

  /** An entry of a table of a: empty, or a page of a; in table 0, empty or the page's own number. */
  ghost predicate TableEntry(owner: seq<Owner>, x: Word, a: Space, i0: nat, i1: nat) {
    || x == 0
    || (i0 == 0 && i1 < 1024 && x == KernelEntry(i1))
    || (i0 != 0 && FrameOf(x) < 1024 && x == UserEntry(FrameOf(x)) && OwnerAt(owner, FrameOf(x)) == Page(a, i0, i1))
  }

  ghost predicate IsDirectory(owner: seq<Owner>, page: seq<Word>, a: Space) {
    forall i0 :: 0 <= i0 < |page| ==> DirEntry(owner, page[i0], a, i0)
  }

  ghost predicate IsTable(owner: seq<Owner>, page: seq<Word>, a: Space, i0: nat) {
    forall i1 :: 0 <= i1 < |page| ==> TableEntry(owner, page[i1], a, i0, i1)
  }

  /** The table that space a has for i0. */
  function TableOf(mem: seq<seq<Word>>, pds: map<Space, nat>, a: Space, i0: nat): nat {
    if a in pds then FrameOf(WordAt(mem, pds[a], i0)) else 0
  }

  /** A frame of a space is entered where its owner says. */
  ghost predicate Holds(owner: seq<Owner>, mem: seq<seq<Word>>, pds: map<Space, nat>, f: nat) {
    f < |mem| && f < 1024 &&
    match OwnerAt(owner, f)
    case Directory(a) =>
      a in pds && pds[a] == f && IsDirectory(owner, mem[f], a)
    case Table(a, i0) =>
      (i0 == 0 || 512 <= i0 < SIZE) && a in pds && WordAt(mem, pds[a], i0) == UserEntry(f)
        && IsTable(owner, mem[f], a, i0)
    case Page(a, i0, i1) =>
      && 512 <= i0 < SIZE && i1 < SIZE && a in pds
      && OwnerAt(owner, TableOf(mem, pds, a, i0)) == Table(a, i0)
      && WordAt(mem, TableOf(mem, pds, a, i0), i1) == UserEntry(f)
    case _ => true
  }

  function SpaceOf(o: Owner): Option<Space> {
    match o
    case Directory(a) => Some(a)
    case Table(a, _) => Some(a)
    case Page(a, _, _) => Some(a)
    case _ => None
  }

  ghost predicate Directories(owner: seq<Owner>, pds: map<Space, nat>) {
    forall a :: a in pds ==> OwnerAt(owner, pds[a]) == Directory(a)
  }

  /** Every frame, except those of space x, is where its owner says. */
  ghost predicate AllHold(w: World, x: Option<Space>) {
    forall f: nat :: f < |w.owner| && (x == None || SpaceOf(w.owner[f]) != x) ==> Holds(w.owner, w.mem, w.pds, f)
  }

  /** Each frame has one owner and each owner has the frame. */
  ghost predicate Inv(w: World) {
    Shaped(w) && Tagged(w) && FreeListed(w) && Directories(w.owner, w.pds) && AllHold(w, None)
  }

  // ---------------------------------------------------------------- what a space maps

  function Walk(w: World, a: Space, i0: nat, i1: nat): Option<nat> {
    if a !in w.pds || !Present(WordAt(w.mem, w.pds[a], i0)) then None
    else
      var x := WordAt(w.mem, FrameOf(WordAt(w.mem, w.pds[a], i0)), i1);
      if Present(x) then Some(FrameOf(x)) else None
  }

  lemma ZeroReserved(w: World)
    requires Shaped(w) && Tagged(w)
    ensures OwnerAt(w.owner, 0) == Reserved
  {
  }

  lemma DirectoryWord(w: World, a: Space, i0: nat)
    requires Inv(w) && a in w.pds && i0 < SIZE
    ensures DirEntry(w.owner, WordAt(w.mem, w.pds[a], i0), a, i0)
  {
    hide FreeListed;
    hide Tagged;
    hide IsTable;
    assert Holds(w.owner, w.mem, w.pds, w.pds[a]);
  }

  lemma TableWord(w: World, t: nat, a: Space, i0: nat, i1: nat)
    requires Inv(w) && OwnerAt(w.owner, t) == Table(a, i0) && i1 < SIZE
    ensures TableEntry(w.owner, WordAt(w.mem, t, i1), a, i0, i1)
    ensures t < 1024 && a in w.pds && WordAt(w.mem, w.pds[a], i0) == UserEntry(t)
  {
    hide FreeListed;
    hide Tagged;
    hide IsDirectory;
    assert Holds(w.owner, w.mem, w.pds, t);
  }

  lemma PageWord(w: World, g: nat, a: Space, i0: nat, i1: nat)
    requires Inv(w) && OwnerAt(w.owner, g) == Page(a, i0, i1)
    ensures g < 1024 && OwnerAt(w.owner, TableOf(w.mem, w.pds, a, i0)) == Table(a, i0) && i1 < SIZE
    ensures WordAt(w.mem, TableOf(w.mem, w.pds, a, i0), i1) == UserEntry(g)
  {
    hide FreeListed;
    hide Tagged;
    hide IsDirectory;
    hide IsTable;
    assert Holds(w.owner, w.mem, w.pds, g);
  }

  /** A page of a space is mapped by one pair of indices, and its owner says which. */
  lemma WalkOwner(w: World, a: Space, i0: nat, i1: nat, g: nat)
    requires Inv(w) && a in w.pds && 512 <= i0 < SIZE && i1 < SIZE
    ensures Walk(w, a, i0, i1) == Some(g) <==> OwnerAt(w.owner, g) == Page(a, i0, i1)
  {
    hide Inv;
    hide OwnerAt;
    hide WordAt;
    DirectoryWord(w, a, i0);
    var x := WordAt(w.mem, w.pds[a], i0);
    if x != 0 {
      TableWord(w, FrameOf(x), a, i0, i1);
    }
    if OwnerAt(w.owner, g) == Page(a, i0, i1) {
      PageWord(w, g, a, i0, i1);
      EntryParts(g);
      TableWord(w, FrameOf(x), a, i0, i1);
    }
  }

  // ---------------------------------------------------------------- the flags of the words in memory

  /** Both words on the walk to a page say present, writable, user, and nothing else. */
  ghost predicate UserFlags(w: World, a: Space, i0: nat, i1: nat) {
    a in w.pds && var x := WordAt(w.mem, w.pds[a], i0);
    x % 4096 == 7 && WordAt(w.mem, x / 4096, i1) % 4096 == 7
  }

  /** A page of the kernel is mapped to itself, present and writable, and not for the user. */
  ghost predicate KernelFlags(w: World, a: Space, n: nat) {
    a in w.pds && var x := WordAt(w.mem, w.pds[a], 0);
    && x % 4096 == 7
    && WordAt(w.mem, x / 4096, n) / 4096 == n && WordAt(w.mem, x / 4096, n) % 4096 == 3
  }

  /** Every page of a user that is mapped is mapped like that, and so is every page of the kernel. */
  ghost predicate FlagsRight(w: World, a: Space) {
    && (forall i0: nat, i1: nat ::
          512 <= i0 < SIZE && i1 < SIZE && Walk(w, a, i0, i1).Some? ==> UserFlags(w, a, i0, i1))
    && (forall n: nat :: n < SIZE && Walk(w, a, 0, n).Some? ==> KernelFlags(w, a, n))
  }

  lemma WalkFlags(w: World, a: Space)
    requires Inv(w) && a in w.pds
    ensures FlagsRight(w, a)
  {
    hide Inv;
    hide WordAt;
    forall i0: nat, i1: nat | (i0 == 0 || 512 <= i0 < SIZE) && i1 < SIZE && Walk(w, a, i0, i1).Some?
      ensures if i0 == 0 then KernelFlags(w, a, i1) else UserFlags(w, a, i0, i1)
    {
      WalkFlagsAt(w, a, i0, i1);
    }
  }

  lemma WalkFlagsAt(w: World, a: Space, i0: nat, i1: nat)
    requires Inv(w) && a in w.pds && (i0 == 0 || 512 <= i0 < SIZE) && i1 < SIZE && Walk(w, a, i0, i1).Some?
    ensures if i0 == 0 then KernelFlags(w, a, i1) else UserFlags(w, a, i0, i1)
  {
    hide Inv;
    hide OwnerAt;
    hide WordAt;
    DirectoryWord(w, a, i0);
    var x := WordAt(w.mem, w.pds[a], i0);
    EntryParts(FrameOf(x));
    TableWord(w, FrameOf(x), a, i0, i1);
    var y := WordAt(w.mem, FrameOf(x), i1);
    if i0 == 0 {
      EntryParts(i1);
    } else {
      EntryParts(FrameOf(y));
    }
  }
}
