/** Closing and forking whole tables, and every run of the system calls. */
module ResourceRuns {
  import opened Collections
  import opened ResourceModel

  // ---------------------------------------------------------------- closeAll

  /** The first n slots of table t have been closed. */
  ghost function ClosedUpTo(s: Resources, t: Id, n: nat): (r: Resources)
    requires Balanced(s) && t < |s.slots| && n <= |s.slots[t]|
    ensures Balanced(r) && |r.slots| == |s.slots| && |r.slots[t]| == |s.slots[t]|
  {
    hide AllCounted;
    hide Lives;
    hide InTables;
    if n == 0 then s
    else
      var m := ClosedUpTo(s, t, n - 1);
      DroppedBalanced(m, t, n - 1);
      Dropped(m, t, n - 1)
  }

  /** Only table t, counts and lives have changed. */
  ghost predicate OnlyTable(s: Resources, r: Resources, t: Id) {
    && r == s.(slots := r.slots, count := r.count, alive := r.alive)
    && |r.slots| == |s.slots| && (forall u: Id :: u < |s.slots| && u != t ==> r.slots[u] == s.slots[u])
  }

  lemma {:induction false} ClosedFrame(s: Resources, t: Id, n: nat)
    requires Balanced(s) && t < |s.slots| && n <= |s.slots[t]|
    ensures var r := ClosedUpTo(s, t, n);
            OnlyTable(s, r, t) && r.slots[t][..n] == EmptyTable(n) && r.slots[t][n..] == s.slots[t][n..]
  {
    hide Balanced;
    hide Dropped;
    hide OnlyTable;
    ClosedStart(s, t);
    if n > 0 {
      ClosedFrame(s, t, n - 1);
      var m, r := ClosedUpTo(s, t, n - 1), ClosedUpTo(s, t, n);
      ClosedStep(s, t, n - 1);
      OnlyTwice(s, m, r, t);
      ClosedSlots(s.slots[t], m.slots[t], r.slots[t], n);
    }
  }

  lemma ClosedStart(s: Resources, t: Id)
    requires Balanced(s) && t < |s.slots|
    ensures ClosedUpTo(s, t, 0) == s && OnlyTable(s, s, t)
    ensures s.slots[t][..0] == EmptyTable(0) && s.slots[t][0..] == s.slots[t]
  {
  }

  lemma OnlyTwice(s: Resources, m: Resources, r: Resources, t: Id)
    requires OnlyTable(s, m, t) && OnlyTable(m, r, t)
    ensures OnlyTable(s, r, t)
  {
  }

  lemma ClosedSlots(first: Slots, was: Slots, now: Slots, n: nat)
    requires 0 < n <= |was| == |first| && was[..n - 1] == EmptyTable(n - 1) && was[n - 1..] == first[n - 1..]
    requires now == was[n - 1 := None]
    ensures now[..n] == EmptyTable(n) && now[n..] == first[n..]
  {
    assert now[..n] == was[..n - 1] + [None];
    assert now[n..] == was[n - 1..][1..] && first[n..] == first[n - 1..][1..];
  }

  /** The slot that the next step closes is as it was at first. */
  lemma ClosedNext(s: Resources, t: Id, n: nat)
    requires Balanced(s) && t < |s.slots| && n < |s.slots[t]|
    ensures ClosedUpTo(s, t, n).slots[t][n] == s.slots[t][n]
    ensures s.slots[t][..n + 1] == s.slots[t][..n] + [s.slots[t][n]]
  {
    hide Balanced;
    ClosedFrame(s, t, n);
    var r := ClosedUpTo(s, t, n).slots[t];
    assert r[n] == r[n..][0];
  }

  lemma {:induction false} ClosedTables(s: Resources, t: Id, n: nat, p: Id)
    requires Balanced(s) && t < |s.slots| && n <= |s.slots[t]|
    ensures InTables(ClosedUpTo(s, t, n).slots, p) + InTable(s.slots[t][..n], p) == InTables(s.slots, p)
  {
    hide Counted;
    hide AllCounted;
    hide Lives;
    hide InTables;
    if n > 0 {
      ClosedTables(s, t, n - 1, p);
      ClosedNext(s, t, n - 1);
      var m := ClosedUpTo(s, t, n - 1);
      DroppedBalanced(m, t, n - 1);
      SlotSet(m, t, n - 1, None, p);
    }
  }

  lemma {:induction false} ClosedAlive(s: Resources, t: Id, n: nat, p: Id)
    requires Balanced(s) && t < |s.slots| && n <= |s.slots[t]| && p < |s.kind|
    ensures var r := ClosedUpTo(s, t, n);
            && |r.alive| == |s.alive|
            && (r.alive[p] <==> s.alive[p] && (InTable(s.slots[t][..n], p) == 0
                                               || 0 < InTables(r.slots, p) + Own(s.held[p])))
  {
    hide Balanced;
    hide InTables;
    hide InTable;
    hide Dropped;
    ClosedNone(s, t, p);
    if n > 0 {
      ClosedAlive(s, t, n - 1, p);
      ClosedNext(s, t, n - 1);
      ClosedTables(s, t, n - 1, p);
      ClosedTables(s, t, n, p);
      ClosedFrame(s, t, n - 1);
      ClosedStep(s, t, n - 1);
      InTableMore(s.slots[t][..n - 1], s.slots[t][n - 1], p);
      LastReference(ClosedUpTo(s, t, n - 1), t, n - 1, p);
    }
  }

  lemma ClosedNone(s: Resources, t: Id, p: Id)
    requires Balanced(s) && t < |s.slots|
    ensures ClosedUpTo(s, t, 0) == s && InTable(s.slots[t][..0], p) == 0
  {
  }

  lemma InTableMore(slots: seq<Option<Id>>, x: Option<Id>, p: Id)
    ensures InTable(slots + [x], p) == InTable(slots, p) + if x == Some(p) then 1 else 0
  {
  }

  lemma ClosedStep(s: Resources, t: Id, n: nat)
    requires Balanced(s) && t < |s.slots| && n < |s.slots[t]|
    ensures var m := ClosedUpTo(s, t, n);
            && Sized(m) && Balanced(m) && t < |m.slots| && n < |m.slots[t]|
            && (m.slots[t][n].Some? ==> m.slots[t][n].value < |m.kind| && 0 < m.count[m.slots[t][n].value])
            && ClosedUpTo(s, t, n + 1) == Dropped(m, t, n)
            && OnlyTable(m, Dropped(m, t, n), t) && Dropped(m, t, n).slots[t] == m.slots[t][n := None]
  {
    hide Counted;
    hide LifeOf;
    hide Known;
    hide InTables;
    DroppedBalanced(ClosedUpTo(s, t, n), t, n);
  }

  /** An object goes with its last reference and not before. */
  lemma LastReference(s: Resources, t: Id, i: nat, p: Id)
    requires Balanced(s) && t < |s.slots| && i < |s.slots[t]| && p < |s.kind|
    requires s.slots[t][i].Some? ==> s.slots[t][i].value < |s.kind| && 0 < s.count[s.slots[t][i].value]
    ensures var r := Dropped(s, t, i);
            |r.alive| == |s.alive|
            && (r.alive[p] <==> s.alive[p] && (s.slots[t][i] != Some(p) || 0 < InTables(r.slots, p) + Own(s.held[p])))
  {
    hide InTables;
    hide LifeOf;
    assert Counted(s.alive[p], s.count[p], s.held[p], InTables(s.slots, p));
    SlotSet(s, t, i, None, p);
    if s.slots[t][i] == Some(p) {
      SlotAlive(s, t, i);
    }
  }

  /** closeAll leaves the table empty, gives back exactly its references, and deletes exactly the objects
      that lose their last one. */
  lemma ClosedAll(s: Resources, t: Id, p: Id)
    requires Balanced(s) && t < |s.slots| && p < |s.kind|
    ensures var r := ClosedUpTo(s, t, |s.slots[t]|);
            && OnlyTable(s, r, t) && Empty(r.slots[t])
            && InTables(r.slots, p) + InTable(s.slots[t], p) == InTables(s.slots, p)
            && |r.alive| == |s.alive|
            && (r.alive[p] <==> s.alive[p] && (InTable(s.slots[t], p) == 0
                                               || 0 < InTables(r.slots, p) + Own(s.held[p])))
  {
    hide Balanced;
    hide InTables;
    ClosedFrame(s, t, |s.slots[t]|);
    ClosedTables(s, t, |s.slots[t]|, p);
    ClosedAlive(s, t, |s.slots[t]|, p);
    assert s.slots[t][..|s.slots[t]|] == s.slots[t];
    var r := ClosedUpTo(s, t, |s.slots[t]|);
    assert r.slots[t] == r.slots[t][..|s.slots[t]|];
  }

  // ---------------------------------------------------------------- forkMe of a table

  /** A file is copied with its count, as a new object. */
  ghost function FileCopied(s: Resources, c: Id, i: nat, p: Id): Resources
    requires Sized(s) && c < |s.slots| && i < |s.slots[c]| && p < |s.kind|
  {
    var m := Made(s, FileObject, s.count[p], false, []);
    m.(slots := m.slots[c := m.slots[c][i := Some(|s.kind|)]])
  }

  /** Slot i of the new table c: the same semaphore, a copy of the file, nothing for a process. */
  ghost function SlotForked(s: Resources, t: Id, c: Id, i: nat): Resources
    requires Sized(s) && t < |s.slots| && c < |s.slots| && i < |s.slots[t]| && i < |s.slots[c]|
  {
    if s.slots[t][i] == None || s.slots[t][i].value >= |s.kind| then s
    else
      var p := s.slots[t][i].value;
      match s.kind[p]
      case SemaphoreObject => Taken(s, c, i, p)
      case FileObject => FileCopied(s, c, i, p)
      case ProcessObject => s
  }

  ghost function ForkedUpTo(s: Resources, t: Id, c: Id, n: nat): (r: Resources)
    requires Sized(s) && t < |s.slots| && c < |s.slots| && t != c && n <= |s.slots[t]| == |s.slots[c]|
    ensures Sized(r) && |s.kind| <= |r.kind| && r.kind[..|s.kind|] == s.kind
    ensures r.slots[t] == s.slots[t] && |r.slots[c]| == |s.slots[c]|
  {
    if n == 0 then s else SlotForked(ForkedUpTo(s, t, c, n - 1), t, c, n - 1)
  }

  lemma LivesForked(s: Resources, t: Id, c: Id, i: nat)
    requires Lives(s) && t < |s.slots| && c < |s.slots| && t != c && i < |s.slots[t]| && i < |s.slots[c]|
             && !s.exited[c]
    ensures Lives(SlotForked(s, t, c, i)) && |s.exited| <= |SlotForked(s, t, c, i).exited|
            && !SlotForked(s, t, c, i).exited[c]
  {
    var r := SlotForked(s, t, c, i);
    assert Known(s.slots[t], |s.kind|) && Known(s.slots[c], |s.kind|);
    forall q: Id | q < |r.kind|
      ensures LifeOf(r.kind[q], r.held[q], r.exited[q], r.slots[q]) && Known(r.slots[q], |r.kind|)
    {
      if q < |s.kind| {
        assert LifeOf(s.kind[q], s.held[q], s.exited[q], s.slots[q]) && Known(s.slots[q], |s.kind|);
      }
    }
  }

  /** The copy of a file is right exactly when the count it copies is 1. */
  lemma FileCopyBalanced(s: Resources, c: Id, i: nat, p: Id)
    requires Balanced(s) && c < |s.slots| && i < |s.slots[c]| && p < |s.kind| && s.slots[c][i] == None
    ensures var r := FileCopied(s, c, i, p);
            && (AllCounted(r) <==> s.count[p] == 1)
            && (s.count[p] != 1 ==> Wrong(r, |s.kind|))
  {
    hide InTables;
    hide LifeOf;
    var f, r := |s.kind|, FileCopied(s, c, i, p);
    forall q: Id | q < |r.kind|
      ensures q < f ==> Counted(r.alive[q], r.count[q], r.held[q], InTables(r.slots, q))
      ensures q == f ==> InTables(r.slots, q) == 1
    {
      var m := Made(s, FileObject, s.count[p], false, []);
      InTablesAppend(s.slots, [], q);
      InTableNone([], q);
      SlotSet(m, c, i, Some(f), q);
      if q < f {
        assert Counted(s.alive[q], s.count[q], s.held[q], InTables(s.slots, q));
      } else {
        NobodyHolds(s, q);
      }
    }
    assert Counted(r.alive[f], r.count[f], r.held[f], InTables(r.slots, f)) <==> s.count[p] == 1;
  }

  /** A live object whose count is not the number of its references. */
  ghost predicate Wrong(s: Resources, f: Id) {
    Sized(s) && f < |s.kind| && s.alive[f] && s.count[f] != InTables(s.slots, f) + Own(s.held[f])
  }

  lemma WrongKept(s: Resources, t: Id, c: Id, i: nat, f: Id)
    requires Lives(s) && t < |s.slots| && c < |s.slots| && t != c && i < |s.slots[t]| && i < |s.slots[c]|
    requires Wrong(s, f) && s.slots[t][i] != Some(f) && s.slots[c][i] == None
    ensures Wrong(SlotForked(s, t, c, i), f)
  {
    hide InTables;
    assert Known(s.slots[t], |s.kind|);
    if s.slots[t][i].Some? {
      var p := s.slots[t][i].value;
      if s.kind[p] == SemaphoreObject {
        SlotSet(s, c, i, Some(p), f);
      } else if s.kind[p] == FileObject {
        var m := Made(s, FileObject, s.count[p], false, []);
        InTablesAppend(s.slots, [], f);
        InTableNone([], f);
        SlotSet(m, c, i, Some(|s.kind|), f);
      }
    }
  }

  /** Every file among the first n slots of a table has a count of 1. */
  ghost predicate FilesOnce(s: Resources, t: Id, n: nat)
    requires Sized(s) && t < |s.slots|
  {
    forall i :: 0 <= i < n && i < |s.slots[t]| ==> FileOnce(s, s.slots[t][i])
  }

  ghost predicate FileOnce(s: Resources, x: Option<Id>)
    requires Sized(s)
  {
    x.Some? && x.value < |s.kind| && s.kind[x.value] == FileObject ==> s.count[x.value] == 1
  }

  /** What ForkedUpTo leaves alone. */
  ghost predicate ForkFrame(s: Resources, r: Resources, c: Id, n: nat) {
    && Sized(s) && Sized(r) && |s.kind| <= |r.kind| && c < |r.slots|
    && (forall q: Id :: q < |s.kind| ==> SameObject(s, r, q))
    && (forall i :: n <= i < |r.slots[c]| ==> r.slots[c][i] == None)
  }

  ghost predicate SameObject(s: Resources, r: Resources, q: Id)
    requires Sized(s) && Sized(r) && q < |s.kind| && q < |r.kind|
  {
    r.kind[q] == s.kind[q] && (s.kind[q] == FileObject ==> r.count[q] == s.count[q]) && r.alive[q] == s.alive[q]
  }

  lemma {:induction false} ForkFrames(s: Resources, t: Id, c: Id, n: nat)
    requires Lives(s) && t < |s.slots| && c < |s.slots| && t != c && n <= |s.slots[t]| == |s.slots[c]| && !s.exited[c]
    requires Empty(s.slots[c])
    ensures var r := ForkedUpTo(s, t, c, n); Lives(r) && !r.exited[c] && ForkFrame(s, r, c, n)
  {
    hide LifeOf;
    hide Known;
    hide SameObject;
    hide SlotForked;
    hide InTables;
    ForkFrameBegins(s, c);
    if n > 0 {
      ForkFrames(s, t, c, n - 1);
      LivesForked(ForkedUpTo(s, t, c, n - 1), t, c, n - 1);
      SlotFrame(s, ForkedUpTo(s, t, c, n - 1), t, c, n - 1);
    }
  }

  lemma ForkFrameBegins(s: Resources, c: Id)
    requires Sized(s) && c < |s.slots| && Empty(s.slots[c])
    ensures ForkFrame(s, s, c, 0)
  {
  }

  lemma SlotFrame(s: Resources, m: Resources, t: Id, c: Id, i: nat)
    requires ForkFrame(s, m, c, i) && t < |m.slots| && t != c && i < |m.slots[t]| && i < |m.slots[c]|
    ensures ForkFrame(s, SlotForked(m, t, c, i), c, i + 1)
  {
    var r := SlotForked(m, t, c, i);
    forall q: Id | q < |s.kind|
      ensures SameObject(s, r, q)
    {
      assert SameObject(s, m, q);
    }
  }

  /** fork leaves every count right exactly when every file of the parent's table has a count of 1. */
  lemma {:induction false} ForkExact(s: Resources, t: Id, c: Id, n: nat)
    requires Balanced(s) && t < |s.slots| && c < |s.slots| && t != c && n <= |s.slots[t]| == |s.slots[c]|
             && !s.exited[c]
    requires Empty(s.slots[c])
    ensures Balanced(ForkedUpTo(s, t, c, n)) <==> FilesOnce(s, t, n)
    ensures !FilesOnce(s, t, n) ==> exists f: Id :: |s.kind| <= f && Wrong(ForkedUpTo(s, t, c, n), f)
  {
    hide Counted;
    hide Known;
    hide LifeOf;
    hide SameObject;
    hide SlotForked;
    hide InTables;
    hide ForkFrame;
    hide FilesOnce;
    FilesOnceMore(s, t, n);
    ForkFrames(s, t, c, n);
    if n > 0 {
      ForkExact(s, t, c, n - 1);
      ForkFrames(s, t, c, n - 1);
      var m := ForkedUpTo(s, t, c, n - 1);
      if FilesOnce(s, t, n - 1) {
        ForkSlot(s, m, t, c, n - 1);
      } else {
        var f: Id :| |s.kind| <= f && Wrong(m, f);
        ForkWrong(s, m, t, c, n - 1, f);
      }
    }
  }

  /** A process that has a file twice, about to fork into a new process. */
  lemma ForkExample()
    ensures var twice := EmptyTable(TABLE_SIZE)[1 := Some(2)][2 := Some(2)];
            var s := Resources([ProcessObject, ProcessObject, FileObject], [1, 1, 2], [true, true, true],
                               [true, true, false], [false, false, false], [twice, EmptyTable(TABLE_SIZE), []]);
            Balanced(s) && !Balanced(ForkedUpTo(s, 0, 1, TABLE_SIZE))
  {
    var twice := EmptyTable(TABLE_SIZE)[1 := Some(2)][2 := Some(2)];
    var s := Resources([ProcessObject, ProcessObject, FileObject], [1, 1, 2], [true, true, true],
                       [true, true, false], [false, false, false], [twice, EmptyTable(TABLE_SIZE), []]);
    forall p: Id
      ensures InTables(s.slots, p) == if p == 2 then 2 else 0
    {
      ThreeTables(twice, EmptyTable(TABLE_SIZE), [], p);
      InTableNone(EmptyTable(TABLE_SIZE), p);
      InTableUpdate(EmptyTable(TABLE_SIZE), 1, Some(2), p);
      InTableUpdate(EmptyTable(TABLE_SIZE)[1 := Some(2)], 2, Some(2), p);
    }
    ForkExact(s, 0, 1, TABLE_SIZE);
    assert !FileOnce(s, twice[1]);
  }

  lemma ThreeTables(a: Slots, b: Slots, c: Slots, p: Id)
    ensures InTables([a, b, c], p) == InTable(a, p) + InTable(b, p) + InTable(c, p)
  {
    assert [a, b, c][1..] == [b, c] && [b, c][1..] == [c] && [c][1..] == [];
    assert InTables([c], p) == InTable(c, p) + InTables([], p);
    assert InTables([b, c], p) == InTable(b, p) + InTables([c], p);
  }

  lemma FilesOnceMore(s: Resources, t: Id, n: nat)
    requires Sized(s) && t < |s.slots| && n <= |s.slots[t]|
    ensures FilesOnce(s, t, n) <==> n == 0 || (FilesOnce(s, t, n - 1) && FileOnce(s, s.slots[t][n - 1]))
  {
  }

  lemma ForkSlot(s: Resources, m: Resources, t: Id, c: Id, i: nat)
    requires Balanced(m) && ForkFrame(s, m, c, i) && t < |s.slots| && t < |m.slots| && t != c
             && m.slots[t] == s.slots[t]
    requires Lives(s) && i < |m.slots[t]| && i < |m.slots[c]| && !m.exited[c]
    ensures AllCounted(SlotForked(m, t, c, i)) <==> FileOnce(s, s.slots[t][i])
    ensures !FileOnce(s, s.slots[t][i]) ==> exists f: Id :: |s.kind| <= f && Wrong(SlotForked(m, t, c, i), f)
  {
    hide InTables;
    hide LifeOf;
    hide Counted;
    assert Known(s.slots[t], |s.kind|);
    if s.slots[t][i].Some? {
      var p := s.slots[t][i].value;
      assert SameObject(s, m, p);
      SlotAlive(m, t, i);
      if m.kind[p] == SemaphoreObject {
        TakenBalanced(m, c, i, p);
      } else if m.kind[p] == FileObject {
        FileCopyBalanced(m, c, i, p);
        assert m.count[p] != 1 ==> Wrong(SlotForked(m, t, c, i), |m.kind|);
      }
    }
  }

  lemma ForkWrong(s: Resources, m: Resources, t: Id, c: Id, i: nat, f: Id)
    requires Lives(s) && Lives(m) && ForkFrame(s, m, c, i) && t < |s.slots| && t < |m.slots| && t != c
             && m.slots[t] == s.slots[t]
    requires i < |m.slots[t]| && i < |m.slots[c]| && |s.kind| <= f && Wrong(m, f)
    ensures Wrong(SlotForked(m, t, c, i), f) && !Balanced(SlotForked(m, t, c, i))
  {
    hide InTables;
    hide LifeOf;
    assert Known(s.slots[t], |s.kind|);
    WrongKept(m, t, c, i, f);
    var r := SlotForked(m, t, c, i);
    assert !Counted(r.alive[f], r.count[f], r.held[f], InTables(r.slots, f));
  }

  // ---------------------------------------------------------------- every run of the system calls

  /** A process makes a semaphore or opens a file, closes a slot or all of them, forks, or exits; and a
      process that has exited is reaped. */
  datatype Event = OpenNew(t: Id, kind: Kind) | CloseSlot(t: Id, i: nat) | CloseTable(t: Id)
                 | Fork(t: Id) | Exit(t: Id) | Reap(p: Id)

  ghost predicate Runs(s: Resources, t: Id)
    requires Sized(s)
  {
    t < |s.kind| && s.kind[t] == ProcessObject && !s.exited[t]
  }

  ghost predicate Enabled(s: Resources, e: Event)
    requires Sized(s)
  {
    match e
    case OpenNew(t, kind) => Runs(s, t) && kind != ProcessObject
    case CloseSlot(t, i) => Runs(s, t) && i < |s.slots[t]|
    case CloseTable(t) => Runs(s, t)
    case Fork(t) => Runs(s, t)
    case Exit(t) => Runs(s, t)
    case Reap(p) => p < |s.kind| && s.kind[p] == ProcessObject && s.exited[p] && s.held[p]
  }

  /** open: the first empty slot but slot 0. */
  ghost function Opened(s: Resources, t: Id, p: Id): Resources
    requires Sized(s) && t < |s.slots| && p < |s.kind| && 1 <= |s.slots[t]|
  {
    var i := FirstEmpty(s.slots[t], 1);
    if i < |s.slots[t]| then Taken(s, t, i, p) else s
  }

  lemma OpenedBalanced(s: Resources, t: Id, p: Id)
    requires Balanced(s) && Runs(s, t) && p < |s.kind| && s.alive[p]
    ensures |s.slots[t]| == TABLE_SIZE && Balanced(Opened(s, t, p))
  {
    hide AllCounted;
    hide Known;
    var i := FirstEmpty(s.slots[t], 1);
    if i < |s.slots[t]| {
      TakenBalanced(s, t, i, p);
    }
  }

  ghost function MadeNew(s: Resources, kind: Kind): Resources {
    Made(s, kind, Own(kind == ProcessObject), kind == ProcessObject,
         if kind == ProcessObject then EmptyTable(TABLE_SIZE) else [])
  }

  /** A new process whose table is forked from that of t. */
  ghost function TableForked(s: Resources, t: Id): (r: Resources)
    requires Balanced(s) && Runs(s, t)
    ensures Sized(r) && |s.kind| < |r.kind| && Runs(r, t) && |r.slots[t]| == TABLE_SIZE
  {
    MadeBalanced(s, ProcessObject);
    ForkReady(s, t);
    var m := MadeNew(s, ProcessObject);
    ForkFrames(m, t, |s.kind|, TABLE_SIZE);
    ForkKeeps(m, t, |s.kind|, TABLE_SIZE);
    ForkedUpTo(m, t, |s.kind|, TABLE_SIZE)
  }

  lemma ForkReady(s: Resources, t: Id)
    requires Balanced(s) && Runs(s, t)
    ensures var m := MadeNew(s, ProcessObject);
            && t < |s.kind| < |m.slots| && |m.slots[t]| == TABLE_SIZE == |m.slots[|s.kind|]|
            && Empty(m.slots[|s.kind|]) && !m.exited[|s.kind|] && m.alive[|s.kind|]
            && m.kind[|s.kind|] == ProcessObject && Runs(m, t)
  {
    hide AllCounted;
    hide Known;
  }

  lemma {:induction false} ForkKeeps(s: Resources, t: Id, c: Id, n: nat)
    requires Sized(s) && t < |s.slots| && c < |s.slots| && t != c && n <= |s.slots[t]| == |s.slots[c]|
    ensures var r := ForkedUpTo(s, t, c, n);
            && |s.exited| <= |r.exited| && r.exited[..|s.exited|] == s.exited
            && (Single(s) ==> Single(r))
  {
    hide SlotForked;
    hide Single;
    if n > 0 {
      ForkKeeps(s, t, c, n - 1);
      SlotKeeps(ForkedUpTo(s, t, c, n - 1), t, c, n - 1);
    }
  }

  lemma SlotKeeps(m: Resources, t: Id, c: Id, i: nat)
    requires Sized(m) && t < |m.slots| && c < |m.slots| && i < |m.slots[t]| && i < |m.slots[c]|
    ensures var r := SlotForked(m, t, c, i);
            && |m.exited| <= |r.exited| && r.exited[..|m.exited|] == m.exited
            && (Single(m) ==> Single(r))
  {
  }

  /** No file has more than one reference. */
  ghost predicate Single(s: Resources) {
    Sized(s) && forall p: Id :: p < |s.kind| && s.kind[p] == FileObject ==> s.count[p] <= 1
  }

  lemma SingleOnce(s: Resources, t: Id, n: nat)
    requires Balanced(s) && Single(s) && t < |s.slots|
    ensures FilesOnce(s, t, n)
  {
    hide AllCounted;
    hide Lives;
    forall i | 0 <= i < n && i < |s.slots[t]|
      ensures FileOnce(s, s.slots[t][i])
    {
      if s.slots[t][i].Some? {
        SlotAlive(s, t, i);
      }
    }
  }

  ghost function Reaped(s: Resources, p: Id): Resources
    requires Sized(s) && p < |s.kind| && 0 < s.count[p]
  {
    s.(held := s.held[p := false], count := s.count[p := s.count[p] - 1],
       alive := if s.count[p] == 1 then s.alive[p := false] else s.alive)
  }

  lemma ReapedBalanced(s: Resources, p: Id)
    requires Balanced(s) && p < |s.kind| && s.kind[p] == ProcessObject && s.exited[p] && s.held[p]
    ensures 0 < s.count[p] && Balanced(Reaped(s, p))
    ensures Reaped(s, p).alive[p] <==> 0 < InTables(s.slots, p)
  {
    hide InTables;
    hide Known;
    assert Counted(s.alive[p], s.count[p], s.held[p], InTables(s.slots, p));
    var r := Reaped(s, p);
    forall q: Id | q < |r.kind|
      ensures Counted(r.alive[q], r.count[q], r.held[q], InTables(r.slots, q))
    {
      assert Counted(s.alive[q], s.count[q], s.held[q], InTables(s.slots, q));
    }
  }

  ghost function Step(s: Resources, e: Event): Resources
    requires Balanced(s) && Enabled(s, e)
  {
    match e
    case OpenNew(t, kind) =>
      MadeBalanced(s, kind);
      NewRuns(s, t, kind);
      Opened(MadeNew(s, kind), t, |s.kind|)
    case CloseSlot(t, i) => DroppedBalanced(s, t, i); Dropped(s, t, i)
    case CloseTable(t) => ClosedUpTo(s, t, |s.slots[t]|)
    case Fork(t) => Opened(TableForked(s, t), t, |s.kind|)
    case Exit(t) => ExitedFrom(s, t)
    case Reap(p) => ReapedBalanced(s, p); Reaped(s, p)
  }

  ghost function ExitedFrom(s: Resources, t: Id): Resources
    requires Balanced(s) && Runs(s, t)
  {
    var r := ClosedUpTo(s, t, |s.slots[t]|);
    r.(exited := if t < |r.exited| then r.exited[t := true] else r.exited)
  }

  lemma NewRuns(s: Resources, t: Id, kind: Kind)
    requires Balanced(s) && Runs(s, t)
    ensures var m := MadeNew(s, kind);
            Sized(m) && Runs(m, t) && |m.slots[t]| == TABLE_SIZE && |s.kind| < |m.kind| && m.alive[|s.kind|]
  {
    hide AllCounted;
    hide Known;
  }

  lemma OpenKeeps(s: Resources, t: Id, kind: Kind)
    requires Balanced(s) && Single(s) && Runs(s, t) && kind != ProcessObject
    ensures Balanced(Step(s, OpenNew(t, kind))) && Single(Step(s, OpenNew(t, kind)))
  {
    hide AllCounted;
    hide Lives;
    MadeBalanced(s, kind);
    NewRuns(s, t, kind);
    OpenedBalanced(MadeNew(s, kind), t, |s.kind|);
  }

  lemma ForkedKeeps(s: Resources, t: Id)
    requires Balanced(s) && Single(s) && Runs(s, t)
    ensures Balanced(Step(s, Fork(t))) && Single(Step(s, Fork(t)))
  {
    hide AllCounted;
    hide LifeOf;
    hide ForkedUpTo;
    hide Known;
    MadeBalanced(s, ProcessObject);
    ForkReady(s, t);
    var m, c := MadeNew(s, ProcessObject), |s.kind|;
    SingleOnce(m, t, TABLE_SIZE);
    ForkExact(m, t, c, TABLE_SIZE);
    ForkFrames(m, t, c, TABLE_SIZE);
    ForkKeeps(m, t, c, TABLE_SIZE);
    var r := TableForked(s, t);
    assert SameObject(m, r, c);
    OpenedBalanced(r, t, c);
  }

  lemma CloseKeeps(s: Resources, t: Id, n: nat)
    requires Balanced(s) && Single(s) && t < |s.slots| && n <= |s.slots[t]|
    ensures Single(ClosedUpTo(s, t, n))
  {
    hide AllCounted;
    hide Lives;
    if n > 0 {
      CloseKeeps(s, t, n - 1);
      DroppedBalanced(ClosedUpTo(s, t, n - 1), t, n - 1);
    }
  }

  lemma ExitKeeps(s: Resources, t: Id)
    requires Balanced(s) && Single(s) && Runs(s, t)
    ensures Balanced(ExitedFrom(s, t)) && Single(ExitedFrom(s, t))
  {
    hide Counted;
    hide InTables;
    hide Known;
    CloseKeeps(s, t, |s.slots[t]|);
    ClosedAll(s, t, t);
  }

  /** Every system call keeps every count right. */
  lemma StepBalanced(s: Resources, e: Event)
    requires Balanced(s) && Single(s) && Enabled(s, e)
    ensures Balanced(Step(s, e)) && Single(Step(s, e))
  {
    hide AllCounted;
    hide Lives;
    match e
    case OpenNew(t, kind) => OpenKeeps(s, t, kind);
    case CloseSlot(t, i) => DroppedBalanced(s, t, i);
    case CloseTable(t) => CloseKeeps(s, t, |s.slots[t]|);
    case Fork(t) => ForkedKeeps(s, t);
    case Exit(t) => ExitKeeps(s, t);
    case Reap(p) => ReapedBalanced(s, p);
  }

  /** A run; an event that is not enabled does not happen. */
  ghost function Run(s: Resources, es: seq<Event>): (r: Resources)
    requires Balanced(s) && Single(s)
    ensures Balanced(r) && Single(r)
    decreases |es|
  {
    if es == [] then s
    else if Enabled(s, es[0]) then
      StepBalanced(s, es[0]);
      Run(Step(s, es[0]), es[1..])
    else Run(s, es[1..])
  }

  /** The kernel begins with one process, with an empty table. */
  function Initial(): Resources {
    Resources([ProcessObject], [1], [true], [true], [false], [EmptyTable(TABLE_SIZE)])
  }

  /** Over every run: the count of a live object is the number of slots that hold it, and one more for a
      process not yet reaped; and nothing holds a deleted object. */
  lemma CountsRight(es: seq<Event>, p: Id, t: Id, i: nat)
    ensures Balanced(Initial()) && Single(Initial())
    ensures var s := Run(Initial(), es);
            && (p < |s.kind| && s.alive[p] ==> s.count[p] == InTables(s.slots, p) + Own(s.held[p]))
            && (t < |s.slots| && i < |s.slots[t]| && s.slots[t][i].Some? ==>
                  s.slots[t][i].value < |s.kind| && s.alive[s.slots[t][i].value])
  {
    InTableNone(EmptyTable(TABLE_SIZE), 0);
    assert InTables([EmptyTable(TABLE_SIZE)], 0) == InTable(EmptyTable(TABLE_SIZE), 0) + InTables([], 0);
    var s := Run(Initial(), es);
    if p < |s.kind| {
      assert Counted(s.alive[p], s.count[p], s.held[p], InTables(s.slots, p));
    }
    if t < |s.slots| && i < |s.slots[t]| && s.slots[t][i].Some? {
      SlotAlive(s, t, i);
    }
  }
}
