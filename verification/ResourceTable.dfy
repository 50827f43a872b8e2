/** Reference counts and the tables of slots, changed in place as in kernel/resource.h and
    kernel/table.cc. */
module ResourceTable {
  import opened Collections
  import opened ResourceModel
  import opened ResourceRuns
  import opened ResourceEffects

  class Objects {
    var kind: seq<Kind>
    var count: seq<nat>
    var alive: seq<bool>
    var held: seq<bool>
    var exited: seq<bool>
    var slots: seq<Slots>

    ghost function State(): Resources
      reads this
    {
      Resources(kind, count, alive, held, exited, slots)
    }

    constructor ()
      ensures State() == Initial()
    {
      kind, count, alive, held, exited := [ProcessObject], [1], [true], [true], [false];
      slots := [EmptyTable(TABLE_SIZE)];
    }

    method Ref(x: Option<Id>)
      requires Sized(State()) && (x.Some? ==> x.value < |count|)
      modifies this`count
      ensures count == if x.Some? then old(count)[x.value := old(count)[x.value] + 1] else old(count)
    {
      if x.Some? {
        count := count[x.value := count[x.value] + 1];
      }
    }

    /** The last reference deletes the object. */
    method Unref(x: Option<Id>)
      requires Sized(State()) && (x.Some? ==> x.value < |count| && 0 < count[x.value])
      modifies this`count, this`alive
      ensures count == if x.Some? then old(count)[x.value := old(count)[x.value] - 1] else old(count)
      ensures alive == if x.Some? && old(count)[x.value] == 1 then old(alive)[x.value := false] else old(alive)
    {
      if x.Some? {
        var was := count[x.value];
        count := count[x.value := was - 1];
        if was == 1 {
          alive := alive[x.value := false];
        }
      }
    }

    /** The first empty slot takes the object; slot 0 is never given out. */
    method Open(t: Id, p: Id) returns (id: int)
      requires Sized(State()) && t < |slots| && 1 <= |slots[t]| && p < |kind|
      modifies this
      ensures State() == Opened(old(State()), t, p)
      ensures id == var i := FirstEmpty(old(slots[t]), 1); if i < |old(slots[t])| then i else ERR_NO_ID
      ensures Entering(old(State()), t, p, State(), id)
    {
      hide Entering;
      ghost var s := State();
      OpenedEnters(s, t, p);
      var i := 1;
      while i < |slots[t]|
        invariant 1 <= i <= |slots[t]| && State() == s
        invariant FirstEmpty(slots[t], 1) == FirstEmpty(slots[t], i)
      {
        if slots[t][i] == None {
          Ref(Some(p));
          slots := slots[t := slots[t][i := Some(p)]];
          return i;
        }
        i := i + 1;
      }
      id := ERR_NO_ID;
    }

    /** A slot gives up its reference and becomes empty. */
    method Clear(t: Id, i: nat)
      requires Droppable(State(), t, i)
      modifies this
      ensures State() == Dropped(old(State()), t, i)
    {
      ghost var s := State();
      Unref(slots[t][i]);
      slots := slots[t := slots[t][i := None]];
      assert s.slots[t][i] == None ==> s.slots[t][i := None] == s.slots[t];
    }

    /** close: an empty slot is an error, as an index out of range is. */
    method Close(t: Id, i: int) returns (r: int)
      requires Balanced(State()) && t < |slots|
      modifies this
      ensures r == 0 <==> 0 <= i < |old(slots[t])| && old(slots[t])[i] != None
      ensures r != 0 ==> r == ERR_INVALID_ID && State() == old(State())
      ensures r == 0 ==> Droppable(old(State()), t, i) && State() == Dropped(old(State()), t, i)
      ensures r == 0 ==> Emptied(old(State()), t, i, State())
    {
      hide Emptied;
      hide Counted;
      hide LifeOf;
      hide Known;
      hide InTables;
      if i < 0 {
        return ERR_INVALID_ID;
      }
      if i >= |slots[t]| {
        return ERR_INVALID_ID;
      }
      DroppedBalanced(State(), t, i);
      var was := slots[t][i];
      if was.Some? {
        DroppedEmpties(State(), t, i);
      }
      Clear(t, i);
      r := if was == None then ERR_INVALID_ID else 0;
    }

    method CloseAll(t: Id)
      requires Balanced(State()) && t < |slots|
      modifies this
      ensures State() == ClosedUpTo(old(State()), t, |old(slots[t])|)
      ensures Closing(old(State()), t, |old(slots[t])|, State())
    {
      hide Closing;
      hide Counted;
      hide LifeOf;
      hide Known;
      hide InTables;
      hide Dropped;
      ghost var s := State();
      ClosedCloses(s, t, |s.slots[t]|);
      var i := 0;
      while i < |slots[t]|
        invariant t < |slots| && |slots[t]| == |s.slots[t]| && i <= |slots[t]|
        invariant State() == ClosedUpTo(s, t, i)
      {
        DroppedBalanced(State(), t, i);
        Clear(t, i);
        assert State() == ClosedUpTo(s, t, i + 1);
        i := i + 1;
      }
    }

    /** forkMe of the table of t into the new table c. */
    method ForkTable(t: Id, c: Id)
      requires Sized(State()) && t < |slots| && c < |slots| && t != c && |slots[t]| == |slots[c]|
               && Known(slots[t], |kind|)
      requires Empty(slots[c])
      modifies this
      ensures State() == ForkedUpTo(old(State()), t, c, |old(slots[t])|)
      ensures Copying(old(State()), t, c, |old(slots[t])|, State())
    {
      hide SlotForked;
      hide Copying;
      ghost var s := State();
      ForkCopies(s, t, c, |s.slots[t]|);
      var i := 0;
      while i < |slots[t]|
        invariant t < |slots| && c < |slots| && slots[t] == s.slots[t] && |slots[c]| == |slots[t]| && i <= |slots[t]|
        invariant Sized(State()) && State() == ForkedUpTo(s, t, c, i) && Known(slots[t], |kind|)
      {
        ForkSlot(t, c, i);
        assert State() == ForkedUpTo(s, t, c, i + 1);
        i := i + 1;
      }
    }

    /** forkMe of the object in one slot. */
    method ForkSlot(t: Id, c: Id, i: nat)
      requires Sized(State()) && t < |slots| && c < |slots| && i < |slots[t]| && i < |slots[c]| && t != c
               && Known(slots[t], |kind|)
      modifies this
      ensures State() == SlotForked(old(State()), t, c, i)
    {
      if slots[t][i] == None {
        return;
      }
      var p := slots[t][i].value;
      match kind[p]
      case SemaphoreObject =>
        Ref(Some(p));
        slots := slots[c := slots[c][i := Some(p)]];
      case FileObject =>
        var f := |kind|;
        kind, count, alive, held, exited := kind + [FileObject], count + [count[p]], alive + [true], held + [false],
          exited + [false];
        slots := (slots + [[]])[c := slots[c][i := Some(f)]];
      case ProcessObject =>
    }
  }

  ghost predicate Droppable(s: Resources, t: Id, i: int) {
    && Sized(s) && t < |s.slots| && 0 <= i < |s.slots[t]|
    && (s.slots[t][i].Some? ==> s.slots[t][i].value < |s.kind| && 0 < s.count[s.slots[t][i].value])
  }
}
