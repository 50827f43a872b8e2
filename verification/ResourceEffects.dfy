/** What each call on a table achieves, in terms of slots and counts alone. */
module ResourceEffects {
  import opened Collections
  import opened ResourceModel
  import opened ResourceRuns

  // ---------------------------------------------------------------- one slot

  /** Object p has so many references, lives or not, and every other object is as it was. */
  ghost predicate CountOnly(s: Resources, r: Resources, p: Id, count: int, alive: bool) {
    && |r.count| == |s.count| == |r.alive| == |s.alive| && p < |s.count| && r.count[p] == count && r.alive[p] == alive
    && forall q: Id :: q < |s.count| && q != p ==> r.count[q] == s.count[q] && r.alive[q] == s.alive[q]
  }

  /** Slot i of table t holds x, and every other slot is as it was. */
  ghost predicate SlotOnly(s: Resources, r: Resources, t: Id, i: int, x: Option<Id>) {
    && |r.slots| == |s.slots| && t < |s.slots| && |r.slots[t]| == |s.slots[t]| && 0 <= i < |s.slots[t]|
    && r.slots[t][i] == x
    && (forall j :: 0 <= j < |s.slots[t]| && j != i ==> r.slots[t][j] == s.slots[t][j])
    && (forall u: Id :: u < |s.slots| && u != t ==> r.slots[u] == s.slots[u])
  }

  ghost predicate SameKinds(s: Resources, r: Resources) {
    r.kind == s.kind && r.held == s.held && r.exited == s.exited
  }

  /** Slots 1 and up are all in use. */
  ghost predicate Full(t: Slots) {
    forall i :: 1 <= i < |t| ==> t[i].Some?
  }

  /** Slot i is the first one but slot 0 that is not in use. */
  ghost predicate FirstFree(t: Slots, i: int) {
    1 <= i < |t| && t[i].None? && forall j :: 1 <= j < i ==> t[j].Some?
  }

  /** open: the first free slot holds the object, which has one reference more; an error exactly when there
      is none, and then nothing has changed. */
  ghost predicate Entering(s: Resources, t: Id, p: Id, r: Resources, id: int) {
    && t < |s.slots| && p < |s.count| && p < |s.alive|
    && (id == ERR_NO_ID <==> Full(s.slots[t]))
    && (id == ERR_NO_ID ==> r == s)
    && (id != ERR_NO_ID ==>
          && FirstFree(s.slots[t], id) && SlotOnly(s, r, t, id, Some(p))
          && CountOnly(s, r, p, s.count[p] + 1, s.alive[p]) && SameKinds(s, r))
  }

  lemma OpenedEnters(s: Resources, t: Id, p: Id)
    requires Sized(s) && t < |s.slots| && 1 <= |s.slots[t]| && p < |s.kind|
    ensures var i := FirstEmpty(s.slots[t], 1);
            Entering(s, t, p, Opened(s, t, p), if i < |s.slots[t]| then i else ERR_NO_ID)
  {
  }

  /** close of a slot in use: it is empty, its object has one reference less and goes with the last. */
  ghost predicate Emptied(s: Resources, t: Id, i: int, r: Resources) {
    && t < |s.slots| && 0 <= i < |s.slots[t]| && s.slots[t][i].Some?
    && var p := s.slots[t][i].value;
       && p < |s.count| && p < |s.alive| && SlotOnly(s, r, t, i, None) && SameKinds(s, r)
       && var n: int := s.count[p]; CountOnly(s, r, p, n - 1, s.alive[p] && n != 1)
  }

  lemma DroppedEmpties(s: Resources, t: Id, i: nat)
    requires Sized(s) && t < |s.slots| && i < |s.slots[t]| && s.slots[t][i].Some? && s.slots[t][i].value < |s.kind|
    requires 0 < s.count[s.slots[t][i].value]
    ensures Emptied(s, t, i, Dropped(s, t, i))
  {
  }

  // ---------------------------------------------------------------- fork of a table

  /** What the new table has in a slot: the same semaphore; a file of its own, made for it, with the count of
      the old one; nothing for a process. */
  ghost predicate SlotCopied(s: Resources, r: Resources, x: Option<Id>, y: Option<Id>) {
    match x
    case None => y == None
    case Some(p) =>
      p < |s.kind| && p < |s.count| &&
      match s.kind[p]
      case SemaphoreObject => y == Some(p)
      case ProcessObject => y == None
      case FileObject =>
        && y.Some? && |s.kind| <= y.value < |r.kind| && y.value < |r.count| && y.value < |r.alive| && y.value < |r.held|
        && r.kind[y.value] == FileObject && r.count[y.value] == s.count[p] && r.alive[y.value] && !r.held[y.value]
  }

  /** How many references more an object has: one for each slot with it, if it is a semaphore. */
  ghost function Copies(s: Resources, t: Slots, q: Id): nat {
    if q < |s.kind| && s.kind[q] == SemaphoreObject then InTable(t, q) else 0
  }

  ghost predicate ObjectCopied(s: Resources, r: Resources, t: Slots, q: Id) {
    && q < |s.kind| && q < |s.count| && q < |s.alive| && q < |s.held| && q < |s.exited|
    && q < |r.kind| && q < |r.count| && q < |r.alive| && q < |r.held| && q < |r.exited|
    && r.kind[q] == s.kind[q] && r.count[q] == s.count[q] + Copies(s, t, q) && r.alive[q] == s.alive[q]
    && r.held[q] == s.held[q] && r.exited[q] == s.exited[q]
  }

  /** The first n slots of table t have been copied into the table c. */
  ghost predicate Copying(s: Resources, t: Id, c: Id, n: nat, r: Resources) {
    && Sized(r) && t < |s.slots| && c < |s.slots| && n <= |s.slots[t]| == |s.slots[c]| && |s.slots| <= |r.slots|
    && |r.slots[c]| == |s.slots[c]|
    && (forall i :: 0 <= i < n ==> SlotCopied(s, r, s.slots[t][i], r.slots[c][i]))
    && (forall i :: n <= i < |s.slots[c]| ==> r.slots[c][i] == s.slots[c][i])
    && (forall i, j :: 0 <= i < j < n && r.slots[c][i].Some? && r.slots[c][i] == r.slots[c][j] ==>
          r.slots[c][i].value < |s.kind|)
    && (forall q: Id :: q < |s.kind| ==> ObjectCopied(s, r, s.slots[t][..n], q))
    && (forall u: Id :: u < |s.slots| && u != c ==> r.slots[u] == s.slots[u])
  }

  /** fork copies every slot of the table in that way, and changes nothing else. */
  lemma {:induction false} ForkCopies(s: Resources, t: Id, c: Id, n: nat)
    requires Sized(s) && t < |s.slots| && c < |s.slots| && t != c && n <= |s.slots[t]| == |s.slots[c]|
    requires Known(s.slots[t], |s.kind|) && Empty(s.slots[c])
    ensures Copying(s, t, c, n, ForkedUpTo(s, t, c, n))
    decreases n
  {
    hide InTable;
    hide SlotForked;
    hide Copying;
    if n == 0 {
      CopyBegins(s, t, c);
    } else {
      ForkCopies(s, t, c, n - 1);
      CopyStep(s, t, c, n - 1, ForkedUpTo(s, t, c, n - 1));
    }
  }

  lemma CopyBegins(s: Resources, t: Id, c: Id)
    requires Sized(s) && t < |s.slots| && c < |s.slots| && |s.slots[t]| == |s.slots[c]|
    ensures Copying(s, t, c, 0, s)
  {
  }

  lemma CopyStep(s: Resources, t: Id, c: Id, i: nat, m: Resources)
    requires Sized(s) && t != c && Copying(s, t, c, i, m) && i < |s.slots[t]|
    requires Known(s.slots[t], |s.kind|) && Empty(s.slots[c])
    ensures Copying(s, t, c, i + 1, SlotForked(m, t, c, i))
  {
    hide InTable;
    hide ObjectCopied;
    hide SlotCopied;
    var r, copied := SlotForked(m, t, c, i), s.slots[t][..i + 1];
    forall q: Id | q < |s.kind|
      ensures ObjectCopied(s, r, copied, q)
    {
      ObjectStep(s, t, c, i, m, q);
    }
    forall j | 0 <= j < i + 1
      ensures SlotCopied(s, r, s.slots[t][j], r.slots[c][j])
    {
      if j < i {
        SlotKept(s, t, c, i, m, j);
      } else {
        SlotStep(s, t, c, i, m);
      }
    }
    NewApart(s, t, c, i, m);
  }

  lemma ObjectStep(s: Resources, t: Id, c: Id, i: nat, m: Resources, q: Id)
    requires Sized(s) && t != c && Copying(s, t, c, i, m) && i < |s.slots[t]| && q < |s.kind|
    requires Known(s.slots[t], |s.kind|)
    ensures ObjectCopied(s, SlotForked(m, t, c, i), s.slots[t][..i + 1], q)
  {
    hide InTable;
    hide SlotCopied;
    assert ObjectCopied(s, m, s.slots[t][..i], q);
    var x := s.slots[t][i];
    if x.Some? {
      assert ObjectCopied(s, m, s.slots[t][..i], x.value);
    }
    assert s.slots[t][..i + 1] == s.slots[t][..i] + [x];
    InTableMore(s.slots[t][..i], x, q);
  }

  lemma SlotKept(s: Resources, t: Id, c: Id, i: nat, m: Resources, j: nat)
    requires Sized(s) && t != c && Copying(s, t, c, i, m) && i < |s.slots[t]| && j < i
    requires Known(s.slots[t], |s.kind|)
    ensures |SlotForked(m, t, c, i).slots[c]| == |s.slots[c]|
    ensures SlotCopied(s, SlotForked(m, t, c, i), s.slots[t][j], SlotForked(m, t, c, i).slots[c][j])
  {
    hide InTable;
    hide ObjectCopied;
    assert SlotCopied(s, m, s.slots[t][j], m.slots[c][j]);
    assert m.slots[t] == s.slots[t];
  }

  lemma SlotStep(s: Resources, t: Id, c: Id, i: nat, m: Resources)
    requires Sized(s) && t != c && Copying(s, t, c, i, m) && i < |s.slots[t]|
    requires Known(s.slots[t], |s.kind|) && Empty(s.slots[c])
    ensures |SlotForked(m, t, c, i).slots[c]| == |s.slots[c]|
    ensures SlotCopied(s, SlotForked(m, t, c, i), s.slots[t][i], SlotForked(m, t, c, i).slots[c][i])
  {
    hide InTable;
    assert m.slots[t] == s.slots[t];
    var x := s.slots[t][i];
    if x.Some? {
      assert ObjectCopied(s, m, s.slots[t][..i], x.value);
      ListsFiles(s, t, i, x.value);
    }
  }

  /** A file's count is not touched. */
  lemma ListsFiles(s: Resources, t: Id, i: nat, p: Id)
    requires p < |s.kind| && t < |s.slots| && i <= |s.slots[t]|
    ensures s.kind[p] == FileObject ==> Copies(s, s.slots[t][..i], p) == 0
  {
  }

  lemma NewApart(s: Resources, t: Id, c: Id, i: nat, m: Resources)
    requires Sized(s) && t != c && Copying(s, t, c, i, m) && i < |s.slots[t]|
    requires Known(s.slots[t], |s.kind|) && Empty(s.slots[c])
    ensures var r := SlotForked(m, t, c, i);
            && Sized(r) && |s.slots| <= |r.slots| && |r.slots[c]| == |s.slots[c]|
            && (forall j :: i + 1 <= j < |s.slots[c]| ==> r.slots[c][j] == s.slots[c][j])
            && (forall u: Id :: u < |s.slots| && u != c ==> r.slots[u] == s.slots[u])
            && (forall j, k :: 0 <= j < k < i + 1 && r.slots[c][j].Some? && r.slots[c][j] == r.slots[c][k] ==>
                  r.slots[c][j].value < |s.kind|)
  {
    hide InTable;
    hide ObjectCopied;
    var r := SlotForked(m, t, c, i);
    assert m.slots[t] == s.slots[t];
    forall j | 0 <= j < i
      ensures m.slots[c][j].Some? ==> m.slots[c][j].value < |m.kind|
    {
      assert SlotCopied(s, m, s.slots[t][j], m.slots[c][j]);
    }
  }

  // ---------------------------------------------------------------- closing a table

  /** The first n slots of table t are empty, and their objects have lost the references. */
  ghost predicate Closing(s: Resources, t: Id, n: nat, r: Resources) {
    && Sized(r) && SameKinds(s, r) && |r.slots| == |s.slots| && t < |s.slots| && n <= |s.slots[t]| == |r.slots[t]|
    && (forall i :: 0 <= i < n ==> r.slots[t][i] == None)
    && (forall i :: n <= i < |s.slots[t]| ==> r.slots[t][i] == s.slots[t][i])
    && (forall u: Id :: u < |s.slots| && u != t ==> r.slots[u] == s.slots[u])
    && (forall q: Id :: q < |s.kind| ==> ObjectClosed(s, r, s.slots[t][..n], q))
  }

  /** One reference less for each slot; and an object that has lost one and has none left has gone. */
  ghost predicate ObjectClosed(s: Resources, r: Resources, t: Slots, q: Id) {
    && q < |s.count| && q < |r.count| && q < |s.alive| && q < |r.alive|
    && r.count[q] + InTable(t, q) == s.count[q]
    && (r.alive[q] <==> s.alive[q] && (InTable(t, q) == 0 || 0 < r.count[q]))
  }

  lemma {:induction false} ClosedCloses(s: Resources, t: Id, n: nat)
    requires Balanced(s) && t < |s.slots| && n <= |s.slots[t]|
    ensures Closing(s, t, n, ClosedUpTo(s, t, n))
    decreases n
  {
    hide Balanced;
    hide InTable;
    hide Dropped;
    hide Closing;
    if n == 0 {
      CloseBegins(s, t);
    } else {
      ClosedCloses(s, t, n - 1);
      ClosedStep(s, t, n - 1);
      SizedOf(s);
      CloseStep(s, t, n - 1, ClosedUpTo(s, t, n - 1));
    }
  }

  lemma SizedOf(s: Resources)
    requires Balanced(s)
    ensures Sized(s)
  {
  }

  lemma CloseBegins(s: Resources, t: Id)
    requires Balanced(s) && t < |s.slots|
    ensures ClosedUpTo(s, t, 0) == s && Closing(s, t, 0, s)
  {
  }

  lemma CloseStep(s: Resources, t: Id, i: nat, m: Resources)
    requires Sized(s) && Closing(s, t, i, m) && i < |s.slots[t]|
    requires m.slots[t][i].Some? ==> m.slots[t][i].value < |m.kind| && 0 < m.count[m.slots[t][i].value]
    ensures Closing(s, t, i + 1, Dropped(m, t, i))
  {
    hide InTable;
    hide ObjectClosed;
    var r, closed := Dropped(m, t, i), s.slots[t][..i + 1];
    forall q: Id | q < |s.kind|
      ensures ObjectClosed(s, r, closed, q)
    {
      ObjectLoses(s, t, i, m, q);
    }
  }

  lemma ObjectLoses(s: Resources, t: Id, i: nat, m: Resources, q: Id)
    requires Sized(s) && Closing(s, t, i, m) && i < |s.slots[t]| && q < |s.kind|
    requires m.slots[t][i].Some? ==> m.slots[t][i].value < |m.kind| && 0 < m.count[m.slots[t][i].value]
    ensures ObjectClosed(s, Dropped(m, t, i), s.slots[t][..i + 1], q)
  {
    hide InTable;
    assert ObjectClosed(s, m, s.slots[t][..i], q);
    var x := s.slots[t][i];
    assert s.slots[t][..i + 1] == s.slots[t][..i] + [x];
    InTableMore(s.slots[t][..i], x, q);
  }

  // ---------------------------------------------------------------- the system calls

  /** A new object without a reference in any table. */
  ghost predicate Birth(s: Resources, kind: Kind, m: Resources) {
    && m.kind == s.kind + [kind] && m.alive == s.alive + [true] && m.exited == s.exited + [false]
    && m.held == s.held + [kind == ProcessObject] && m.count == s.count + [if kind == ProcessObject then 1 else 0]
    && |m.slots| == |s.slots| + 1 && m.slots[..|s.slots|] == s.slots && Empty(m.slots[|s.slots|])
    && |m.slots[|s.slots|]| == if kind == ProcessObject then TABLE_SIZE else 0
  }

  ghost predicate Effect(s: Resources, e: Event, r: Resources) {
    match e
    case OpenNew(t, kind) =>
      exists m, id :: Birth(s, kind, m) && Entering(m, t, |s.kind|, r, id)
    case CloseSlot(t, i) =>
      t < |s.slots| && i < |s.slots[t]| && if s.slots[t][i] == None then r == s else Emptied(s, t, i, r)
    case CloseTable(t) => t < |s.slots| && Closing(s, t, |s.slots[t]|, r)
    case Fork(t) =>
      exists m, c, id ::
        Birth(s, ProcessObject, m) && Copying(m, t, |s.kind|, TABLE_SIZE, c) && Entering(c, t, |s.kind|, r, id)
    case Exit(t) =>
      && t < |s.slots| && t < |s.exited|
      && Closing(s, t, |s.slots[t]|, r.(exited := s.exited)) && r.exited == s.exited[t := true]
    case Reap(p) =>
      && p < |s.count| && p < |s.alive| && p < |s.held|
      && r.kind == s.kind && r.exited == s.exited && r.slots == s.slots && r.held == s.held[p := false]
      && var n: int := s.count[p]; CountOnly(s, r, p, n - 1, s.alive[p] && n != 1)
  }

  lemma EveryEffect(s: Resources, e: Event)
    requires Balanced(s) && Enabled(s, e)
    ensures Effect(s, e, Step(s, e))
  {
    hide AllCounted;
    hide LifeOf;
    hide Known;
    hide Copying;
    hide Closing;
    hide Entering;
    hide Birth;
    match e
    case OpenNew(t, kind) =>
      MadeBalanced(s, kind);
      NewRuns(s, t, kind);
      BirthOf(s, kind);
      OpenedEnters(MadeNew(s, kind), t, |s.kind|);
    case CloseSlot(t, i) =>
      DroppedBalanced(s, t, i);
      if s.slots[t][i].Some? {
        DroppedEmpties(s, t, i);
      }
    case CloseTable(t) => ClosedCloses(s, t, |s.slots[t]|);
    case Fork(t) => ForkEffect(s, t);
    case Exit(t) => ExitEffect(s, t);
    case Reap(p) => ReapedBalanced(s, p);
  }

  lemma BirthOf(s: Resources, kind: Kind)
    ensures Birth(s, kind, MadeNew(s, kind))
  {
  }

  lemma ForkEffect(s: Resources, t: Id)
    requires Balanced(s) && Runs(s, t)
    ensures Effect(s, Fork(t), Step(s, Fork(t)))
  {
    hide AllCounted;
    hide LifeOf;
    hide Copying;
    hide Entering;
    hide Birth;
    MadeBalanced(s, ProcessObject);
    ForkReady(s, t);
    var m := MadeNew(s, ProcessObject);
    BirthOf(s, ProcessObject);
    assert Known(m.slots[t], |m.kind|);
    ForkCopies(m, t, |s.kind|, TABLE_SIZE);
    OpenedEnters(TableForked(s, t), t, |s.kind|);
  }

  lemma ExitEffect(s: Resources, t: Id)
    requires Balanced(s) && Runs(s, t)
    ensures Effect(s, Exit(t), Step(s, Exit(t)))
  {
    hide AllCounted;
    hide LifeOf;
    hide Known;
    hide ObjectClosed;
    ClosedCloses(s, t, |s.slots[t]|);
  }
}
