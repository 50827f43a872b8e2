/** Reference counts and resource tables. Objects are numbered as they are made; each process has one
    table of slots. */
module ResourceModel {
  import opened Collections

  type Id = nat

  datatype Kind = SemaphoreObject | FileObject | ProcessObject

  type Slots = seq<Option<Id>>

  /** Object p has entry p in every sequence; slots is [] for what is not a process. held says that a
      process has not been reaped yet: until then it has one reference to itself. */
  datatype Resources = Resources(kind: seq<Kind>, count: seq<nat>, alive: seq<bool>, held: seq<bool>,
                                 exited: seq<bool>, slots: seq<Slots>)

  const ERR_NO_ID: int := -1003
  const ERR_INVALID_ID: int := -1002
  const TABLE_SIZE: nat := 100

  // ---------------------------------------------------------------- how many slots hold an object

  ghost function InTable(t: Slots, p: Id): nat {
    multiset(t)[Some(p)]
  }

  ghost function InTables(ts: seq<Slots>, p: Id): nat {
    if ts == [] then 0 else InTable(ts[0], p) + InTables(ts[1..], p)
  }

  lemma {:induction false} InTablesUpdate(ts: seq<Slots>, i: nat, t: Slots, p: Id)
    requires i < |ts|
    ensures InTable(ts[i], p) <= InTables(ts, p)
    ensures InTables(ts[i := t], p) == InTables(ts, p) - InTable(ts[i], p) + InTable(t, p)
  {
    var ts' := ts[i := t];
    if i == 0 {
      assert ts'[1..] == ts[1..];
    } else {
      assert ts'[1..] == ts[1..][i - 1 := t];
      InTablesUpdate(ts[1..], i - 1, t, p);
    }
  }

  lemma {:induction false} InTablesAppend(ts: seq<Slots>, t: Slots, p: Id)
    ensures InTables(ts + [t], p) == InTables(ts, p) + InTable(t, p)
  {
    if ts == [] {
      assert ts + [t] == [t];
      assert InTables([t], p) == InTable(t, p) + InTables([], p);
    } else {
      assert (ts + [t])[1..] == ts[1..] + [t];
      InTablesAppend(ts[1..], t, p);
    }
  }

  /** One slot changes. */
  lemma InTableUpdate(t: Slots, i: nat, x: Option<Id>, p: Id)
    requires i < |t|
    ensures InTable(t[i := x], p) == InTable(t, p) - (if t[i] == Some(p) then 1 else 0)
            + (if x == Some(p) then 1 else 0)
    ensures t[i] == Some(p) ==> 1 <= InTable(t, p)
  {
  }

  lemma InTableNone(t: Slots, p: Id)
    requires forall i :: 0 <= i < |t| ==> t[i] == None
    ensures InTable(t, p) == 0
  {
  }

  // ---------------------------------------------------------------- the invariant

  ghost predicate Sized(s: Resources) {
    |s.kind| == |s.count| == |s.alive| == |s.held| == |s.exited| == |s.slots|
  }

  function Own(held: bool): nat {
    if held then 1 else 0
  }

  /** The count of an object is the number of slots that hold it, and one more for a process that has not
      been reaped; nothing holds a deleted object. */
  ghost predicate Counted(alive: bool, count: nat, held: bool, inTables: nat) {
    if alive then count == inTables + Own(held) else inTables == 0 && !held
  }

  ghost predicate AllCounted(s: Resources) {
    Sized(s) && forall p: Id :: p < |s.kind| ==> Counted(s.alive[p], s.count[p], s.held[p], InTables(s.slots, p))
  }

  ghost predicate Empty(t: Slots) {
    forall i :: 0 <= i < |t| ==> t[i] == None
  }

  ghost predicate Known(t: Slots, n: nat) {
    forall i :: 0 <= i < |t| ==> t[i].Some? ==> t[i].value < n
  }

  /** A process that has exited has an empty table; only such a process is reaped. */
  ghost predicate LifeOf(kind: Kind, held: bool, exited: bool, t: Slots) {
    && (if kind == ProcessObject then |t| == TABLE_SIZE else t == [] && !held)
    && (kind == ProcessObject && !held ==> exited)
    && (exited ==> Empty(t))
  }

  ghost predicate Lives(s: Resources) {
    Sized(s) && forall p: Id :: p < |s.kind| ==>
      LifeOf(s.kind[p], s.held[p], s.exited[p], s.slots[p]) && Known(s.slots[p], |s.kind|)
  }

  ghost predicate Balanced(s: Resources) {
    AllCounted(s) && Lives(s)
  }

  // ---------------------------------------------------------------- the operations

  /** Slot i of table t gives up its reference; the object goes with its last one. */
  function Dropped(s: Resources, t: Id, i: nat): Resources
    requires Sized(s) && t < |s.slots| && i < |s.slots[t]| && (s.slots[t][i].Some? ==> s.slots[t][i].value < |s.kind|)
    requires s.slots[t][i].Some? ==> 0 < s.count[s.slots[t][i].value]
  {
    if s.slots[t][i] == None then s
    else
      var p := s.slots[t][i].value;
      s.(slots := s.slots[t := s.slots[t][i := None]], count := s.count[p := s.count[p] - 1],
         alive := if s.count[p] == 1 then s.alive[p := false] else s.alive)
  }

  /** Slot i of table t takes a reference. */
  function Taken(s: Resources, t: Id, i: nat, p: Id): Resources
    requires Sized(s) && t < |s.slots| && i < |s.slots[t]| && p < |s.kind|
  {
    s.(slots := s.slots[t := s.slots[t][i := Some(p)]], count := s.count[p := s.count[p] + 1])
  }

  /** A new object, with a count and a table. */
  function Made(s: Resources, kind: Kind, count: nat, held: bool, t: Slots): Resources {
    Resources(s.kind + [kind], s.count + [count], s.alive + [true], s.held + [held], s.exited + [false], s.slots + [t])
  }

  function EmptyTable(n: nat): (t: Slots)
    ensures |t| == n && Empty(t)
  {
    seq(n, i => None)
  }

  /** The first empty slot from i on; slot 0 is never given out. */
  function FirstEmpty(t: Slots, i: nat): (r: nat)
    requires i <= |t|
    ensures i <= r <= |t|
    ensures r < |t| ==> t[r] == None
    ensures forall k :: i <= k < r ==> t[k] != None
    decreases |t| - i
  {
    if i == |t| || t[i] == None then i else FirstEmpty(t, i + 1)
  }

  // ---------------------------------------------------------------- they keep the balance

  /** What one change of a slot of table t does to the number of slots that hold p. */
  lemma SlotSet(s: Resources, t: Id, i: nat, x: Option<Id>, p: Id)
    requires t < |s.slots| && i < |s.slots[t]|
    ensures InTables(s.slots[t := s.slots[t][i := x]], p)
         == InTables(s.slots, p) - (if s.slots[t][i] == Some(p) then 1 else 0) + (if x == Some(p) then 1 else 0)
    ensures s.slots[t][i] == Some(p) ==> 1 <= InTables(s.slots, p)
  {
    InTablesUpdate(s.slots, t, s.slots[t][i := x], p);
    InTableUpdate(s.slots[t], i, x, p);
  }

  /** A slot names a live object with a count of at least 1. */
  lemma SlotAlive(s: Resources, t: Id, i: nat)
    requires Balanced(s) && t < |s.slots| && i < |s.slots[t]| && s.slots[t][i].Some?
    ensures var p := s.slots[t][i].value; p < |s.kind| && s.alive[p] && 1 <= s.count[p]
  {
    hide LifeOf;
    var p := s.slots[t][i].value;
    SlotSet(s, t, i, None, p);
    assert Known(s.slots[t], |s.kind|);
    assert Counted(s.alive[p], s.count[p], s.held[p], InTables(s.slots, p));
  }

  lemma DroppedBalanced(s: Resources, t: Id, i: nat)
    requires Balanced(s) && t < |s.slots| && i < |s.slots[t]|
    ensures s.slots[t][i].Some? ==> s.slots[t][i].value < |s.kind| && 1 <= s.count[s.slots[t][i].value]
    ensures Balanced(Dropped(s, t, i)) && |Dropped(s, t, i).slots[t]| == |s.slots[t]|
    ensures Dropped(s, t, i).slots[t] == s.slots[t][i := None]
  {
    hide InTables;
    if s.slots[t][i].Some? {
      SlotAlive(s, t, i);
      var s' := Dropped(s, t, i);
      forall q: Id | q < |s'.kind|
        ensures Counted(s'.alive[q], s'.count[q], s'.held[q], InTables(s'.slots, q))
      {
        assert Counted(s.alive[q], s.count[q], s.held[q], InTables(s.slots, q));
        SlotSet(s, t, i, None, q);
      }
    }
  }

  lemma TakenBalanced(s: Resources, t: Id, i: nat, p: Id)
    requires Balanced(s) && t < |s.slots| && i < |s.slots[t]| && s.slots[t][i] == None
    requires p < |s.kind| && s.alive[p] && !s.exited[t]
    ensures Balanced(Taken(s, t, i, p))
  {
    hide InTables;
    var s' := Taken(s, t, i, p);
    forall q: Id | q < |s'.kind|
      ensures Counted(s'.alive[q], s'.count[q], s'.held[q], InTables(s'.slots, q))
    {
      assert Counted(s.alive[q], s.count[q], s.held[q], InTables(s.slots, q));
      SlotSet(s, t, i, Some(p), q);
    }
    assert Known(s.slots[t], |s.kind|);
  }

  lemma MadeBalanced(s: Resources, kind: Kind)
    requires Balanced(s)
    ensures Balanced(Made(s, kind, Own(kind == ProcessObject), kind == ProcessObject,
                          if kind == ProcessObject then EmptyTable(TABLE_SIZE) else []))
  {
    hide InTables;
    var t := if kind == ProcessObject then EmptyTable(TABLE_SIZE) else [];
    var s' := Made(s, kind, Own(kind == ProcessObject), kind == ProcessObject, t);
    forall q: Id | q < |s'.kind|
      ensures Counted(s'.alive[q], s'.count[q], s'.held[q], InTables(s'.slots, q))
    {
      InTablesAppend(s.slots, t, q);
      InTableNone(t, q);
      if q < |s.kind| {
        assert Counted(s.alive[q], s.count[q], s.held[q], InTables(s.slots, q));
      } else {
        NobodyHolds(s, q);
      }
    }
    forall q: Id | q < |s'.kind|
      ensures Known(s'.slots[q], |s'.kind|) && LifeOf(s'.kind[q], s'.held[q], s'.exited[q], s'.slots[q])
    {
      if q < |s.kind| {
        assert Known(s.slots[q], |s.kind|);
      }
    }
  }

  /** No slot names an object that does not exist yet. */
  lemma NobodyHolds(s: Resources, q: Id)
    requires Lives(s) && |s.kind| <= q
    ensures InTables(s.slots, q) == 0
  {
    forall i | 0 <= i < |s.slots|
      ensures InTable(s.slots[i], q) == 0
    {
      assert Known(s.slots[i], |s.kind|);
      assert Some(q) !in s.slots[i];
    }
    NoneInTables(s.slots, q);
  }

  lemma {:induction false} NoneInTables(ts: seq<Slots>, q: Id)
    requires forall i :: 0 <= i < |ts| ==> InTable(ts[i], q) == 0
    ensures InTables(ts, q) == 0
  {
    if ts != [] {
      var rest := ts[1..];
      assert forall i :: 0 <= i < |rest| ==> rest[i] == ts[i + 1];
      NoneInTables(rest, q);
    }
  }
}
