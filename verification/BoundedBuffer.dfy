/** The bounded buffer of kernel/bb.h under every interleaving of any number of processes: between two
    steps of one process, any other process that is not waiting may take a step. */
module BoundedBuffer {
  import opened Collections
  import opened Semaphores

  /** Where a process stands in put or get; the names say what it does next or waits for. */
  datatype PC =
    | Idle
    | PutEmpty | PutEmptyWait | PutMutex | PutMutexWait | PutStore | PutWrap | PutMutexUp | PutFullUp
    | GetFull | GetFullWait | GetMutex | GetMutexWait | GetLoad | GetWrap | GetMutexUp | GetEmptyUp

  /** The fields of the buffer, where each process stands, the value it carries, and the values stored
      and loaded so far. */
  datatype BB<T> = BB(n: int, arr: seq<T>, head: int, tail: int, nFull: Sem, nEmpty: Sem, mutex: Sem,
                      pc: map<Pid, PC>, val: map<Pid, T>, puts: seq<T>, gots: seq<T>)

  function Pc<T>(s: BB<T>, p: Pid): PC {
    if p in s.pc then s.pc[p] else Idle
  }

  datatype Event<T> = CallPut(p: Pid, v: T) | CallGet(p: Pid) | Advance(p: Pid)

  predicate Waits(c: PC) {
    c == PutEmptyWait || c == PutMutexWait || c == GetFullWait || c == GetMutexWait
  }

  predicate Enabled<T>(s: BB<T>, e: Event<T>) {
    match e
    case CallPut(p, v) => Pc(s, p) == Idle
    case CallGet(p) => Pc(s, p) == Idle
    case Advance(p) => Pc(s, p) != Idle && !Waits(Pc(s, p))
  }

  function Goto<T>(s: BB<T>, p: Pid, c: PC): BB<T> {
    s.(pc := s.pc[p := c])
  }

  /** The place a waiter finds itself in when it is handed the token it waited for. */
  function Granted(c: PC): PC {
    match c
    case PutEmptyWait => PutMutex
    case PutMutexWait => PutStore
    case GetFullWait => GetMutex
    case GetMutexWait => GetLoad
    case _ => c
  }

  function Wake<T>(s: BB<T>, woken: Option<Pid>): BB<T> {
    if woken.None? then s else Goto(s, woken.value, Granted(Pc(s, woken.value)))
  }

  predicate AtDown(c: PC) {
    c == PutEmpty || c == PutMutex || c == GetFull || c == GetMutex
  }

  predicate AtAccess(c: PC) {
    c == PutStore || c == PutWrap || c == GetLoad || c == GetWrap
  }

  /** A call of down: the process goes on or waits. */
  function StepDown<T>(s: BB<T>, p: Pid): BB<T> {
    match Pc(s, p)
    case PutEmpty => Goto(s, p, if Passes(s.nEmpty) then PutMutex else PutEmptyWait).(nEmpty := Down(s.nEmpty, p))
    case PutMutex => Goto(s, p, if Passes(s.mutex) then PutStore else PutMutexWait).(mutex := Down(s.mutex, p))
    case GetFull => Goto(s, p, if Passes(s.nFull) then GetMutex else GetFullWait).(nFull := Down(s.nFull, p))
    case GetMutex => Goto(s, p, if Passes(s.mutex) then GetLoad else GetMutexWait).(mutex := Down(s.mutex, p))
    case _ => s
  }

  /** The accesses to the array, each followed by the wrap of its index. */
  function StepAccess<T>(s: BB<T>, p: Pid): BB<T>
    requires Ready(s, p)
  {
    match Pc(s, p)
    case PutStore =>
      Goto(s, p, PutWrap).(arr := s.arr[s.tail := s.val[p]], tail := s.tail + 1, puts := s.puts + [s.val[p]])
    case PutWrap => Goto(s, p, PutMutexUp).(tail := if s.tail == s.n then 0 else s.tail)
    case GetLoad =>
      Goto(s, p, GetWrap).(val := s.val[p := s.arr[s.head]], head := s.head + 1, gots := s.gots + [s.arr[s.head]])
    case GetWrap => Goto(s, p, GetMutexUp).(head := if s.head == s.n then 0 else s.head)
    case _ => s
  }

  /** A call of up: a waiter, if there is one, goes on. */
  function StepUp<T>(s: BB<T>, p: Pid): BB<T> {
    match Pc(s, p)
    case PutMutexUp => Wake(Goto(s, p, PutFullUp), Woken(s.mutex)).(mutex := Up(s.mutex))
    case PutFullUp => Wake(Goto(s, p, Idle), Woken(s.nFull)).(nFull := Up(s.nFull))
    case GetMutexUp => Wake(Goto(s, p, GetEmptyUp), Woken(s.mutex)).(mutex := Up(s.mutex))
    case GetEmptyUp => Wake(Goto(s, p, Idle), Woken(s.nEmpty)).(nEmpty := Up(s.nEmpty))
    case _ => s
  }

  /** The array accesses of the source are in bounds. */
  predicate Ready<T>(s: BB<T>, p: Pid) {
    && (Pc(s, p) == PutStore ==> 0 <= s.tail < |s.arr| && p in s.val)
    && (Pc(s, p) == GetLoad ==> 0 <= s.head < |s.arr|)
  }

  /** One step of the system. */
  function Step<T>(s: BB<T>, e: Event<T>): BB<T>
    requires Enabled(s, e) && Ready(s, e.p)
  {
    match e
    case CallPut(p, v) => Goto(s, p, PutEmpty).(val := s.val[p := v])
    case CallGet(p) => Goto(s, p, GetFull)
    case Advance(p) =>
      if AtDown(Pc(s, p)) then StepDown(s, p)
      else if AtAccess(Pc(s, p)) then StepAccess(s, p)
      else StepUp(s, p)
  }

  function Initial<T>(arr: seq<T>): BB<T> {
    BB(|arr|, arr, 0, 0, Sem(0, []), Sem(|arr|, []), Sem(1, []), map[], map[], [], [])
  }

  // ---------------------------------------------------------------- counting processes

  ghost function At(pc: map<Pid, PC>, places: set<PC>): set<Pid> {
    set p | p in pc && pc[p] in places
  }

  /** How many processes stand at one of these places. */
  ghost function Count(pc: map<Pid, PC>, places: set<PC>): nat {
    |At(pc, places)|
  }

  function One(b: bool): int {
    if b then 1 else 0
  }

  /** One process moves. */
  lemma CountMove(pc: map<Pid, PC>, p: Pid, c: PC, places: set<PC>)
    requires Idle !in places
    ensures Count(pc[p := c], places) == Count(pc, places) - One(p in pc && pc[p] in places) + One(c in places)
  {
    var before, after := At(pc, places), At(pc[p := c], places);
    if c in places {
      assert after == before + {p};
    } else {
      assert after == before - {p};
    }
  }

  lemma CountMember(pc: map<Pid, PC>, p: Pid, places: set<PC>)
    requires p in pc && pc[p] in places
    ensures 1 <= Count(pc, places)
  {
    assert {p} <= At(pc, places);
    SubsetSize({p}, At(pc, places));
  }

  lemma {:induction false} SubsetSize<X>(a: set<X>, b: set<X>)
    requires a <= b
    ensures |a| <= |b|
  {
    assert b == a + (b - a);
  }

  // ---------------------------------------------------------------- tokens

  const STORED: set<PC> := {PutWrap, PutMutexUp, PutFullUp}
  const LOADED: set<PC> := {GetWrap, GetMutexUp, GetEmptyUp}
  const EMPTY_HELD: set<PC> := {PutMutex, PutMutexWait, PutStore}
  const FULL_HELD: set<PC> := {GetMutex, GetMutexWait, GetLoad}
  const CRITICAL: set<PC> := {PutStore, PutWrap, PutMutexUp, GetLoad, GetWrap, GetMutexUp}

  /** The processes in each of the five groups. */
  datatype Groups = Groups(stored: int, loaded: int, emptyHeld: int, fullHeld: int, critical: int)

  ghost function GroupsOf(pc: map<Pid, PC>): Groups {
    Groups(Count(pc, STORED), Count(pc, LOADED), Count(pc, EMPTY_HELD), Count(pc, FULL_HELD), Count(pc, CRITICAL))
  }

  function GroupsAt(c: PC): Groups {
    Groups(One(c in STORED), One(c in LOADED), One(c in EMPTY_HELD), One(c in FULL_HELD), One(c in CRITICAL))
  }

  lemma GroupsMove(pc: map<Pid, PC>, p: Pid, c: PC)
    ensures var g, g' := GroupsOf(pc), GroupsOf(pc[p := c]);
            var from, to := GroupsAt(if p in pc then pc[p] else Idle), GroupsAt(c);
            && g'.stored == g.stored - from.stored + to.stored
            && g'.loaded == g.loaded - from.loaded + to.loaded
            && g'.emptyHeld == g.emptyHeld - from.emptyHeld + to.emptyHeld
            && g'.fullHeld == g.fullHeld - from.fullHeld + to.fullHeld
            && g'.critical == g.critical - from.critical + to.critical
  {
    CountMove(pc, p, c, STORED);
    CountMove(pc, p, c, LOADED);
    CountMove(pc, p, c, EMPTY_HELD);
    CountMove(pc, p, c, FULL_HELD);
    CountMove(pc, p, c, CRITICAL);
  }

  function Occupancy<T>(s: BB<T>): int {
    |s.puts| - |s.gots|
  }

  /** Every stored value that has not been loaded is matched by a token of nFull: in the count, still to
      be given by the process that stored it, or held by one that will load it. The same for free
      places and nEmpty; and the mutex is free or held by one process. */
  ghost predicate Tokens<T>(s: BB<T>) {
    var g := GroupsOf(s.pc);
    && s.nFull.count + g.stored + g.fullHeld == Occupancy(s)
    && s.nEmpty.count + g.emptyHeld + g.loaded == s.n - Occupancy(s)
    && s.mutex.count + g.critical == 1
    && 0 <= s.nFull.count && 0 <= s.nEmpty.count && 0 <= s.mutex.count
  }

  const MUTEX_WAIT: set<PC> := {PutMutexWait, GetMutexWait}

  /** A process is in the queue exactly when it stands at one of the places for it. */
  ghost predicate Enrolled(q: Sem, pc: map<Pid, PC>, places: set<PC>) {
    Sound(q) && forall p :: p in q.waiting <==> p in pc && pc[p] in places
  }

  /** The three queues. */
  ghost predicate Queues<T>(s: BB<T>) {
    && Enrolled(s.nEmpty, s.pc, {PutEmptyWait})
    && Enrolled(s.nFull, s.pc, {GetFullWait})
    && Enrolled(s.mutex, s.pc, MUTEX_WAIT)
  }

  /** A process that has not stored its value yet still carries it. */
  ghost predicate Carried<T>(s: BB<T>) {
    forall p :: Pc(s, p) in {PutEmpty, PutEmptyWait, PutMutex, PutMutexWait, PutStore} ==> p in s.val
  }

  ghost predicate Anyone(pc: map<Pid, PC>, c: PC) {
    exists p :: p in pc && pc[p] == c
  }

  /** The array holds the values stored and not loaded, in order from head to tail; a process between
      its access and the wrap may have left head or tail at n. */
  ghost predicate Ring<T>(s: BB<T>) {
    && 1 <= s.n == |s.arr| && s.gots <= s.puts
    && s.tail == (if Anyone(s.pc, PutWrap) then Behind(|s.puts|, s.n) else |s.puts| % s.n)
    && s.head == (if Anyone(s.pc, GetWrap) then Behind(|s.gots|, s.n) else |s.gots| % s.n)
    && Filled(s.arr, s.puts, |s.gots|)
  }

  ghost predicate Filled<T>(arr: seq<T>, puts: seq<T>, from: nat)
    requires arr != []
  {
    forall k :: from <= k < |puts| ==> arr[k % |arr|] == puts[k]
  }

  /** One more than the place of element k - 1: the place of element k before the wrap. */
  function Behind(k: int, n: int): int
    requires 0 < n
  {
    if k % n == 0 then n else k % n
  }

  ghost predicate Inv<T>(s: BB<T>) {
    Tokens(s) && Queues(s) && Carried(s) && Ring(s)
  }

  lemma InitialInv<T>(arr: seq<T>)
    requires arr != []
    ensures Inv(Initial(arr))
  {
  }

  lemma CriticalOne<T>(s: BB<T>, p: Pid, q: Pid)
    requires Tokens(s) && Pc(s, p) in CRITICAL && Pc(s, q) in CRITICAL
    ensures p == q
  {
    if p != q {
      assert {p, q} <= At(s.pc, CRITICAL);
      SubsetSize({p, q}, At(s.pc, CRITICAL));
    }
  }

  // ---------------------------------------------------------------- every step keeps the invariant

  lemma WakeTokens<T>(s: BB<T>, p: Pid, c: PC, woken: Option<Pid>)
    requires woken.Some? ==> woken.value != p
    ensures var g, g' := GroupsOf(s.pc), GroupsOf(Wake(Goto(s, p, c), woken).pc);
            var a, b := GroupsAt(Pc(s, p)), GroupsAt(c);
            var u := if woken.Some? then GroupsAt(Pc(s, woken.value)) else GroupsAt(Idle);
            var v := if woken.Some? then GroupsAt(Granted(Pc(s, woken.value))) else GroupsAt(Idle);
            && g'.stored == g.stored - a.stored + b.stored - u.stored + v.stored
            && g'.loaded == g.loaded - a.loaded + b.loaded - u.loaded + v.loaded
            && g'.emptyHeld == g.emptyHeld - a.emptyHeld + b.emptyHeld - u.emptyHeld + v.emptyHeld
            && g'.fullHeld == g.fullHeld - a.fullHeld + b.fullHeld - u.fullHeld + v.fullHeld
            && g'.critical == g.critical - a.critical + b.critical - u.critical + v.critical
  {
    GroupsMove(s.pc, p, c);
    if woken.Some? {
      GroupsMove(s.pc[p := c], woken.value, Granted(Pc(s, woken.value)));
    }
  }

  lemma DownTokens<T>(s: BB<T>, p: Pid)
    requires Tokens(s) && AtDown(Pc(s, p))
    ensures Tokens(StepDown(s, p))
  {
    hide GroupsOf;
    GroupsMove(s.pc, p, StepDown(s, p).pc[p]);
  }

  lemma AccessTokens<T>(s: BB<T>, p: Pid)
    requires Tokens(s) && AtAccess(Pc(s, p)) && Ready(s, p)
    ensures Tokens(StepAccess(s, p))
  {
    hide GroupsOf;
    GroupsMove(s.pc, p, StepAccess(s, p).pc[p]);
  }

  lemma WokenPlace(q: Sem, pc: map<Pid, PC>, places: set<PC>)
    requires Enrolled(q, pc, places)
    ensures Woken(q).Some? ==> Woken(q).value in pc && pc[Woken(q).value] in places
  {
  }

  lemma PutMutexUpTokens<T>(s: BB<T>, p: Pid)
    requires Tokens(s) && Queues(s) && Pc(s, p) == PutMutexUp
    ensures Tokens(StepUp(s, p))
  {
    hide GroupsOf;
    hide Enrolled;
    WokenPlace(s.mutex, s.pc, MUTEX_WAIT);
    WakeTokens(s, p, PutFullUp, Woken(s.mutex));
  }

  lemma GetMutexUpTokens<T>(s: BB<T>, p: Pid)
    requires Tokens(s) && Queues(s) && Pc(s, p) == GetMutexUp
    ensures Tokens(StepUp(s, p))
  {
    hide GroupsOf;
    hide Enrolled;
    WokenPlace(s.mutex, s.pc, MUTEX_WAIT);
    WakeTokens(s, p, GetEmptyUp, Woken(s.mutex));
  }

  lemma FullUpTokens<T>(s: BB<T>, p: Pid)
    requires Tokens(s) && Queues(s) && Pc(s, p) == PutFullUp
    ensures Tokens(StepUp(s, p))
  {
    hide GroupsOf;
    hide Enrolled;
    WokenPlace(s.nFull, s.pc, {GetFullWait});
    WakeTokens(s, p, Idle, Woken(s.nFull));
  }

  lemma EmptyUpTokens<T>(s: BB<T>, p: Pid)
    requires Tokens(s) && Queues(s) && Pc(s, p) == GetEmptyUp
    ensures Tokens(StepUp(s, p))
  {
    hide GroupsOf;
    hide Enrolled;
    WokenPlace(s.nEmpty, s.pc, {PutEmptyWait});
    WakeTokens(s, p, Idle, Woken(s.nEmpty));
  }

  /** A process that moves between other places does not matter to a queue. */
  lemma EnrolledElsewhere(q: Sem, pc: map<Pid, PC>, places: set<PC>, p: Pid, c: PC)
    requires Enrolled(q, pc, places) && c !in places && (p in pc ==> pc[p] !in places)
    ensures Enrolled(q, pc[p := c], places)
  {
  }

  lemma EnrolledDown(q: Sem, pc: map<Pid, PC>, places: set<PC>, p: Pid, c: PC)
    requires Enrolled(q, pc, places) && (p in pc ==> pc[p] !in places) && (c in places <==> !Passes(q))
    ensures Enrolled(Down(q, p), pc[p := c], places)
  {
  }

  lemma EnrolledUp(q: Sem, pc: map<Pid, PC>, places: set<PC>, c: PC)
    requires Enrolled(q, pc, places) && c !in places
    ensures Woken(q).Some? ==> Enrolled(Up(q), pc[Woken(q).value := c], places)
    ensures Woken(q).None? ==> Enrolled(Up(q), pc, places)
  {
  }

  lemma DownQueues<T>(s: BB<T>, p: Pid)
    requires Queues(s) && AtDown(Pc(s, p))
    ensures Queues(StepDown(s, p))
  {
    hide Enrolled;
    hide Down;
    var c := StepDown(s, p).pc[p];
    if Pc(s, p) == PutEmpty {
      EnrolledDown(s.nEmpty, s.pc, {PutEmptyWait}, p, c);
    } else {
      EnrolledElsewhere(s.nEmpty, s.pc, {PutEmptyWait}, p, c);
    }
    if Pc(s, p) == GetFull {
      EnrolledDown(s.nFull, s.pc, {GetFullWait}, p, c);
    } else {
      EnrolledElsewhere(s.nFull, s.pc, {GetFullWait}, p, c);
    }
    if Pc(s, p) == PutMutex || Pc(s, p) == GetMutex {
      EnrolledDown(s.mutex, s.pc, MUTEX_WAIT, p, c);
    } else {
      EnrolledElsewhere(s.mutex, s.pc, MUTEX_WAIT, p, c);
    }
  }

  lemma AccessQueues<T>(s: BB<T>, p: Pid)
    requires Queues(s) && AtAccess(Pc(s, p)) && Ready(s, p)
    ensures Queues(StepAccess(s, p))
  {
    hide Enrolled;
    Elsewhere(s, p, StepAccess(s, p).pc[p]);
  }

  lemma Elsewhere<T>(s: BB<T>, p: Pid, c: PC)
    requires Queues(s) && !Waits(Pc(s, p)) && !Waits(c)
    ensures Queues(Goto(s, p, c))
  {
    hide Enrolled;
    EnrolledElsewhere(s.nEmpty, s.pc, {PutEmptyWait}, p, c);
    EnrolledElsewhere(s.nFull, s.pc, {GetFullWait}, p, c);
    EnrolledElsewhere(s.mutex, s.pc, MUTEX_WAIT, p, c);
  }

  /** Waking the first waiter of one semaphore leaves the two other queues as they are. */
  lemma WakeElsewhere(q: Sem, pc: map<Pid, PC>, places: set<PC>, other: Sem, c: PC, others: set<PC>)
    requires Enrolled(q, pc, places) && Enrolled(other, pc, others) && places !! others && c !in others
    ensures Woken(q).Some? ==> Enrolled(other, pc[Woken(q).value := c], others)
  {
  }

  lemma UpQueues<T>(s: BB<T>, p: Pid)
    requires Queues(s) && !Waits(Pc(s, p))
    ensures Queues(StepUp(s, p))
  {
    hide Enrolled;
    hide Up;
    match Pc(s, p)
    case PutMutexUp => UpMutex(Goto(s, p, PutFullUp), s, p, PutFullUp);
    case PutFullUp => UpFull(Goto(s, p, Idle), s, p);
    case GetMutexUp => UpMutex(Goto(s, p, GetEmptyUp), s, p, GetEmptyUp);
    case GetEmptyUp => UpEmpty(Goto(s, p, Idle), s, p);
    case _ =>
  }

  lemma UpMutex<T>(m: BB<T>, s: BB<T>, p: Pid, c: PC)
    requires Queues(s) && !Waits(Pc(s, p)) && !Waits(c) && m == Goto(s, p, c)
    ensures Queues(Wake(m, Woken(m.mutex)).(mutex := Up(m.mutex)))
  {
    hide Enrolled;
    hide Up;
    Elsewhere(s, p, c);
    WokenPlace(m.mutex, m.pc, MUTEX_WAIT);
    var d := if Woken(m.mutex).None? then Idle else Granted(Pc(m, Woken(m.mutex).value));
    EnrolledUp(m.mutex, m.pc, MUTEX_WAIT, d);
    WakeElsewhere(m.mutex, m.pc, MUTEX_WAIT, m.nFull, d, {GetFullWait});
    WakeElsewhere(m.mutex, m.pc, MUTEX_WAIT, m.nEmpty, d, {PutEmptyWait});
  }

  lemma UpFull<T>(m: BB<T>, s: BB<T>, p: Pid)
    requires Queues(s) && !Waits(Pc(s, p)) && m == Goto(s, p, Idle)
    ensures Queues(Wake(m, Woken(m.nFull)).(nFull := Up(m.nFull)))
  {
    hide Enrolled;
    hide Up;
    Elsewhere(s, p, Idle);
    WokenPlace(m.nFull, m.pc, {GetFullWait});
    EnrolledUp(m.nFull, m.pc, {GetFullWait}, GetMutex);
    WakeElsewhere(m.nFull, m.pc, {GetFullWait}, m.mutex, GetMutex, MUTEX_WAIT);
    WakeElsewhere(m.nFull, m.pc, {GetFullWait}, m.nEmpty, GetMutex, {PutEmptyWait});
  }

  lemma UpEmpty<T>(m: BB<T>, s: BB<T>, p: Pid)
    requires Queues(s) && !Waits(Pc(s, p)) && m == Goto(s, p, Idle)
    ensures Queues(Wake(m, Woken(m.nEmpty)).(nEmpty := Up(m.nEmpty)))
  {
    hide Enrolled;
    hide Up;
    Elsewhere(s, p, Idle);
    WokenPlace(m.nEmpty, m.pc, {PutEmptyWait});
    EnrolledUp(m.nEmpty, m.pc, {PutEmptyWait}, PutMutex);
    WakeElsewhere(m.nEmpty, m.pc, {PutEmptyWait}, m.mutex, PutMutex, MUTEX_WAIT);
    WakeElsewhere(m.nEmpty, m.pc, {PutEmptyWait}, m.nFull, PutMutex, {GetFullWait});
  }

  /** The place after k in a ring of n. */
  lemma Successor(k: nat, n: int)
    requires 0 < n
    ensures Behind(k + 1, n) == k % n + 1
  {
    if k % n + 1 < n {
      Quotient(k + 1, n, k / n, k % n + 1);
    } else {
      Quotient(k + 1, n, k / n + 1, 0);
    }
  }

  lemma Quotient(k: nat, n: int, q: nat, r: nat)
    requires 0 < n && k == n * q + r && r < n
    ensures k % n == r
  {
    Multiple(n, k / n - q);
  }

  lemma Multiple(n: int, d: int)
    requires 0 < n
    ensures 1 <= d ==> n <= n * d
    ensures d <= 0 ==> n * d <= 0
    ensures d <= -1 ==> n * d <= -n
  {
  }

  /** Fewer than n elements have different places. */
  lemma Apart(i: nat, j: nat, n: int)
    requires 0 < n && i < j < i + n
    ensures i % n != j % n
  {
    Multiple(n, j / n - i / n);
  }

  lemma FilledStore<T>(arr: seq<T>, puts: seq<T>, from: nat, v: T)
    requires arr != [] && Filled(arr, puts, from) && from <= |puts| < from + |arr|
    ensures Filled(arr[|puts| % |arr| := v], puts + [v], from)
  {
    var arr' := arr[|puts| % |arr| := v];
    forall k | from <= k < |puts| + 1
      ensures arr'[k % |arr|] == (puts + [v])[k]
    {
      if k < |puts| {
        Apart(k, |puts|, |arr|);
      }
    }
  }

  lemma AnyoneElsewhere(pc: map<Pid, PC>, p: Pid, c: PC, d: PC)
    requires c != d && !(p in pc && pc[p] == d)
    ensures Anyone(pc[p := c], d) <==> Anyone(pc, d)
  {
    if Anyone(pc, d) {
      var q :| q in pc && pc[q] == d;
      assert pc[p := c][q] == d;
    }
  }

  /** A step that neither accesses the array nor moves to or from one of the two wraps. */
  lemma RingSame<T>(s: BB<T>, s': BB<T>)
    requires Ring(s)
    requires s' == s.(pc := s'.pc, val := s'.val, mutex := s'.mutex, nFull := s'.nFull, nEmpty := s'.nEmpty)
    requires Anyone(s'.pc, PutWrap) <==> Anyone(s.pc, PutWrap)
    requires Anyone(s'.pc, GetWrap) <==> Anyone(s.pc, GetWrap)
    ensures Ring(s')
  {
  }

  lemma DownRing<T>(s: BB<T>, p: Pid)
    requires Ring(s) && AtDown(Pc(s, p))
    ensures Ring(StepDown(s, p))
  {
    hide Ring;
    hide Down;
    hide Anyone;
    AnyoneElsewhere(s.pc, p, StepDown(s, p).pc[p], PutWrap);
    AnyoneElsewhere(s.pc, p, StepDown(s, p).pc[p], GetWrap);
    RingSame(s, StepDown(s, p));
  }

  lemma WakeRing<T>(s: BB<T>, p: Pid, c: PC, woken: Option<Pid>, d: PC)
    requires woken.Some? ==> Waits(Pc(s, woken.value))
    requires Pc(s, p) != d && c != d && (d == PutWrap || d == GetWrap)
    ensures Anyone(Wake(Goto(s, p, c), woken).pc, d) <==> Anyone(s.pc, d)
  {
    AnyoneElsewhere(s.pc, p, c, d);
    var m := Goto(s, p, c);
    if woken.Some? {
      AnyoneElsewhere(m.pc, woken.value, Granted(Pc(m, woken.value)), d);
    }
  }

  lemma UpRing<T>(s: BB<T>, p: Pid)
    requires Ring(s) && Queues(s) && Pc(s, p) in {PutMutexUp, PutFullUp, GetMutexUp, GetEmptyUp}
    ensures Ring(StepUp(s, p))
  {
    hide Ring;
    hide Up;
    hide Anyone;
    hide Enrolled;
    WokenPlace(s.mutex, s.pc, MUTEX_WAIT);
    WokenPlace(s.nFull, s.pc, {GetFullWait});
    WokenPlace(s.nEmpty, s.pc, {PutEmptyWait});
    var c := match Pc(s, p) case PutMutexUp => PutFullUp case GetMutexUp => GetEmptyUp case _ => Idle;
    var w := match Pc(s, p)
      case PutFullUp => Woken(s.nFull)
      case GetEmptyUp => Woken(s.nEmpty)
      case _ => Woken(s.mutex);
    WakeRing(s, p, c, w, PutWrap);
    WakeRing(s, p, c, w, GetWrap);
    RingSame(s, StepUp(s, p));
  }

  /** Nobody else is in the critical section. */
  lemma Alone<T>(s: BB<T>, p: Pid, c: PC, d: PC)
    requires Tokens(s) && Pc(s, p) in CRITICAL && d in CRITICAL
    ensures Anyone(s.pc, d) <==> Pc(s, p) == d
    ensures Anyone(s.pc[p := c], d) <==> c == d
  {
    hide GroupsOf;
    if Anyone(s.pc, d) {
      var q :| q in s.pc && s.pc[q] == d;
      CriticalOne(s, p, q);
    }
    if Anyone(s.pc[p := c], d) {
      var q :| q in s.pc[p := c] && s.pc[p := c][q] == d;
      if q != p {
        CriticalOne(s, p, q);
      }
    }
    assert p in s.pc[p := c];
  }

  lemma InRange<T>(s: BB<T>, p: Pid)
    requires Tokens(s) && Ring(s)
    ensures 0 <= Occupancy(s) <= s.n
    ensures Pc(s, p) == PutStore ==> Occupancy(s) < s.n
    ensures Pc(s, p) == GetLoad ==> 0 < Occupancy(s)
  {
    if Pc(s, p) == PutStore {
      CountMember(s.pc, p, EMPTY_HELD);
    }
    if Pc(s, p) == GetLoad {
      CountMember(s.pc, p, FULL_HELD);
    }
  }

  lemma ReadyFor<T>(s: BB<T>, p: Pid)
    requires Inv(s)
    ensures Ready(s, p)
  {
    hide GroupsOf;
    hide Queues;
    if Pc(s, p) == PutStore {
      Alone(s, p, Idle, PutWrap);
    } else if Pc(s, p) == GetLoad {
      Alone(s, p, Idle, GetWrap);
    }
  }

  lemma StoreRing<T>(s: BB<T>, p: Pid)
    requires Tokens(s) && Ring(s) && Ready(s, p) && Pc(s, p) == PutStore
    ensures Ring(StepAccess(s, p))
  {
    hide GroupsOf;
    Alone(s, p, PutWrap, PutWrap);
    Alone(s, p, PutWrap, GetWrap);
    InRange(s, p);
    Successor(|s.puts|, s.n);
    FilledStore(s.arr, s.puts, |s.gots|, s.val[p]);
  }

  lemma LoadRing<T>(s: BB<T>, p: Pid)
    requires Tokens(s) && Ring(s) && Ready(s, p) && Pc(s, p) == GetLoad
    ensures Ring(StepAccess(s, p))
    ensures |s.gots| < |s.puts| && s.arr[s.head] == s.puts[|s.gots|]
  {
    hide Tokens;
    Alone(s, p, GetWrap, PutWrap);
    Alone(s, p, GetWrap, GetWrap);
    InRange(s, p);
    Successor(|s.gots|, s.n);
  }

  lemma WrapRing<T>(s: BB<T>, p: Pid)
    requires Tokens(s) && Ring(s) && (Pc(s, p) == PutWrap || Pc(s, p) == GetWrap)
    ensures Ring(StepAccess(s, p))
  {
    hide GroupsOf;
    Alone(s, p, PutMutexUp, PutWrap);
    Alone(s, p, PutMutexUp, GetWrap);
    Alone(s, p, GetMutexUp, PutWrap);
    Alone(s, p, GetMutexUp, GetWrap);
  }

  lemma DownInv<T>(s: BB<T>, p: Pid)
    requires Inv(s) && AtDown(Pc(s, p))
    ensures Inv(StepDown(s, p))
  {
    hide Tokens;
    hide Queues;
    hide Ring;
    DownTokens(s, p);
    DownQueues(s, p);
    DownRing(s, p);
  }

  lemma AccessInv<T>(s: BB<T>, p: Pid)
    requires Inv(s) && AtAccess(Pc(s, p)) && Ready(s, p)
    ensures Inv(StepAccess(s, p))
  {
    hide Tokens;
    hide Queues;
    hide Ring;
    AccessTokens(s, p);
    AccessQueues(s, p);
    match Pc(s, p)
    case PutStore => StoreRing(s, p);
    case GetLoad => LoadRing(s, p);
    case _ => WrapRing(s, p);
  }

  lemma UpInv<T>(s: BB<T>, p: Pid)
    requires Inv(s) && Pc(s, p) in {PutMutexUp, PutFullUp, GetMutexUp, GetEmptyUp}
    ensures Inv(StepUp(s, p))
  {
    hide Tokens;
    hide Queues;
    hide Ring;
    UpQueues(s, p);
    UpRing(s, p);
    UpCarried(s, p);
    match Pc(s, p)
    case PutMutexUp => PutMutexUpTokens(s, p);
    case PutFullUp => FullUpTokens(s, p);
    case GetMutexUp => GetMutexUpTokens(s, p);
    case GetEmptyUp => EmptyUpTokens(s, p);
  }

  lemma UpCarried<T>(s: BB<T>, p: Pid)
    requires Carried(s) && Queues(s) && Pc(s, p) in {PutMutexUp, PutFullUp, GetMutexUp, GetEmptyUp}
    ensures Carried(StepUp(s, p))
  {
    hide Enrolled;
    hide Up;
    WokenPlace(s.mutex, s.pc, MUTEX_WAIT);
    WokenPlace(s.nFull, s.pc, {GetFullWait});
    WokenPlace(s.nEmpty, s.pc, {PutEmptyWait});
  }

  lemma CallInv<T>(s: BB<T>, p: Pid, c: PC, s': BB<T>)
    requires Inv(s) && Pc(s, p) == Idle && (c == PutEmpty || c == GetFull)
    requires s' == Goto(s, p, c).(val := s'.val) && s.val.Keys <= s'.val.Keys && (c == PutEmpty ==> p in s'.val)
    ensures Inv(s')
  {
    hide GroupsOf;
    hide Enrolled;
    hide Ring;
    hide Anyone;
    GroupsMove(s.pc, p, c);
    Elsewhere(s, p, c);
    AnyoneElsewhere(s.pc, p, c, PutWrap);
    AnyoneElsewhere(s.pc, p, c, GetWrap);
    RingSame(s, s');
  }

  /** Every step of every process keeps the invariant, and its array accesses are in bounds. */
  lemma StepInv<T>(s: BB<T>, e: Event<T>)
    requires Inv(s) && Enabled(s, e)
    ensures Ready(s, e.p) && Inv(Step(s, e)) && Step(s, e).n == s.n
  {
    hide Inv;
    ReadyFor(s, e.p);
    match e
    case CallPut(p, v) => CallInv(s, p, PutEmpty, Step(s, e));
    case CallGet(p) => CallInv(s, p, GetFull, Step(s, e));
    case Advance(p) =>
      if AtDown(Pc(s, p)) {
        DownInv(s, p);
      } else if AtAccess(Pc(s, p)) {
        AccessInv(s, p);
      } else {
        UpInv(s, p);
      }
  }

  // ---------------------------------------------------------------- all runs

  /** A run of the system; an event that cannot happen yet changes nothing. */
  ghost function Run<T>(s: BB<T>, es: seq<Event<T>>): BB<T>
    requires Inv(s)
    decreases |es|
  {
    if es == [] then s
    else if Enabled(s, es[0]) then
      StepInv(s, es[0]);
      Run(Step(s, es[0]), es[1..])
    else Run(s, es[1..])
  }

  lemma {:induction false} RunInv<T>(s: BB<T>, es: seq<Event<T>>)
    requires Inv(s)
    ensures Inv(Run(s, es)) && Run(s, es).n == s.n
    decreases |es|
  {
    hide Inv;
    hide Step;
    hide Enabled;
    if es == [] {
    } else if Enabled(s, es[0]) {
      StepInv(s, es[0]);
      RunInv(Step(s, es[0]), es[1..]);
    } else {
      RunInv(s, es[1..]);
    }
  }

  /** After any run of any number of processes, the values got are a prefix of the values put, between 0
      and n values lie in the buffer, and every one of them, and every free place, has its token. */
  lemma Fifo<T>(arr: seq<T>, es: seq<Event<T>>)
    requires arr != []
    ensures Inv(Initial(arr))
    ensures var s := Run(Initial(arr), es);
            && s.gots <= s.puts && 0 <= Occupancy(s) <= |arr|
            && Occupancy(s) == s.nFull.count + Count(s.pc, STORED) + Count(s.pc, FULL_HELD)
            && |arr| - Occupancy(s) == s.nEmpty.count + Count(s.pc, LOADED) + Count(s.pc, EMPTY_HELD)
  {
    InitialInv(arr);
    RunInv(Initial(arr), es);
    var s := Run(Initial(arr), es);
    InRange(s, 0);
  }

  /** Two processes are never in the critical section. */
  lemma MutualExclusion<T>(arr: seq<T>, es: seq<Event<T>>, p: Pid, q: Pid)
    requires arr != [] && Inv(Initial(arr))
    requires var s := Run(Initial(arr), es); Pc(s, p) in CRITICAL && Pc(s, q) in CRITICAL
    ensures p == q
  {
    hide Tokens;
    RunInv(Initial(arr), es);
    CriticalOne(Run(Initial(arr), es), p, q);
  }

  /** A value carried stays, and a process moves only when it is handed the token it waits for. */
  ghost predicate Untouched<T>(s: BB<T>, s': BB<T>, q: Pid) {
    && (q in s.val ==> q in s'.val && s'.val[q] == s.val[q])
    && (Pc(s', q) == Pc(s, q) || (Waits(Pc(s, q)) && Pc(s', q) == Granted(Pc(s, q))))
  }

  lemma UpUntouched<T>(s: BB<T>, p: Pid, q: Pid)
    requires Queues(s) && Pc(s, p) in {PutMutexUp, PutFullUp, GetMutexUp, GetEmptyUp} && q != p
    ensures Untouched(s, StepUp(s, p), q)
  {
    hide Enrolled;
    hide Up;
    WokenPlace(s.mutex, s.pc, MUTEX_WAIT);
    WokenPlace(s.nFull, s.pc, {GetFullWait});
    WokenPlace(s.nEmpty, s.pc, {PutEmptyWait});
  }

  /** A step of one process leaves the value another one carries, and its place unless it hands it the
      token it waits for. So the value a put stores is the one it was called with, and the value a get
      returns is the one it loaded. */
  lemma OthersKeep<T>(s: BB<T>, e: Event<T>, q: Pid)
    requires Inv(s) && Enabled(s, e) && Ready(s, e.p) && q != e.p
    ensures Untouched(s, Step(s, e), q)
  {
    hide Tokens;
    hide Ring;
    hide Enrolled;
    hide Carried;
    hide StepUp;
    hide Down;
    if e.Advance? && !AtDown(Pc(s, e.p)) && !AtAccess(Pc(s, e.p)) {
      UpUntouched(s, e.p, q);
    }
  }

  // ---------------------------------------------------------------- the values of the callers

  const CARRIES: set<PC> := {PutEmpty, PutEmptyWait, PutMutex, PutMutexWait, PutStore}

  /** The value of the last put that p has called, and the value that p has loaded last. */
  datatype Calls<T> = Calls(given: Option<T>, loaded: Option<T>)

  ghost function Noted<T>(s: BB<T>, e: Event<T>, p: Pid, c: Calls<T>): Calls<T>
    requires Inv(s)
  {
    if e.CallPut? && e.p == p then c.(given := Some(e.v))
    else if e == Advance(p) && Pc(s, p) == GetLoad && |s.gots| < |s.puts| then c.(loaded := Some(s.puts[|s.gots|]))
    else c
  }

  ghost function NotedIn<T>(s: BB<T>, es: seq<Event<T>>, p: Pid, c: Calls<T>): Calls<T>
    requires Inv(s)
    decreases |es|
  {
    if es == [] then c
    else if Enabled(s, es[0]) then
      StepInv(s, es[0]);
      NotedIn(Step(s, es[0]), es[1..], p, Noted(s, es[0], p, c))
    else NotedIn(s, es[1..], p, c)
  }

  /** A process that is about to store carries the value of its call; one that has loaded, the value that
      it loaded. */
  ghost predicate Carries<T>(s: BB<T>, p: Pid, c: Calls<T>) {
    && (Pc(s, p) in CARRIES ==> p in s.val && c.given == Some(s.val[p]))
    && (Pc(s, p) in LOADED ==> p in s.val && c.loaded == Some(s.val[p]))
  }

  lemma CarriesStep<T>(s: BB<T>, e: Event<T>, p: Pid, c: Calls<T>)
    requires Inv(s) && Enabled(s, e) && Ready(s, e.p) && Carries(s, p, c)
    ensures Carries(Step(s, e), p, Noted(s, e, p, c))
  {
    hide Inv;
    hide StepUp;
    hide StepDown;
    hide StepAccess;
    if e.p != p {
      OthersKeep(s, e, p);
    } else if e.Advance? {
      if AtDown(Pc(s, p)) {
        CarriesDown(s, p, c);
      } else if AtAccess(Pc(s, p)) {
        CarriesAccess(s, p, c);
      } else {
        CarriesUp(s, p, c);
      }
    }
  }

  lemma CarriesDown<T>(s: BB<T>, p: Pid, c: Calls<T>)
    requires Inv(s) && Ready(s, p) && Enabled(s, Advance(p)) && AtDown(Pc(s, p)) && Carries(s, p, c)
    ensures Carries(StepDown(s, p), p, c)
  {
    hide Tokens;
    hide Queues;
    hide Ring;
    hide Carried;
    hide Down;
  }

  lemma CarriesAccess<T>(s: BB<T>, p: Pid, c: Calls<T>)
    requires Inv(s) && Ready(s, p) && Enabled(s, Advance(p)) && AtAccess(Pc(s, p)) && Carries(s, p, c)
    ensures Carries(StepAccess(s, p), p, Noted(s, Advance(p), p, c))
  {
    hide Tokens;
    hide Queues;
    hide Ring;
    hide Carried;
    if Pc(s, p) == GetLoad {
      LoadRing(s, p);
    }
  }

  lemma CarriesUp<T>(s: BB<T>, p: Pid, c: Calls<T>)
    requires Inv(s) && Ready(s, p) && Enabled(s, Advance(p)) && !AtDown(Pc(s, p)) && !AtAccess(Pc(s, p))
    requires Carries(s, p, c)
    ensures Carries(StepUp(s, p), p, c)
  {
    hide Tokens;
    hide Queues;
    hide Ring;
    hide Carried;
    hide StepUp;
    UpPlace(s, p);
  }

  /** After up a process is past it, in no place where it carries a value it has not loaded. */
  lemma UpPlace<T>(s: BB<T>, p: Pid)
    requires Queues(s) && Pc(s, p) in {PutMutexUp, PutFullUp, GetMutexUp, GetEmptyUp}
    ensures Pc(StepUp(s, p), p) == match Pc(s, p)
                                   case PutMutexUp => PutFullUp
                                   case GetMutexUp => GetEmptyUp
                                   case _ => Idle
    ensures StepUp(s, p).val == s.val
  {
    hide Enrolled;
    hide Up;
    WokenPlace(s.mutex, s.pc, MUTEX_WAIT);
    WokenPlace(s.nFull, s.pc, {GetFullWait});
    WokenPlace(s.nEmpty, s.pc, {PutEmptyWait});
  }

  /** Over every run: what a put stores is the value it was called with, and what a get returns is the
      value that it loaded, the oldest one in the buffer at that time. */
  lemma {:induction false} ValuesPass<T>(s: BB<T>, es: seq<Event<T>>, p: Pid, c: Calls<T>)
    requires Inv(s) && Carries(s, p, c)
    ensures Carries(Run(s, es), p, NotedIn(s, es, p, c))
    decreases |es|
  {
    hide Inv;
    hide Step;
    hide Enabled;
    hide Carries;
    hide Noted;
    if es == [] {
    } else if Enabled(s, es[0]) {
      StepInv(s, es[0]);
      CarriesStep(s, es[0], p, c);
      ValuesPass(Step(s, es[0]), es[1..], p, Noted(s, es[0], p, c));
    } else {
      ValuesPass(s, es[1..], p, c);
    }
  }

  ghost predicate AllWaitAt(pc: map<Pid, PC>, c: PC) {
    forall p :: p in pc && pc[p] != Idle ==> pc[p] == c
  }

  ghost predicate AllWait(pc: map<Pid, PC>) {
    forall p :: p in pc && pc[p] != Idle ==> Waits(pc[p])
  }

  lemma NoneAt(pc: map<Pid, PC>, places: set<PC>)
    requires forall p :: p in pc ==> pc[p] !in places
    ensures Count(pc, places) == 0
  {
  }

  lemma NobodyWaits(q: Sem, pc: map<Pid, PC>, places: set<PC>)
    requires Enrolled(q, pc, places) && 0 < q.count
    ensures forall p :: p in pc ==> pc[p] !in places
  {
  }

  /** The system never gets stuck: if no call in progress can go on, then all of them are gets and the
      buffer is empty, or all of them are puts and it is full. */
  lemma NeverStuck<T>(s: BB<T>)
    requires Inv(s) && AllWait(s.pc)
    ensures (Occupancy(s) == 0 && AllWaitAt(s.pc, GetFullWait))
            || (Occupancy(s) == s.n && AllWaitAt(s.pc, PutEmptyWait))
         || AllWaitAt(s.pc, Idle)
  {
    hide Count;
    hide Enrolled;
    hide Carried;
    NoneAt(s.pc, CRITICAL);
    NobodyWaits(s.mutex, s.pc, MUTEX_WAIT);
    NoneAt(s.pc, STORED);
    NoneAt(s.pc, LOADED);
    NoneAt(s.pc, EMPTY_HELD);
    NoneAt(s.pc, FULL_HELD);
    if 0 < s.nFull.count {
      NobodyWaits(s.nFull, s.pc, {GetFullWait});
    }
    if 0 < s.nEmpty.count {
      NobodyWaits(s.nEmpty, s.pc, {PutEmptyWait});
    }
  }

  // ---------------------------------------------------------------- the fields in place

  /** The array and the two indices of kernel/bb.h:11-14, changed in place. */
  class Buffer<T> {
    const n: int
    const arr: array<T>
    var head: int
    var tail: int

    ghost predicate Stands(s: BB<T>)
      reads this, arr
    {
      n == s.n && arr[..] == s.arr && head == s.head && tail == s.tail
    }

    constructor (n: nat, v: T)
      ensures fresh(arr) && Stands(Initial(arr[..])) && arr.Length == n
    {
      this.n := n;
      arr := new T[n](_ => v);
      head, tail := 0, 0;
    }

    /** The access of put, by a process that stands there in any state of a run. */
    method Store(v: T, ghost s: BB<T>, ghost p: Pid)
      requires Inv(s) && Stands(s) && Pc(s, p) == PutStore
      requires p in s.val && s.val[p] == v
      modifies this`tail, arr
      ensures Ready(s, p) && Stands(Step(s, Advance(p)))
    {
      hide Tokens;
      hide Queues;
      ReadyFor(s, p);
      arr[tail] := v;
      tail := tail + 1;
    }

    method WrapTail(ghost s: BB<T>, ghost p: Pid)
      requires Inv(s) && Stands(s) && Pc(s, p) == PutWrap
      modifies this`tail
      ensures Ready(s, p) && Stands(Step(s, Advance(p)))
    {
      hide Inv;
      if tail == n {
        tail := 0;
      }
    }

    method Load(ghost s: BB<T>, ghost p: Pid) returns (v: T)
      requires Inv(s) && Stands(s) && Pc(s, p) == GetLoad
      modifies this`head
      ensures Ready(s, p) && Stands(Step(s, Advance(p))) && Step(s, Advance(p)).val[p] == v
      ensures |s.gots| < |s.puts| && v == s.puts[|s.gots|]
    {
      hide Tokens;
      hide Queues;
      ReadyFor(s, p);
      InRange(s, p);
      LoadRing(s, p);
      v := arr[head];
      head := head + 1;
    }

    method WrapHead(ghost s: BB<T>, ghost p: Pid)
      requires Inv(s) && Stands(s) && Pc(s, p) == GetWrap
      modifies this`head
      ensures Ready(s, p) && Stands(Step(s, Advance(p)))
    {
      hide Inv;
      if head == n {
        head := 0;
      }
    }
  }
}
