/** What each event of the process layer achieves, in terms of the queues, the states, the counts and the
    flag alone. */
module SchedulerEffects {
  import opened Collections
  import opened Semaphores
  import opened SchedulerModel
  import opened SchedulerProofs
  import opened SchedulerTheorems

  /** A process keeps its state and its interrupt account. */
  ghost predicate Kept(k: Kernel, k': Kernel, p: Pid) {
    && p < |k.state| == |k.disable| == |k.iDepth| && p < |k'.state| == |k'.disable| == |k'.iDepth|
    && k'.state[p] == k.state[p] && k'.disable[p] == k.disable[p] && k'.iDepth[p] == k.iDepth[p]
  }

  /** All processes but those of except are kept, and no other has gone. */
  ghost predicate OthersKept(k: Kernel, k': Kernel, except: set<Pid>) {
    |k.state| <= |k'.state| && forall p: Pid :: p < |k.state| && p !in except ==> Kept(k, k', p)
  }

  ghost predicate SameProcesses(k: Kernel, k': Kernel, except: set<Pid>) {
    OthersKept(k, k', except) && |k'.state| == |k.state| && k'.current == k.current && k'.idle == k.idle
  }

  /** The processes, the queues and the clock are as they were. */
  ghost predicate SameQueues(k: Kernel, k': Kernel) {
    && k'.ready == k.ready && k'.reaper == k.reaper && k'.sems == k.sems
    && k'.timers == k.timers && k'.jiffies == k.jiffies
  }

  ghost predicate AccountIs(k: Kernel, p: Pid, disable: int, iDepth: int) {
    p < |k.disable| == |k.iDepth| && k.disable[p] == disable && k.iDepth[p] == iDepth
  }

  function CountAt(s: seq<nat>, p: Pid): nat {
    if p < |s| then s[p] else 0
  }

  // ---------------------------------------------------------------- the switch

  /** The head of the ready queue runs, or the idle process, made now if there was none: with interrupts on
      if it is in no region. */
  ghost predicate Runs(k: Kernel, k': Kernel, ready: seq<Pid>) {
    && k'.current.Some?
    && var q := k'.current.value;
       && q < |k'.state| == |k'.disable| == |k'.iDepth| && k'.state[q] == RUNNING && (k'.on <==> k'.disable[q] == 0)
       && (if ready != [] then
             q == ready[0] && k'.ready == ready[1..] && k'.idle == k.idle && |k'.state| == |k.state|
           else if k.idle.Some? then
             k'.idle == k.idle == Some(q) && k'.ready == [] && |k'.state| == |k.state|
           else
             && k'.idle == Some(q) && q == |k.state| && k'.ready == [] && |k'.state| == |k.state| + 1
             && AccountIs(k', q, 0, 0))
       && (q < |k.state| && k.current != Some(q) ==> CountAt(k'.disable, q) == CountAt(k.disable, q)
                                                     && CountAt(k'.iDepth, q) == CountAt(k.iDepth, q))
  }

  /** The process that ran has got this state, unless it runs again, and is so many regions deeper. */
  ghost predicate Leaves(k: Kernel, k': Kernel, state: State, regions: nat) {
    && k.current.Some? && k'.current.Some?
    && var p := k.current.value;
       && p < |k'.state| && (k'.current != Some(p) ==> k'.state[p] == state)
       && AccountIs(k', p, CountAt(k.disable, p) + regions, CountAt(k.iDepth, p))
       && OthersKept(k, k', {p, k'.current.value})
  }

  // ---------------------------------------------------------------- timers

  /** Those who wait for a tick, in the order in which they came. */
  function WaitersAt(timers: seq<Timer>, t: nat): seq<Pid> {
    if timers == [] then [] else if timers[0].target == t then timers[0].waiting else WaitersAt(timers[1..], t)
  }

  /** The targets for which there is a timer. */
  ghost predicate Pending(timers: seq<Timer>, t: nat) {
    exists i :: 0 <= i < |timers| && timers[i].target == t
  }

  // ---------------------------------------------------------------- every event

  ghost predicate Effect(k: Kernel, e: Event, k': Kernel) {
    match e
    case Disable =>
      && !k'.on && SameQueues(k, k') && SameProcesses(k, k', if k.current.Some? then {k.current.value} else {})
      && (k.current.Some? ==> var p := k.current.value;
            p < |k'.state| == |k.state| && k'.state[p] == k.state[p]
            && AccountIs(k', p, CountAt(k.disable, p) + 1, CountAt(k.iDepth, p)))
    case Enable =>
      && SameQueues(k, k') && SameProcesses(k, k', if k.current.Some? then {k.current.value} else {})
      && (k.current.None? ==> k'.on == k.on)
      && (k.current.Some? ==> var p := k.current.value;
            && p < |k'.state| == |k.state| && k'.state[p] == k.state[p]
            && AccountIs(k', p, CountAt(k.disable, p) - 1, CountAt(k.iDepth, p))
            && (k'.on <==> CountAt(k.disable, p) == 1))
    case Start =>
      && k'.current == k.current && k'.idle == k.idle && k'.on == k.on && Born(k, k')
      && k'.ready == k.ready + [|k.state|] && SameQueues(k.(ready := k'.ready), k')
    case StartIdle =>
      k'.current == k.current && k'.idle == Some(|k.state|) && k'.on == k.on && Born(k, k') && SameQueues(k, k')
    case NewSem(count) =>
      && SameProcesses(k, k', {}) && k'.on == k.on && SameQueues(k.(sems := k'.sems), k')
      && k'.sems == k.sems + [Sem(count, [])]
    case Yield =>
      && SameQueues(k.(ready := k'.ready), k')
      && (if k.current.None? then Runs(k, k', k.ready) && OthersKept(k, k', {k'.current.value})
          else
            && Runs(k, k', if k.current == k.idle then k.ready else k.ready + [k.current.value])
            && Leaves(k, k', READY, 1))
    case DownOn(s) =>
      && s < |k.sems|
      && if k.sems[s].count != 0 then
           && SameProcesses(k, k', {}) && k'.on == k.on && SameQueues(k.(sems := k'.sems), k')
           && k'.sems == k.sems[s := Sem(k.sems[s].count - 1, k.sems[s].waiting)]
         else
           && Runs(k, k', k.ready) && Leaves(k, k', BLOCKED, 2)
           && SameQueues(k.(sems := k'.sems, ready := k'.ready), k')
           && k'.sems == k.sems[s := Sem(0, k.sems[s].waiting + [k.current.value])]
    case UpOn(s) =>
      && s < |k.sems| && k'.on == k.on
      && if k.sems[s].waiting == [] then
           && SameProcesses(k, k', {}) && SameQueues(k.(sems := k'.sems), k')
           && k'.sems == k.sems[s := Sem(k.sems[s].count + 1, [])]
         else
           var p := k.sems[s].waiting[0];
           && SameProcesses(k, k', {p}) && Kept(k, k'.(state := k.state), p) && k'.state[p] == READY
           && SameQueues(k.(sems := k'.sems, ready := k'.ready), k')
           && k'.sems == k.sems[s := Sem(k.sems[s].count, k.sems[s].waiting[1..])] && k'.ready == k.ready + [p]
    case SleepTo(t) =>
      if t <= k.jiffies then k' == k
      else
        && Runs(k, k', k.ready) && Leaves(k, k', BLOCKED, 2)
        && SameQueues(k.(timers := k'.timers, ready := k'.ready), k')
        && (forall u: nat :: WaitersAt(k'.timers, u)
                             == WaitersAt(k.timers, u) + if u == t then [k.current.value] else [])
        && (forall u: nat :: Pending(k'.timers, u) <==> Pending(k.timers, u) || u == t)
    case Exit =>
      && Runs(k, k', k.ready) && Leaves(k, k', TERMINATED, 1) && k'.current != k.current
      && SameQueues(k.(reaper := k'.reaper, ready := k'.ready), k') && k'.reaper == k.reaper + [k.current.value]
    case Interrupt(timer) =>
      && k.current.Some? && !k'.on
      && var p := k.current.value;
         && AccountIs(k', p, 1, CountAt(k.iDepth, p) + 1) && k'.reaper == k.reaper && k'.sems == k.sems
         && var due := if timer then WaitersAt(k.timers, Clock(k.jiffies)) else [];
            && k'.ready == k.ready + due && (timer || k'.timers == k.timers)
            && k'.jiffies == (if timer then (k.jiffies + 1) % 0x1_0000_0000 else k.jiffies)
            && (timer ==> forall u: nat ::
                  && WaitersAt(k'.timers, u) == (if u == Clock(k.jiffies) then [] else WaitersAt(k.timers, u))
                  && (Pending(k'.timers, u) <==> Pending(k.timers, u) && u != Clock(k.jiffies)))
            && k'.current == k.current && k'.idle == k.idle && |k'.state| == |k.state|
            && forall q: Pid :: q < |k.state| ==>
                 && k'.state[q] == (if q in due then READY else k.state[q])
                 && (q != p ==> CountAt(k'.disable, q) == CountAt(k.disable, q)
                                && CountAt(k'.iDepth, q) == CountAt(k.iDepth, q))
    case EndInterrupt =>
      && k.current.Some? && k'.on && SameQueues(k, k') && SameProcesses(k, k', {k.current.value})
      && var p := k.current.value;
         && p < |k'.state| == |k.state| && k'.state[p] == k.state[p]
         && AccountIs(k', p, 0, CountAt(k.iDepth, p) - 1)
    case Reap =>
      && SameProcesses(k, k', {}) && k'.on == k.on && SameQueues(k.(reaper := k'.reaper), k')
      && k'.reaper == if k.reaper == [] then [] else k.reaper[1..]
  }

  /** One process more, ready, in no region. */
  ghost predicate Born(k: Kernel, k': Kernel) {
    && OthersKept(k, k', {}) && |k'.state| == |k.state| + 1
    && k'.state[|k.state|] == READY && AccountIs(k', |k.state|, 0, 0)
  }

  lemma EveryEffect(k: Kernel, e: Event)
    requires Inv(k) && Enabled(k, e)
    ensures Effect(k, e, Step(k, e))
  {
    hide Inv;
    hide Enabled;
    hide Step;
    hide Effect;
    match e
    case Yield => YieldEffect(k);
    case DownOn(s) => DownEffect(k, s);
    case UpOn(s) => UpEffect(k, s);
    case SleepTo(t) => SleepEffect(k, t);
    case Exit => ExitEffect(k);
    case Interrupt(timer) => InterruptEffect(k, timer);
    case _ => SmallEffect(k, e);
  }

  lemma SmallEffect(k: Kernel, e: Event)
    requires Inv(k) && Enabled(k, e)
    requires e.Disable? || e.Enable? || e.Start? || e.StartIdle? || e.NewSem? || e.EndInterrupt? || e.Reap?
    ensures Effect(k, e, Step(k, e))
  {
    hide Inv;
    hide Step;
    hide Effect;
    hide Enabled;
    match e
    case Disable => DisableEffect(k);
    case Enable => EnableEffect(k);
    case Start => StartEffect(k);
    case StartIdle => StartIdleEffect(k);
    case NewSem(count) => NewSemEffect(k, count);
    case EndInterrupt => EndInterruptEffect(k);
    case _ => ReapEffect(k);
  }

  lemma DisableEffect(k: Kernel)
    requires Inv(k) && Enabled(k, Event.Disable)
    ensures Effect(k, Event.Disable, Step(k, Event.Disable))
  {
    hide AllCounted;
    hide Placed;
    hide Ahead;
    NoPanic(k, Event.Disable);
  }

  lemma EnableEffect(k: Kernel)
    requires Inv(k) && Enabled(k, Event.Enable)
    ensures Effect(k, Event.Enable, Step(k, Event.Enable))
  {
    hide AllCounted;
    hide Placed;
    hide Ahead;
    NoPanic(k, Event.Enable);
  }

  lemma StartEffect(k: Kernel)
    requires Inv(k) && Enabled(k, Event.Start)
    ensures Effect(k, Event.Start, Step(k, Event.Start))
  {
    hide AllCounted;
    hide Placed;
    hide Ahead;
    NoPanic(k, Event.Start);
  }

  lemma StartIdleEffect(k: Kernel)
    requires Inv(k) && Enabled(k, Event.StartIdle)
    ensures Effect(k, Event.StartIdle, Step(k, Event.StartIdle))
  {
    hide AllCounted;
    hide Placed;
    hide Ahead;
    NoPanic(k, Event.StartIdle);
  }

  lemma NewSemEffect(k: Kernel, count: int)
    requires Inv(k) && Enabled(k, NewSem(count))
    ensures Effect(k, NewSem(count), Step(k, NewSem(count)))
  {
    hide AllCounted;
    hide Placed;
    hide Ahead;
    NoPanic(k, NewSem(count));
  }

  lemma EndInterruptEffect(k: Kernel)
    requires Inv(k) && Enabled(k, EndInterrupt)
    ensures Effect(k, EndInterrupt, Step(k, EndInterrupt))
  {
    hide AllCounted;
    hide Placed;
    hide Ahead;
    NoPanic(k, EndInterrupt);
  }

  lemma ReapEffect(k: Kernel)
    requires Inv(k) && Enabled(k, Event.Reap)
    ensures Effect(k, Event.Reap, Step(k, Event.Reap))
  {
    hide AllCounted;
    hide Ahead;
    hide AllSit;
    hide SemsFiled;
    hide TimersFiled;
    hide AllExist;
    if k.reaper != [] {
      assert k.reaper[0] in k.reaper;
    }
  }

  // ---------------------------------------------------------------- switches

  /** From a state without a current process the next one runs. */
  ghost predicate Picks(m: Kernel, k': Kernel) {
    && m.current.None? && Runs(m, k', m.ready)
    && OthersKept(m, k', {k'.current.value}) && SameQueues(m.(ready := k'.ready), k')
  }

  lemma NextPicks(m: Kernel)
    requires Sized(m) && m.current.None?
    ensures Picks(m, Next(m))
  {
  }

  /** The current process has stopped. */
  ghost predicate Stopped(k: Kernel, m: Kernel, state: State, regions: nat) {
    && k.current.Some? && m.current.None? && m.idle == k.idle && |m.state| == |k.state|
    && var p := k.current.value;
       && p < |m.state| && m.state[p] == state && OthersKept(k, m, {p})
       && AccountIs(m, p, CountAt(k.disable, p) + regions, CountAt(k.iDepth, p))
  }

  lemma ParkedStops(k: Kernel, place: Place)
    requires Sized(k) && k.current.Some?
    ensures Stopped(k, Parked(k, place), StateFor(place), 1) && Sized(Parked(k, place))
  {
    hide Inserted;
    ParkedSized(k, place);
  }

  lemma BlockedStops(k: Kernel, place: Place)
    requires Sized(k) && k.current.Some?
    ensures Sized(Entered(k)) && Entered(k).current == k.current
    ensures Stopped(k, Parked(Entered(k), place), StateFor(place), 2) && Sized(Parked(Entered(k), place))
  {
    hide Inserted;
    EnteredSized(k);
    ParkedSized(Entered(k), place);
  }

  lemma Switches(k: Kernel, m: Kernel, k': Kernel, state: State, regions: nat)
    requires Stopped(k, m, state, regions) && Picks(m, k')
    ensures Runs(k, k', m.ready) && Leaves(k, k', state, regions)
  {
    var p, q := k.current.value, k'.current.value;
    if p != q {
      assert Kept(m, k', p);
    }
    if q < |k.state| && p != q {
      assert Kept(k, m, q);
    }
    forall r: Pid | r < |k.state| && r !in {p, q}
      ensures Kept(k, k', r)
    {
      assert Kept(k, m, r) && Kept(m, k', r);
    }
  }

  lemma YieldEffect(k: Kernel)
    requires Inv(k) && Enabled(k, Yield)
    ensures Effect(k, Yield, Step(k, Yield))
  {
    hide Placed;
    hide Ahead;
    hide AllCounted;
    hide Parked;
    hide Next;
    hide Picks;
    hide Stopped;
    hide Leaves;
    hide Runs;
    if k.current.None? {
      assert k.(on := false) == k;
      NextPicks(k);
      PickedAlone(k, Next(k));
    } else {
      var place := if k.current == k.idle then Resting else InReady;
      ParkedStops(k, place);
      var m := Parked(k, place);
      StoppedAlone(k, m, READY, 1);
      NextPicks(m);
      Switches(k, m, Next(m), READY, 1);
      ParkedQueues(k, place);
      PickedQueues(m, Next(m));
    }
  }

  lemma PickedAlone(m: Kernel, k': Kernel)
    requires Picks(m, k')
    ensures Runs(m, k', m.ready) && k'.current.Some? && OthersKept(m, k', {k'.current.value})
    ensures SameQueues(m.(ready := k'.ready), k')
  {
  }

  lemma PickedQueues(m: Kernel, k': Kernel)
    requires Picks(m, k')
    ensures SameQueues(m.(ready := k'.ready), k')
  {
  }

  lemma StoppedAlone(k: Kernel, m: Kernel, state: State, regions: nat)
    requires Stopped(k, m, state, regions)
    ensures m.current.None?
  {
  }

  /** Stopping changes one queue. */
  lemma ParkedQueues(k: Kernel, place: Place)
    requires Sized(k) && k.current.Some?
    ensures var m, p := Parked(k, place), k.current.value;
            match place
            case InReady => SameQueues(k.(ready := k.ready + [p]), m)
            case InReaper => SameQueues(k.(reaper := k.reaper + [p]), m)
            case OnSem(s) =>
              s < |k.sems| ==> SameQueues(k.(sems := k.sems[s := Sem(k.sems[s].count, k.sems[s].waiting + [p])]), m)
            case Sleeping(t) => SameQueues(k.(timers := Inserted(k.timers, t, p)), m)
            case _ => SameQueues(k, m)
  {
    hide Inserted;
  }

  lemma EnteredQueues(k: Kernel)
    requires Sized(k)
    ensures SameQueues(k, Entered(k)) && Sized(Entered(k)) && Entered(k).current == k.current
  {
  }

  lemma BlockedEffect(k: Kernel, place: Place)
    requires Sized(k) && k.current.Some? && (place.Sleeping? || (place.OnSem? && place.sem < |k.sems|))
    ensures Sized(Entered(k)) && Entered(k).current == k.current && Sized(Parked(Entered(k), place))
    ensures var k' := Blocked(k, place);
            && Runs(k, k', k.ready) && Leaves(k, k', BLOCKED, 2)
            && SameQueues(Parked(Entered(k), place).(ready := k'.ready), k')
  {
    hide Parked;
    hide Next;
    hide Picks;
    hide Stopped;
    hide Leaves;
    hide Runs;
    BlockedStops(k, place);
    var m := Parked(Entered(k), place);
    StoppedAlone(k, m, BLOCKED, 2);
    NextPicks(m);
    Switches(k, m, Next(m), BLOCKED, 2);
    EnteredQueues(k);
    ParkedQueues(Entered(k), place);
    PickedQueues(m, Next(m));
  }

  lemma DownEffect(k: Kernel, s: nat)
    requires Inv(k) && Enabled(k, DownOn(s))
    ensures Effect(k, DownOn(s), Step(k, DownOn(s)))
  {
    hide Placed;
    hide Ahead;
    hide AllCounted;
    hide Parked;
    hide Blocked;
    hide Leaves;
    hide Runs;
    if !Passes(k.sems[s]) {
      BlockedEffect(k, OnSem(s));
      EnteredQueues(k);
      ParkedQueues(Entered(k), OnSem(s));
    }
  }

  lemma UpEffect(k: Kernel, s: nat)
    requires Inv(k) && Enabled(k, UpOn(s))
    ensures Effect(k, UpOn(s), Step(k, UpOn(s)))
  {
    hide AllCounted;
    hide TimersFiled;
    hide AllExist;
    hide Ahead;
    hide Rising;
    assert SemFiled(k.sems[s], k.place, s);
    if k.sems[s].waiting != [] {
      assert k.sems[s].waiting[0] in k.sems[s].waiting;
    }
  }

  lemma SleepEffect(k: Kernel, t: nat)
    requires Inv(k) && Enabled(k, SleepTo(t))
    ensures Effect(k, SleepTo(t), Step(k, SleepTo(t)))
  {
    hide Placed;
    hide Ahead;
    hide AllCounted;
    hide Parked;
    hide Blocked;
    hide Leaves;
    hide Runs;
    hide Inserted;
    hide WaitersAt;
    hide Pending;
    if k.jiffies < t {
      BlockedEffect(k, Sleeping(t));
      EnteredQueues(k);
      ParkedQueues(Entered(k), Sleeping(t));
      RisingOf(k);
      forall u: nat
        ensures WaitersAt(Inserted(k.timers, t, k.current.value), u)
             == WaitersAt(k.timers, u) + if u == t then [k.current.value] else []
        ensures Pending(Inserted(k.timers, t, k.current.value), u) <==> Pending(k.timers, u) || u == t
      {
        InsertedWaiters(k.timers, t, k.current.value, u);
      }
    }
  }

  lemma RisingOf(k: Kernel)
    requires Placed(k)
    ensures Rising(k.timers)
  {
  }

  /** The timer with a target is the one that is found. */
  lemma {:induction false} WaitersIs(timers: seq<Timer>, i: nat)
    requires Rising(timers) && i < |timers|
    ensures WaitersAt(timers, timers[i].target) == timers[i].waiting
    decreases i
  {
    if i > 0 {
      RisingTail(timers);
      WaitersIs(timers[1..], i - 1);
      assert timers[0].target < timers[i].target;
    }
  }

  lemma {:induction false} WaitersNone(timers: seq<Timer>, u: nat)
    requires !Pending(timers, u)
    ensures WaitersAt(timers, u) == []
    decreases |timers|
  {
    if timers != [] {
      assert timers[0].target != u;
      assert forall i :: 0 <= i < |timers[1..]| ==> timers[1..][i] == timers[i + 1];
      WaitersNone(timers[1..], u);
    }
  }

  lemma RisingTail(timers: seq<Timer>)
    requires Rising(timers) && timers != []
    ensures Rising(timers[1..])
  {
  }

  /** Whether there is a timer for t already. */
  predicate There(timers: seq<Timer>, t: nat) {
    var n := Position(timers, t);
    n < |timers| && timers[n].target == t
  }

  lemma InsertedParts(timers: seq<Timer>, t: nat, p: Pid)
    ensures var r, n, there := Inserted(timers, t, p), Position(timers, t), There(timers, t);
            && n < |r| && r[n] == Timer(t, (if there then timers[n].waiting else []) + [p])
            && (forall i :: 0 <= i < |timers| && !(there && i == n) ==> timers[i] in r)
            && (forall j :: 0 <= j < |r| && j != n ==> r[j] in timers)
  {
    hide Inserted;
    InsertedShape(timers, t, p);
    var r, n, there := Inserted(timers, t, p), Position(timers, t), There(timers, t);
    forall i | 0 <= i < |timers| && !(there && i == n)
      ensures timers[i] in r
    {
      assert r[if there || i < n then i else i + 1] == timers[i];
    }
    forall j | 0 <= j < |r| && j != n
      ensures r[j] in timers
    {
      assert r[j] == timers[if there || j < n then j else j - 1];
    }
  }

  lemma InsertedShape(timers: seq<Timer>, t: nat, p: Pid)
    ensures var r, n, there := Inserted(timers, t, p), Position(timers, t), There(timers, t);
            && |r| == (if there then |timers| else |timers| + 1)
            && r[n] == Timer(t, (if there then timers[n].waiting else []) + [p])
            && (forall j :: 0 <= j < |r| && j != n ==> r[j] == timers[if there || j < n then j else j - 1])
  {
    hide Position;
    var n := Position(timers, t);
    if !There(timers, t) {
      Between(timers, Timer(t, [p]), n);
      assert [] + [p] == [p];
    }
  }

  lemma Between<T>(a: seq<T>, x: T, n: nat)
    requires n <= |a|
    ensures var r := a[..n] + [x] + a[n..];
            |r| == |a| + 1 && r[n] == x && forall j :: 0 <= j < |r| && j != n ==> r[j] == a[if j < n then j else j - 1]
  {
  }

  lemma NotThere(timers: seq<Timer>, t: nat)
    requires Rising(timers)
    ensures There(timers, t) <==> Pending(timers, t)
  {
    var n := Position(timers, t);
    if Pending(timers, t) {
      var i :| 0 <= i < |timers| && timers[i].target == t;
      assert n <= i;
    }
  }

  /** Timers with the same target are the same. */
  lemma WaitersIn(timers: seq<Timer>, x: Timer)
    requires Rising(timers) && x in timers
    ensures WaitersAt(timers, x.target) == x.waiting && Pending(timers, x.target)
  {
    var i :| 0 <= i < |timers| && timers[i] == x;
    WaitersIs(timers, i);
  }

  lemma InsertedWaiters(timers: seq<Timer>, t: nat, p: Pid, u: nat)
    requires Rising(timers)
    ensures WaitersAt(Inserted(timers, t, p), u) == WaitersAt(timers, u) + if u == t then [p] else []
    ensures Pending(Inserted(timers, t, p), u) <==> Pending(timers, u) || u == t
  {
    hide WaitersAt;
    hide Inserted;
    hide Rising;
    InsertedRising(timers, t, p);
    InsertedParts(timers, t, p);
    NotThere(timers, t);
    var r, n := Inserted(timers, t, p), Position(timers, t);
    if u == t {
      WaitersIs(r, n);
      if There(timers, t) {
        WaitersIs(timers, n);
      } else {
        WaitersNone(timers, t);
      }
    } else if Pending(timers, u) {
      var i :| 0 <= i < |timers| && timers[i].target == u;
      WaitersIs(timers, i);
      WaitersIn(r, timers[i]);
    } else {
      WaitersNone(timers, u);
      WaitersNone(r, u);
    }
  }

  lemma ExitEffect(k: Kernel)
    requires Inv(k) && Enabled(k, Event.Exit)
    ensures Effect(k, Event.Exit, Step(k, Event.Exit))
  {
    hide Placed;
    hide Ahead;
    hide AllCounted;
    hide Parked;
    hide Next;
    hide Picks;
    hide Stopped;
    hide Leaves;
    ParkedStops(k, InReaper);
    var m := Parked(k, InReaper);
    StoppedAlone(k, m, TERMINATED, 1);
    NextPicks(m);
    Switches(k, m, Next(m), TERMINATED, 1);
    ParkedQueues(k, InReaper);
    PickedQueues(m, Next(m));
    NotReady(k);
  }

  /** Who runs is not in the ready queue. */
  lemma NotReady(k: Kernel)
    requires Placed(k) && k.current.Some?
    ensures k.current.value !in k.ready && k.current.value < |k.state|
  {
  }

  /** The signal and the exit together, in terms of what was before both. */
  lemma ExitDone(k: Kernel, m: Kernel, k': Kernel, s: nat)
    requires Effect(k, UpOn(s), m) && Effect(m, Event.Exit, k') && k.current.Some?
    ensures s < |k.sems| && k'.current.Some? && k'.current != k.current
    ensures var p := k.current.value;
            p < |k'.state| && k'.state[p] == TERMINATED && k'.reaper == k.reaper + [p]
    ensures var queue := if k.sems[s].waiting == [] then k.ready else k.ready + [k.sems[s].waiting[0]];
            if queue == [] then k'.current == k'.idle && k'.ready == []
            else k'.current == Some(queue[0]) && k'.ready == queue[1..]
  {
    hide Kept;
    hide OthersKept;
  }

  lemma InterruptEffect(k: Kernel, timer: bool)
    requires Inv(k) && Enabled(k, Interrupt(timer))
    ensures Effect(k, Interrupt(timer), Step(k, Interrupt(timer)))
  {
    hide SemsFiled;
    hide AllExist;
    hide AllSit;
    hide WaitersAt;
    hide Pending;
    hide Ticked;
    NoPanic(k, Interrupt(timer));
    FirstWait(k);
    if timer {
      TickedEffect(k, IrqStarted(k).(jiffies := Clock(k.jiffies)));
    }
  }

  /** A tick makes those ready who wait for it, in their order. */
  lemma TickedEffect(k: Kernel, m: Kernel)
    requires Inv(k) && m.jiffies == Clock(k.jiffies) && m.timers == k.timers && |m.state| == |m.place| == |k.place|
    requires FirstSized(m)
    ensures var k', due := Ticked(m), WaitersAt(k.timers, m.jiffies);
            && k'.ready == m.ready + due && k'.state == seq(|m.state|, q requires 0 <= q < |m.state| =>
                                                          if q in due then READY else m.state[q])
            && k'.disable == m.disable && k'.iDepth == m.iDepth && k'.on == m.on && k'.current == m.current
            && k'.idle == m.idle && k'.reaper == m.reaper && k'.sems == m.sems && k'.jiffies == m.jiffies
            && forall u: nat ::
                 && WaitersAt(k'.timers, u) == (if u == m.jiffies then [] else WaitersAt(k.timers, u))
                 && (Pending(k'.timers, u) <==> Pending(k.timers, u) && u != m.jiffies)
  {
    hide AllCounted;
    hide SemsFiled;
    hide AllExist;
    hide AllSit;
    hide WaitersAt;
    hide Pending;
    RisingOf(k);
    FirstDue(k, m.jiffies);
    forall u: nat
      ensures WaitersAt(Ticked(m).timers, u) == (if u == m.jiffies then [] else WaitersAt(k.timers, u))
      ensures Pending(Ticked(m).timers, u) <==> Pending(k.timers, u) && u != m.jiffies
    {
      if k.timers != [] {
        TailWaiters(k.timers, u);
      }
      if !Pending(k.timers, m.jiffies) {
        WaitersNone(k.timers, m.jiffies);
      }
    }
  }

  /** Nobody waits for the next tick unless the first timer is for it. */
  lemma FirstDue(k: Kernel, t: nat)
    requires Inv(k) && t == Clock(k.jiffies)
    ensures Pending(k.timers, t) <==> k.timers != [] && k.timers[0].target == t
    ensures k.timers != [] && k.timers[0].target == t ==> WaitersAt(k.timers, t) == k.timers[0].waiting
  {
  }

  lemma TailWaiters(timers: seq<Timer>, u: nat)
    requires Rising(timers) && timers != []
    ensures WaitersAt(timers[1..], u) == if u == timers[0].target then [] else WaitersAt(timers, u)
    ensures Pending(timers[1..], u) <==> Pending(timers, u) && u != timers[0].target
  {
    var rest := timers[1..];
    assert forall i :: 0 <= i < |rest| ==> rest[i] == timers[i + 1];
    if Pending(timers, u) && u != timers[0].target {
      var i :| 0 <= i < |timers| && timers[i].target == u;
      assert rest[i - 1] == timers[i];
    }
    if u == timers[0].target {
      assert forall i :: 0 <= i < |rest| ==> timers[0].target < rest[i].target;
      WaitersNone(rest, u);
    }
  }
}
