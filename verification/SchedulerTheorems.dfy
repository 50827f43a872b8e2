/** What holds over every run of the process layer. */
module SchedulerTheorems {
  import opened Collections
  import opened Semaphores
  import opened SchedulerModel
  import opened SchedulerProofs
  import Runs = SemaphoreRuns

  /** A run; an event that is not enabled does not happen. */
  ghost function Run(k: Kernel, es: seq<Event>): (r: Kernel)
    requires Inv(k)
    ensures Inv(r)
    decreases |es|
  {
    if es == [] then k
    else if Enabled(k, es[0]) then
      StepInv(k, es[0]);
      Run(Step(k, es[0]), es[1..])
    else Run(k, es[1..])
  }

  /** The invariant holds from boot on. */
  lemma Booted(es: seq<Event>)
    ensures Inv(Initial()) && Inv(Run(Initial(), es))
  {
    InitialInv();
  }

  // ---------------------------------------------------------------- interrupts

  /** Interrupts are on exactly when a process runs outside every region, and no panic of enable,
      startIrq, endIrq or a blocking yield is reached. */
  lemma NoPanic(k: Kernel, e: Event)
    requires Inv(k) && Enabled(k, e)
    ensures k.on <==> k.current.Some? && k.disable[k.current.value] == 0
    ensures e.Enable? && k.current.Some? ==> 0 < k.disable[k.current.value]
    ensures e.Interrupt? ==> k.current.Some? && k.disable[k.current.value] == 0
    ensures e.EndInterrupt? ==> k.current.Some? && k.disable[k.current.value] == 1
    ensures e.DownOn? && !Passes(k.sems[e.s]) ==> k.current.Some? && k.iDepth[k.current.value] == 0
    ensures e.SleepTo? && k.jiffies < e.target ==> k.current.Some? && k.iDepth[k.current.value] == 0
  {
    hide Placed;
    hide Ahead;
    if k.current.Some? {
      CountedOne(k, k.current.value);
    }
  }

  // ---------------------------------------------------------------- one place for every process

  ghost predicate WaitsOnSem(k: Kernel, p: Pid, s: nat) {
    s < |k.sems| && p in k.sems[s].waiting
  }

  ghost predicate WaitsOnTimer(k: Kernel, p: Pid, i: nat) {
    i < |k.timers| && p in k.timers[i].waiting
  }

  /** In terms of the queues alone: the state field says in which queue a process is. */
  lemma Partition(k: Kernel, p: Pid)
    requires Inv(k) && p < |k.place|
    ensures k.state[p] == RUNNING <==> k.current == Some(p)
    ensures p in k.ready <==> k.state[p] == READY && k.idle != Some(p)
    ensures k.state[p] == BLOCKED <==>
              (exists s: nat :: WaitsOnSem(k, p, s)) || (exists i: nat :: WaitsOnTimer(k, p, i))
    ensures p in k.reaper ==> k.state[p] == TERMINATED
  {
    hide Accounted;
    hide Ahead;
    assert Sits(p, k.state[p], k.place[p], k.current, k.idle);
    assert Exists(k.place[p], k.sems, k.timers);
    OnSems(k, p);
    OnTimers(k, p);
  }

  lemma OnSems(k: Kernel, p: Pid)
    requires Placed(k) && p < |k.place|
    ensures forall s: nat :: WaitsOnSem(k, p, s) ==> k.place[p] == OnSem(s)
    ensures k.place[p].OnSem? ==> WaitsOnSem(k, p, k.place[p].sem)
  {
    forall s: nat | WaitsOnSem(k, p, s)
      ensures k.place[p] == OnSem(s)
    {
      assert SemFiled(k.sems[s], k.place, s);
    }
    if k.place[p].OnSem? {
      assert Exists(k.place[p], k.sems, k.timers);
      assert SemFiled(k.sems[k.place[p].sem], k.place, k.place[p].sem);
    }
  }

  lemma OnTimers(k: Kernel, p: Pid)
    requires Placed(k) && p < |k.place|
    ensures forall i: nat :: WaitsOnTimer(k, p, i) ==> k.place[p] == Sleeping(k.timers[i].target)
    ensures k.place[p].Sleeping? ==> exists i: nat :: WaitsOnTimer(k, p, i)
  {
    forall i: nat | WaitsOnTimer(k, p, i)
      ensures k.place[p] == Sleeping(k.timers[i].target)
    {
      assert TimerFiled(k.timers[i], k.place);
    }
    if k.place[p].Sleeping? {
      assert Exists(k.place[p], k.sems, k.timers);
      var i :| 0 <= i < |k.timers| && k.timers[i].target == k.place[p].target;
      assert TimerFiled(k.timers[i], k.place);
      assert WaitsOnTimer(k, p, i);
    }
  }

  /** A process waits in at most one queue, at most once, and no queue holds it twice; the idle process
      waits in none. */
  lemma OneQueue(k: Kernel, p: Pid, s: nat, u: nat, i: nat, j: nat)
    requires Inv(k) && p < |k.place|
    ensures NoDup(k.ready) && NoDup(k.reaper)
    ensures s < |k.sems| ==> NoDup(k.sems[s].waiting)
    ensures i < |k.timers| ==> NoDup(k.timers[i].waiting)
    ensures WaitsOnSem(k, p, s) && WaitsOnSem(k, p, u) ==> s == u
    ensures WaitsOnTimer(k, p, i) && WaitsOnTimer(k, p, j) ==> i == j
    ensures !(WaitsOnSem(k, p, s) && WaitsOnTimer(k, p, i))
    ensures k.idle == Some(p) ==> p !in k.ready && p !in k.reaper && !WaitsOnSem(k, p, s) && !WaitsOnTimer(k, p, i)
  {
    hide Accounted;
    hide Ahead;
    assert Sits(p, k.state[p], k.place[p], k.current, k.idle);
    OnSems(k, p);
    OnTimers(k, p);
    if s < |k.sems| { assert SemFiled(k.sems[s], k.place, s); }
    if i < |k.timers| { assert TimerFiled(k.timers[i], k.place); }
  }

  // ---------------------------------------------------------------- what a step does to one process

  /** The interrupt account of p is untouched. */
  ghost predicate SameCount(k: Kernel, k': Kernel, p: Pid) {
    && p < |k.disable| == |k.iDepth| == |k.frames| && p < |k'.disable| == |k'.iDepth| == |k'.frames|
    && k'.disable[p] == k.disable[p] && k'.iDepth[p] == k.iDepth[p] && k'.frames[p] == k.frames[p]
  }

  function PlaceAt(place: seq<Place>, p: Pid): Place {
    if p < |place| then place[p] else Gone
  }

  function StateAt(state: seq<State>, p: Pid): State {
    if p < |state| then state[p] else READY
  }

  lemma EnteredSlot(k: Kernel, p: Pid)
    requires Sized(k) && p < |k.place|
    ensures k.current != Some(p) ==> SameCount(k, Entered(k), p)
    ensures Entered(k).place == k.place && Entered(k).current == k.current
  {
  }

  lemma ParkedSlot(k: Kernel, place: Place, p: Pid)
    requires Sized(k) && k.current.Some? && p < |k.place|
    ensures |Parked(k, place).place| == |k.place|
    ensures PlaceAt(Parked(k, place).place, p) == if k.current == Some(p) then place else k.place[p]
    ensures k.current != Some(p) ==> SameCount(k, Parked(k, place), p)
  {
    hide Inserted;
    hide AllSit;
  }

  lemma NextSlot(k: Kernel, p: Pid)
    requires Sized(k) && Placed(k) && k.current.None? && p < |k.place|
    ensures |k.place| <= |Next(k).place|
    ensures SameCount(k, Next(k), p)
    ensures var from, to := k.place[p], PlaceAt(Next(k).place, p);
            to == from || (from in {InReady, Resting} && to == Running)
  {
    hide SemsFiled;
    hide TimersFiled;
    hide AllExist;
    hide AllSit;
    if k.ready != [] {
      assert k.ready[0] in k.ready;
    } else if k.idle.Some? {
      IdleRests(k, k.idle.value);
    }
  }

  lemma BlockedSlot(k: Kernel, place: Place, p: Pid)
    requires Inv(k) && MayPark(k, place) && p < |k.place|
    ensures k.current != Some(p) ==> SameCount(k, Blocked(k, place), p)
    ensures |k.place| <= |Blocked(k, place).place|
    ensures var from, to := k.place[p], PlaceAt(Blocked(k, place).place, p);
            if from == Running then to == place else to == from || (from in {InReady, Resting} && to == Running)
    requires place.OnSem? || place.Sleeping?
  {
    hide AllCounted;
    hide Placed;
    hide Ahead;
    hide Parked;
    hide Next;
    hide Entered;
    SitsAt(k, p);
    EnteredAccounted(k);
    EnteredPlaced(k);
    EnteredSlot(k, p);
    EnteredIdle(k);
    var k1 := Entered(k);
    ParkedSized(k1, place);
    ParkedPlaced(k1, place);
    ParkedSlot(k1, place, p);
    ParkedGone(k1, place);
    NextSlot(Parked(k1, place), p);
  }

  lemma EnteredIdle(k: Kernel)
    requires Sized(k)
    ensures Entered(k).idle == k.idle && Entered(k).sems == k.sems
  {
  }

  lemma ParkedGone(k: Kernel, place: Place)
    requires Sized(k) && k.current.Some?
    ensures Parked(k, place).current.None?
  {
  }

  lemma SitsAt(k: Kernel, p: Pid)
    requires Placed(k) && p < |k.place|
    ensures k.place[p] == Running <==> k.current == Some(p)
  {
  }

  /** A yield or an exit. */
  lemma SwitchSlot(k: Kernel, place: Place, p: Pid)
    requires Inv(k) && MayPark(k, place) && p < |k.place| && place in {InReady, Resting, InReaper}
    requires Sized(Parked(k, place))
    ensures var k' := Next(Parked(k, place));
            && (k.current != Some(p) ==> SameCount(k, k', p))
            && |k.place| <= |k'.place|
            && var from, to := k.place[p], PlaceAt(k'.place, p);
               if from == Running then to == place || (place != InReaper && to == Running)
               else to == from || (from in {InReady, Resting} && to == Running)
  {
    hide AllCounted;
    hide Placed;
    hide Ahead;
    hide Parked;
    hide Next;
    SitsAt(k, p);
    ParkedPlaced(k, place);
    ParkedSlot(k, place, p);
    ParkedGone(k, place);
    NextSlot(Parked(k, place), p);
  }

  lemma UppedSlot(k: Kernel, s: nat, p: Pid)
    requires Inv(k) && s < |k.sems| && p < |k.place|
    ensures SameCount(k, Upped(k, s), p) && |Upped(k, s).place| == |k.place|
    ensures var from, to := k.place[p], PlaceAt(Upped(k, s).place, p);
            to == if Woken(k.sems[s]) == Some(p) then InReady else from
    ensures Woken(k.sems[s]) == Some(p) ==> k.place[p] == OnSem(s)
  {
    hide Filed;
    hide AllSit;
    hide AllExist;
    hide TimersFiled;
    hide AllCounted;
    if Woken(k.sems[s]).Some? {
      SemsLeave(k.sems, k.place, s);
    }
  }

  lemma InterruptedSlot(k: Kernel, timer: bool, p: Pid)
    requires Inv(k) && k.on && p < |k.place|
    ensures k.current != Some(p) ==> SameCount(k, Interrupted(k, timer), p)
    ensures |Interrupted(k, timer).place| == |k.place|
    ensures PlaceAt(Interrupted(k, timer).place, p)
         == if timer && k.place[p] == Sleeping(Clock(k.jiffies)) then InReady else k.place[p]
  {
    hide AllCounted;
    hide AllSit;
    hide SemsFiled;
    FirstWait(k);
    if timer {
      Due(k, p);
    }
  }

  /** The processes that sleep to the next tick are those of the first timer, if it is due. */
  lemma Due(k: Kernel, p: Pid)
    requires Inv(k) && p < |k.place|
    ensures k.place[p] == Sleeping(Clock(k.jiffies))
       <==> k.timers != [] && k.timers[0].target == Clock(k.jiffies) && p in k.timers[0].waiting
  {
    hide AllCounted;
    hide AllSit;
    hide SemsFiled;
    if k.timers != [] {
      assert TimerFiled(k.timers[0], k.place);
    }
    if k.place[p] == Sleeping(Clock(k.jiffies)) {
      assert Exists(k.place[p], k.sems, k.timers);
      var i :| 0 <= i < |k.timers| && k.timers[i].target == Clock(k.jiffies);
      FirstLeast(k.timers, i);
      AheadOfLast(k.timers, k.jiffies);
    }
  }

  lemma FirstLeast(timers: seq<Timer>, i: nat)
    requires Rising(timers) && i < |timers|
    ensures if i == 0 then timers[0].target == timers[i].target else timers[0].target < timers[i].target
  {
  }

  /** How one step moves one process. */
  ghost predicate Passage(k: Kernel, e: Event, p: Pid, from: Place, to: Place) {
    || to == from
    || (from == Running && (e.Yield? || e.Exit?)
        && to == (if e.Exit? then InReaper else if k.idle == Some(p) then Resting else InReady))
    || (from == Running && e.DownOn? && to == OnSem(e.s))
    || (from == Running && e.SleepTo? && to == Sleeping(e.target))
    || (from in {InReady, Resting} && to == Running)
    || (from.OnSem? && e == UpOn(from.sem) && to == InReady)
    || (from.Sleeping? && e == Interrupt(true) && Clock(k.jiffies) == from.target && to == InReady)
    || (from == InReaper && e.Reap? && to == Gone)
  }

  /** Every step moves a process along one of these passages, and only the sleepers that are due wake.
      Only the current process changes its interrupt account: a process resumes with the count it had
      when it was switched out. */
  lemma EveryPassage(k: Kernel, e: Event, p: Pid)
    requires Inv(k) && Enabled(k, e) && p < |k.place|
    ensures |k.place| <= |Step(k, e).place|
    ensures Passage(k, e, p, k.place[p], PlaceAt(Step(k, e).place, p))
    ensures k.current != Some(p) ==> SameCount(k, Step(k, e), p)
  {
    hide AllCounted;
    hide Placed;
    hide Ahead;
    hide Inserted;
    hide Next;
    hide Parked;
    match e
    case Yield => YieldedSlot(k, p);
    case DownOn(s) => if !Passes(k.sems[s]) { BlockedSlot(k, OnSem(s), p); }
    case UpOn(s) => UppedSlot(k, s, p);
    case SleepTo(t) => if k.jiffies < t { BlockedSlot(k, Sleeping(t), p); }
    case Exit => ParkedSized(k, InReaper); SwitchSlot(k, InReaper, p); SitsAt(k, p);
    case Interrupt(timer) => InterruptedSlot(k, timer, p);
    case _ => SmallSlot(k, e, p);
  }

  lemma YieldedSlot(k: Kernel, p: Pid)
    requires Inv(k) && p < |k.place|
    ensures |k.place| <= |Yielded(k).place|
    ensures Passage(k, Yield, p, k.place[p], PlaceAt(Yielded(k).place, p))
    ensures k.current != Some(p) ==> SameCount(k, Yielded(k), p)
  {
    hide AllCounted;
    hide Placed;
    hide Ahead;
    hide Next;
    hide Parked;
    if k.current.None? {
      assert k.(on := false) == k;
      NextSlot(k, p);
    } else {
      var place := if k.current == k.idle then Resting else InReady;
      ParkedSized(k, place);
      SwitchSlot(k, place, p);
      SitsAt(k, p);
    }
  }

  lemma SmallSlot(k: Kernel, e: Event, p: Pid)
    requires Inv(k) && Enabled(k, e) && p < |k.place|
    requires e.Disable? || e.Enable? || e.Start? || e.StartIdle? || e.NewSem? || e.EndInterrupt? || e.Reap?
    ensures |k.place| <= |Step(k, e).place|
    ensures Passage(k, e, p, k.place[p], PlaceAt(Step(k, e).place, p))
    ensures k.current != Some(p) ==> SameCount(k, Step(k, e), p)
  {
    hide AllCounted;
    hide Inserted;
    hide SemsFiled;
    hide AllExist;
    hide AllSit;
    hide Ahead;
    hide TimersFiled;
    hide Next;
    hide Parked;
    if e.Reap? && k.reaper != [] {
      assert k.reaper[0] in k.reaper;
    }
  }

  /** A terminated process never runs again. */
  lemma Terminated(k: Kernel, e: Event, p: Pid)
    requires Inv(k) && Enabled(k, e) && p < |k.place| && StateAt(k.state, p) == TERMINATED
    ensures p < |Step(k, e).place| && StateAt(Step(k, e).state, p) == TERMINATED
  {
    hide Inv;
    hide Step;
    hide Enabled;
    StepInv(k, e);
    EveryPassage(k, e, p);
    Agrees(k, p);
    Agrees(Step(k, e), p);
  }

  lemma Agrees(k: Kernel, p: Pid)
    requires Inv(k) && p < |k.place|
    ensures StateAt(k.state, p) == StateFor(PlaceAt(k.place, p)) && PlaceAt(k.place, p) == k.place[p]
  {
    assert Sits(p, k.state[p], k.place[p], k.current, k.idle);
  }

  // ---------------------------------------------------------------- first come, first served

  /** This step dispatches a process. */
  ghost predicate Switches(k: Kernel, e: Event)
    requires Sized(k) && Enabled(k, e)
  {
    || e.Yield? || e.Exit?
    || (e.DownOn? && !Passes(k.sems[e.s]))
    || (e.SleepTo? && k.jiffies < e.target)
  }

  /** The ready queue only loses its head, to the processor; whoever joins it joins at the tail. */
  ghost predicate Served(k: Kernel, k': Kernel, switch: bool) {
    if switch && k.ready != [] then k'.current == Some(k.ready[0]) && k.ready[1..] <= k'.ready
    else k.ready <= k'.ready
  }

  lemma NextServes(k: Kernel, k': Kernel)
    requires Sized(k') && k.ready <= k'.ready
    ensures Served(k, Next(k'), true)
  {
    if k.ready != [] {
      assert k'.ready[0] == k.ready[0];
    }
  }

  lemma ParkedQueue(k: Kernel, place: Place)
    requires Sized(k) && k.current.Some?
    ensures k.ready <= Parked(k, place).ready
  {
    hide Inserted;
  }

  lemma EveryServes(k: Kernel, e: Event)
    requires Inv(k) && Enabled(k, e)
    ensures Served(k, Step(k, e), Switches(k, e))
  {
    hide AllCounted;
    hide Placed;
    hide Ahead;
    hide Next;
    hide Parked;
    hide Entered;
    EnteredIdle(k);
    EnteredSized(k);
    if Switches(k, e) {
      if k.current.None? {
        assert e.Yield?;
        NextServes(k, k.(on := false));
      } else {
        var k1 := if e.DownOn? || e.SleepTo? then Entered(k) else k;
        var place := match e
                     case DownOn(s) => OnSem(s)
                     case SleepTo(t) => Sleeping(t)
                     case Exit => InReaper
                     case _ => if k.current == k.idle then Resting else InReady;
        EnteredStays(k);
        ParkedSized(k1, place);
        ParkedQueue(k1, place);
        NextServes(k, Parked(k1, place));
      }
    } else {
      QuietServes(k, e);
    }
  }

  lemma EnteredStays(k: Kernel)
    requires Sized(k)
    ensures Entered(k).current == k.current && Entered(k).ready == k.ready
  {
  }

  lemma QuietServes(k: Kernel, e: Event)
    requires Inv(k) && Enabled(k, e) && !Switches(k, e)
    ensures k.ready <= Step(k, e).ready
  {
    hide AllCounted;
    hide Placed;
    hide Ahead;
    hide Next;
    hide Parked;
    EnteredStays(k);
    FirstWait(k);
  }

  /** How many processes a run dispatches. */
  ghost function Switchings(k: Kernel, es: seq<Event>): nat
    requires Inv(k)
    decreases |es|
  {
    if es == [] then 0
    else if Enabled(k, es[0]) then
      StepInv(k, es[0]);
      (if Switches(k, es[0]) then 1 else 0) + Switchings(Step(k, es[0]), es[1..])
    else Switchings(k, es[1..])
  }

  /** The process that the switch number n of a run dispatches, counted from 0. */
  ghost function Choice(k: Kernel, es: seq<Event>, n: nat): Option<Pid>
    requires Inv(k)
    decreases |es|
  {
    if es == [] then None
    else if Enabled(k, es[0]) then
      StepInv(k, es[0]);
      if !Switches(k, es[0]) then Choice(Step(k, es[0]), es[1..], n)
      else if n == 0 then Step(k, es[0]).current
      else Choice(Step(k, es[0]), es[1..], n - 1)
    else Choice(k, es[1..], n)
  }

  /** A process at position i of the ready queue is the one that switch number i dispatches, whatever
      else happens; until then it only moves up. */
  lemma {:induction false} Turn(k: Kernel, es: seq<Event>, i: nat)
    requires Inv(k) && i < |k.ready|
    ensures var n := Switchings(k, es);
            if n <= i then i - n < |Run(k, es).ready| && Run(k, es).ready[i - n] == k.ready[i]
            else Choice(k, es, i) == Some(k.ready[i])
    decreases |es|
  {
    hide AllCounted;
    hide Placed;
    hide Ahead;
    hide Step;
    hide Enabled;
    hide Switches;
    if es == [] {
    } else if Enabled(k, es[0]) {
      StepInv(k, es[0]);
      EveryServes(k, es[0]);
      var k' := Step(k, es[0]);
      if Switches(k, es[0]) {
        if i > 0 {
          assert k.ready[1..][i - 1] == k.ready[i];
          Turn(k', es[1..], i - 1);
        }
      } else {
        Turn(k', es[1..], i);
      }
    } else {
      Turn(k, es[1..], i);
    }
  }

  // ---------------------------------------------------------------- sleepers

  ghost function Ticks(k: Kernel, es: seq<Event>): nat
    requires Inv(k)
    decreases |es|
  {
    if es == [] then 0
    else if Enabled(k, es[0]) then
      StepInv(k, es[0]);
      (if es[0] == Interrupt(true) then 1 else 0) + Ticks(Step(k, es[0]), es[1..])
    else Ticks(k, es[1..])
  }

  lemma OneTick(k: Kernel, e: Event)
    requires Inv(k) && Enabled(k, e)
    ensures Step(k, e).jiffies == if e == Interrupt(true) then Clock(k.jiffies) else k.jiffies
  {
    hide AllCounted;
    hide Placed;
    hide Ahead;
    hide Inserted;
    FirstWait(k);
  }

  /** A sleeper stays asleep over every run with fewer ticks than are missing to its target. */
  lemma {:induction false} SleepsOn(k: Kernel, es: seq<Event>, p: Pid, t: nat)
    requires Inv(k) && PlaceAt(k.place, p) == Sleeping(t) && k.jiffies + Ticks(k, es) < t
    ensures PlaceAt(Run(k, es).place, p) == Sleeping(t) && Run(k, es).jiffies == k.jiffies + Ticks(k, es)
    decreases |es|
  {
    hide AllCounted;
    hide Placed;
    hide Ahead;
    hide Step;
    hide Enabled;
    if es == [] {
    } else if Enabled(k, es[0]) {
      StepInv(k, es[0]);
      SleeperKept(k, es[0], p, t);
      SleepsOn(Step(k, es[0]), es[1..], p, t);
    } else {
      SleepsOn(k, es[1..], p, t);
    }
  }

  lemma SleeperKept(k: Kernel, e: Event, p: Pid, t: nat)
    requires Inv(k) && Enabled(k, e) && PlaceAt(k.place, p) == Sleeping(t)
    ensures k.jiffies < t < WORD
    ensures Step(k, e).jiffies == k.jiffies + (if e == Interrupt(true) then 1 else 0)
    ensures PlaceAt(Step(k, e).place, p) == if Step(k, e).jiffies == t then InReady else Sleeping(t)
  {
    hide AllCounted;
    hide AllSit;
    hide Step;
    hide Enabled;
    OneTick(k, e);
    EveryPassage(k, e, p);
    assert Exists(k.place[p], k.sems, k.timers);
    if e == Interrupt(true) {
      TickWakes(k, p);
    }
  }

  lemma TickWakes(k: Kernel, p: Pid)
    requires Inv(k) && Enabled(k, Interrupt(true)) && p < |k.place|
    ensures PlaceAt(Step(k, Interrupt(true)).place, p)
         == if k.place[p] == Sleeping(Clock(k.jiffies)) then InReady else k.place[p]
  {
    hide Placed;
    hide Ahead;
    hide Ticked;
    InterruptedSlot(k, true, p);
  }

  /** A sleeper becomes ready at exactly the tick that takes the clock to its target: not before, by
      SleepsOn, and not after. The clock cannot wrap before. */
  lemma WakesAt(k: Kernel, es: seq<Event>, p: Pid, t: nat)
    requires Inv(k) && PlaceAt(k.place, p) == Sleeping(t) && k.jiffies + Ticks(k, es) + 1 == t
    requires Enabled(Run(k, es), Interrupt(true))
    ensures var k' := Step(Run(k, es), Interrupt(true));
            k'.jiffies == t && PlaceAt(k'.place, p) == InReady
  {
    SleepsOn(k, es, p, t);
    SleeperKept(Run(k, es), Interrupt(true), p, t);
  }

  /** sleepUntil multiplies in 32 bits: the target is the product less whole turns of the clock, and is the one
      meant exactly when the product fits. */
  function Target(second: nat, hz: nat): nat {
    (second * hz) % WORD
  }

  lemma TargetExact(second: nat, hz: nat)
    ensures Target(second, hz) == second * hz <==> second * hz < WORD
    ensures Target(second, hz) < WORD && exists turns: nat :: second * hz == turns * WORD + Target(second, hz)
  {
    var turns := second * hz / WORD;
    assert second * hz == turns * WORD + Target(second, hz);
  }

  /** At 1000 ticks a second, a sleep until second 4294968 ends at tick 704. */
  lemma TargetExample()
    ensures Target(4_294_968, 1000) == 704
  {
  }

  // ---------------------------------------------------------------- semaphores of the kernel

  /** What an event means to semaphore s. */
  ghost function CallOf(k: Kernel, e: Event, s: nat): seq<Runs.Call> {
    match e
    case DownOn(u) =>
      if u != s then [] else if k.current.Some? then [Runs.DownBy(k.current.value)] else [Runs.DownAtBoot]
    case UpOn(u) => if u == s then [Runs.UpBy] else []
    case _ => []
  }

  function SemAfter(q: Sem, c: seq<Runs.Call>): Sem {
    if c == [] then q else match c[0] case DownBy(p) => Down(q, p) case DownAtBoot => Down(q, 0) case UpBy => Up(q)
  }

  function SemAt(sems: seq<Sem>, s: nat): Sem {
    if s < |sems| then sems[s] else Sem(0, [])
  }

  lemma BlockedSems(k: Kernel, place: Place, s: nat)
    requires Sized(k) && k.current.Some? && s < |k.sems|
    ensures |Blocked(k, place).sems| == |k.sems|
    ensures SemAt(Blocked(k, place).sems, s)
         == if place == OnSem(s) then Sem(k.sems[s].count, k.sems[s].waiting + [k.current.value]) else k.sems[s]
  {
    hide Inserted;
  }

  lemma SwitchSems(k: Kernel, place: Place)
    requires Sized(k) && k.current.Some? && !place.OnSem?
    requires Sized(Parked(k, place))
    ensures Next(Parked(k, place)).sems == k.sems
  {
    hide Inserted;
  }

  /** A step does to a semaphore of the kernel what down and up do, by the current process. */
  lemma SemStep(k: Kernel, e: Event, s: nat)
    requires Inv(k) && Enabled(k, e) && s < |k.sems|
    ensures SemAt(Step(k, e).sems, s) == SemAfter(k.sems[s], CallOf(k, e, s))
    ensures var c := CallOf(k, e, s); c != [] ==> Runs.Possible(Runs.History(k.sems[s], [], [], 0, 0), c[0])
    ensures |k.sems| <= |Step(k, e).sems|
  {
    hide AllCounted;
    hide Placed;
    hide Ahead;
    hide Inserted;
    hide Next;
    hide Parked;
    hide Blocked;
    FirstWait(k);
    match e
    case DownOn(u) =>
      if k.current.Some? { CurrentNot(k, s); }
      if !Passes(k.sems[u]) { BlockedSems(k, OnSem(u), s); }
    case SleepTo(t) => if k.jiffies < t { BlockedSems(k, Sleeping(t), s); }
    case Exit => ParkedSized(k, InReaper); SwitchSems(k, InReaper);
    case Yield => YieldSems(k);
    case _ =>
  }

  lemma CurrentNot(k: Kernel, s: nat)
    requires Placed(k) && k.current.Some? && s < |k.sems|
    ensures k.current.value !in k.sems[s].waiting
  {
  }

  lemma YieldSems(k: Kernel)
    requires Sized(k)
    ensures Yielded(k).sems == k.sems
  {
    hide Inserted;
  }

  /** The calls that a run makes on semaphore s. */
  ghost function Calls(k: Kernel, es: seq<Event>, s: nat): seq<Runs.Call>
    requires Inv(k)
    decreases |es|
  {
    if es == [] then []
    else if Enabled(k, es[0]) then
      StepInv(k, es[0]);
      CallOf(k, es[0], s) + Calls(Step(k, es[0]), es[1..], s)
    else Calls(k, es[1..], s)
  }

  /** Over a whole run, every semaphore of the kernel is as its calls alone make it. */
  lemma {:induction false} SemRun(k: Kernel, es: seq<Event>, s: nat, h: Runs.History)
    requires Inv(k) && s < |k.sems| && h.sem == k.sems[s]
    ensures SemAt(Run(k, es).sems, s) == Runs.After(h, Calls(k, es, s)).sem
    decreases |es|
  {
    hide AllCounted;
    hide Placed;
    hide Ahead;
    hide Step;
    hide Enabled;
    if es == [] {
    } else if Enabled(k, es[0]) {
      StepInv(k, es[0]);
      SemStep(k, es[0], s);
      var k', c := Step(k, es[0]), CallOf(k, es[0], s);
      var h' := if c == [] then h else Runs.Next(h, c[0]);
      SemRun(k', es[1..], s, h');
      var rest := Calls(k', es[1..], s);
      AfterFirst(h, c, rest);
    } else {
      SemRun(k, es[1..], s, h);
    }
  }

  /** So over every run of the kernel no token of a semaphore is lost or made up, and they are granted in
      the order in which they are asked for. */
  lemma KernelConserved(k: Kernel, es: seq<Event>, s: nat, count: int)
    requires Inv(k) && s < |k.sems| && k.sems[s] == Sem(count, [])
    ensures var h := Runs.After(Runs.New(count), Calls(k, es, s));
            var sem := SemAt(Run(k, es).sems, s);
            && count + h.ups == sem.count + |h.granted| + h.boot
            && h.granted + sem.waiting == h.asked
            && (sem.count != 0 ==> sem.waiting == [])
  {
    SemRun(k, es, s, Runs.New(count));
    Runs.Conserved(count, Calls(k, es, s));
  }

  lemma AfterFirst(h: Runs.History, c: seq<Runs.Call>, rest: seq<Runs.Call>)
    requires |c| <= 1 && (c != [] ==> Runs.Possible(h, c[0]))
    ensures Runs.After(h, c + rest) == Runs.After(if c == [] then h else Runs.Next(h, c[0]), rest)
  {
    if c == [] {
      assert c + rest == rest;
    } else {
      assert (c + rest)[1..] == rest;
    }
  }
}
