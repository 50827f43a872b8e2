/** The process layer with its fields changed in place, as in kernel/process.cc and kernel/semaphore.cc.
    A method that switches to another process ends there: what the process that was switched out does
    when it resumes, the calls of enable that close its regions, are later calls of Enable. */
module Scheduler {
  import opened Collections
  import opened Semaphores
  import opened SchedulerModel
  import opened SchedulerProofs
  import opened SchedulerTheorems
  import opened SchedulerEffects

  /** The queue that a process blocks on. */
  datatype Queue = SemQueue(s: nat) | TimerQueue(i: nat)

  /** A state that differs only in queues and in the state field has the same interrupt account. */
  lemma SameAccount(k: Kernel, k': Kernel)
    requires Accounted(k) && Sized(k')
    requires k'.current == k.current && k'.on == k.on
    requires k'.disable == k.disable && k'.iDepth == k.iDepth && k'.frames == k.frames
    ensures Accounted(k')
  {
  }

  lemma CreatedAccount(k: Kernel, k': Kernel)
    requires Accounted(k)
    requires k'.current == k.current && k'.on == k.on && k'.ready == k.ready
    requires k'.idle == k.idle || k'.idle == Some(|k.place|)
    requires |k'.state| == |k'.place| == |k.place| + 1
    requires k'.disable == k.disable + [0] && k'.iDepth == k.iDepth + [0] && k'.frames == k.frames + [[]]
    ensures Accounted(k') && |k.state| == |k.place| && k.idle != Some(|k.place|)
  {
  }

  /** disable and enable around a change that leaves the account alone. */
  lemma Bracket(k: Kernel, k': Kernel)
    requires Accounted(k) && Sized(k')
    requires var m := Entered(k); k'.current == m.current && k'.on == m.on
                                  && k'.disable == m.disable && k'.iDepth == m.iDepth && k'.frames == m.frames
    ensures Accounted(k') && (k'.current.None? || Inside(k', Section))
    ensures k.current.Some? ==> 0 < k'.disable[k.current.value] && k'.frames[k.current.value] != []
    ensures Left(k') == k'.(on := k.on, disable := k.disable, frames := k.frames)
  {
    EnteredAccounted(k);
    SameAccount(Entered(k), k');
    LeftAccounted(k');
    if k.current.Some? {
      var p := k.current.value;
      CountedOne(k, p);
      assert k'.disable[p := k'.disable[p] - 1] == k.disable;
      assert k'.frames[p] == k.frames[p] + [Section];
      assert k'.frames[p := k.frames[p]] == k.frames;
    }
  }

  ghost function MadeReady(k: Kernel, p: Pid): Kernel
    requires |k.state| == |k.place| && p < |k.place|
  {
    if k.idle == Some(p) then k.(state := k.state[p := READY], place := k.place[p := Resting]) else Readied(k, p)
  }

  /** A process that has been made and is nowhere yet. */
  ghost function Bare(k: Kernel): Kernel {
    k.(state := k.state + [READY], disable := k.disable + [0], iDepth := k.iDepth + [0], frames := k.frames + [[]],
       place := k.place + [Gone])
  }

  lemma NewMade(k: Kernel)
    requires |k.state| == |k.place| && k.idle != Some(|k.place|)
    ensures MadeReady(Bare(k), |k.place|) == Started(k)
  {
    assert (k.state + [READY])[|k.place| := READY] == k.state + [READY];
    assert (k.place + [Gone])[|k.place| := InReady] == k.place + [InReady];
  }

  lemma IdleMade(k: Kernel)
    requires |k.state| == |k.place|
    ensures MadeReady(Bare(k).(idle := Some(|k.place|)), |k.place|) == IdleStarted(k)
  {
    assert (k.state + [READY])[|k.place| := READY] == k.state + [READY];
    assert (k.place + [Gone])[|k.place| := Resting] == k.place + [Resting];
  }

  /** The timer for t, without waiters if it is new. */
  ghost function WithTimer(timers: seq<Timer>, t: nat): seq<Timer> {
    var i := Position(timers, t);
    if i < |timers| && timers[i].target == t then timers else timers[..i] + [Timer(t, [])] + timers[i..]
  }

  lemma {:induction false} PositionIs(timers: seq<Timer>, t: nat, i: nat)
    requires i <= |timers|
    requires forall j :: 0 <= j < i ==> timers[j].target < t
    requires i < |timers| ==> t <= timers[i].target
    ensures Position(timers, t) == i
  {
    if i > 0 {
      var rest := timers[1..];
      assert forall j :: 0 <= j < |rest| ==> rest[j] == timers[j + 1];
      PositionIs(rest, t, i - 1);
    }
  }

  lemma InsertedTwice(timers: seq<Timer>, t: nat, p: Pid)
    ensures var i, m := Position(timers, t), WithTimer(timers, t);
            && i < |m| && m[i].target == t && Position(m, t) == i
            && Inserted(m, t, p) == Inserted(timers, t, p)
  {
    var i, m := Position(timers, t), WithTimer(timers, t);
    PositionIs(m, t, i);
    if m != timers {
      assert [] + [p] == [p];
      assert m[i := Timer(t, [p])] == timers[..i] + [Timer(t, [p])] + timers[i..];
    }
  }

  class Processes {
    const hz: nat
    var current: Option<Pid>
    var idleProcess: Option<Pid>
    var interruptsOn: bool
    var jiffies: nat
    var readyQueue: seq<Pid>
    var reaperQueue: seq<Pid>
    var sems: seq<Sem>
    var timers: seq<Timer>
    var state: seq<State>
    var disableCount: seq<nat>
    var iDepth: seq<nat>
    ghost var frames: seq<seq<Frame>>
    ghost var place: seq<Place>

    ghost function State(): Kernel
      reads this
    {
      Kernel(current, idleProcess, interruptsOn, jiffies, readyQueue, reaperQueue, sems, timers,
             state, disableCount, iDepth, frames, place)
    }

    constructor (hz: nat)
      ensures State() == Initial()
    {
      this.hz := hz;
      current, idleProcess, interruptsOn, jiffies := None, None, false, 0;
      readyQueue, reaperQueue, sems, timers := [], [], [], [];
      state, disableCount, iDepth, frames, place := [], [], [], [], [];
    }

    method Disable()
      requires Sized(State())
      modifies this
      ensures State() == Entered(old(State()))
    {
      interruptsOn := false;
      if current.Some? {
        var me := current.value;
        disableCount := disableCount[me := disableCount[me] + 1];
        frames := frames[me := frames[me] + [Section]];
      }
    }

    /** The panic of the source, a count of zero, is not reached. */
    method Enable()
      requires Accounted(State()) && (current.None? || Inside(State(), Section))
      modifies this
      ensures old(current.Some?) ==>
                0 < old(State()).disable[old(current).value] && old(State()).frames[old(current).value] != []
      ensures State() == Left(old(State()))
    {
      LeftAccounted(State());
      if current.Some? {
        var me := current.value;
        var c := disableCount[me];
        assert c != 0;
        frames := frames[me := frames[me][..|frames[me]| - 1]];
        if c == 1 {
          disableCount := disableCount[me := 0];
          interruptsOn := true;
        } else {
          disableCount := disableCount[me := disableCount[me] - 1];
        }
      }
    }

    method MakeReady(p: Pid)
      requires Accounted(State()) && p < |place|
      modifies this
      ensures State() == MadeReady(old(State()), p)
    {
      ghost var k := State();
      EnteredAccounted(k);
      EnteredSized(k);
      Disable();
      state := state[p := READY];
      place := place[p := if idleProcess == Some(p) then Resting else InReady];
      if Some(p) != idleProcess {
        readyQueue := readyQueue + [p];
      }
      Bracket(k, State());
      Enable();
    }

    /** A new process joins the ready queue. */
    method Start() returns (p: Pid)
      requires Accounted(State())
      modifies this
      ensures State() == Started(old(State())) && p == |old(state)|
    {
      hide AllCounted;
      hide MadeReady;
      hide Started;
      hide IdleStarted;
      ghost var k := State();
      p := |state|;
      state := state + [READY];
      disableCount := disableCount + [0];
      iDepth := iDepth + [0];
      frames := frames + [[]];
      place := place + [Gone];
      CreatedAccount(k, State());
      NewMade(k);
      MakeReady(p);
    }

    method StartIdle()
      requires Accounted(State())
      modifies this
      ensures State() == IdleStarted(old(State()))
    {
      hide AllCounted;
      hide MadeReady;
      hide Started;
      hide IdleStarted;
      ghost var k := State();
      var p := |state|;
      idleProcess := Some(p);
      state := state + [READY];
      disableCount := disableCount + [0];
      iDepth := iDepth + [0];
      frames := frames + [[]];
      place := place + [Gone];
      CreatedAccount(k, State());
      IdleMade(k);
      MakeReady(p);
    }

    /** The context switch, unless the process goes on. */
    method Dispatch(p: Pid, prev: Option<Pid>)
      requires Sized(State()) && p < |place|
      requires prev == current && (prev == Some(p) ==> !interruptsOn && 0 < disableCount[p])
      modifies this
      ensures State() == Dispatched(old(State()), p)
    {
      state := state[p := RUNNING];
      place := place[p := Running];
      if Some(p) != prev {
        current := Some(p);
        interruptsOn := disableCount[p] == 0;
      }
    }
  
    /** The first ready process, or the idle process. */
    method Pick() returns (next: Pid)
      requires Accounted(State())
      modifies this
      ensures next < |place| && Sized(State()) && current == old(current)
      ensures interruptsOn == old(interruptsOn)
      ensures Next(old(State())) == Dispatched(State(), next)
      ensures old(current).Some? ==> SameCount(old(State()), State(), old(current).value)
    {
      hide AllCounted;
      if readyQueue == [] {
        if idleProcess.None? {
          StartIdle();
        }
        next := idleProcess.value;
      } else {
        next := readyQueue[0];
        readyQueue := readyQueue[1..];
      }
    }

    /** The current process joins the queue it blocks on. */
    method Block(me: Pid, q: Queue, ghost k: Kernel)
      requires Accounted(k) && State() == Entered(k) && current == Some(me) && iDepth[me] == 0
      requires QueueOf(k, q)
      modifies this`state, this`place, this`sems, this`timers
      ensures State().(current := None) == Parked(k, PlaceOf(k, Some(q)))
    {
      hide AllCounted;
      state := state[me := BLOCKED];
      match q {
        case SemQueue(s) =>
          place := place[me := OnSem(s)];
          sems := sems[s := Sem(sems[s].count, sems[s].waiting + [me])];
        case TimerQueue(i) =>
          place := place[me := Sleeping(timers[i].target)];
          timers := timers[i := Timer(timers[i].target, timers[i].waiting + [me])];
      }
    }

    /** The current process joins a queue, or the ready queue, and the next one runs. */
    method Yield(q: Option<Queue>)
      requires Accounted(State())
      requires q.Some? ==> current.Some? && iDepth[current.value] == 0 && QueueOf(State(), q.value)
      modifies this
      ensures State() == YieldedTo(old(State()), q)
    {
      hide AllCounted;
      hide Inserted;
      hide Next;
      ghost var k := State();
      Disable();
      EnteredAccounted(k);
      if current.Some? {
        var me := current.value;
        if q.Some? {
          Block(me, q.value, k);
        } else {
          MakeReady(me);
          ReadyParked(k);
        }
      }
      SameAccount(Entered(k), State());
      NextOf(k, q, State());
      var next := Pick();
      Dispatch(next, current);
    }

    /** A semaphore with any count, also a negative one, which the system call passes on. */
    method NewSemaphore(count: int) returns (s: nat)
      requires Inv(State())
      modifies this
      ensures State() == Step(old(State()), NewSem(count)) && s == |old(sems)| && sems[s] == Sem(count, [])
      ensures Effect(old(State()), NewSem(count), State())
    {
      hide Effect;
      EveryEffect(State(), NewSem(count));
      s := |sems|;
      sems := sems + [Sem(count, [])];
    }

    /** down: a process that finds no token blocks; it leaves its region when it resumes. */
    method Down(s: nat)
      requires Inv(State()) && Enabled(State(), DownOn(s))
      modifies this
      ensures State() == Step(old(State()), DownOn(s)) && Effect(old(State()), DownOn(s), State())
    {
      hide Effect;
      hide AllCounted;
      hide Placed;
      hide Ahead;
      hide Next;
      hide Parked;
      ghost var k := State();
      EnteredAccounted(k);
      EnteredStays(k);
      EnteredIdle(k);
      NoPanic(k, DownOn(s));
      EveryEffect(k, DownOn(s));
      Disable();
      if sems[s].count == 0 {
        assert current.Some?;
        Yield(Some(SemQueue(s)));
      } else {
        sems := sems[s := Sem(sems[s].count - 1, sems[s].waiting)];
        Bracket(k, State());
        Enable();
      }
    }

    /** up: the first waiter becomes ready, or else the count grows. */
    method Up(s: nat)
      requires Inv(State()) && s < |sems|
      modifies this
      ensures State() == Upped(old(State()), s) && Effect(old(State()), UpOn(s), State())
    {
      hide Effect;
      hide AllCounted;
      hide Placed;
      hide Ahead;
      ghost var k := State();
      EnteredAccounted(k);
      WokenReady(k, s);
      EveryEffect(k, UpOn(s));
      Disable();
      if sems[s].waiting == [] {
        sems := sems[s := Sem(sems[s].count + 1, sems[s].waiting)];
      } else {
        var p := sems[s].waiting[0];
        sems := sems[s := Sem(sems[s].count, sems[s].waiting[1..])];
        SameAccount(Entered(k), State());
        MakeReady(p);
      }
      Bracket(k, State());
      Enable();
    }

    /** The process signals that it is done and leaves the processor for good. */
    method Exit(done: nat)
      requires Inv(State()) && current.Some? && current != idleProcess && done < |sems|
      modifies this
      ensures Inv(Upped(old(State()), done)) && Enabled(Upped(old(State()), done), Event.Exit)
      ensures State() == Exited(Upped(old(State()), done))
      ensures var p := old(current).value;
              && p < |state| && state[p] == TERMINATED && reaperQueue == old(reaperQueue) + [p]
              && current.Some? && current != Some(p)
      ensures var queue := if old(sems)[done].waiting == [] then old(readyQueue)
                           else old(readyQueue) + [old(sems)[done].waiting[0]];
              if queue == [] then current == idleProcess && readyQueue == []
              else current == Some(queue[0]) && readyQueue == queue[1..]
      ensures Effect(old(State()), UpOn(done), Upped(old(State()), done))
      ensures Effect(Upped(old(State()), done), Event.Exit, State())
    {
      hide Effect;
      hide AllCounted;
      hide Placed;
      hide Ahead;
      hide Next;
      hide Parked;
      ghost var k := State();
      StepInv(k, UpOn(done));
      Up(done);
      UppedStays(k, done);
      ghost var m := State();
      EveryEffect(m, Event.Exit);
      Leave();
      ExitDone(k, m, State(), done);
    }

    method Leave()
      requires Accounted(State()) && current.Some? && current != idleProcess
      modifies this
      ensures State() == Exited(old(State()))
    {
      hide AllCounted;
      hide Next;
      hide Inserted;
      ghost var k := State();
      var p := current.value;
      Disable();
      reaperQueue := reaperQueue + [p];
      state := state[p := TERMINATED];
      place := place[p := InReaper];
      current := None;
      assert State() == Parked(k, InReaper);
      ParkedAccounted(k, InReaper);
      assert State().(on := false) == State();
      Yield(None);
    }

    /** Sleep to a second: the timer list is searched for the target, and extended if it is not there. */
    method SleepUntil(second: nat)
      requires Inv(State()) && Enabled(State(), SleepTo(Target(second, hz)))
      modifies this
      ensures State() == Step(old(State()), SleepTo(Target(second, hz)))
      ensures Effect(old(State()), SleepTo(Target(second, hz)), State())
    {
      hide Effect;
      hide AllCounted;
      hide Placed;
      hide Ahead;
      hide Next;
      hide Inserted;
      ghost var k := State();
      EnteredAccounted(k);
      EnteredStays(k);
      var target := Target(second, hz);
      NoPanic(k, SleepTo(target));
      EveryEffect(k, SleepTo(target));
      Disable();
      assert timers == k.timers && jiffies == k.jiffies;
      if target > jiffies {
        var i := FindTimer(target);
        InsertedTwice(k.timers, target, current.value);
        ParkedTwice(Entered(k), target);
        SameAccount(Entered(k), State());
        Yield(Some(TimerQueue(i)));
      } else {
        Bracket(k, State());
        Enable();
      }
    }

    method FindTimer(target: nat) returns (i: nat)
      modifies this`timers
      ensures i == Position(old(timers), target) && timers == WithTimer(old(timers), target)
    {
      i := 0;
      while i < |timers| && timers[i].target < target
        invariant i <= |timers| && timers == old(timers)
        invariant forall j :: 0 <= j < i ==> timers[j].target < target
      {
        i := i + 1;
      }
      PositionIs(timers, target, i);
      if i == |timers| || timers[i].target != target {
        timers := timers[..i] + [Timer(target, [])] + timers[i..];
      }
    }

    /** The tick of the clock wakes the processes of the first timer if it is due. */
    method Tick()
      requires Accounted(State()) && Placed(State())
      modifies this
      ensures FirstSized(old(State())) && State() == Ticked(old(State()))
    {
      hide AllCounted;
      hide Filed;
      hide AllSit;
      hide AllExist;
      hide SemsFiled;
      ghost var k := State();
      EnteredAccounted(k);
      FirstWait(k);
      Disable();
      if timers != [] && timers[0].target == jiffies {
        var waiting := timers[0].waiting;
        FirstNotIdle(k);
        timers := timers[1..];
        SameAccount(Entered(k), State());
        WakeAll(waiting);
      }
      Bracket(k, State());
      Enable();
    }

    method WakeAll(waiting: seq<Pid>)
      requires Accounted(State())
      requires forall i :: 0 <= i < |waiting| ==> waiting[i] < |place| && idleProcess != Some(waiting[i])
      modifies this
      ensures State() == AllReadied(old(State()), waiting)
    {
      hide AllCounted;
      hide AllReadied;
      ghost var m := State();
      AllReadiedNone(m);
      var n := 0;
      while n < |waiting|
        invariant n <= |waiting|
        invariant State() == AllReadied(m, waiting[..n])
        invariant Accounted(State()) && Ready(m, State())
      {
        MakeReady(waiting[n]);
        AllReadiedNext(m, waiting, n);
        SameAccount(m, State());
        n := n + 1;
      }
      assert waiting[..n] == waiting;
    }

    /** The panics of the source, no process or a count that is not 0, are not reached. */
    method StartIrq()
      requires Accounted(State()) && interruptsOn
      modifies this
      ensures old(current).Some? && old(State()).disable[old(current).value] == 0
      ensures State() == IrqStarted(old(State()))
    {
      var me := current.value;
      interruptsOn := false;
      iDepth := iDepth[me := iDepth[me] + 1];
      assert disableCount[me] == 0;
      disableCount := disableCount[me := 1];
      frames := frames[me := [Irq]];
    }

    /** The panic of the source, a count that is not 1, is not reached; the return from the interrupt
        turns interrupts on. */
    method EndIrq()
      requires Accounted(State()) && Inside(State(), Irq)
      modifies this
      ensures old(State()).disable[old(current).value] == 1 && 0 < old(State()).iDepth[old(current).value]
      ensures State() == IrqEnded(old(State()))
    {
      IrqEndAccounted(State());
      var me := current.value;
      iDepth := iDepth[me := iDepth[me] - 1];
      assert disableCount[me] == 1;
      disableCount := disableCount[me := 0];
      frames := frames[me := []];
      interruptsOn := true;
    }

    /** An interrupt up to its yield; EndIrq follows when the interrupted process resumes. */
    method PicIrq(timer: bool)
      requires Inv(State()) && interruptsOn
      modifies this
      ensures Inv(Step(old(State()), Interrupt(timer)))
      ensures State() == Step(Step(old(State()), Interrupt(timer)), Event.Yield)
      ensures Effect(old(State()), Interrupt(timer), Step(old(State()), Interrupt(timer)))
      ensures Effect(Step(old(State()), Interrupt(timer)), Event.Yield, State())
    {
      hide Effect;
      hide AllCounted;
      hide Placed;
      hide Ahead;
      ghost var k := State();
      StepInv(k, Interrupt(timer));
      EveryEffect(k, Interrupt(timer));
      EveryEffect(Step(k, Interrupt(timer)), Event.Yield);
      IrqAccounted(k);
      IrqPlaced(k, Clock(k.jiffies));
      StartIrq();
      if timer {
        jiffies := (jiffies + 1) % WORD;
        Tick();
      }
      assert State() == Step(k, Interrupt(timer));
      Yield(None);
    }

    /** One turn of the reaper's loop. */
    method Reap() returns (kill: Option<Pid>)
      requires Inv(State())
      modifies this
      ensures State() == Reaped(old(State())) && Effect(old(State()), Event.Reap, State())
      ensures kill == if old(reaperQueue) == [] then None else Some(old(reaperQueue)[0])
    {
      hide Effect;
      hide AllCounted;
      hide Placed;
      hide Ahead;
      ghost var k := State();
      EnteredAccounted(k);
      ReaperKnown(k);
      EveryEffect(k, Event.Reap);
      Disable();
      kill := None;
      if reaperQueue != [] {
        kill := Some(reaperQueue[0]);
        place := place[reaperQueue[0] := Gone];
        reaperQueue := reaperQueue[1..];
      }
      Bracket(k, State());
      Enable();
    }
  }

  lemma WokenReady(k: Kernel, s: nat)
    requires Placed(k) && s < |k.sems|
    ensures Woken(k.sems[s]).Some? ==> Woken(k.sems[s]).value < |k.place| && k.idle != Some(Woken(k.sems[s]).value)
  {
    hide Filed;
    if Woken(k.sems[s]).Some? {
      SemsLeave(k.sems, k.place, s);
      NotIdle(k, Woken(k.sems[s]).value);
    }
  }

  lemma UppedStays(k: Kernel, s: nat)
    requires |k.state| == |k.place| && s < |k.sems|
    ensures Upped(k, s).current == k.current && Upped(k, s).idle == k.idle
  {
  }

  lemma ReaperKnown(k: Kernel)
    requires Placed(k)
    ensures k.reaper != [] ==> k.reaper[0] < |k.place|
  {
    assert k.reaper != [] ==> k.reaper[0] in k.reaper;
  }

  lemma FirstNotIdle(k: Kernel)
    requires Placed(k) && k.timers != []
    ensures forall i :: 0 <= i < |k.timers[0].waiting| ==> k.timers[0].waiting[i] < |k.place|
    ensures forall i :: 0 <= i < |k.timers[0].waiting| ==> k.idle != Some(k.timers[0].waiting[i])
  {
    var ps := k.timers[0].waiting;
    assert TimerFiled(k.timers[0], k.place);
    forall i | 0 <= i < |ps|
      ensures ps[i] < |k.place| && k.idle != Some(ps[i])
    {
      assert ps[i] in ps;
      NotIdle(k, ps[i]);
    }
  }

  /** Only the queue, the states and the places differ. */
  ghost predicate Ready(k: Kernel, k': Kernel) {
    k' == k.(ready := k'.ready, state := k'.state, place := k'.place) && |k'.state| == |k'.place| == |k.place|
  }

  lemma AllReadiedNone(k: Kernel)
    requires |k.state| == |k.place|
    ensures AllReadied(k, []) == k
  {
    assert AllReadied(k, []).state == k.state;
    assert AllReadied(k, []).place == k.place;
  }

  lemma AllReadiedNext(k: Kernel, ps: seq<Pid>, n: nat)
    requires |k.state| == |k.place| && n < |ps| && ps[n] < |k.place|
    ensures Readied(AllReadied(k, ps[..n]), ps[n]) == AllReadied(k, ps[..n + 1])
  {
    assert ps[..n + 1] == ps[..n] + [ps[n]];
    var a, b := Readied(AllReadied(k, ps[..n]), ps[n]), AllReadied(k, ps[..n + 1]);
    assert a.ready == b.ready;
    assert a.state == b.state;
    assert a.place == b.place;
  }

  /** A new timer without waiters makes no difference to the process that then joins it. */
  lemma ParkedTwice(k: Kernel, t: nat)
    requires Sized(k) && k.current.Some?
    ensures Sized(k.(timers := WithTimer(k.timers, t)))
    ensures Parked(k.(timers := WithTimer(k.timers, t)), Sleeping(t)) == Parked(k, Sleeping(t))
  {
    hide Inserted;
    InsertedTwice(k.timers, t, k.current.value);
  }

  ghost predicate QueueOf(k: Kernel, q: Queue) {
    match q
    case SemQueue(s) => s < |k.sems|
    case TimerQueue(i) => i < |k.timers| && Position(k.timers, k.timers[i].target) == i
  }

  lemma ReadyParked(k: Kernel)
    requires Sized(k) && k.current.Some?
    ensures |Entered(k).state| == |Entered(k).place|
    ensures MadeReady(Entered(k), k.current.value).(current := None) == Parked(k, PlaceOf(k, None))
  {
  }

  ghost function PlaceOf(k: Kernel, q: Option<Queue>): Place {
    match q
    case None => if k.current == k.idle then Resting else InReady
    case Some(SemQueue(s)) => OnSem(s)
    case Some(TimerQueue(i)) => if i < |k.timers| then Sleeping(k.timers[i].target) else Resting
  }

  ghost function YieldedTo(k: Kernel, q: Option<Queue>): Kernel
    requires Sized(k)
  {
    if k.current.None? then Next(k.(on := false))
    else
      ParkedSized(k, PlaceOf(k, q));
      Next(Parked(k, PlaceOf(k, q)))
  }

  /** The next process does not depend on which process is still called current. */
  lemma NextOf(k: Kernel, q: Option<Queue>, m: Kernel)
    requires Sized(k)
    requires Sized(m)
    requires if k.current.None? then m == k.(on := false)
             else m.(current := None) == Parked(k, PlaceOf(k, q))
    ensures Next(m) == YieldedTo(k, q)
  {
    hide Inserted;
  }
}
