/** Every step of the process layer keeps its invariant. */
module SchedulerProofs {
  import opened Collections
  import opened Semaphores
  import opened SchedulerModel

  // ---------------------------------------------------------------- the interrupt account

  lemma CountedAt(disable: seq<nat>, iDepth: seq<nat>, frames: seq<seq<Frame>>, p: Pid, d: nat, i: nat, fs: seq<Frame>)
    requires AllCounted(disable, iDepth, frames) && p < |disable| && Counted(d, i, fs)
    ensures AllCounted(disable[p := d], iDepth[p := i], frames[p := fs])
  {
  }

  lemma EnteredAccounted(k: Kernel)
    requires Accounted(k)
    ensures Accounted(Entered(k)) && !Entered(k).on
  {
    hide AllCounted;
    if k.current.Some? {
      var p := k.current.value;
      var fs := k.frames[p] + [Section];
      assert Counted(k.disable[p], k.iDepth[p], k.frames[p]) by { CountedOne(k, p); }
      assert Irq in fs <==> Irq in k.frames[p];
      CountedAt(k.disable, k.iDepth, k.frames, p, k.disable[p] + 1, k.iDepth[p], fs);
      assert k.iDepth[p := k.iDepth[p]] == k.iDepth;
    }
  }

  lemma CountedOne(k: Kernel, p: Pid)
    requires AllCounted(k.disable, k.iDepth, k.frames) && p < |k.frames|
    ensures |k.disable| == |k.iDepth| == |k.frames| && Counted(k.disable[p], k.iDepth[p], k.frames[p])
  {
  }

  lemma LeftAccounted(k: Kernel)
    requires Accounted(k) && (k.current.None? || Inside(k, Section))
    ensures k.current.Some? ==> 0 < k.disable[k.current.value]
    ensures Accounted(Left(k))
  {
    hide AllCounted;
    if k.current.Some? {
      var p := k.current.value;
      var fs := k.frames[p];
      CountedOne(k, p);
      var fs' := fs[..|fs| - 1];
      assert fs == fs' + [Section];
      assert Irq in fs' <==> Irq in fs;
      CountedAt(k.disable, k.iDepth, k.frames, p, k.disable[p] - 1, k.iDepth[p], fs');
      assert k.iDepth[p := k.iDepth[p]] == k.iDepth;
    }
  }

  lemma CreatedCounted(k: Kernel, place: Place)
    requires Sized(k) && AllCounted(k.disable, k.iDepth, k.frames)
    ensures Sized(Created(k, place))
    ensures AllCounted(Created(k, place).disable, Created(k, place).iDepth, Created(k, place).frames)
  {
  }

  lemma ParkedAccounted(k: Kernel, place: Place)
    requires Accounted(k) && k.current.Some?
    ensures Accounted(Parked(k, place))
  {
    hide AllCounted;
    hide Inserted;
    EnteredAccounted(k);
  }

  lemma NextAccounted(k: Kernel)
    requires Accounted(k)
    ensures Accounted(Next(k))
  {
    hide AllCounted;
    CreatedCounted(k, Resting);
  }

  // ---------------------------------------------------------------- queues and places

  lemma FiledElsewhere(q: seq<Pid>, place: seq<Place>, at: Place, p: Pid, to: Place)
    requires Filed(q, place, at) && p < |place| && place[p] != at && to != at
    ensures Filed(q, place[p := to], at)
  {
  }

  lemma FiledJoin(q: seq<Pid>, place: seq<Place>, at: Place, p: Pid)
    requires Filed(q, place, at) && p < |place| && place[p] != at
    ensures Filed(q + [p], place[p := at], at)
  {
  }

  lemma FiledLeave(q: seq<Pid>, place: seq<Place>, at: Place, to: Place)
    requires Filed(q, place, at) && q != [] && to != at
    ensures q[0] < |place| && place[q[0]] == at && Filed(q[1..], place[q[0] := to], at)
  {
    assert q[0] in q;
    NoDupTail(q);
  }

  lemma FiledGrow(q: seq<Pid>, place: seq<Place>, at: Place, to: Place)
    requires Filed(q, place, at) && to != at
    ensures Filed(q, place + [to], at)
  {
  }

  lemma FiledStart(q: seq<Pid>, place: seq<Place>, at: Place)
    requires Filed(q, place, at)
    ensures Filed(q + [|place|], place + [at], at)
  {
    assert forall i :: 0 <= i < |q| ==> q[i] in q;
  }

  lemma SemsElsewhere(sems: seq<Sem>, place: seq<Place>, p: Pid, to: Place)
    requires SemsFiled(sems, place) && p < |place| && !place[p].OnSem? && !to.OnSem?
    ensures SemsFiled(sems, place[p := to])
  {
  }

  lemma SemsGrow(sems: seq<Sem>, place: seq<Place>, to: Place)
    requires SemsFiled(sems, place) && !to.OnSem?
    ensures SemsFiled(sems, place + [to])
  {
  }

  lemma SemsJoin(sems: seq<Sem>, place: seq<Place>, p: Pid, s: nat)
    requires SemsFiled(sems, place) && p < |place| && !place[p].OnSem? && s < |sems| && sems[s].count == 0
    ensures SemsFiled(sems[s := Sem(0, sems[s].waiting + [p])], place[p := OnSem(s)])
  {
  }

  lemma FiledNoDup(q: seq<Pid>, place: seq<Place>, at: Place)
    requires Filed(q, place, at)
    ensures NoDup(q)
  {
  }

  lemma SemsLeave(sems: seq<Sem>, place: seq<Place>, s: nat)
    requires SemsFiled(sems, place) && s < |sems| && Woken(sems[s]).Some?
    ensures var p := Woken(sems[s]).value; p < |place| && place[p] == OnSem(s)
                                           && SemsFiled(sems[s := Up(sems[s])], place[p := InReady])
  {
    hide Filed;
    assert SemFiled(sems[s], place, s);
    var p := Woken(sems[s]).value;
    FiledLeave(sems[s].waiting, place, OnSem(s), InReady);
    FiledNoDup(sems[s].waiting[1..], place[p := InReady], OnSem(s));
    var sems' := sems[s := Up(sems[s])];
    forall i | 0 <= i < |sems|
      ensures SemFiled(sems'[i], place[p := InReady], i)
    {
      if i != s {
        assert SemFiled(sems[i], place, i);
        FiledElsewhere(sems[i].waiting, place, OnSem(i), p, InReady);
      }
    }
  }

  lemma TimersElsewhere(timers: seq<Timer>, place: seq<Place>, p: Pid, to: Place)
    requires TimersFiled(timers, place) && p < |place| && !place[p].Sleeping? && !to.Sleeping?
    ensures TimersFiled(timers, place[p := to])
  {
  }

  lemma TimersGrow(timers: seq<Timer>, place: seq<Place>, to: Place)
    requires TimersFiled(timers, place) && !to.Sleeping?
    ensures TimersFiled(timers, place + [to])
  {
  }

  lemma AllSitMove(state: seq<State>, place: seq<Place>, current: Option<Pid>, idle: Option<Pid>, p: Pid, to: Place,
                   current': Option<Pid>)
    requires AllSit(state, place, current, idle) && p < |place|
    requires current == None || current == Some(p)
    requires if to == Running then current' == Some(p) else current' == (if current == Some(p) then None else current)
    requires to == Resting ==> idle == Some(p)
    requires idle == Some(p) ==> to == Running || to == Resting
    ensures AllSit(state[p := StateFor(to)], place[p := to], current', idle)
  {
  }

  /** A process that is not current moves to a place other than Running. */
  lemma AllSitWake(state: seq<State>, place: seq<Place>, current: Option<Pid>, idle: Option<Pid>, p: Pid, to: Place)
    requires AllSit(state, place, current, idle) && p < |place|
    requires place[p] != Running && place[p] != Resting && to != Running && to != Resting
    ensures AllSit(state[p := StateFor(to)], place[p := to], current, idle)
  {
  }

  lemma AllSitGrow(state: seq<State>, place: seq<Place>, current: Option<Pid>, idle: Option<Pid>, to: Place,
                   idle': Option<Pid>)
    requires AllSit(state, place, current, idle) && to != Running
    requires if to == Resting then idle == None && idle' == Some(|place|) else idle' == idle
    ensures AllSit(state + [StateFor(to)], place + [to], current, idle')
  {
  }

  lemma AllExistMove(place: seq<Place>, sems: seq<Sem>, timers: seq<Timer>, p: Pid, to: Place)
    requires AllExist(place, sems, timers) && p < |place| && Exists(to, sems, timers)
    ensures AllExist(place[p := to], sems, timers)
  {
  }

  lemma AllExistGrow(place: seq<Place>, sems: seq<Sem>, timers: seq<Timer>, to: Place)
    requires AllExist(place, sems, timers) && Exists(to, sems, timers)
    ensures AllExist(place + [to], sems, timers)
  {
  }

  lemma AllExistSems(place: seq<Place>, sems: seq<Sem>, timers: seq<Timer>, sems': seq<Sem>)
    requires AllExist(place, sems, timers) && |sems| <= |sems'|
    ensures AllExist(place, sems', timers)
  {
  }

  // ---------------------------------------------------------------- timers

  /** A timer with target t is at Position(t). */
  lemma AtPosition(timers: seq<Timer>, t: nat)
    requires Rising(timers) && HasTimer(timers, t)
    ensures Position(timers, t) < |timers| && timers[Position(timers, t)].target == t
  {
  }

  lemma InsertedAt(timers: seq<Timer>, t: nat, p: Pid, j: nat)
    requires j < |Inserted(timers, t, p)|
    ensures var i := Position(timers, t);
            var r := Inserted(timers, t, p);
            if i < |timers| && timers[i].target == t then
              |r| == |timers| && r[j] == (if j == i then Timer(t, timers[i].waiting + [p]) else timers[j])
            else
              |r| == |timers| + 1 && r[j] == (if j < i then timers[j] else if j == i then Timer(t, [p])
                                              else timers[j - 1])
  {
  }

  lemma InsertedRising(timers: seq<Timer>, t: nat, p: Pid)
    requires Rising(timers)
    ensures Rising(Inserted(timers, t, p))
  {
    hide Inserted;
    var r := Inserted(timers, t, p);
    forall a, b | 0 <= a < b < |r|
      ensures r[a].target < r[b].target
    {
      InsertedAt(timers, t, p, a);
      InsertedAt(timers, t, p, b);
    }
  }

  lemma InsertedAhead(timers: seq<Timer>, t: nat, p: Pid, jiffies: nat)
    requires Ahead(timers, jiffies) && jiffies < t < WORD
    ensures Ahead(Inserted(timers, t, p), jiffies)
  {
    hide Inserted;
    var r := Inserted(timers, t, p);
    forall a | 0 <= a < |r|
      ensures jiffies < r[a].target < WORD
    {
      InsertedAt(timers, t, p, a);
    }
  }

  lemma InsertedHas(timers: seq<Timer>, t: nat, p: Pid, u: nat)
    requires HasTimer(timers, u) || u == t
    ensures HasTimer(Inserted(timers, t, p), u)
  {
    var i := Position(timers, t);
    var r := Inserted(timers, t, p);
    if u == t {
      assert r[i].target == t;
    } else {
      var j :| 0 <= j < |timers| && timers[j].target == u;
      if i < |timers| && timers[i].target == t {
        assert r[j].target == u;
      } else {
        assert r[if j < i then j else j + 1].target == u;
      }
    }
  }

  lemma NobodySleeps(place: seq<Place>, sems: seq<Sem>, timers: seq<Timer>, t: nat)
    requires AllExist(place, sems, timers) && !HasTimer(timers, t)
    ensures Filed([], place, Sleeping(t))
  {
  }

  lemma TimersJoin(timers: seq<Timer>, place: seq<Place>, sems: seq<Sem>, t: nat, p: Pid)
    requires TimersFiled(timers, place) && Rising(timers) && AllExist(place, sems, timers)
    requires p < |place| && !place[p].Sleeping?
    ensures TimersFiled(Inserted(timers, t, p), place[p := Sleeping(t)])
  {
    hide Filed;
    hide Inserted;
    hide Rising;
    hide AllExist;
    var i := Position(timers, t);
    var r, place' := Inserted(timers, t, p), place[p := Sleeping(t)];
    if HasTimer(timers, t) {
      AtPosition(timers, t);
      assert TimerFiled(timers[i], place);
      FiledJoin(timers[i].waiting, place, Sleeping(t), p);
    } else {
      NobodySleeps(place, sems, timers, t);
      FiledJoin([], place, Sleeping(t), p);
      assert [] + [p] == [p];
    }
    forall a | 0 <= a < |r|
      ensures TimerFiled(r[a], place')
    {
      InsertedAt(timers, t, p, a);
      if a != i {
        var b := if a < i || |r| == |timers| then a else a - 1;
        TimerElsewhere(timers, place, sems, t, p, b);
      }
    }
  }

  lemma TimerElsewhere(timers: seq<Timer>, place: seq<Place>, sems: seq<Sem>, t: nat, p: Pid, b: nat)
    requires TimersFiled(timers, place) && Rising(timers)
    requires p < |place| && !place[p].Sleeping?
    requires b < |timers| && (b == Position(timers, t) ==> timers[b].target != t)
    ensures TimerFiled(timers[b], place[p := Sleeping(t)])
  {
  }

  // ---------------------------------------------------------------- every process keeps one place

  /** The queues that p neither leaves nor joins. */
  lemma Elsewhere(k: Kernel, p: Pid, to: Place)
    requires Placed(k) && p < |k.place|
    ensures var from, place' := k.place[p], k.place[p := to];
            && (from != InReady && to != InReady ==> Filed(k.ready, place', InReady))
            && (from != InReaper && to != InReaper ==> Filed(k.reaper, place', InReaper))
            && (!from.OnSem? && !to.OnSem? ==> SemsFiled(k.sems, place'))
            && (!from.Sleeping? && !to.Sleeping? ==> TimersFiled(k.timers, place'))
            && (Exists(to, k.sems, k.timers) ==> AllExist(place', k.sems, k.timers))
  {
    hide Filed;
    hide SemsFiled;
    hide TimersFiled;
    hide AllExist;
    hide AllSit;
    var from := k.place[p];
    if from != InReady && to != InReady { FiledElsewhere(k.ready, k.place, InReady, p, to); }
    if from != InReaper && to != InReaper { FiledElsewhere(k.reaper, k.place, InReaper, p, to); }
    if !from.OnSem? && !to.OnSem? { SemsElsewhere(k.sems, k.place, p, to); }
    if !from.Sleeping? && !to.Sleeping? { TimersElsewhere(k.timers, k.place, p, to); }
    if Exists(to, k.sems, k.timers) { AllExistMove(k.place, k.sems, k.timers, p, to); }
  }

  lemma CurrentRuns(k: Kernel)
    requires Placed(k) && k.current.Some?
    ensures k.current.value < |k.place| && k.place[k.current.value] == Running
  {
  }

  /** The places the current process may go to. */
  ghost predicate MayPark(k: Kernel, place: Place) {
    && k.current.Some?
    && match place
       case Resting => k.current == k.idle
       case InReady => k.current != k.idle
       case InReaper => k.current != k.idle
       case OnSem(s) => k.current != k.idle && s < |k.sems| && k.sems[s].count == 0
       case Sleeping(t) => k.current != k.idle
       case _ => false
  }

  lemma ParkedPlaced(k: Kernel, place: Place)
    requires Sized(k) && Placed(k) && MayPark(k, place)
    ensures Placed(Parked(k, place))
  {
    hide Filed;
    hide SemsFiled;
    hide TimersFiled;
    hide AllExist;
    hide AllSit;
    hide Inserted;
    hide Rising;
    var p := k.current.value;
    CurrentRuns(k);
    Elsewhere(k, p, place);
    ParkedSits(k, place);
    match place
    case InReady => FiledJoin(k.ready, k.place, InReady, p);
    case InReaper => FiledJoin(k.reaper, k.place, InReaper, p);
    case OnSem(s) => ParkedOnSem(k, s);
    case Sleeping(t) => ParkedSleeping(k, t);
    case _ =>
  }

  lemma ParkedSits(k: Kernel, place: Place)
    requires Sized(k) && Placed(k) && MayPark(k, place)
    ensures AllSit(k.state[k.current.value := StateFor(place)], k.place[k.current.value := place], None, k.idle)
  {
    hide Filed;
    hide SemsFiled;
    hide TimersFiled;
    hide AllExist;
    AllSitMove(k.state, k.place, k.current, k.idle, k.current.value, place, None);
  }

  lemma ParkedOnSem(k: Kernel, s: nat)
    requires Sized(k) && Placed(k) && MayPark(k, OnSem(s))
    ensures var p := k.current.value;
            var sems' := k.sems[s := Sem(k.sems[s].count, k.sems[s].waiting + [p])];
            SemsFiled(sems', k.place[p := OnSem(s)]) && AllExist(k.place[p := OnSem(s)], sems', k.timers)
  {
    hide Filed;
    hide AllSit;
    hide TimersFiled;
    hide AllExist;
    hide SemsFiled;
    var p := k.current.value;
    CurrentRuns(k);
    SemsJoin(k.sems, k.place, p, s);
    AllExistMove(k.place, k.sems, k.timers, p, OnSem(s));
    AllExistSems(k.place[p := OnSem(s)], k.sems, k.timers, k.sems[s := Sem(k.sems[s].count, k.sems[s].waiting + [p])]);
  }

  lemma ParkedSleeping(k: Kernel, t: nat)
    requires Sized(k) && Placed(k) && MayPark(k, Sleeping(t))
    ensures var p := k.current.value;
            var timers', place' := Inserted(k.timers, t, p), k.place[p := Sleeping(t)];
            TimersFiled(timers', place') && AllExist(place', k.sems, timers') && Rising(timers')
  {
    hide Filed;
    hide AllSit;
    hide TimersFiled;
    hide SemsFiled;
    hide Inserted;
    hide Rising;
    hide HasTimer;
    var p := k.current.value;
    CurrentRuns(k);
    TimersJoin(k.timers, k.place, k.sems, t, p);
    InsertedRising(k.timers, t, p);
    var timers', place' := Inserted(k.timers, t, p), k.place[p := Sleeping(t)];
    forall q | 0 <= q < |place'|
      ensures Exists(place'[q], k.sems, timers')
    {
      assert Exists(k.place[q], k.sems, k.timers);
      if place'[q].Sleeping? {
        InsertedHas(k.timers, t, p, place'[q].target);
      }
    }
  }

  lemma DispatchedReady(k: Kernel)
    requires Sized(k) && Placed(k) && k.current.None? && k.ready != []
    ensures Placed(Next(k))
  {
    hide Filed;
    hide SemsFiled;
    hide TimersFiled;
    hide AllExist;
    hide AllSit;
    hide Rising;
    var p := k.ready[0];
    FiledLeave(k.ready, k.place, InReady, Running);
    Elsewhere(k, p, Running);
    NotIdle(k, p);
    AllSitMove(k.state, k.place, k.current, k.idle, p, Running, Some(p));
  }

  lemma NotIdle(k: Kernel, p: Pid)
    requires Placed(k) && p < |k.place| && k.place[p] != Running && k.place[p] != Resting
    ensures k.idle != Some(p) && k.current != Some(p)
  {
  }

  lemma DispatchedIdle(k: Kernel, p: Pid)
    requires Sized(k) && Placed(k) && k.current.None? && k.idle == Some(p)
    ensures p < |k.place| && Placed(Dispatched(k, p))
  {
    hide Filed;
    hide SemsFiled;
    hide TimersFiled;
    hide AllExist;
    hide AllSit;
    hide Rising;
    IdleRests(k, p);
    Elsewhere(k, p, Running);
    AllSitMove(k.state, k.place, k.current, k.idle, p, Running, Some(p));
  }

  lemma IdleRests(k: Kernel, p: Pid)
    requires Placed(k) && k.current != Some(p) && k.idle == Some(p)
    ensures p < |k.place| && k.place[p] == Resting
  {
  }

  lemma CreatedPlaced(k: Kernel, to: Place)
    requires Placed(k) && (to == InReady || (to == Resting && k.idle.None?))
    ensures to == InReady ==> Placed(Started(k))
    ensures to == Resting ==> Placed(IdleStarted(k))
  {
    hide Filed;
    hide SemsFiled;
    hide TimersFiled;
    hide AllExist;
    hide AllSit;
    hide Rising;
    AllSitGrow(k.state, k.place, k.current, k.idle, to, if to == Resting then Some(|k.place|) else k.idle);
    FiledGrow(k.reaper, k.place, InReaper, to);
    SemsGrow(k.sems, k.place, to);
    TimersGrow(k.timers, k.place, to);
    AllExistGrow(k.place, k.sems, k.timers, to);
    if to == InReady {
      FiledStart(k.ready, k.place, InReady);
    } else {
      FiledGrow(k.ready, k.place, InReady, to);
    }
  }

  lemma NextPlaced(k: Kernel)
    requires Sized(k) && Placed(k) && k.current.None?
    ensures Placed(Next(k))
  {
    hide Placed;
    if k.ready != [] {
      DispatchedReady(k);
    } else if k.idle.Some? {
      DispatchedIdle(k, k.idle.value);
    } else {
      CreatedPlaced(k, Resting);
      DispatchedIdle(IdleStarted(k), |k.place|);
    }
  }

  lemma UppedPlaced(k: Kernel, s: nat)
    requires Sized(k) && Placed(k) && s < |k.sems|
    ensures Placed(Upped(k, s))
  {
    hide Filed;
    hide TimersFiled;
    hide AllExist;
    hide AllSit;
    hide Rising;
    hide SemsFiled;
    var w := Woken(k.sems[s]);
    AllExistSems(k.place, k.sems, k.timers, k.sems[s := Up(k.sems[s])]);
    if w.Some? {
      SemsLeave(k.sems, k.place, s);
      Elsewhere(k, w.value, InReady);
      AllSitWake(k.state, k.place, k.current, k.idle, w.value, InReady);
      FiledJoin(k.ready, k.place, InReady, w.value);
      AllExistSems(k.place[w.value := InReady], k.sems, k.timers, k.sems[s := Up(k.sems[s])]);
    } else {
      SemsCount(k.sems, k.place, s, Up(k.sems[s]));
    }
  }

  lemma SemsCount(sems: seq<Sem>, place: seq<Place>, s: nat, q: Sem)
    requires SemsFiled(sems, place) && s < |sems| && q.waiting == sems[s].waiting && Sound(q)
    ensures SemsFiled(sems[s := q], place)
  {
  }

  lemma ReapedPlaced(k: Kernel)
    requires Sized(k) && Placed(k)
    ensures Placed(Reaped(k))
  {
    hide Filed;
    hide TimersFiled;
    hide AllExist;
    hide AllSit;
    hide Rising;
    hide SemsFiled;
    if k.reaper != [] {
      var p := k.reaper[0];
      FiledLeave(k.reaper, k.place, InReaper, Gone);
      Elsewhere(k, p, Gone);
      SitState(k, p);
      AllSitWake(k.state, k.place, k.current, k.idle, p, Gone);
      assert k.state[p := TERMINATED] == k.state;
    }
  }

  lemma SitState(k: Kernel, p: Pid)
    requires Placed(k) && p < |k.place|
    ensures k.state[p] == StateFor(k.place[p])
  {
  }

  lemma NewSemPlaced(k: Kernel, count: int)
    requires Sized(k) && Placed(k)
    ensures Placed(k.(sems := k.sems + [Sem(count, [])]))
  {
    hide TimersFiled;
    hide AllSit;
    hide Rising;
    hide HasTimer;
    var sems' := k.sems + [Sem(count, [])];
    AllExistSems(k.place, k.sems, k.timers, sems');
    NobodyOn(k);
    forall i | 0 <= i < |sems'|
      ensures SemFiled(sems'[i], k.place, i)
    {
      if i < |k.sems| {
        assert SemFiled(k.sems[i], k.place, i);
      }
    }
  }

  lemma NobodyOn(k: Kernel)
    requires Placed(k)
    ensures Filed([], k.place, OnSem(|k.sems|))
  {
  }

  // ---------------------------------------------------------------- the clock

  /** The places after all of ps have become ready. */
  ghost predicate Moved(place: seq<Place>, place': seq<Place>, ps: seq<Pid>) {
    && |place'| == |place|
    && forall q: Pid :: q < |place| ==> place'[q] == if q in ps then InReady else place[q]
  }

  lemma FiledSpared(q: seq<Pid>, place: seq<Place>, place': seq<Place>, at: Place, ps: seq<Pid>, from: Place)
    requires Filed(q, place, at) && Filed(ps, place, from) && Moved(place, place', ps) && at != from && at != InReady
    ensures Filed(q, place', at)
  {
  }

  lemma FiledAll(q: seq<Pid>, place: seq<Place>, place': seq<Place>, ps: seq<Pid>, from: Place)
    requires Filed(q, place, InReady) && Filed(ps, place, from) && Moved(place, place', ps) && from != InReady
    ensures Filed(q + ps, place', InReady)
  {
    assert forall i :: 0 <= i < |q| ==> q[i] in q;
    assert forall i :: 0 <= i < |ps| ==> ps[i] in ps;
  }

  lemma SemsSpared(sems: seq<Sem>, place: seq<Place>, place': seq<Place>, ps: seq<Pid>, t: nat)
    requires SemsFiled(sems, place) && Filed(ps, place, Sleeping(t)) && Moved(place, place', ps)
    ensures SemsFiled(sems, place')
  {
  }

  lemma TimersSpared(timers: seq<Timer>, place: seq<Place>, place': seq<Place>, ps: seq<Pid>, t: nat)
    requires TimersFiled(timers, place) && Filed(ps, place, Sleeping(t)) && Moved(place, place', ps)
    requires forall i :: 0 <= i < |timers| ==> timers[i].target != t
    ensures TimersFiled(timers, place')
  {
  }

  lemma SitsSpared(k: Kernel, ps: seq<Pid>, t: nat)
    requires AllSit(k.state, k.place, k.current, k.idle) && Filed(ps, k.place, Sleeping(t))
    ensures AllSit(AllReadied(k, ps).state, AllReadied(k, ps).place, k.current, k.idle)
    ensures Moved(k.place, AllReadied(k, ps).place, ps)
  {
    var k' := AllReadied(k, ps);
    forall q | 0 <= q < |k.place|
      ensures Sits(q, k'.state[q], k'.place[q], k.current, k.idle)
    {
      assert Sits(q, k.state[q], k.place[q], k.current, k.idle);
    }
  }

  lemma ExistSpared(place: seq<Place>, place': seq<Place>, sems: seq<Sem>, timers: seq<Timer>, ps: seq<Pid>)
    requires AllExist(place, sems, timers) && Moved(place, place', ps) && timers != []
    requires Filed(ps, place, Sleeping(timers[0].target))
    ensures AllExist(place', sems, timers[1..])
  {
  }

  lemma TickedPlaced(k: Kernel)
    requires Sized(k) && Placed(k)
    ensures FirstSized(k) && Placed(Ticked(k))
  {
    hide Filed;
    hide SemsFiled;
    hide AllExist;
    hide AllSit;
    hide Moved;
    FirstWait(k);
    if k.timers != [] && k.timers[0].target == k.jiffies {
      var t, ps := k.timers[0].target, k.timers[0].waiting;
      var rest := k.timers[1..];
      assert TimerFiled(k.timers[0], k.place);
      assert forall i :: 0 <= i < |rest| ==> rest[i] == k.timers[i + 1];
      SitsSpared(k, ps, t);
      var place' := Ticked(k).place;
      FiledAll(k.ready, k.place, place', ps, Sleeping(t));
      FiledSpared(k.reaper, k.place, place', InReaper, ps, Sleeping(t));
      SemsSpared(k.sems, k.place, place', ps, t);
      TimersSpared(rest, k.place, place', ps, t);
      ExistSpared(k.place, place', k.sems, k.timers, ps);
    }
  }

  lemma FirstWait(k: Kernel)
    requires Placed(k)
    ensures FirstSized(k)
  {
    if k.timers != [] {
      var ps := k.timers[0].waiting;
      assert TimerFiled(k.timers[0], k.place);
      assert forall i :: 0 <= i < |ps| ==> ps[i] in ps;
    }
  }

  lemma AheadOfLast(timers: seq<Timer>, jiffies: nat)
    requires Ahead(timers, jiffies)
    ensures timers != [] ==> jiffies + 1 < WORD
  {
    if timers != [] {
      assert jiffies < timers[0].target < WORD;
    }
  }

  /** The first timer is due at its target and at no other time; after it the clock is behind all
      targets again. The clock may wrap: then no timer is pending. */
  lemma TickedAhead(k: Kernel, jiffies: nat)
    requires Sized(k) && Placed(k) && Ahead(k.timers, jiffies) && k.jiffies == Clock(jiffies)
    ensures FirstSized(k) && Ahead(Ticked(k).timers, k.jiffies)
    ensures k.jiffies == 0 ==> k.timers == []
  {
    FirstWait(k);
    if jiffies + 1 == WORD {
      AheadOfLast(k.timers, jiffies);
    } else {
      assert k.jiffies == jiffies + 1;
      var rest := Ticked(k).timers;
      forall i | 0 <= i < |rest|
        ensures k.jiffies < rest[i].target < WORD
      {
        var j := if rest == k.timers then i else i + 1;
        assert rest[i] == k.timers[j];
        assert j > 0 ==> k.timers[0].target < k.timers[j].target;
      }
    }
  }

  // ---------------------------------------------------------------- every step

  lemma IrqAccounted(k: Kernel)
    requires Accounted(k) && k.on
    ensures k.disable[k.current.value] == 0 && k.iDepth[k.current.value] == 0
    ensures Accounted(IrqStarted(k))
  {
    hide AllCounted;
    var p := k.current.value;
    CountedOne(k, p);
    CountedAt(k.disable, k.iDepth, k.frames, p, 1, 1, [Irq]);
  }

  /** An interrupt ends with the count it began with. */
  lemma IrqEndAccounted(k: Kernel)
    requires Accounted(k) && Inside(k, Irq)
    ensures k.disable[k.current.value] == 1 && k.iDepth[k.current.value] == 1
    ensures Accounted(IrqEnded(k))
  {
    hide AllCounted;
    var p := k.current.value;
    CountedOne(k, p);
    assert k.frames[p][|k.frames[p]| - 1] == Irq;
    CountedAt(k.disable, k.iDepth, k.frames, p, 0, 0, []);
  }

  /** One step. The three arguments that the definitions of the steps need hold by the invariant. */
  ghost function Step(k: Kernel, e: Event): Kernel
    requires Inv(k) && Enabled(k, e)
  {
    match e
    case Disable => Entered(k)
    case Enable => LeftAccounted(k); Left(k)
    case Start => Started(k)
    case StartIdle => IdleStarted(k)
    case NewSem(count) => k.(sems := k.sems + [Sem(count, [])])
    case Yield => Yielded(k)
    case DownOn(s) =>
      if Passes(k.sems[s]) then k.(sems := k.sems[s := Sem(k.sems[s].count - 1, k.sems[s].waiting)])
      else Blocked(k, OnSem(s))
    case UpOn(s) => Upped(k, s)
    case SleepTo(t) => if k.jiffies < t then Blocked(k, Sleeping(t)) else k
    case Exit => Exited(k)
    case Interrupt(timer) => Interrupted(k, timer)
    case EndInterrupt => IrqEndAccounted(k); IrqEnded(k)
    case Reap => Reaped(k)
  }

  ghost function Interrupted(k: Kernel, timer: bool): Kernel
    requires Inv(k) && k.on
  {
    var k' := IrqStarted(k);
    if timer then
      FirstWait(k);
      Ticked(k'.(jiffies := Clock(k.jiffies)))
    else k'
  }

  lemma BlockedInv(k: Kernel, place: Place)
    requires Inv(k) && MayPark(k, place) && (place.Sleeping? ==> k.jiffies < place.target < WORD)
    ensures Inv(Blocked(k, place))
  {
    hide Placed;
    hide Ahead;
    hide Inserted;
    hide AllCounted;
    EnteredAccounted(k);
    var k1 := Entered(k);
    EnteredPlaced(k);
    ParkedAccounted(k1, place);
    ParkedPlaced(k1, place);
    NextAccounted(Parked(k1, place));
    NextPlaced(Parked(k1, place));
    if place.Sleeping? {
      InsertedAhead(k.timers, place.target, k.current.value, k.jiffies);
    }
  }

  lemma EnteredPlaced(k: Kernel)
    requires Sized(k) && Placed(k)
    ensures Placed(Entered(k))
  {
    hide Filed;
    hide SemsFiled;
    hide TimersFiled;
    hide AllExist;
    hide AllSit;
    hide Rising;
  }

  lemma YieldedInv(k: Kernel)
    requires Inv(k)
    ensures Inv(Yielded(k))
  {
    hide AllCounted;
    hide Placed;
    hide Ahead;
    if k.current.None? {
      assert k.(on := false) == k;
      NextAccounted(k);
      NextPlaced(k);
    } else {
      var place := if k.current == k.idle then Resting else InReady;
      ParkedAccounted(k, place);
      ParkedPlaced(k, place);
      NextAccounted(Parked(k, place));
      NextPlaced(Parked(k, place));
    }
  }

  lemma ExitedInv(k: Kernel)
    requires Inv(k) && k.current.Some? && k.current != k.idle
    ensures Inv(Exited(k))
  {
    hide AllCounted;
    hide Placed;
    hide Ahead;
    ParkedAccounted(k, InReaper);
    ParkedPlaced(k, InReaper);
    NextAccounted(Parked(k, InReaper));
    NextPlaced(Parked(k, InReaper));
  }

  lemma InterruptedInv(k: Kernel, timer: bool)
    requires Inv(k) && k.on
    ensures Inv(Interrupted(k, timer))
  {
    hide AllCounted;
    hide Placed;
    hide Ahead;
    IrqAccounted(k);
    var k1 := IrqStarted(k);
    IrqPlaced(k, Clock(k.jiffies));
    if timer {
      var k2 := k1.(jiffies := Clock(k.jiffies));
      TickedPlaced(k2);
      TickedAhead(k2, k.jiffies);
      SitsTicked(k2);
    }
  }

  lemma SitsTicked(k: Kernel)
    requires Sized(k) && Placed(k)
    ensures FirstSized(k)
    ensures Accounted(k) ==> Accounted(Ticked(k))
  {
    hide AllCounted;
    FirstWait(k);
  }

  lemma IrqPlaced(k: Kernel, jiffies: nat)
    requires Sized(k) && Placed(k) && k.current.Some?
    ensures Placed(IrqStarted(k)) && Placed(IrqStarted(k).(jiffies := jiffies))
  {
    hide Filed;
    hide SemsFiled;
    hide TimersFiled;
    hide AllExist;
    hide AllSit;
    hide Rising;
  }

  lemma IrqEndPlaced(k: Kernel)
    requires Sized(k) && Placed(k) && k.current.Some? && 0 < k.iDepth[k.current.value]
    ensures Placed(IrqEnded(k))
  {
    hide Filed;
    hide SemsFiled;
    hide TimersFiled;
    hide AllExist;
    hide AllSit;
    hide Rising;
  }

  lemma LeftPlaced(k: Kernel)
    requires Sized(k) && Placed(k)
    requires k.current.Some? ==> var p := k.current.value; 0 < k.disable[p] && k.frames[p] != []
    ensures Placed(Left(k))
  {
    hide Filed;
    hide SemsFiled;
    hide TimersFiled;
    hide AllExist;
    hide AllSit;
    hide Rising;
  }

  lemma PassedPlaced(k: Kernel, s: nat)
    requires Sized(k) && Placed(k) && s < |k.sems| && Passes(k.sems[s])
    ensures Placed(k.(sems := k.sems[s := Sem(k.sems[s].count - 1, k.sems[s].waiting)]))
  {
    hide Filed;
    hide TimersFiled;
    hide AllExist;
    hide AllSit;
    hide Rising;
    var q := Sem(k.sems[s].count - 1, k.sems[s].waiting);
    assert SemFiled(k.sems[s], k.place, s);
    SemsCount(k.sems, k.place, s, q);
    AllExistSems(k.place, k.sems, k.timers, k.sems[s := q]);
  }

  lemma SmallInv(k: Kernel, e: Event)
    requires Inv(k) && Enabled(k, e) && (e.Start? || e.StartIdle? || e.NewSem? || e.UpOn? || e.Reap?)
    ensures Inv(Step(k, e))
  {
    hide AllCounted;
    hide Placed;
    hide Ahead;
    match e
    case Start => CreatedCounted(k, InReady); CreatedPlaced(k, InReady);
    case StartIdle => CreatedCounted(k, Resting); CreatedPlaced(k, Resting);
    case NewSem(count) => NewSemPlaced(k, count);
    case UpOn(s) => UppedPlaced(k, s);
    case Reap => ReapedPlaced(k);
  }

  /** Every step keeps the invariant. */
  lemma StepInv(k: Kernel, e: Event)
    requires Inv(k) && Enabled(k, e)
    ensures Inv(Step(k, e))
  {
    hide AllCounted;
    hide Placed;
    hide Ahead;
    match e
    case Disable => EnteredAccounted(k); EnteredPlaced(k);
    case Enable => LeftAccounted(k); LeftPlaced(k);
    case Yield => YieldedInv(k);
    case DownOn(s) => if Passes(k.sems[s]) { PassedPlaced(k, s); } else { BlockedInv(k, OnSem(s)); }
    case SleepTo(t) => if k.jiffies < t { BlockedInv(k, Sleeping(t)); }
    case Exit => ExitedInv(k);
    case Interrupt(timer) => InterruptedInv(k, timer);
    case EndInterrupt => IrqEndAccounted(k); IrqEndPlaced(k);
    case _ => SmallInv(k, e);
  }
}
