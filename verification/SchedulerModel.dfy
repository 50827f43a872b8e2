/** The process layer of the kernel as a state machine: one current process, the queues, and the
    interrupt flag. A step is what runs between two points at which another process may take over. */
module SchedulerModel {
  import opened Collections
  import opened Semaphores

  datatype State = READY | RUNNING | BLOCKED | TERMINATED

  /** Where a process is. The idle process rests when it does not run. */
  datatype Place = Running | InReady | OnSem(sem: nat) | Sleeping(target: nat) | InReaper | Gone | Resting

  /** What a process is inside of: a region between disable and enable, or an interrupt. */
  datatype Frame = Section | Irq

  datatype Timer = Timer(target: nat, waiting: seq<Pid>)

  /** Process p has entry p in state, disable, iDepth, frames and place; frames and place are not in the
      source. */
  datatype Kernel = Kernel(current: Option<Pid>, idle: Option<Pid>, on: bool, jiffies: nat,
                           ready: seq<Pid>, reaper: seq<Pid>, sems: seq<Sem>, timers: seq<Timer>,
                           state: seq<State>, disable: seq<nat>, iDepth: seq<nat>,
                           frames: seq<seq<Frame>>, place: seq<Place>)

  const WORD: nat := 0x1_0000_0000

  function StateFor(place: Place): State {
    match place
    case Running => RUNNING
    case InReady => READY
    case Resting => READY
    case OnSem(_) => BLOCKED
    case Sleeping(_) => BLOCKED
    case InReaper => TERMINATED
    case Gone => TERMINATED
  }

  // ---------------------------------------------------------------- the steps

  ghost predicate Sized(k: Kernel) {
    && |k.state| == |k.disable| == |k.iDepth| == |k.frames| == |k.place|
    && (k.current.Some? ==> k.current.value < |k.place|)
    && (k.idle.Some? ==> k.idle.value < |k.place|)
    && (forall i :: 0 <= i < |k.ready| ==> k.ready[i] < |k.place|)
  }

  /** disable */
  ghost function Entered(k: Kernel): Kernel
    requires Sized(k)
  {
    if k.current.None? then k.(on := false)
    else
      var p := k.current.value;
      k.(on := false, disable := k.disable[p := k.disable[p] + 1], frames := k.frames[p := k.frames[p] + [Section]])
  }

  /** enable */
  ghost function Left(k: Kernel): Kernel
    requires Sized(k) && (k.current.Some? ==> var p := k.current.value; 0 < k.disable[p] && k.frames[p] != [])
  {
    if k.current.None? then k
    else
      var p := k.current.value;
      k.(on := k.on || k.disable[p] == 1, disable := k.disable[p := k.disable[p] - 1],
         frames := k.frames[p := k.frames[p][..|k.frames[p]| - 1]])
  }

  /** A new process. */
  ghost function Created(k: Kernel, place: Place): Kernel {
    k.(state := k.state + [StateFor(place)], disable := k.disable + [0], iDepth := k.iDepth + [0],
       frames := k.frames + [[]], place := k.place + [place])
  }

  ghost function Started(k: Kernel): Kernel {
    Created(k, InReady).(ready := k.ready + [|k.place|])
  }

  ghost function IdleStarted(k: Kernel): Kernel {
    Created(k, Resting).(idle := Some(|k.place|))
  }

  /** How many of the first timers have a target below t. */
  function Position(timers: seq<Timer>, t: nat): (i: nat)
    ensures i <= |timers|
    ensures forall j :: 0 <= j < i ==> timers[j].target < t
    ensures i < |timers| ==> t <= timers[i].target
  {
    if timers == [] || t <= timers[0].target then 0 else 1 + Position(timers[1..], t)
  }

  function Inserted(timers: seq<Timer>, t: nat, p: Pid): seq<Timer> {
    var i := Position(timers, t);
    if i < |timers| && timers[i].target == t then timers[i := Timer(t, timers[i].waiting + [p])]
    else timers[..i] + [Timer(t, [p])] + timers[i..]
  }

  /** p joins the queue that belongs to a place. */
  ghost function Queued(k: Kernel, p: Pid, place: Place): Kernel {
    match place
    case InReady => k.(ready := k.ready + [p])
    case OnSem(s) => if s < |k.sems| then k.(sems := k.sems[s := Sem(k.sems[s].count, k.sems[s].waiting + [p])]) else k
    case Sleeping(t) => k.(timers := Inserted(k.timers, t, p))
    case InReaper => k.(reaper := k.reaper + [p])
    case _ => k
  }

  /** The current process gives up the processor, inside a region. */
  ghost function Parked(k: Kernel, place: Place): Kernel
    requires Sized(k) && k.current.Some?
  {
    var p := k.current.value;
    Queued(Entered(k), p, place).(current := None, state := k.state[p := StateFor(place)], place := k.place[p := place])
  }

  /** p runs; with interrupts on if it is in no region. */
  ghost function Dispatched(k: Kernel, p: Pid): Kernel
    requires Sized(k) && p < |k.place|
  {
    k.(current := Some(p), on := k.disable[p] == 0, state := k.state[p := RUNNING], place := k.place[p := Running])
  }

  /** The first ready process runs, or the idle process if none is ready. */
  ghost function Next(k: Kernel): Kernel
    requires Sized(k)
  {
    if k.ready != [] then Dispatched(k.(ready := k.ready[1..]), k.ready[0])
    else if k.idle.Some? then Dispatched(k, k.idle.value)
    else Dispatched(IdleStarted(k), |k.place|)
  }

  lemma EnteredSized(k: Kernel)
    requires Sized(k)
    ensures Sized(Entered(k))
  {
  }

  lemma ParkedSized(k: Kernel, place: Place)
    requires Sized(k) && k.current.Some?
    ensures Sized(Parked(k, place))
  {
  }

  ghost function Yielded(k: Kernel): Kernel
    requires Sized(k)
  {
    if k.current.None? then Next(k.(on := false))
    else
      var place := if k.current == k.idle then Resting else InReady;
      ParkedSized(k, place);
      Next(Parked(k, place))
  }

  /** A region in which the current process waits. */
  ghost function Blocked(k: Kernel, place: Place): Kernel
    requires Sized(k) && k.current.Some?
  {
    EnteredSized(k);
    ParkedSized(Entered(k), place);
    Next(Parked(Entered(k), place))
  }

  ghost function Exited(k: Kernel): Kernel
    requires Sized(k) && k.current.Some?
  {
    ParkedSized(k, InReaper);
    Next(Parked(k, InReaper))
  }

  /** p, which waited, is ready. */
  ghost function Readied(k: Kernel, p: Pid): Kernel
    requires |k.state| == |k.place| && p < |k.place|
  {
    k.(ready := k.ready + [p], state := k.state[p := READY], place := k.place[p := InReady])
  }

  ghost function Upped(k: Kernel, s: nat): Kernel
    requires |k.state| == |k.place| && s < |k.sems|
  {
    var k' := k.(sems := k.sems[s := Up(k.sems[s])]);
    var w := Woken(k.sems[s]);
    if w.Some? && w.value < |k.place| then Readied(k', w.value) else k'
  }

  /** All of ps are ready, in their order. */
  ghost function AllReadied(k: Kernel, ps: seq<Pid>): Kernel
    requires |k.state| == |k.place|
  {
    k.(ready := k.ready + ps,
       state := seq(|k.state|, p requires 0 <= p < |k.state| => if p in ps then READY else k.state[p]),
       place := seq(|k.place|, p requires 0 <= p < |k.place| => if p in ps then InReady else k.place[p]))
  }

  ghost predicate FirstSized(k: Kernel) {
    k.timers != [] ==> forall i :: 0 <= i < |k.timers[0].waiting| ==> k.timers[0].waiting[i] < |k.place|
  }

  /** tick, after the clock has advanced. */
  ghost function Ticked(k: Kernel): Kernel
    requires |k.state| == |k.place| && FirstSized(k)
  {
    if k.timers != [] && k.timers[0].target == k.jiffies
    then AllReadied(k.(timers := k.timers[1..]), k.timers[0].waiting)
    else k
  }

  ghost function IrqStarted(k: Kernel): Kernel
    requires Sized(k) && k.current.Some?
  {
    var p := k.current.value;
    k.(on := false, disable := k.disable[p := 1], iDepth := k.iDepth[p := k.iDepth[p] + 1],
       frames := k.frames[p := [Irq]])
  }

  /** The end of an interrupt; the return from it turns interrupts on. */
  ghost function IrqEnded(k: Kernel): Kernel
    requires Sized(k) && k.current.Some? && 0 < k.iDepth[k.current.value]
  {
    var p := k.current.value;
    k.(on := true, disable := k.disable[p := 0], iDepth := k.iDepth[p := k.iDepth[p] - 1], frames := k.frames[p := []])
  }

  ghost function Reaped(k: Kernel): Kernel {
    if k.reaper == [] || k.reaper[0] >= |k.place| then k
    else k.(reaper := k.reaper[1..], place := k.place[k.reaper[0] := Gone])
  }

  function Clock(jiffies: nat): nat {
    (jiffies + 1) % WORD
  }

  // ---------------------------------------------------------------- events

  datatype Event = Disable | Enable | Start | StartIdle | NewSem(count: int) | Yield | DownOn(s: nat) | UpOn(s: nat)
                 | SleepTo(target: nat) | Exit | Interrupt(timer: bool) | EndInterrupt | Reap

  /** The current process may wait: there is one, it is not the idle process, and it is not in an
      interrupt. */
  ghost predicate MayBlock(k: Kernel)
    requires Sized(k)
  {
    k.current.Some? && k.current != k.idle && Irq !in k.frames[k.current.value]
  }

  ghost predicate Inside(k: Kernel, f: Frame)
    requires Sized(k)
  {
    k.current.Some? && var fs := k.frames[k.current.value]; fs != [] && fs[|fs| - 1] == f
  }

  /** What the code of the kernel does in a state. A process leaves the region it entered last; an
      interrupt comes when the hardware allows it. */
  ghost predicate Enabled(k: Kernel, e: Event)
    requires Sized(k)
  {
    match e
    case Enable => k.current.None? || Inside(k, Section)
    case StartIdle => k.idle.None?
    case DownOn(s) => s < |k.sems| && (!Passes(k.sems[s]) ==> MayBlock(k))
    case UpOn(s) => s < |k.sems|
    case SleepTo(t) => t < WORD && (k.jiffies < t ==> MayBlock(k))
    case Exit => k.current.Some? && k.current != k.idle
    case Interrupt(_) => k.on
    case EndInterrupt => Inside(k, Irq)
    case _ => true
  }

  // ---------------------------------------------------------------- the invariant

  ghost predicate Counted(disable: nat, iDepth: nat, frames: seq<Frame>) {
    && disable == |frames| && iDepth == (if Irq in frames then 1 else 0)
    && forall i :: 1 <= i < |frames| ==> frames[i] == Section
  }

  ghost predicate AllCounted(disable: seq<nat>, iDepth: seq<nat>, frames: seq<seq<Frame>>) {
    && |disable| == |iDepth| == |frames|
    && forall p :: 0 <= p < |frames| ==> Counted(disable[p], iDepth[p], frames[p])
  }

  /** Interrupts are on exactly when there is a current process and it is in no region. */
  ghost predicate Accounted(k: Kernel) {
    && Sized(k)
    && (k.on <==> k.current.Some? && k.disable[k.current.value] == 0)
    && AllCounted(k.disable, k.iDepth, k.frames)
  }

  /** A queue holds exactly the processes that have this place, each once. */
  ghost predicate Filed(q: seq<Pid>, place: seq<Place>, at: Place) {
    NoDup(q) && forall p: Pid :: p in q <==> p < |place| && place[p] == at
  }

  ghost predicate SemFiled(s: Sem, place: seq<Place>, i: nat) {
    Sound(s) && Filed(s.waiting, place, OnSem(i))
  }

  ghost predicate SemsFiled(sems: seq<Sem>, place: seq<Place>) {
    forall i :: 0 <= i < |sems| ==> SemFiled(sems[i], place, i)
  }

  ghost predicate TimerFiled(t: Timer, place: seq<Place>) {
    Filed(t.waiting, place, Sleeping(t.target))
  }

  ghost predicate TimersFiled(timers: seq<Timer>, place: seq<Place>) {
    forall i :: 0 <= i < |timers| ==> TimerFiled(timers[i], place)
  }

  ghost predicate Rising(timers: seq<Timer>) {
    forall i, j :: 0 <= i < j < |timers| ==> timers[i].target < timers[j].target
  }

  /** Every target lies ahead of the clock. */
  ghost predicate Ahead(timers: seq<Timer>, jiffies: nat) {
    jiffies < WORD && forall i :: 0 <= i < |timers| ==> jiffies < timers[i].target < WORD
  }

  ghost predicate HasTimer(timers: seq<Timer>, t: nat) {
    exists i :: 0 <= i < |timers| && timers[i].target == t
  }

  /** One process: its state field agrees with its place. */
  ghost predicate Sits(p: Pid, state: State, at: Place, current: Option<Pid>, idle: Option<Pid>) {
    && state == StateFor(at)
    && (current == Some(p) <==> at == Running)
    && (idle == Some(p) ==> at == Running || at == Resting)
    && (at == Resting ==> idle == Some(p))
  }

  ghost predicate AllSit(state: seq<State>, place: seq<Place>, current: Option<Pid>, idle: Option<Pid>) {
    && |state| == |place|
    && (current.Some? ==> current.value < |place|) && (idle.Some? ==> idle.value < |place|)
    && forall p :: 0 <= p < |place| ==> Sits(p, state[p], place[p], current, idle)
  }

  ghost predicate Exists(at: Place, sems: seq<Sem>, timers: seq<Timer>) {
    (at.OnSem? ==> at.sem < |sems|) && (at.Sleeping? ==> HasTimer(timers, at.target))
  }

  ghost predicate AllExist(place: seq<Place>, sems: seq<Sem>, timers: seq<Timer>) {
    forall p :: 0 <= p < |place| ==> Exists(place[p], sems, timers)
  }

  /** Every process is in exactly one place, and in the queue of that place exactly once. */
  ghost predicate Placed(k: Kernel) {
    && AllSit(k.state, k.place, k.current, k.idle)
    && Filed(k.ready, k.place, InReady)
    && Filed(k.reaper, k.place, InReaper)
    && SemsFiled(k.sems, k.place)
    && TimersFiled(k.timers, k.place)
    && AllExist(k.place, k.sems, k.timers)
    && Rising(k.timers)
  }

  ghost predicate Inv(k: Kernel) {
    Accounted(k) && Placed(k) && Ahead(k.timers, k.jiffies)
  }

  ghost function Initial(): Kernel {
    Kernel(None, None, false, 0, [], [], [], [], [], [], [], [], [])
  }

  lemma InitialInv()
    ensures Inv(Initial())
  {
  }
}
