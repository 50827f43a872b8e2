/** A counting semaphore with direct handoff: `up` gives the token to the first waiter without touching
    the count. */
module Semaphores {
  import opened Collections

  type Pid = nat

  datatype Sem = Sem(count: int, waiting: seq<Pid>)

  /** A token is never left lying while someone waits for one. */
  ghost predicate Sound(s: Sem) {
    NoDup(s.waiting) && (s.count != 0 ==> s.waiting == [])
  }

  /** down by process p: it passes, or it waits. */
  function Down(s: Sem, p: Pid): Sem {
    if s.count == 0 then Sem(0, s.waiting + [p]) else Sem(s.count - 1, s.waiting)
  }

  predicate Passes(s: Sem) {
    s.count != 0
  }

  /** up: the first waiter gets the token, or else the count does. */
  function Up(s: Sem): Sem {
    if s.waiting == [] then Sem(s.count + 1, []) else Sem(s.count, s.waiting[1..])
  }

  function Woken(s: Sem): Option<Pid> {
    if s.waiting == [] then None else Some(s.waiting[0])
  }

  lemma DownSound(s: Sem, p: Pid)
    requires Sound(s) && p !in s.waiting
    ensures Sound(Down(s, p))
    ensures forall q :: q in Down(s, p).waiting <==> q in s.waiting || (q == p && !Passes(s))
  {
  }

  lemma UpSound(s: Sem)
    requires Sound(s)
    ensures Sound(Up(s))
    ensures forall q :: q in Up(s).waiting <==> q in s.waiting && Woken(s) != Some(q)
  {
    if s.waiting != [] {
      assert s.waiting == [s.waiting[0]] + s.waiting[1..];
      forall i | 0 <= i < |s.waiting| - 1
        ensures s.waiting[1..][i] != s.waiting[0]
      {
        assert s.waiting[1..][i] == s.waiting[i + 1];
      }
    }
  }

}

/** Every sequence of calls on one semaphore, and on one event. */
module SemaphoreRuns {
  import opened Semaphores

  datatype Call = DownBy(p: Pid) | DownAtBoot | UpBy

  /** A semaphore with the processes that called down and those that got a token, each in order. Code that
      runs before there is a process may take a token, but cannot wait. */
  datatype History = History(sem: Sem, asked: seq<Pid>, granted: seq<Pid>, boot: nat, ups: nat)

  ghost function New(count: int): History {
    History(Sem(count, []), [], [], 0, 0)
  }

  /** A process that waits makes no calls. */
  predicate Possible(h: History, c: Call) {
    (c.DownBy? ==> c.p !in h.sem.waiting) && (c.DownAtBoot? ==> Passes(h.sem))
  }

  function Next(h: History, c: Call): History
    requires Possible(h, c)
  {
    match c
    case DownBy(p) =>
      History(Down(h.sem, p), h.asked + [p], if Passes(h.sem) then h.granted + [p] else h.granted, h.boot, h.ups)
    case DownAtBoot => History(Down(h.sem, 0), h.asked, h.granted, h.boot + 1, h.ups)
    case UpBy =>
      History(Up(h.sem), h.asked,
              if h.sem.waiting == [] then h.granted else h.granted + [h.sem.waiting[0]], h.boot, h.ups + 1)
  }

  function After(h: History, cs: seq<Call>): History
    decreases |cs|
  {
    if cs == [] then h
    else if Possible(h, cs[0]) then After(Next(h, cs[0]), cs[1..])
    else After(h, cs[1..])
  }

  /** Tokens are granted in the order in which they were asked for, and none is lost or made up. */
  ghost predicate Fair(h: History, initial: int) {
    && Sound(h.sem)
    && h.asked == h.granted + h.sem.waiting
    && h.sem.count + |h.granted| + h.boot == initial + h.ups
  }

  lemma NextFair(h: History, c: Call, initial: int)
    requires Fair(h, initial) && Possible(h, c)
    ensures Fair(Next(h, c), initial)
  {
    match c
    case DownBy(p) => DownSound(h.sem, p);
    case DownAtBoot =>
    case UpBy => UpSound(h.sem);
      if h.sem.waiting != [] {
        assert h.sem.waiting == [h.sem.waiting[0]] + h.sem.waiting[1..];
      }
  }

  lemma {:induction false} AfterFair(h: History, cs: seq<Call>, initial: int)
    requires Fair(h, initial)
    ensures Fair(After(h, cs), initial)
    decreases |cs|
  {
    hide Fair;
    hide Next;
    if cs == [] {
    } else if Possible(h, cs[0]) {
      NextFair(h, cs[0], initial);
      AfterFair(Next(h, cs[0]), cs[1..], initial);
    } else {
      AfterFair(h, cs[1..], initial);
    }
  }

  /** Over every sequence of calls of a new semaphore: initial count and ups are the count and the
      grants, and the grants are the first of the requests, in order. A token is free only if nobody
      waits. */
  lemma Conserved(count: int, cs: seq<Call>)
    ensures var h := After(New(count), cs);
            && count + h.ups == h.sem.count + |h.granted| + h.boot
            && h.granted + h.sem.waiting == h.asked
            && (h.sem.count != 0 ==> h.sem.waiting == [])
  {
    AfterFair(New(count), cs, count);
  }

  /** No more tokens have been granted than there were at first and came by up. */
  ghost predicate Covered(count: int, h: History) {
    |h.granted| + h.boot <= (if 0 <= count then count else 0) + h.ups
  }

  /** Over every run no more tokens are granted than there are, exactly when the count is not negative at
      first: down asks whether the count is 0, so a negative one lets everybody pass. */
  lemma CoveredExact(count: int)
    ensures (forall cs: seq<Call> :: Covered(count, After(New(count), cs))) <==> 0 <= count
  {
    if 0 <= count {
      forall cs: seq<Call>
        ensures Covered(count, After(New(count), cs))
      {
        Conserved(count, cs);
        AfterCovered(New(count), cs);
      }
    } else {
      NegativeExample(count);
    }
  }

  lemma NegativeExample(count: int)
    requires count < 0
    ensures !Covered(count, After(New(count), [DownBy(0)]))
  {
    assert After(New(count), [DownBy(0)]) == After(Next(New(count), DownBy(0)), []);
  }

  lemma {:induction false} AfterCovered(h: History, cs: seq<Call>)
    requires 0 <= h.sem.count
    ensures 0 <= After(h, cs).sem.count
    decreases |cs|
  {
    if cs == [] {
    } else if Possible(h, cs[0]) {
      AfterCovered(Next(h, cs[0]), cs[1..]);
    } else {
      AfterCovered(h, cs[1..]);
    }
  }

  // ---------------------------------------------------------------- events

  /** An event: a semaphore that starts at 0. wait is down and then up; signal is up. A process that is
      past the down of wait and not yet past its up has a token in hand. */
  datatype Signal = Signal(status: Sem, inHand: set<Pid>, passed: set<Pid>, signals: nat)

  datatype Act = WaitDown(p: Pid) | WaitUp(p: Pid) | Raise

  predicate May(e: Signal, a: Act) {
    match a
    case WaitDown(p) => p !in e.status.waiting && p !in e.inHand
    case WaitUp(p) => p in e.inHand
    case Raise => true
  }

  function Handed(e: Signal): set<Pid> {
    if e.status.waiting == [] then {} else {e.status.waiting[0]}
  }

  function Then(e: Signal, a: Act): Signal {
    match a
    case WaitDown(p) =>
      e.(status := Down(e.status, p), inHand := if Passes(e.status) then e.inHand + {p} else e.inHand,
         passed := if Passes(e.status) then e.passed + {p} else e.passed)
    case WaitUp(p) =>
      e.(status := Up(e.status), inHand := e.inHand - {p} + Handed(e), passed := e.passed + Handed(e))
    case Raise =>
      e.(status := Up(e.status), inHand := e.inHand + Handed(e), passed := e.passed + Handed(e),
         signals := e.signals + 1)
  }

  function Acts(e: Signal, s: seq<Act>): Signal
    decreases |s|
  {
    if s == [] then e else if May(e, s[0]) then Acts(Then(e, s[0]), s[1..]) else Acts(e, s[1..])
  }

  ghost predicate Kept(e: Signal) {
    && Sound(e.status) && 0 <= e.status.count
    && (forall p :: p in e.inHand ==> p !in e.status.waiting)
    && e.status.count + |e.inHand| == e.signals
    && (e.signals == 0 ==> e.passed == {})
  }

  lemma ThenKept(e: Signal, a: Act)
    requires Kept(e) && May(e, a)
    ensures Kept(Then(e, a))
  {
    match a
    case WaitDown(p) => DownSound(e.status, p);
    case WaitUp(p) =>
      UpSound(e.status);
      assert |e.inHand - {p}| == |e.inHand| - 1;
      if e.status.waiting != [] {
        assert e.status.waiting[0] !in e.inHand;
        assert p != e.status.waiting[0];
      }
    case Raise => UpSound(e.status);
      if e.status.waiting != [] {
        assert e.status.waiting[0] !in e.inHand;
      }
  }

  lemma {:induction false} ActsKept(e: Signal, s: seq<Act>)
    requires Kept(e)
    ensures Kept(Acts(e, s))
    decreases |s|
  {
    hide Kept;
    hide Then;
    if s == [] {
    } else if May(e, s[0]) {
      ThenKept(e, s[0]);
      ActsKept(Then(e, s[0]), s[1..]);
    } else {
      ActsKept(e, s[1..]);
    }
  }

  /** Nobody passes wait before the signal. An event signalled once has exactly one token from then on,
      in the count or in one hand; so while processes wait, one of those that passed will hand it on. */
  lemma Signalled(s: seq<Act>)
    ensures var e := Acts(Signal(Sem(0, []), {}, {}, 0), s);
            && (e.signals == 0 ==> e.passed == {} && e.inHand == {} && e.status.count == 0)
            && (e.signals == 1 ==> e.status.count + |e.inHand| == 1)
            && (0 < e.signals && e.status.waiting != [] ==> e.inHand != {})
  {
    var e0 := Signal(Sem(0, []), {}, {}, 0);
    ActsKept(e0, s);
  }
}
