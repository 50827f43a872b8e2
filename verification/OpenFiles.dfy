/** The table of open files of the file system: handles on the same file share one object, which lives
    exactly as long as there is a handle. */
module OpenFileTable {
  import opened Collections
  import opened ResourceModel

  /** openFiles has the object of each start block; object o has entry o in the next three; a handle
      holds an object until it is closed. */
  datatype Opens = Opens(openFiles: Slots, start: seq<nat>, count: seq<nat>, alive: seq<bool>, handles: Slots)

  ghost predicate Shaped(s: Opens) {
    && |s.start| == |s.count| == |s.alive|
    && (forall o :: 0 <= o < |s.start| ==> s.start[o] < |s.openFiles|)
    && Known(s.openFiles, |s.start|) && Known(s.handles, |s.start|)
  }

  /** Object o is the one for its start block while it lives, and has as many references as handles. */
  ghost predicate Right(s: Opens, o: Id)
    requires Shaped(s) && o < |s.start|
  {
    && (s.alive[o] <==> s.openFiles[s.start[o]] == Some(o))
    && (if s.alive[o] then s.count[o] == InTable(s.handles, o) && 1 <= s.count[o] else InTable(s.handles, o) == 0)
  }

  ghost predicate Entered(s: Opens, b: nat)
    requires Shaped(s) && b < |s.openFiles|
  {
    s.openFiles[b].Some? ==> s.openFiles[b].value < |s.start| && s.start[s.openFiles[b].value] == b
  }

  ghost predicate Inv(s: Opens) {
    && Shaped(s)
    && (forall o: Id :: o < |s.start| ==> Right(s, o))
    && (forall b: nat :: b < |s.openFiles| ==> Entered(s, b))
  }

  /** Another handle on object o. */
  function Held(s: Opens, o: Id): Opens
    requires o < |s.count|
  {
    s.(count := s.count[o := s.count[o] + 1], handles := s.handles + [Some(o)])
  }

  /** A first handle on start block b. */
  function Begun(s: Opens, b: nat): Opens
    requires b < |s.openFiles|
  {
    var o := |s.start|;
    Opens(s.openFiles[b := Some(o)], s.start + [b], s.count + [1], s.alive + [true], s.handles + [Some(o)])
  }

  function Opened(s: Opens, b: nat): Opens
    requires Shaped(s) && b < |s.openFiles|
  {
    if s.openFiles[b].Some? && s.openFiles[b].value < |s.count| then Held(s, s.openFiles[b].value) else Begun(s, b)
  }

  /** Handle h, which holds o, is closed; the object goes with its last handle. */
  function Closed(s: Opens, h: nat, o: Id): Opens
    requires Shaped(s) && h < |s.handles| && o < |s.count| && 0 < s.count[o]
  {
    var last := s.count[o] == 1;
    s.(count := s.count[o := s.count[o] - 1], handles := s.handles[h := None],
       alive := if last then s.alive[o := false] else s.alive,
       openFiles := if last then s.openFiles[s.start[o] := None] else s.openFiles)
  }

  lemma HandleLive(s: Opens, h: nat)
    requires Inv(s) && h < |s.handles| && s.handles[h].Some?
    ensures var o := s.handles[h].value;
            o < |s.start| && s.alive[o] && 1 <= s.count[o] && s.openFiles[s.start[o]] == Some(o)
  {
    var o := s.handles[h].value;
    assert Known(s.handles, |s.start|);
    InTableUpdate(s.handles, h, None, o);
    assert Right(s, o);
  }

  lemma HeldInv(s: Opens, o: Id)
    requires Inv(s) && o < |s.start| && s.alive[o]
    ensures Inv(Held(s, o))
  {
    var s' := Held(s, o);
    forall q: Id | q < |s'.start|
      ensures Right(s', q)
    {
      assert Right(s, q);
      assert InTable(s'.handles, q) == InTable(s.handles, q) + if q == o then 1 else 0;
    }
    forall b: nat | b < |s'.openFiles|
      ensures Entered(s', b)
    {
      assert Entered(s, b);
    }
  }

  lemma BegunInv(s: Opens, b: nat)
    requires Inv(s) && b < |s.openFiles| && s.openFiles[b] == None
    ensures Inv(Begun(s, b))
  {
    var s', n := Begun(s, b), |s.start|;
    assert Some(n) !in s.handles;
    forall q: Id | q < |s'.start|
      ensures Right(s', q)
    {
      assert InTable(s'.handles, q) == InTable(s.handles, q) + if q == n then 1 else 0;
      if q < n {
        assert Right(s, q);
      }
    }
    forall c: nat | c < |s'.openFiles|
      ensures Entered(s', c)
    {
      assert Entered(s, c);
    }
  }

  lemma ClosedInv(s: Opens, h: nat)
    requires Inv(s) && h < |s.handles| && s.handles[h].Some?
    ensures var o := s.handles[h].value; o < |s.count| && 0 < s.count[o] && Inv(Closed(s, h, o))
  {
    HandleLive(s, h);
    var o := s.handles[h].value;
    var s' := Closed(s, h, o);
    forall q: Id | q < |s'.start|
      ensures Right(s', q)
    {
      assert Right(s, q);
      InTableUpdate(s.handles, h, None, q);
    }
    forall b: nat | b < |s'.openFiles|
      ensures Entered(s', b)
    {
      assert Entered(s, b);
    }
  }

  /** Two handles on the same file hold the same object; and a block has an object exactly as long as
      there is a handle on it. */
  lemma OneObject(s: Opens, g: nat, h: nat, b: nat)
    requires Inv(s) && g < |s.handles| && h < |s.handles| && s.handles[g].Some? && s.handles[h].Some?
    ensures var x, y := s.handles[g].value, s.handles[h].value;
            x < |s.start| && y < |s.start| && (s.start[x] == s.start[y] <==> x == y)
    ensures b < |s.openFiles| && s.openFiles[b].Some? ==>
              s.openFiles[b].value < |s.count|
              && s.count[s.openFiles[b].value] == InTable(s.handles, s.openFiles[b].value)
              && Some(s.openFiles[b].value) in s.handles
  {
    HandleLive(s, g);
    HandleLive(s, h);
    if b < |s.openFiles| && s.openFiles[b].Some? {
      assert Entered(s, b);
      assert Right(s, s.openFiles[b].value);
      assert Some(s.openFiles[b].value) in multiset(s.handles);
    }
  }

  /** An object lives exactly as long as there is a handle on it. */
  lemma AliveHeld(s: Opens, o: Id)
    requires Inv(s) && o < |s.start|
    ensures o < |s.alive| && (s.alive[o] <==> Some(o) in s.handles)
    ensures s.alive[o] ==> s.start[o] < |s.openFiles| && s.openFiles[s.start[o]] == Some(o)
  {
    assert Right(s, o);
    assert Some(o) in s.handles <==> 0 < multiset(s.handles)[Some(o)];
  }

  class Fat439Files {
    var openFiles: Slots
    var start: seq<nat>
    var count: seq<nat>
    var alive: seq<bool>
    var handles: Slots

    ghost function State(): Opens
      reads this
    {
      Opens(openFiles, start, count, alive, handles)
    }

    constructor (nBlocks: nat)
      ensures Inv(State()) && openFiles == seq(nBlocks, i => None) && handles == []
    {
      openFiles, start, count, alive, handles := seq(nBlocks, i => None), [], [], [], [];
    }

    method OpenFile(b: nat) returns (h: nat)
      requires Inv(State()) && b < |openFiles|
      modifies this
      ensures Inv(State()) && State() == Opened(old(State()), b)
      ensures h == |old(handles)| && handles[h].Some? && handles[h].value < |start| && start[handles[h].value] == b
      ensures handles == old(handles) + [handles[h]] && |openFiles| == |old(openFiles)|
      ensures if old(openFiles)[b].Some? then handles[h] == old(openFiles)[b] && start == old(start)
              else handles[h] == Some(|old(start)|) && start == old(start) + [b]
    {
      ghost var s := State();
      assert Entered(s, b);
      h := |handles|;
      if openFiles[b] == None {
        BegunInv(s, b);
        openFiles := openFiles[b := Some(|start|)];
        start, count, alive := start + [b], count + [0], alive + [true];
        var p := openFiles[b].value;
        count := count[p := count[p] + 1];
        assert count == s.count + [1];
        handles := handles + [Some(p)];
        assert State() == Begun(s, b);
      } else {
        var p := openFiles[b].value;
        assert Right(s, p);
        HeldInv(s, p);
        count := count[p := count[p] + 1];
        handles := handles + [Some(p)];
        assert State() == Held(s, p);
      }
    }

    /** The copy of a handle in a child process. */
    method ForkHandle(g: nat) returns (h: nat)
      requires Inv(State()) && g < |handles| && handles[g].Some?
      modifies this
      ensures Inv(State()) && handles == old(handles) + [old(handles)[g]] && h == |old(handles)|
      ensures openFiles == old(openFiles) && start == old(start) && alive == old(alive)
      ensures var o := handles[g].value;
              && |count| == |old(count)| && o < |count| && count[o] == old(count)[o] + 1
              && forall q :: 0 <= q < |count| && q != o ==> count[q] == old(count)[q]
    {
      HandleLive(State(), g);
      var p := handles[g].value;
      HeldInv(State(), p);
      h := |handles|;
      count := count[p := count[p] + 1];
      handles := handles + [Some(p)];
    }

    method CloseFile(h: nat)
      requires Inv(State()) && h < |handles| && handles[h].Some?
      modifies this
      ensures Inv(State()) && handles == old(handles)[h := None] && start == old(start)
      ensures var o := old(handles)[h].value;
              && o < |alive| == |old(alive)| && (alive[o] <==> Some(o) in handles)
              && (forall q :: 0 <= q < |alive| && q != o ==> alive[q] == old(alive)[q])
              && |openFiles| == |old(openFiles)| && o < |start| && start[o] < |openFiles|
              && openFiles[start[o]] == (if Some(o) in handles then Some(o) else None)
              && (forall b :: 0 <= b < |openFiles| && b != start[o] ==> openFiles[b] == old(openFiles)[b])
      ensures Closable(old(State()), h) && State() == Closed(old(State()), h, old(handles)[h].value)
    {
      ClosedInv(State(), h);
      HandleLive(State(), h);
      var p := handles[h].value;
      var b := start[p];
      var q := openFiles[b].value;
      var was := count[q];
      count := count[q := was - 1];
      if was == 1 {
        alive := alive[q := false];
        openFiles := openFiles[b := None];
      }
      handles := handles[h := None];
      AliveHeld(State(), p);
    }
  }

  ghost predicate Closable(s: Opens, h: nat) {
    Shaped(s) && h < |s.handles| && s.handles[h].Some? && s.handles[h].value < |s.count|
      && 0 < s.count[s.handles[h].value]
  }
}
