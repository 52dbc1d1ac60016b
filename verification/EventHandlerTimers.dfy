/** The timers of the event handler: what its batches and its messages do to the queue, as a run of the queue. */
module EventHandlerTimers {
  import opened ReaderQueue
  import opened EventHandlerState
  import opened EventHandlerRounds
  import opened HeapSpec
  import Timers

  // ---------- What the loops compute ----------

  function TimersAfter(t: Timers.TimerState, messages: seq<Message>): Timers.TimerState
    decreases |messages|
  {
    if messages == [] then t
    else TimersAfter(if messages[0].TimerMessage? then Timers.Update(t, messages[0].port, messages[0].deadline) else t,
                     messages[1..])
  }

  /** The timer descriptor is one of the events, or not. */
  function TimersFired(t: Timers.TimerState, events: seq<EpollEvent>): Timers.TimerState
    decreases |events|
  {
    if events == [] then t
    else TimersFired(if events[0].TimerExpired? then Timers.Fire(t) else t, events[1..])
  }

  /** The ports whose timers are posted. */
  function PortsFired(t: Timers.TimerState, events: seq<EpollEvent>): seq<Port>
    decreases |events|
  {
    if events == [] then []
    else if events[0].TimerExpired? then
      (if t.heap == [] then [] else [t.heap[0].value]) + PortsFired(Timers.Fire(t), events[1..])
    else PortsFired(t, events[1..])
  }

  lemma TimersFirst(t: Timers.TimerState, events: seq<EpollEvent>, i: nat)
    requires i < |events|
    ensures var u := TimersFired(t, [events[i]]);
            && TimersFired(t, events[i..]) == TimersFired(u, events[i + 1..])
            && PortsFired(t, events[i..]) == PortsFired(t, [events[i]]) + PortsFired(u, events[i + 1..])
  {
    assert events[i..][1..] == events[i + 1..] && [events[i]][1..] == [];
  }

  lemma FirstTimer(t: Timers.TimerState, messages: seq<Message>, i: nat)
    requires i < |messages|
    ensures TimersAfter(t, messages[i..]) == TimersAfter(TimersAfter(t, [messages[i]]), messages[i + 1..])
  {
    assert messages[i..][1..] == messages[i + 1..] && [messages[i]][1..] == [];
  }

  lemma TimersOne(t: Timers.TimerState, m: Message)
    ensures TimersAfter(t, [m]) == if m.TimerMessage? then Timers.Update(t, m.port, m.deadline) else t
  {
    assert [m][1..] == [];
  }

  // ---------- No timer is lost ----------

  function PortsOf(h: seq<Item<Port>>): seq<Port> {
    seq(|h|, i requires 0 <= i < |h| => h[i].value)
  }

  /** How often the timer descriptor is among the events. */
  function Expirations(events: seq<EpollEvent>): nat {
    if events == [] then 0 else (if events[0].TimerExpired? then 1 else 0) + Expirations(events[1..])
  }

  /** The queue without one of its items. */
  lemma TakeOut(g: seq<Item<Port>>, k: nat) returns (rest: seq<Item<Port>>)
    requires k < |g|
    ensures |rest| == |g| - 1 && multiset(g) == multiset(rest) + multiset{g[k]}
    ensures multiset(PortsOf(g)) == multiset(PortsOf(rest)) + multiset{g[k].value}
  {
    var a, b := g[..k], g[k + 1..];
    rest := a + b;
    assert g == a + [g[k]] + b;
    assert PortsOf(rest) == PortsOf(a) + PortsOf(b);
    assert PortsOf(g) == PortsOf(a) + [g[k].value] + PortsOf(b);
  }

  lemma {:induction false} SamePorts(g: seq<Item<Port>>, h: seq<Item<Port>>)
    requires multiset(g) == multiset(h)
    ensures multiset(PortsOf(g)) == multiset(PortsOf(h))
    decreases |h|
  {
    hide PortsOf;
    if h == [] {
      assert g == [] by { assert |multiset(g)| == 0; }
    } else {
      assert h[0] in multiset(g);
      var k :| 0 <= k < |g| && g[k] == h[0];
      var a := TakeOut(g, k);
      var b := TakeOut(h, 0);
      assert multiset(a) == multiset(g) - multiset{h[0]} == multiset(b);
      SamePorts(a, b);
    }
  }

  /** Firing takes the root out of the queue and leaves the other ports. */
  lemma FireTakesRoot(t: Timers.TimerState)
    requires t.heap != []
    ensures var u := Timers.Fire(t);
            |u.heap| == |t.heap| - 1 && multiset(PortsOf(t.heap)) == multiset(PortsOf(u.heap)) + multiset{t.heap[0].value}
  {
    hide RemoveAt;
    var h := Timers.Fire(t).heap;
    RemoveItems(t.heap, 0);
    var again := [t.heap[0]] + h;
    assert multiset(again) == multiset(t.heap);
    assert |multiset(again)| == |again| && |multiset(t.heap)| == |t.heap|;
    SamePorts(again, t.heap);
    assert PortsOf(again) == [t.heap[0].value] + PortsOf(h);
  }

  /**
   Every timer that a batch takes out of the queue is posted, and the others stay; there are as many as the
   timer descriptor was reported, as far as there were timers.
   */
  ghost predicate Conserved(before: Timers.TimerState, after: Timers.TimerState, events: seq<EpollEvent>, ports: seq<Port>) {
    && multiset(PortsOf(before.heap)) == multiset(PortsOf(after.heap)) + multiset(ports)
    && |ports| == (if Expirations(events) < |before.heap| then Expirations(events) else |before.heap|)
    && |after.heap| == |before.heap| - |ports|
  }

  lemma {:induction false} FiredConserves(t: Timers.TimerState, events: seq<EpollEvent>)
    ensures Conserved(t, TimersFired(t, events), events, PortsFired(t, events))
    decreases |events|
  {
    hide Timers.Fire;
    if events != [] {
      if events[0].TimerExpired? {
        NoneLeft(t);
        FiredConserves(Timers.Fire(t), events[1..]);
        if t.heap != [] {
          FireTakesRoot(t);
        }
      } else {
        FiredConserves(t, events[1..]);
      }
    }
  }

  lemma NoneLeft(t: Timers.TimerState)
    ensures t.heap == [] ==> Timers.Fire(t).heap == []
  {
  }

  // ---------- A round of the handler is a run of the queue ----------

  /** The timer descriptor is reported at these times. */
  function FireSteps(nows: seq<int>): seq<Timers.Step> {
    if nows == [] then [] else [Timers.FireStep(nows[0])] + FireSteps(nows[1..])
  }

  function UpdateSteps(messages: seq<Message>): seq<Timers.Step> {
    if messages == [] then []
    else (if messages[0].TimerMessage? then [Timers.UpdateStep(messages[0].port, messages[0].deadline)] else [])
         + UpdateSteps(messages[1..])
  }

  lemma {:induction false} MessagesAreUpdates(t: Timers.TimerState, messages: seq<Message>)
    ensures Timers.Runs(t, UpdateSteps(messages)) && Timers.After(t, UpdateSteps(messages)) == TimersAfter(t, messages)
    decreases |messages|
  {
    hide Timers.Update;
    if messages != [] {
      var m, rest := messages[0], UpdateSteps(messages[1..]);
      if m.TimerMessage? {
        MessagesAreUpdates(Timers.Update(t, m.port, m.deadline), messages[1..]);
        assert UpdateSteps(messages)[1..] == rest;
      } else {
        MessagesAreUpdates(t, messages[1..]);
        assert UpdateSteps(messages) == rest;
      }
    }
  }

  /** The posts of a batch are those of the queue. */
  ghost predicate PostedAs(ports: seq<Port>, nows: seq<int>, posts: seq<Timers.Post>) {
    |ports| == |posts| == |nows| && forall i :: 0 <= i < |ports| ==> posts[i].port == ports[i] && posts[i].now == nows[i]
  }

  lemma {:induction false} BatchIsRun(t: Timers.TimerState, m: map<Port, int>, events: seq<EpollEvent>, nows: seq<int>)
    requires Timers.TimerInv(t, m) && |nows| == Expirations(events) && Timers.Runs(t, FireSteps(nows))
    ensures Timers.After(t, FireSteps(nows)) == TimersFired(t, events)
    ensures PostedAs(PortsFired(t, events), nows, Timers.Posts(t, m, FireSteps(nows)))
    decreases |events|
  {
    hide Timers.TimerInv, Timers.Fire, Timers.Expired;
    if events != [] {
      if !events[0].TimerExpired? {
        BatchIsRun(t, m, events[1..], nows);
      } else {
        assert FireSteps(nows)[1..] == FireSteps(nows[1..]);
        Timers.NeverEarly(t, m, nows[0]);
        BatchIsRun(Timers.Fire(t), m - {t.heap[0].value}, events[1..], nows[1..]);
      }
    }
  }

  /** Runs of the queue that follow each other are one run. */
  lemma {:induction false} RunsThen(t: Timers.TimerState, m: map<Port, int>, steps: seq<Timers.Step>, rest: seq<Timers.Step>)
    requires Timers.TimerInv(t, m) && Timers.Runs(t, steps) && Timers.Runs(Timers.After(t, steps), rest)
    ensures Timers.TimerInv(Timers.After(t, steps), Timers.DeadlinesAfter(t, m, steps))
    ensures Timers.Runs(t, steps + rest) && Timers.After(t, steps + rest) == Timers.After(Timers.After(t, steps), rest)
    ensures Timers.Posts(t, m, steps + rest)
         == Timers.Posts(t, m, steps) + Timers.Posts(Timers.After(t, steps), Timers.DeadlinesAfter(t, m, steps), rest)
    decreases |steps|
  {
    hide Timers.TimerInv, Timers.Fire, Timers.Update, Timers.Expired;
    if steps == [] {
      assert steps + rest == rest;
    } else {
      assert (steps + rest)[1..] == steps[1..] + rest;
      match steps[0]
      case UpdateStep(port, deadline) =>
        Timers.UpdateKeeps(t, m, port, deadline);
        RunsThen(Timers.Update(t, port, deadline), Timers.Deadlines(m, port, deadline), steps[1..], rest);
      case FireStep(now) =>
        Timers.NeverEarly(t, m, now);
        RunsThen(Timers.Fire(t), m - {t.heap[0].value}, steps[1..], rest);
    }
  }

  lemma {:induction false} UpdatesPostNothing(t: Timers.TimerState, m: map<Port, int>, messages: seq<Message>)
    requires Timers.TimerInv(t, m) && Timers.Runs(t, UpdateSteps(messages))
    ensures Timers.Posts(t, m, UpdateSteps(messages)) == []
    decreases |messages|
  {
    hide Timers.TimerInv, Timers.Fire, Timers.Update;
    if messages != [] {
      var x, rest := messages[0], UpdateSteps(messages[1..]);
      if x.TimerMessage? {
        assert UpdateSteps(messages)[1..] == rest;
        Timers.UpdateKeeps(t, m, x.port, x.deadline);
        UpdatesPostNothing(Timers.Update(t, x.port, x.deadline), Timers.Deadlines(m, x.port, x.deadline), messages[1..]);
      } else {
        assert UpdateSteps(messages) == rest;
        UpdatesPostNothing(t, m, messages[1..]);
      }
    }
  }

  /**
   A round of the handler, with the timer descriptor reported only when it has expired, is a run of the
   queue; its posts are those of the run, none before the deadline that its port had.
   */
  lemma RoundIsRun(t: Timers.TimerState, m: map<Port, int>, events: seq<EpollEvent>, nows: seq<int>, messages: seq<Message>)
    requires Timers.TimerInv(t, m) && |nows| == Expirations(events) && Timers.Runs(t, FireSteps(nows))
    ensures var steps := FireSteps(nows) + UpdateSteps(messages);
            && Timers.Runs(t, steps)
            && Timers.After(t, steps) == TimersAfter(TimersFired(t, events), messages)
            && PostedAs(PortsFired(t, events), nows, Timers.Posts(t, m, steps))
            && forall i :: 0 <= i < |nows| ==>
                             var x := Timers.Posts(t, m, steps)[i]; 0 < x.deadline && x.deadline * 1_000_000 <= nows[i]
  {
    hide Timers.TimerInv, Timers.Fire, Timers.Update, Timers.Runs, Timers.After, Timers.Posts;
    BatchIsRun(t, m, events, nows);
    var u, rest := TimersFired(t, events), UpdateSteps(messages);
    MessagesAreUpdates(u, messages);
    RunsThen(t, m, FireSteps(nows), rest);
    UpdatesPostNothing(u, Timers.DeadlinesAfter(t, m, FireSteps(nows)), messages);
    assert Timers.Posts(t, m, FireSteps(nows)) + [] == Timers.Posts(t, m, FireSteps(nows));
    Timers.RunsNeverEarly(t, m, FireSteps(nows) + rest);
  }
}
