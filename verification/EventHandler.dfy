/** The event handler of Linux as an object: its loops over events and over interrupt messages. */
module EventHandlers {
  import opened ReaderQueue
  import opened Descriptors
  import opened Polling
  import opened Ledger
  import opened Options
  import opened Words
  import opened EventHandlerState
  import opened EventHandlerSteps
  import opened EventHandlerEffects
  import opened EventHandlerRuns
  import opened EventHandlerSafety
  import opened EventHandlerRounds
  import opened EventHandlerTimers
  import opened InterruptPipes
  import opened PriorityQueues
  import HeapSpec
  import Timers

  // ---------- Timers and posts ----------

  /** A port is found where the map of the queue says. */
  lemma FindPosition(q: PriorityQueue<Port>, port: Port)
    requires q.Valid()
    ensures Timers.Find(q.Items(), port) == if port in q.positions then q.positions[port] else q.size
  {
    var k := Timers.Find(q.Items(), port);
    if port in q.positions {
      assert q.Items()[q.positions[port]].value == port;
      assert k < q.size && q.Items()[k].value == port;
    }
  }

  /** What an update of epoll posts: the news of a failed addition, to every port. */
  function UpdatePosting(before: Entry, after: Entry, addOk: bool): Posting {
    if Attempted(before, after) && !addOk then Everyone({CloseEvent}) else Nobody
  }

  class EventHandlerImplementation {
    var infos: map<int, Entry>
    var epoll: map<int, Interest>
    ghost var failed: set<int>
    var sockets: map<int, Socket>
    const pipe: InterruptPipe
    /** The messages under way, the words of them already read, and the events of the batch still to come. */
    ghost var pending: seq<Message>
    ghost var taken: seq<InterruptMessage>
    ghost var ready: seq<Ready>
    const timeouts: PriorityQueue<Port>
    var timerFd: Timers.TimerFd
    var shutdown: bool

    ghost function Abs(): State
      reads this`infos, this`epoll, this`failed, this`sockets, this`pending
    {
      State(infos, epoll, failed, sockets, pending)
    }

    ghost function Current(): Config
      reads this`infos, this`epoll, this`failed, this`sockets, this`pending, this`ready
    {
      Config(Abs(), ready)
    }

    /** The object is in a configuration that a run reaches, and its words spell the messages under way. */
    ghost predicate Valid()
      reads this`infos, this`epoll, this`failed, this`sockets, this`pending, this`ready, this`taken, pipe
    {
      Reachable(Current()) && ConfigInv(Current()) && pipe.Valid() && Spelled(taken + pipe.messages, Abs())
    }

    ghost function TimerAbs(): Timers.TimerState
      requires timeouts.Valid()
      reads this`timerFd, timeouts, timeouts.minHeap
    {
      Timers.TimerState(timeouts.Items(), timerFd)
    }

    constructor ()
      ensures Valid() && Current() == INITIAL_CONFIG && taken == [] && !shutdown
      ensures timeouts.Valid() && TimerAbs() == Timers.NO_TIMERS
      ensures fresh(timeouts) && fresh(timeouts.minHeap) && fresh(pipe)
    {
      infos, epoll, failed, sockets, pending := map[], map[], {}, map[], [];
      timerFd, shutdown, taken, ready := Timers.TimerFd(0, 0), false, [], [];
      timeouts := new PriorityQueue<Port>();
      pipe := new InterruptPipe();
      new;
      hide Reachable, ConfigInv, InterruptPipe.Valid, PriorityQueue.Valid;
      InitialOk();
      StartReachable();
    }

    // ---------- The Dart side ----------

    /** A socket tells the handler something; the message keeps the socket alive. */
    method SendData(a: int, port: Port, command: Command)
      requires a in sockets && pipe.Valid()
      modifies this`sockets, this`pending, pipe
      ensures Abs() == Send(old(Abs()), a, port, command) && pipe.Valid()
      ensures pipe.messages == old(pipe.messages) + [Spelling(SocketMessage(a, port, command), old(sockets)[a].listening)]
    {
      hide Wrap, Data, InterruptPipe.Valid;
      var x := sockets[a];
      sockets := sockets[a := x.(port := port, refs := x.refs + 1)];
      pipe.WakeupHandler(InterruptMessage(Wrap(a), Wrap(port), Wrap(Data(command, x.listening))));
      pending := pending + [SocketMessage(a, port, command)];
    }

    /** The finalizer of a socket keeps a reference for its close message and lets go of its own. */
    method FinalizeSocket(a: int)
      requires a in sockets && sockets[a].refs > 0 && pipe.Valid()
      modifies this`sockets, this`pending, pipe
      ensures Abs() == Finalize(old(Abs()), a) && pipe.Valid()
      ensures pipe.messages
           == old(pipe.messages) + [Spelling(SocketMessage(a, old(sockets)[a].port, Close), old(sockets)[a].listening)]
    {
      hide Wrap, Data, InterruptPipe.Valid;
      var x := sockets[a];
      sockets := sockets[a := x.(refs := x.refs + 1)];
      pipe.WakeupHandler(InterruptMessage(Wrap(a), Wrap(x.port), Wrap(Data(Close, x.listening))));
      sockets := sockets[a := x.(alive := false)];
      pending := pending + [SocketMessage(a, x.port, Close)];
    }

    /** A timer is set, or the handler is told to stop. */
    method SendNative(m: Message)
      requires !m.SocketMessage? && pipe.Valid()
      modifies this`pending, pipe
      ensures Abs() == SendOther(old(Abs()), m) && pipe.Valid()
      ensures pipe.messages == old(pipe.messages) + [Spelling(m, false)]
    {
      pipe.WakeupHandler(Spelling(m, false));
      pending := pending + [m];
    }

    method Act(step: Step)
      requires Valid() && IsDart(step) && Enabled(Current(), step)
      modifies this`sockets, this`pending, pipe
      ensures Valid() && Current() == Next(old(Current()), step)
    {
      hide Reachable, EntriesOk, EpollOk, OwnersOk, SocketsOk, Spelled, Spelling, InterruptPipe.Valid;
      ghost var c, words := Current(), pipe.messages;
      NextKeeps(c, step);
      ReachableNext(c, step);
      SpelledSent(taken + words, c, step);
      match step {
        case CreateStep(a, fd, listening) =>
          sockets := sockets[a := Socket(fd, ILLEGAL_PORT, listening, true, 1)];
        case SendStep(a, port, command) =>
          SendData(a, port, command);
        case FinalizeStep(a) =>
          assert RefsOk(Abs(), a);
          FinalizeSocket(a);
        case OtherStep(m) =>
          SendNative(m);
      }
      assert pipe.messages == words + WordsSent(c, step);
      assert taken + pipe.messages == taken + words + WordsSent(c, step);
    }

    /** What the Dart side does while the handler is between two of its own steps. */
    method Interfere(steps: seq<Step>, ghost rest: seq<Step>)
      requires Valid() && AllDart(steps) && Willing(Current(), steps + rest)
      modifies this`sockets, this`pending, pipe
      ensures Valid() && Did(old(Current()), steps, Current(), []) && Willing(Current(), rest)
      ensures old(pending) <= pending
    {
      hide Reachable, ConfigInv, Enabled, Next, Did, Willing, Spelled, InterruptPipe.Valid;
      ghost var c := Current();
      DidNothing(c);
      assert steps[..0] == [] && steps[0..] + rest == steps + rest;
      var k := 0;
      while k < |steps|
        invariant 0 <= k <= |steps| && Valid() && ready == old(ready) && old(pending) <= pending
        invariant Did(c, steps[..k], Current(), []) && Willing(Current(), steps[k..] + rest)
      {
        ghost var d := Current();
        assert steps[k..] + rest == [steps[k]] + (steps[k + 1..] + rest);
        WillingNext(d, steps[k], steps[k + 1..] + rest);
        DartStep(d, steps[k]);
        DidOne(d, steps[k]);
        Act(steps[k]);
        DidJoin(c, steps[..k], d, [], [steps[k]], Current(), PostedBy(d, steps[k]));
        assert [] + PostedBy(d, steps[k]) == [];
        assert steps[..k + 1] == steps[..k] + [steps[k]];
        k := k + 1;
      }
      assert steps[..k] == steps && steps[k..] + rest == rest;
    }

    // ---------- Epoll ----------

    method AddToEpollInstance(fd: int, addOk: bool) returns (posting: Posting)
      requires fd in infos
      modifies this`epoll, this`failed, this`infos
      ensures Abs() == AddToEpoll(old(Abs()), fd, addOk)
      ensures posting == if addOk then Nobody else Everyone({CloseEvent})
    {
      posting := Nobody;
      if addOk {
        epoll := epoll[fd := InterestFor(infos[fd].d)];
        failed := failed - {fd};
      } else {
        failed := failed + {fd};
        infos := infos[fd := Broadcast(infos[fd])];
        posting := Everyone({CloseEvent});
      }
    }

    method UpdateEpollInstance(ghost before: Entry, oldMask: Mask, fd: int, addOk: bool) returns (posting: Posting)
      requires fd in infos && oldMask == MaskOf(before.d)
      requires infos[fd].d.Multiple? ==> oldMask == {} || oldMask == {InEvent}
      modifies this`epoll, this`failed, this`infos
      ensures Abs() == UpdateEpoll(old(Abs()), oldMask, fd, addOk)
      ensures posting == UpdatePosting(before, old(infos)[fd], addOk)
    {
      var newMask := MaskOf(infos[fd].d);
      posting := Nobody;
      if oldMask != {} && newMask == {} {
        epoll := epoll - {fd};
      } else if oldMask == {} && newMask != {} {
        posting := AddToEpollInstance(fd, addOk);
      } else if oldMask != {} && newMask != {} && oldMask != newMask {
        assert infos[fd].d.Single?;
        epoll := epoll - {fd};
        posting := AddToEpollInstance(fd, addOk);
      }
    }

    // ---------- Timers ----------

    method UpdateTimerFd()
      requires timeouts.Valid()
      modifies this`timerFd
      ensures timerFd == Timers.TimerFor(timeouts.Items())
    {
      timerFd := Timers.TimerFd(0, 0);
      if timeouts.size > 0 {
        var item := timeouts.Minimum();
        timerFd := Timers.TimerFd(item.priority / 1000, (item.priority % 1000) * 1_000_000);
      }
    }

    method UpdateTimeout(port: Port, deadline: int)
      requires timeouts.Valid()
      modifies this`timerFd, timeouts, timeouts.minHeap
      ensures timeouts.Valid() && TimerAbs() == Timers.Update(old(TimerAbs()), port, deadline)
      ensures timeouts.minHeap == old(timeouts.minHeap) || fresh(timeouts.minHeap)
    {
      FindPosition(timeouts, port);
      if deadline < 0 {
        var _ := timeouts.RemoveByValue(port);
      } else {
        var _ := timeouts.InsertOrChangePriority(deadline, port);
      }
      UpdateTimerFd();
    }

    /** Epoll reports the timer descriptor; the port at the root of the queue is posted. */
    method HandleTimer() returns (posted: seq<Port>)
      requires timeouts.Valid()
      modifies this`timerFd, timeouts, timeouts.minHeap
      ensures timeouts.Valid() && TimerAbs() == Timers.Fire(old(TimerAbs()))
      ensures posted == if old(timeouts.Items()) == [] then [] else [old(timeouts.Items())[0].value]
      ensures timeouts.minHeap == old(timeouts.minHeap) || fresh(timeouts.minHeap)
    {
      posted := [];
      if timeouts.size > 0 {
        var item := timeouts.Minimum();
        posted := [item.value];
        timeouts.RemoveMinimum();
      }
      UpdateTimerFd();
    }

    // ---------- Events ----------

    method HandleSocketEvent(r: Ready) returns (posting: Posting)
      requires Inv(Abs()) && r.fd in epoll
      modifies this`infos, this`epoll, this`failed
      ensures Abs() == HandleEvent(old(Abs()), r)
      ensures r.fd in old(infos) && CanNotify(old(infos)[r.fd].d)
      ensures posting == PostingFor(old(infos)[r.fd], r.events) && Told(old(infos)[r.fd].d, r.events, posting)
    {
      hide Inv, UpdateEpoll, Told;
      EventLive(Abs(), r.fd);
      var e := infos[r.fd];
      PostingTold(e, r.events);
      var oldMask, mask := MaskOf(e.d), EventsOf(r.events);
      posting := Nobody;
      if ErrorEvent in mask {
        posting := Everyone(mask);
        infos := infos[r.fd := Broadcast(e)];
        var _ := UpdateEpollInstance(e, oldMask, r.fd, true);
      } else if mask != {} {
        var port := NextPort(e.d);
        assert port != ILLEGAL_PORT;
        infos := infos[r.fd := Notify(e)];
        var _ := UpdateEpollInstance(e, oldMask, r.fd, true);
        posting := One(port, mask);
      }
    }

    method HandleNext(r: Ready) returns (posting: Posting)
      requires Valid() && ready != [] && r == ready[0]
      modifies this`infos, this`epoll, this`failed, this`ready
      ensures Valid() && Current() == Next(old(Current()), EventStep)
      ensures [posting] == PostedBy(old(Current()), EventStep) && Says(r.events, posting)
      ensures ready == old(ready)[1..]
    {
      hide Reachable, Inv, HandleEvent, PostingFor, Spelling, InterruptPipe.Valid, Says;
      ghost var c := Current();
      ReachableNext(c, EventStep);
      EventKeeps(c.s, r, true);
      posting := HandleSocketEvent(r);
      ready := ready[1..];
    }

    lemma ValidFacts()
      requires Valid()
      ensures ConfigInv(Current()) && Reachable(Current()) && |taken| + |pipe.messages| == |pending|
    {
    }

    /** An event, after what the Dart side does before it. */
    method EventTurn(event: EpollEvent, before: seq<Step>, ghost rest: seq<Step>)
      returns (posted: seq<Posting>, fired: seq<Port>)
      requires Valid() && timeouts.Valid() && AllDart(before) && Willing(Current(), before + EventSteps(event) + rest)
      requires event.SocketReady? ==> ready != [] && ready[0] == event.r
      modifies this`infos, this`epoll, this`failed, this`sockets, this`pending, this`ready, this`timerFd
      modifies pipe, timeouts, timeouts.minHeap
      ensures Valid() && Did(old(Current()), before + EventSteps(event), Current(), posted) && Willing(Current(), rest)
      ensures ready == (if event.SocketReady? then old(ready)[1..] else old(ready)) && Said(event, posted)
      ensures timeouts.Valid() && (timeouts.minHeap == old(timeouts.minHeap) || fresh(timeouts.minHeap))
      ensures TimerAbs() == TimersFired(old(TimerAbs()), [event]) && fired == PortsFired(old(TimerAbs()), [event])
    {
      hide Valid, ConfigInv, Enabled, Next, PriorityQueue.Valid, Did, Willing, PostedBy, Timers.Fire, Says;
      ghost var b := Current();
      assert before + EventSteps(event) + rest == before + (EventSteps(event) + rest);
      Interfere(before, EventSteps(event) + rest);
      ghost var c := Current();
      ValidFacts();
      posted, fired := [], [];
      match event {
        case Interrupt =>
        case TimerExpired =>
          fired := HandleTimer();
        case SocketReady(r) =>
          EventEnabled(c);
          WillingNext(c, EventStep, rest);
          DidOne(c, EventStep);
          var posting := HandleNext(r);
          posted := [posting];
          DidJoin(b, before, c, [], [EventStep], Current(), posted);
          assert [] + posted == posted;
      }
      assert before + [] == before && [] + rest == rest;
    }

    /** The events of sockets and of the timer; `env` is what the Dart side does before each. */
    method HandleBatch(events: seq<EpollEvent>, env: seq<seq<Step>>, ghost rest: seq<Step>)
      returns (postings: seq<Posting>, timers: seq<Port>, interruptSeen: bool)
      requires Valid() && timeouts.Valid() && ready == SocketEvents(events)
      requires |env| == |events| && forall i :: 0 <= i < |env| ==> AllDart(env[i])
      requires Willing(Current(), BatchSteps(events, env) + rest)
      modifies this`infos, this`epoll, this`failed, this`sockets, this`pending, this`ready, this`timerFd
      modifies pipe, timeouts, timeouts.minHeap
      ensures Valid() && ready == [] && Did(old(Current()), BatchSteps(events, env), Current(), postings)
      ensures AllSaid(events, postings) && Willing(Current(), rest)
      ensures timeouts.Valid() && (timeouts.minHeap == old(timeouts.minHeap) || fresh(timeouts.minHeap))
      ensures timers == PortsFired(old(TimerAbs()), events) && TimerAbs() == TimersFired(old(TimerAbs()), events)
      ensures Conserved(old(TimerAbs()), TimerAbs(), events, timers)
      ensures interruptSeen == (Interrupt in events)
    {
      hide Reachable, ConfigInv, InterruptPipe.Valid, Spelled, PriorityQueue.Valid, Did, Willing;
      hide SocketEvents, BatchSteps, AllDart, TimersFired, PortsFired, Conserved, AllSaid, Said;
      ghost var c := Current();
      var i := 0;
      postings, timers, interruptSeen := [], [], false;
      ghost var done: seq<Step> := [];
      ValidFacts();
      DidNothing(c);
      NothingSaid();
      assert events[0..] == events && env[0..] == env && events[..0] == [];
      while i < |events|
        invariant 0 <= i <= |events| && interruptSeen == (Interrupt in events[..i])
        invariant Valid() && ready == SocketEvents(events[i..]) && Did(c, done, Current(), postings)
        invariant done + BatchSteps(events[i..], env[i..]) == BatchSteps(events, env) && AllSaid(events[..i], postings)
        invariant Willing(Current(), BatchSteps(events[i..], env[i..]) + rest)
        invariant timeouts.Valid() && TimersFired(TimerAbs(), events[i..]) == TimersFired(old(TimerAbs()), events)
        invariant timers + PortsFired(TimerAbs(), events[i..]) == PortsFired(old(TimerAbs()), events)
        invariant timeouts.minHeap == old(timeouts.minHeap) || fresh(timeouts.minHeap)
      {
        ghost var b, steps, later := Current(), env[i] + EventSteps(events[i]), BatchSteps(events[i + 1..], env[i + 1..]);
        BatchFirst(events, env, i);
        TimersFirst(TimerAbs(), events, i);
        assert steps + later + rest == steps + (later + rest);
        var posted, fired := EventTurn(events[i], env[i], later + rest);
        DidJoin(c, done, b, postings, steps, Current(), posted);
        assert done + (steps + later) == (done + steps) + later;
        interruptSeen := interruptSeen || events[i].Interrupt?;
        assert events[..i + 1] == events[..i] + [events[i]];
        SaidNext(events, i, postings, posted);
        done, postings, timers, i := done + steps, postings + posted, timers + fired, i + 1;
      }
      assert events[i..] == [] && env[i..] == [] && events[..i] == events;
      NoBatch();
      FiredConserves(old(TimerAbs()), events);
      assert done + [] == done && [] + rest == rest;
    }

    // ---------- Messages ----------

    method GetDescriptorInfo(fd: int, listening: bool) returns (e: Entry)
      modifies this`infos
      ensures e == old(EntryFor(Abs(), fd, listening)) && infos == old(infos)[fd := e]
    {
      if fd !in infos {
        infos := infos[fd := NewEntry(listening)];
      }
      e := infos[fd];
    }

    /** The registry's answer whether a socket is the last to use its descriptor. */
    method CloseSafe(a: int) returns (last: bool)
      requires a in sockets
      ensures last == Last(Abs(), a)
    {
      last := forall b :: b in sockets && b != a ==> sockets[b].fd != sockets[a].fd;
    }

    method CloseCommand(a: int, port: Port, listening: bool, addOk: bool) returns (posting: Posting)
      requires CommandAhead(Abs()) && pending[0] == SocketMessage(a, port, Close) && listening == sockets[a].listening
      modifies this`infos, this`epoll, this`failed, this`sockets
      ensures Abs() == CloseSocket(old(Abs()), a, port, addOk) && posting == Destroyed(port)
    {
      hide Inv, UpdateEpoll, Deregister, EntryOk, Unspoilt;
      var fd := sockets[a].fd;
      ghost var s := Abs();
      EntryForOk(s, a);
      CloseNeverAdds(s);
      var e := GetDescriptorInfo(fd, listening);
      var oldMask := MaskOf(e.d);
      if port != ILLEGAL_PORT {
        infos := infos[fd := Deregister(e, port)];
      }
      DeregisterKind(e, port);
      assert infos[fd] == Commanded(s) && Abs() == Changed(s, fd, Commanded(s));
      posting := UpdateEpollInstance(e, oldMask, fd, addOk);
      assert posting == Nobody;
      var last := CloseSafe(a);
      if e.d.Single? || last {
        infos := infos - {fd};
      }
      sockets := sockets[a := sockets[a].(fd := -1)];
      posting := Destroyed(port);
    }

    /** A command other than close on an open socket. */
    method OtherCommand(m: Message, listening: bool, addOk: bool) returns (posting: Posting)
      requires CommandAhead(Abs()) && pending[0] == m && !m.command.Close? && listening == sockets[m.socket].listening
      modifies this`infos, this`epoll, this`failed
      ensures m.command.ReturnToken? ==>
                var x := old(sockets)[m.socket];
                var e := EntryFor(old(Abs()), x.fd, x.listening); m.port in e.accounts && Registered(e.d, m.port)
      ensures Abs() == Perform(old(Abs()), m, addOk)
      ensures posting == UpdatePosting(EntryAhead(old(Abs())), Commanded(old(Abs())), addOk)
    {
      hide Inv, UpdateEpoll, Register, GiveBack, EntryOk, Unspoilt, Performed;
      var fd := sockets[m.socket].fd;
      ghost var s := Abs();
      EntryForOk(s, m.socket);
      PerformKeeps(s, m, addOk);
      var e := GetDescriptorInfo(fd, listening);
      var oldMask := MaskOf(e.d);
      match m.command {
        case SetEventMask(mask) =>
          infos := infos[fd := Register(e, m.socket, m.port, mask)];
          RegisterKind(e, m.socket, m.port, mask);
          assert Abs() == Changed(s, fd, Register(e, m.socket, m.port, mask));
          posting := UpdateEpollInstance(e, oldMask, fd, addOk);
        case ReturnToken(count) =>
          infos := infos[fd := GiveBack(e, m.port, count)];
          GiveBackKind(e, m.port, count);
          assert Abs() == Changed(s, fd, GiveBack(e, m.port, count));
          posting := UpdateEpollInstance(e, oldMask, fd, addOk);
        case _ =>
          posting := Nobody;
      }
    }

    method HandleSocketMessage(m: Message, listening: bool, addOk: bool) returns (posting: Posting)
      requires Inv(Abs()) && pending != [] && pending[0] == m && m.SocketMessage? && m.socket in sockets
      requires listening == sockets[m.socket].listening
      modifies this`infos, this`epoll, this`failed, this`sockets, this`pending
      ensures Abs() == HandleMessage(old(Abs()), addOk) && posting == MessagePosting(old(Abs()), addOk)
    {
      hide EntriesOk, EpollOk, OwnersOk, SocketsOk, UpdateEpoll, CloseSocket, Commanded;
      ghost var s := Abs();
      HeadOk(s);
      posting := Nobody;
      if sockets[m.socket].fd != -1 {
        PerformKeeps(s, m, addOk);
        if m.command.Close? {
          CloseNeverAdds(s);
          posting := CloseCommand(m.socket, m.port, listening, addOk);
        } else {
          posting := OtherCommand(m, listening, addOk);
        }
      }
      ReleaseSocket(m.socket);
    }

    method ReleaseSocket(a: int)
      requires pending != [] && a in sockets && sockets[a].refs > 0
      modifies this`sockets, this`pending
      ensures Abs() == Release(old(Abs()), a)
    {
      var x := sockets[a];
      if x.refs == 1 {
        sockets := sockets - {a};
      } else {
        sockets := sockets[a := x.(refs := x.refs - 1)];
      }
      pending := pending[1..];
    }

    /** The oldest word that was read and not yet handled. */
    method HandleWord(w: InterruptMessage, addOk: bool) returns (posting: Posting)
      requires Valid() && timeouts.Valid() && ready == [] && taken != [] && w == taken[0]
      modifies this, timeouts, timeouts.minHeap
      ensures Valid() && ready == [] && taken == old(taken)[1..]
      ensures Enabled(old(Current()), MessageStep(addOk)) && Current() == Next(old(Current()), MessageStep(addOk))
      ensures [posting] == PostedBy(old(Current()), MessageStep(addOk))
      ensures old(pending) != [] && pending == old(pending)[1..]
      ensures timeouts.Valid() && TimerAbs() == TimersAfter(old(TimerAbs()), [old(pending)[0]])
      ensures timeouts.minHeap == old(timeouts.minHeap) || fresh(timeouts.minHeap)
      ensures shutdown == (old(shutdown) || old(pending)[0].ShutdownMessage?)
    {
      hide Reachable, Inv, Spelled, InterruptPipe.Valid, HandleMessage, MessagePosting, MessageOf, ListeningOf;
      hide PriorityQueue.Valid, TimersAfter;
      ghost var c, words := Current(), taken + pipe.messages;
      SpelledHead(words, c.s);
      SpelledRest(words, c.s, addOk);
      ReachableNext(c, MessageStep(addOk));
      MessagePops(c.s, addOk);
      assert words[1..] == taken[1..] + pipe.messages;
      var m := MessageOf(w).value;
      posting := Nobody;
      TimersOne(TimerAbs(), m);
      if m.TimerMessage? {
        NoCommandAhead(c.s, addOk);
        UpdateTimeout(m.port, m.deadline);
        pending := pending[1..];
      } else if m.ShutdownMessage? {
        NoCommandAhead(c.s, addOk);
        shutdown := true;
        pending := pending[1..];
      } else {
        posting := HandleSocketMessage(m, ListeningOf(w.data), addOk);
      }
      taken := taken[1..];
    }

    /** A word, after what the Dart side does before it. */
    method MessageTurn(w: InterruptMessage, turn: Turn, ghost rest: seq<Step>) returns (posting: Posting)
      requires Valid() && timeouts.Valid() && ready == [] && taken != [] && w == taken[0]
      requires AllDart(turn.before) && Willing(Current(), turn.before + [MessageStep(turn.addOk)] + rest)
      modifies this, pipe, timeouts, timeouts.minHeap
      ensures Valid() && ready == [] && taken == old(taken)[1..] && Willing(Current(), rest)
      ensures Did(old(Current()), turn.before + [MessageStep(turn.addOk)], Current(), [posting])
      ensures old(pending) != [] && old(pending)[1..] <= pending
      ensures timeouts.Valid() && TimerAbs() == TimersAfter(old(TimerAbs()), [old(pending)[0]])
      ensures timeouts.minHeap == old(timeouts.minHeap) || fresh(timeouts.minHeap)
      ensures shutdown == (old(shutdown) || old(pending)[0].ShutdownMessage?)
    {
      hide Reachable, ConfigInv, InterruptPipe.Valid, Spelled, PriorityQueue.Valid, Did, Willing, Enabled, Next, PostedBy;
      ghost var b, step := Current(), MessageStep(turn.addOk);
      ValidFacts();
      assert turn.before + [step] + rest == turn.before + ([step] + rest);
      Interfere(turn.before, [step] + rest);
      ghost var c := Current();
      WillingNext(c, step, rest);
      posting := HandleWord(w, turn.addOk);
      DidOne(c, step);
      DidJoin(b, turn.before, c, [], [step], Current(), [posting]);
      assert [] + [posting] == [posting];
    }

    /** The words of one read, in order. */
    method HandleWords(words: seq<InterruptMessage>, turns: seq<Turn>) returns (postings: seq<Posting>)
      requires Valid() && timeouts.Valid() && ready == [] && taken == words && |turns| == |words| <= |pending|
      requires forall i :: 0 <= i < |turns| ==> AllDart(turns[i].before)
      requires Willing(Current(), MessageSteps(turns))
      modifies this, pipe, timeouts, timeouts.minHeap
      ensures Valid() && ready == [] && taken == [] && Did(old(Current()), MessageSteps(turns), Current(), postings)
      ensures timeouts.Valid() && TimerAbs() == TimersAfter(old(TimerAbs()), old(pending)[..|words|])
      ensures timeouts.minHeap == old(timeouts.minHeap) || fresh(timeouts.minHeap)
      ensures shutdown == (old(shutdown) || ShutdownMessage in old(pending)[..|words|])
    {
      hide Reachable, ConfigInv, InterruptPipe.Valid, Spelled, PriorityQueue.Valid, Did, Willing, AllDart;
      hide MessageSteps, TimersAfter;
      ghost var c := Current();
      postings := [];
      DidNothing(c);
      ghost var done: seq<Step>, messages := [], pending[..|words|];
      assert turns[0..] == turns && messages[0..] == messages && words[0..] == words;
      var i := 0;
      while i < |words|
        invariant 0 <= i <= |words| && Valid() && ready == [] && taken == words[i..] && messages[i..] <= pending
        invariant Did(c, done, Current(), postings) && Willing(Current(), MessageSteps(turns[i..]))
        invariant done + MessageSteps(turns[i..]) == MessageSteps(turns)
        invariant timeouts.Valid() && TimersAfter(TimerAbs(), messages[i..]) == TimersAfter(old(TimerAbs()), messages)
        invariant timeouts.minHeap == old(timeouts.minHeap) || fresh(timeouts.minHeap)
        invariant shutdown == (old(shutdown) || ShutdownMessage in messages[..i])
      {
        ghost var b, steps := Current(), turns[i].before + [MessageStep(turns[i].addOk)];
        ghost var later := MessageSteps(turns[i + 1..]);
        TurnsFirst(turns, i);
        FirstTimer(TimerAbs(), messages, i);
        ghost var was := pending;
        Oldest(messages, i, was);
        assert words[i..][0] == words[i] && words[i..][1..] == words[i + 1..];
        var posting := MessageTurn(words[i], turns[i], later);
        StillOldest(messages, i, was, pending);
        DidJoin(c, done, b, postings, steps, Current(), [posting]);
        assert done + (steps + later) == (done + steps) + later;
        done, postings, i := done + steps, postings + [posting], i + 1;
      }
      assert messages[i..] == [] && messages[..i] == messages && turns[i..] == [];
      NoMessages();
      assert done + [] == done;
    }

    /** One read of the interrupt pipe; there is a turn for each message it can take. */
    method HandleInterruptFd(turns: seq<Turn>) returns (n: nat, postings: seq<Posting>)
      requires Valid() && timeouts.Valid() && ready == [] && taken == []
      requires |turns| == MAX_MESSAGES && forall i :: 0 <= i < |turns| ==> AllDart(turns[i].before)
      requires Willing(Current(), MessageSteps(turns))
      modifies this, pipe, timeouts, timeouts.minHeap
      ensures n == if |old(pending)| < MAX_MESSAGES then |old(pending)| else MAX_MESSAGES
      ensures Valid() && ready == [] && taken == []
      ensures Did(old(Current()), MessageSteps(turns[..n]), Current(), postings)
      ensures timeouts.Valid() && TimerAbs() == TimersAfter(old(TimerAbs()), old(pending)[..n])
      ensures timeouts.minHeap == old(timeouts.minHeap) || fresh(timeouts.minHeap)
      ensures shutdown == (old(shutdown) || ShutdownMessage in old(pending)[..n])
    {
      hide Reachable, ConfigInv, InterruptPipe.Valid, Spelled, PriorityQueue.Valid, Did, Willing, AllDart;
      hide MessageSteps, TimersAfter;
      ValidFacts();
      var words := pipe.Read();
      assert [] + (words + pipe.messages) == words + pipe.messages;
      taken := words;
      n := |words|;
      TurnsSplit(turns, n);
      WillingFirst(Current(), MessageSteps(turns[..n]), MessageSteps(turns[n..]));
      postings := HandleWords(words, turns[..n]);
    }

    /**
     A round: the events of sockets and of the timer first, then the interrupt messages. It is a run from
     where the handler was to where it is, whatever the Dart side does between its steps.
     */
    method HandleEvents(events: seq<EpollEvent>, env: seq<seq<Step>>, turns: seq<Turn>)
      returns (posted: seq<Posting>, timers: seq<Port>, n: nat, replies: seq<Posting>,
               ghost read: Config, ghost fired: Timers.TimerState)
      requires Valid() && timeouts.Valid() && ready == [] && taken == []
      requires |events| <= MAX_EVENTS && ReadyOk(Abs(), SocketEvents(events))
      requires |env| == |events| && forall i :: 0 <= i < |env| ==> AllDart(env[i])
      requires |turns| == MAX_MESSAGES && forall i :: 0 <= i < |turns| ==> AllDart(turns[i].before)
      requires Willing(Current(), [WaitStep(SocketEvents(events))] + (BatchSteps(events, env) + MessageSteps(turns)))
      modifies this, pipe, timeouts, timeouts.minHeap
      ensures Valid() && ready == [] && taken == [] && timeouts.Valid()
      ensures Did(old(Current()), [WaitStep(SocketEvents(events))] + BatchSteps(events, env), read, posted)
      ensures AllSaid(events, posted)
      ensures n == if Interrupt !in events then 0
                   else if |read.s.pending| < MAX_MESSAGES then |read.s.pending| else MAX_MESSAGES
      ensures Did(read, MessageSteps(turns[..n]), Current(), replies)
      ensures timers == PortsFired(old(TimerAbs()), events) && fired == TimersFired(old(TimerAbs()), events)
      ensures Conserved(old(TimerAbs()), fired, events, timers) && TimerAbs() == TimersAfter(fired, read.s.pending[..n])
      ensures shutdown == (old(shutdown) || ShutdownMessage in read.s.pending[..n])
    {
      hide Reachable, ConfigInv, InterruptPipe.Valid, Spelled, PriorityQueue.Valid, Did, Willing, AllDart, Enabled, Next;
      hide SocketEvents, BatchSteps, MessageSteps, TimersAfter, TimersFired, PortsFired, Conserved, AllSaid;
      ghost var c, wait := Current(), WaitStep(SocketEvents(events));
      Wait(SocketEvents(events), BatchSteps(events, env) + MessageSteps(turns));
      ghost var b := Current();
      var interruptSeen;
      posted, timers, interruptSeen := HandleBatch(events, env, MessageSteps(turns));
      read, fired := Current(), TimerAbs();
      DidJoin(c, [wait], b, [], BatchSteps(events, env), read, posted);
      assert [] + posted == posted;
      n, replies := 0, [];
      NoMessages();
      DidNothing(read);
      if interruptSeen {
        n, replies := HandleInterruptFd(turns);
      }
    }

    /** Epoll reports a batch. */
    ghost method Wait(batch: seq<Ready>, rest: seq<Step>)
      requires Valid() && ready == [] && |batch| <= MAX_EVENTS && ReadyOk(Abs(), batch)
      requires Willing(Current(), [WaitStep(batch)] + rest)
      modifies this`ready
      ensures Valid() && ready == batch && Willing(Current(), rest)
      ensures Did(old(Current()), [WaitStep(batch)], Current(), [])
    {
      hide Reachable, Inv, InterruptPipe.Valid, Spelled, Did, Willing;
      ghost var c := Current();
      ReachableNext(c, WaitStep(batch));
      WillingNext(c, WaitStep(batch), rest);
      DidOne(c, WaitStep(batch));
      ready := batch;
    }
  }

  lemma EventEnabled(c: Config)
    requires c.ready != []
    ensures Enabled(c, EventStep)
  {
  }

  lemma BatchFirst(events: seq<EpollEvent>, env: seq<seq<Step>>, i: nat)
    requires |env| == |events| && i < |events|
    ensures BatchSteps(events[i..], env[i..]) == env[i] + EventSteps(events[i]) + BatchSteps(events[i + 1..], env[i + 1..])
    ensures var later := SocketEvents(events[i + 1..]);
            SocketEvents(events[i..]) == if events[i].SocketReady? then [events[i].r] + later else later
  {
    assert events[i..][1..] == events[i + 1..] && env[i..][1..] == env[i + 1..];
  }

  lemma NoBatch()
    ensures SocketEvents([]) == [] && BatchSteps([], []) == []
    ensures forall t :: TimersFired(t, []) == t && PortsFired(t, []) == []
  {
  }

  lemma NothingSaid()
    ensures AllSaid([], [])
  {
  }

  lemma SaidNext(events: seq<EpollEvent>, i: nat, posts: seq<Posting>, posted: seq<Posting>)
    requires i < |events| && AllSaid(events[..i], posts) && Said(events[i], posted)
    ensures AllSaid(events[..i + 1], posts + posted)
  {
    hide Says;
    assert events[..i + 1][..i] == events[..i];
    assert events[i].SocketReady? ==> (posts + posted)[..|posts|] == posts;
    assert !events[i].SocketReady? ==> posts + posted == posts;
  }

  lemma NoCommandAhead(s: State, addOk: bool)
    requires Inv(s) && s.pending != [] && !s.pending[0].SocketMessage?
    ensures HandleMessage(s, addOk) == s.(pending := s.pending[1..]) && MessagePosting(s, addOk) == Nobody
  {
    hide Inv;
  }

  lemma RegisterKind(e: Entry, owner: int, port: Port, mask: Mask)
    ensures Register(e, owner, port, mask).d.Single? == e.d.Single?
  {
  }

  lemma GiveBackKind(e: Entry, port: Port, count: nat)
    requires Registered(e.d, port) && port in e.accounts
    ensures GiveBack(e, port, count).d.Single? == e.d.Single?
  {
  }

  lemma TurnsFirst(turns: seq<Turn>, i: nat)
    requires i < |turns|
    ensures MessageSteps(turns[i..]) == turns[i].before + [MessageStep(turns[i].addOk)] + MessageSteps(turns[i + 1..])
  {
    assert turns[i..][1..] == turns[i + 1..];
  }

  lemma {:induction false} TurnsSplit(turns: seq<Turn>, n: nat)
    requires n <= |turns|
    ensures MessageSteps(turns) == MessageSteps(turns[..n]) + MessageSteps(turns[n..])
  {
    if n > 0 {
      TurnsSplit(turns[1..], n - 1);
      assert turns[1..][..n - 1] == turns[..n][1..] && turns[1..][n - 1..] == turns[n..];
      var steps := turns[0].before + [MessageStep(turns[0].addOk)];
      assert steps + (MessageSteps(turns[..n][1..]) + MessageSteps(turns[n..]))
          == (steps + MessageSteps(turns[..n][1..])) + MessageSteps(turns[n..]);
    }
  }

  lemma Oldest(messages: seq<Message>, i: nat, pending: seq<Message>)
    requires i < |messages| && messages[i..] <= pending
    ensures pending != [] && pending[0] == messages[i]
    ensures ShutdownMessage in messages[..i + 1] <==> ShutdownMessage in messages[..i] || messages[i].ShutdownMessage?
  {
    assert messages[i..][0] == messages[i];
    assert messages[..i + 1] == messages[..i] + [messages[i]];
  }

  lemma StillOldest(messages: seq<Message>, i: nat, was: seq<Message>, pending: seq<Message>)
    requires i < |messages| && messages[i..] <= was && was != [] && was[1..] <= pending
    ensures messages[i + 1..] <= pending
  {
    assert messages[i + 1..] == messages[i..][1..];
  }

  lemma NoMessages()
    ensures MessageSteps([]) == [] && forall t :: TimersAfter(t, []) == t
  {
  }

  lemma DeregisterKind(e: Entry, port: Port)
    ensures Deregister(e, port).d.Single? == e.d.Single?
  {
  }
}
