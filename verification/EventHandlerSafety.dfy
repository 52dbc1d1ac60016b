/** What holds in every run of the Linux event handler. */
module EventHandlerSafety {
  import opened ReaderQueue
  import opened Descriptors
  import opened Polling
  import opened Ledger
  import opened EventHandlerState
  import opened EventHandlerSteps
  import opened EventHandlerEffects
  import opened EventHandlerRuns

  /** The most events taken from epoll at a time. */
  const MAX_EVENTS := 16

  /** The state, and the events of the current batch still to be handled. */
  datatype Config = Config(s: State, ready: seq<Ready>)

  const INITIAL_CONFIG := Config(INITIAL_STATE, [])

  datatype Step =
    | CreateStep(socket: int, fd: int, listening: bool)
    | SendStep(socket: int, port: Port, command: Command)
    | FinalizeStep(socket: int)
    | OtherStep(message: Message)
    | WaitStep(batch: seq<Ready>)
    | EventStep
    | MessageStep(addOk: bool)

  /** Dart objects act at any time; messages are handled only when the batch of events is done. */
  ghost predicate Enabled(c: Config, step: Step) {
    match step
    case CreateStep(a, fd, listening) => CanCreate(c.s, a, fd, listening)
    case SendStep(a, port, command) => CanSend(c.s, a, port, command)
    case FinalizeStep(a) => a in c.s.sockets && c.s.sockets[a].alive
    case OtherStep(m) => !m.SocketMessage? && Spellable(m)
    case WaitStep(batch) => c.ready == [] && |batch| <= MAX_EVENTS && ReadyOk(c.s, batch)
    case EventStep => c.ready != []
    case MessageStep(_) => c.ready == [] && c.s.pending != []
  }

  ghost predicate ConfigInv(c: Config) {
    Inv(c.s) && ReadyOk(c.s, c.ready)
  }

  ghost function Next(c: Config, step: Step): Config
    requires ConfigInv(c) && Enabled(c, step)
  {
    match step
    case CreateStep(a, fd, listening) => c.(s := Create(c.s, a, fd, listening))
    case SendStep(a, port, command) => c.(s := Send(c.s, a, port, command))
    case FinalizeStep(a) => c.(s := Finalize(c.s, a))
    case OtherStep(m) => c.(s := SendOther(c.s, m))
    case WaitStep(batch) => c.(ready := batch)
    case EventStep => Config(HandleEvent(c.s, c.ready[0]), c.ready[1..])
    case MessageStep(addOk) => c.(s := HandleMessage(c.s, addOk))
  }

  lemma NextKeeps(c: Config, step: Step)
    requires ConfigInv(c) && Enabled(c, step)
    ensures ConfigInv(Next(c, step))
  {
    hide Inv;
    match step
    case CreateStep(a, fd, listening) => CreateKeeps(c.s, a, fd, listening);
    case SendStep(a, port, command) => SendKeeps(c.s, a, port, command);
    case FinalizeStep(a) => FinalizeKeeps(c.s, a);
    case OtherStep(m) => SendOtherKeeps(c.s, m);
    case WaitStep(_) =>
    case EventStep => EventKeeps(c.s, c.ready[0], true);
    case MessageStep(addOk) => MessageKeeps(c.s, addOk);
  }

  // ---------- Runs ----------

  ghost predicate Runs(c: Config, steps: seq<Step>)
    requires ConfigInv(c)
    decreases |steps|
  {
    steps != [] ==>
      && Enabled(c, steps[0])
      && (NextKeeps(c, steps[0]); Runs(Next(c, steps[0]), steps[1..]))
  }

  /** Every configuration reached satisfies the invariants. */
  ghost function After(c: Config, steps: seq<Step>): (r: Config)
    requires ConfigInv(c) && Runs(c, steps)
    ensures ConfigInv(r)
    decreases |steps|
  {
    if steps == [] then c
    else
      NextKeeps(c, steps[0]);
      After(Next(c, steps[0]), steps[1..])
  }

  lemma InitialOk()
    ensures ConfigInv(INITIAL_CONFIG)
  {
  }

  ghost predicate Reachable(c: Config) {
    InitialOk();
    exists steps :: Runs(INITIAL_CONFIG, steps) && After(INITIAL_CONFIG, steps) == c
  }

  // ---------- What every reachable configuration satisfies ----------

  /**
   Epoll watches a descriptor for exactly the events its ports want and have tokens for; edge-triggered,
   unless its sockets listen.
   */
  lemma EpollShowsInterest(c: Config, fd: int)
    requires Reachable(c)
    ensures fd in c.s.epoll ==>
              && fd in c.s.infos && MaskOf(c.s.infos[fd].d) != {}
              && (c.s.epoll[fd].inEvents <==> InEvent in MaskOf(c.s.infos[fd].d))
              && (c.s.epoll[fd].outEvents <==> OutEvent in MaskOf(c.s.infos[fd].d))
              && (forall a :: Holds(c.s, a, fd) ==> (c.s.epoll[fd].edgeTriggered <==> !c.s.sockets[a].listening))
    ensures fd in c.s.infos && MaskOf(c.s.infos[fd].d) != {} && fd !in c.s.failed ==> fd in c.s.epoll
  {
    hide EntryOk;
    assert fd in c.s.infos ==> EpollAt(c.s, fd, InterestFor(c.s.infos[fd].d), MaskOf(c.s.infos[fd].d));
  }

  /** An event is always handled on a live descriptor, for a port with tokens left. */
  lemma EventsFindTheirPort(c: Config, i: nat)
    requires Reachable(c) && i < |c.ready|
    ensures var fd := c.ready[i].fd;
            && fd in c.s.infos && CanNotify(c.s.infos[fd].d)
            && var d := c.s.infos[fd].d; var p := NextPort(d);
                                         p != ILLEGAL_PORT && Registered(d, p) && Tokens(d, p) > 0
  {
    EventLive(c.s, c.ready[i].fd);
  }

  /** A socket exists as long as a message names it, and has one reference for each. */
  lemma MessagesKeepSockets(c: Config, i: nat)
    requires Reachable(c) && i < |c.s.pending| && c.s.pending[i].SocketMessage?
    ensures var a := c.s.pending[i].socket;
            a in c.s.sockets && c.s.sockets[a].refs == Naming(c.s.pending, a) + if c.s.sockets[a].alive then 1 else 0
  {
    assert MessageOk(c.s, c.s.pending[i]);
    assert RefsOk(c.s, c.s.pending[i].socket);
  }

  /** No socket is lost open: one that Dart has let go of has a close message under way. */
  lemma AbandonedSocketsClose(c: Config, a: int)
    requires Reachable(c) && a in c.s.sockets && c.s.sockets[a].IsOpen() && !c.s.sockets[a].alive
    ensures ClosePending(c.s.pending, a)
  {
    assert RefsOk(c.s, a);
  }

  // ---------- Messages are handled in order, each once ----------

  ghost function SentBy(c: Config, step: Step): seq<Message>
    requires Enabled(c, step)
  {
    match step
    case SendStep(a, port, command) => [SocketMessage(a, port, command)]
    case FinalizeStep(a) => [SocketMessage(a, c.s.sockets[a].port, Close)]
    case OtherStep(m) => [m]
    case _ => []
  }

  ghost function HandledBy(c: Config, step: Step): seq<Message>
    requires Enabled(c, step)
  {
    if step.MessageStep? then [c.s.pending[0]] else []
  }

  ghost function AllSent(c: Config, steps: seq<Step>): seq<Message>
    requires ConfigInv(c) && Runs(c, steps)
    decreases |steps|
  {
    if steps == [] then []
    else
      NextKeeps(c, steps[0]);
      SentBy(c, steps[0]) + AllSent(Next(c, steps[0]), steps[1..])
  }

  ghost function AllHandled(c: Config, steps: seq<Step>): seq<Message>
    requires ConfigInv(c) && Runs(c, steps)
    decreases |steps|
  {
    if steps == [] then []
    else
      NextKeeps(c, steps[0]);
      HandledBy(c, steps[0]) + AllHandled(Next(c, steps[0]), steps[1..])
  }

  lemma StepInOrder(c: Config, step: Step)
    requires ConfigInv(c) && Enabled(c, step)
    ensures c.s.pending + SentBy(c, step) == HandledBy(c, step) + Next(c, step).s.pending
  {
    hide EntriesOk, EpollOk, OwnersOk, SocketsOk;
    if step.MessageStep? {
      MessagePops(c.s, step.addOk);
    } else if step.EventStep? {
      EventKeeps(c.s, c.ready[0], true);
    }
  }

  /** What was waiting and what was sent is what was handled, in the same order, and what still waits. */
  lemma {:induction false} MessagesInOrder(c: Config, steps: seq<Step>)
    requires ConfigInv(c) && Runs(c, steps)
    ensures c.s.pending + AllSent(c, steps) == AllHandled(c, steps) + After(c, steps).s.pending
    decreases |steps|
  {
    hide ConfigInv, Enabled, Next, SentBy, HandledBy;
    if steps != [] {
      NextKeeps(c, steps[0]);
      var n := Next(c, steps[0]);
      StepInOrder(c, steps[0]);
      MessagesInOrder(n, steps[1..]);
      Regroup(c.s.pending, SentBy(c, steps[0]), AllSent(n, steps[1..]), HandledBy(c, steps[0]), n.s.pending,
              AllHandled(n, steps[1..]), After(n, steps[1..]).s.pending);
    }
  }

  lemma Regroup(a: seq<Message>, b: seq<Message>, c: seq<Message>,
                d: seq<Message>, e: seq<Message>, f: seq<Message>, g: seq<Message>)
    requires a + b == d + e && e + c == f + g
    ensures a + (b + c) == (d + f) + g
  {
    assert a + (b + c) == (a + b) + c;
    assert (d + f) + g == d + (f + g);
  }

  // ---------- Why messages wait for the end of the batch ----------

  lemma {:induction false} RunsOn(c: Config, steps: seq<Step>, step: Step)
    requires ConfigInv(c) && Runs(c, steps) && Enabled(After(c, steps), step)
    ensures Runs(c, steps + [step]) && After(c, steps + [step]) == Next(After(c, steps), step)
    decreases |steps|
  {
    hide ConfigInv, Enabled;
    if steps == [] {
      NextKeeps(c, step);
      assert steps + [step] == [step];
    } else {
      NextKeeps(c, steps[0]);
      RunsOn(Next(c, steps[0]), steps[1..], step);
      assert (steps + [step])[1..] == steps[1..] + [step];
    }
  }

  lemma ReachableNext(c: Config, step: Step)
    requires Reachable(c) && ConfigInv(c) && Enabled(c, step)
    ensures Reachable(Next(c, step)) && ConfigInv(Next(c, step))
  {
    hide ConfigInv, Enabled;
    InitialOk();
    var steps :| Runs(INITIAL_CONFIG, steps) && After(INITIAL_CONFIG, steps) == c;
    RunsOn(INITIAL_CONFIG, steps, step);
    NextKeeps(c, step);
  }

  lemma CloseDeletes(s: State, a: int, port: Port)
    requires Inv(s) && s.pending != [] && s.pending[0] == SocketMessage(a, port, Close)
    requires a in s.sockets && s.sockets[a].IsOpen() && !s.sockets[a].listening
    ensures s.sockets[a].fd !in HandleMessage(s, true).infos
  {
    hide EntryOk, EpollOk, OwnersOk, QueueOk, Performed, UpdateEpoll;
    PerformKeeps(s, s.pending[0], true);
    EntryForOk(s, a);
  }

  lemma MaskRegisters(s: State, x: Socket)
    requires Inv(s) && x.fd >= 0 && !x.listening && x.port == 7 && x.refs == 2
    requires s == State(map[], map[], {}, map[1 := x], [SocketMessage(1, 7, SetEventMask({InEvent}))])
    ensures var t := HandleMessage(s, true);
            t.epoll.Keys == {x.fd} && t.pending == [] && t.sockets == map[1 := x.(refs := 1)]
  {
    hide Inv, Performed;
    var e := NewEntry(false);
    var f := Register(e, 1, 7, {InEvent});
    assert f.d == Single(7, 16, {InEvent});
    assert MaskOf(e.d) == {} && MaskOf(f.d) == {InEvent};
    PerformKeeps(s, s.pending[0], true);
  }

  /** Were a message handled in the middle of a batch, an event could find its descriptor deleted. */
  lemma MessagesMustWait() returns (c: Config)
    ensures Reachable(c) && Inv(c.s) && c.s.pending != [] && c.ready != []
    ensures c.ready[0].fd in c.s.infos && c.ready[0].fd !in HandleMessage(c.s, true).infos
  {
    hide Inv, HandleMessage, Reachable, SocketsOk;
    var x := Socket(5, ILLEGAL_PORT, false, true, 1);
    InitialOk();
    assert Reachable(INITIAL_CONFIG) by { StartReachable(); }
    ReachableNext(INITIAL_CONFIG, CreateStep(1, 5, false));
    var c1 := Next(INITIAL_CONFIG, CreateStep(1, 5, false));
    ReachableNext(c1, SendStep(1, 7, SetEventMask({InEvent})));
    var c2 := Next(c1, SendStep(1, 7, SetEventMask({InEvent})));
    MaskRegisters(c2.s, x.(port := 7, refs := 2));
    ReachableNext(c2, MessageStep(true));
    var c3 := Next(c2, MessageStep(true));
    ReachableNext(c3, WaitStep([Ready(5, {PollIn})]));
    var c4 := Next(c3, WaitStep([Ready(5, {PollIn})]));
    ReachableNext(c4, SendStep(1, 7, Close));
    c := Next(c4, SendStep(1, 7, Close));
    EventLive(c.s, 5);
    CloseDeletes(c.s, 1, 7);
  }

  lemma StartReachable()
    ensures Reachable(INITIAL_CONFIG)
  {
    InitialOk();
    assert Runs(INITIAL_CONFIG, []) && After(INITIAL_CONFIG, []) == INITIAL_CONFIG;
  }
}
