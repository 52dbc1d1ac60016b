/** Whole runs of the Linux event handler, with the Dart objects that send it messages. */
module EventHandlerRuns {
  import opened ReaderQueue
  import opened Descriptors
  import opened Polling
  import opened Ledger
  import opened Words
  import opened EventHandlerState
  import opened EventHandlerSteps
  import opened EventHandlerEffects

  // ---------- One event from epoll ----------

  /** With what was asked for reported, what is posted is what was wanted, and errors only together with input. */
  lemma PostedEventsWanted(d: Descriptor, events: set<Signal>)
    requires PollIn in events ==> InterestFor(d).inEvents
    requires PollOut in events ==> InterestFor(d).outEvents
    ensures EventsOf(events) <= MaskOf(d) + {ErrorEvent, CloseEvent}
    ensures PollErr in events ==> EventsOf(events) == if PollIn in events then {ErrorEvent} else {}
    ensures PollErr !in events ==>
              && ErrorEvent !in EventsOf(events)
              && (InEvent in EventsOf(events) <==> PollIn in events)
              && (OutEvent in EventsOf(events) <==> PollOut in events)
              && (CloseEvent in EventsOf(events) <==> PollHup in events || PollRdHup in events)
  {
  }

  datatype Ready = Ready(fd: int, events: set<Signal>)

  /** Events name descriptors that are in epoll, each once. */
  ghost predicate ReadyOk(s: State, ready: seq<Ready>) {
    && (forall i :: 0 <= i < |ready| ==> ready[i].fd in s.epoll)
    && (forall i, j :: 0 <= i < j < |ready| ==> ready[i].fd != ready[j].fd)
  }

  function PostingFor(e: Entry, events: set<Signal>): Posting
    requires CanNotify(e.d)
  {
    var mask := EventsOf(events);
    if ErrorEvent in mask then Everyone(mask) else if mask != {} then One(NextPort(e.d), mask) else Nobody
  }

  /** The port whose turn it is: the only one, or the reader that has waited longest. */
  function TurnOf(d: Descriptor): Port {
    if d.Single? then d.port else if d.readers.active != [] then d.readers.active[0] else ILLEGAL_PORT
  }

  /**
   What is posted for the signals of a descriptor: an error to every port, nothing for an error without
   input, and everything else that is reported to one port.
   */
  ghost predicate Says(signals: set<Signal>, posting: Posting) {
    && (posting == Everyone({ErrorEvent}) <==> PollErr in signals && PollIn in signals)
    && (posting == Nobody <==> signals == {} || (PollErr in signals && PollIn !in signals))
    && (PollErr !in signals && signals != {} ==>
          && posting.One?
          && (InEvent in posting.mask <==> PollIn in signals)
          && (OutEvent in posting.mask <==> PollOut in signals)
          && (CloseEvent in posting.mask <==> PollHup in signals || PollRdHup in signals)
          && ErrorEvent !in posting.mask)
  }

  ghost predicate Told(d: Descriptor, signals: set<Signal>, posting: Posting) {
    Says(signals, posting) && (posting.One? ==> posting.port == TurnOf(d))
  }

  lemma SomethingReported(signals: set<Signal>)
    requires signals != {} && PollErr !in signals
    ensures EventsOf(signals) != {}
  {
    var x :| x in signals;
    if PollIn in signals {
      assert InEvent in EventsOf(signals);
    } else if PollOut in signals {
      assert OutEvent in EventsOf(signals);
    } else {
      assert x == PollHup || x == PollRdHup;
      assert CloseEvent in EventsOf(signals);
    }
  }

  lemma PostingTold(e: Entry, signals: set<Signal>)
    requires CanNotify(e.d)
    ensures Told(e.d, signals, PostingFor(e, signals))
  {
    if signals != {} && PollErr !in signals {
      SomethingReported(signals);
    }
  }

  function Notified(e: Entry, events: set<Signal>): Entry
    requires CanNotify(e.d) && NextPort(e.d) in e.accounts
  {
    match PostingFor(e, events)
    case One(_, _) => Notify(e)
    case Everyone(_) => Broadcast(e)
    case _ => e
  }

  /** What holds of a descriptor that epoll reports. */
  lemma EventLive(s: State, fd: int)
    requires Inv(s) && fd in s.epoll
    ensures fd in s.infos && EntryOk(s.infos[fd]) && Unspoilt(s.infos[fd]) && MaskOf(s.infos[fd].d) != {}
    ensures var e := s.infos[fd];
            CanNotify(e.d) && NextPort(e.d) != ILLEGAL_PORT && NextPort(e.d) in e.accounts && Tokens(e.d, NextPort(e.d)) > 0
  {
    hide QueueOk, OwnersOk;
    assert EpollAt(s, fd, InterestFor(s.infos[fd].d), MaskOf(s.infos[fd].d));
    NotifyOk(s.infos[fd]);
  }

  function HandleEvent(s: State, r: Ready): State
    requires Inv(s) && r.fd in s.epoll
  {
    EventLive(s, r.fd);
    var e := s.infos[r.fd];
    if PostingFor(e, r.events).Nobody? then s else Replace(s, r.fd, e, Notified(e, r.events), true)
  }

  /** Spending tokens only ever withdraws a descriptor from epoll. */
  lemma NotifiedMask(e: Entry, events: set<Signal>)
    requires EntryOk(e) && MaskOf(e.d) != {} && CanNotify(e.d) && NextPort(e.d) in e.accounts
    ensures MaskOf(Notified(e, events).d) == {} || MaskOf(Notified(e, events).d) == MaskOf(e.d)
  {
  }

  lemma QueueGrows(s: State, t: State)
    requires QueueOk(s) && t.sockets == s.sockets && t.pending == s.pending
    requires forall a :: a in s.sockets && s.sockets[a].IsOpen() ==>
                           Owed(t, s.sockets[a].fd, s.sockets[a].port) >= Owed(s, s.sockets[a].fd, s.sockets[a].port)
    ensures QueueOk(t)
  {
    forall a | a in t.sockets ensures RefsOk(t, a) {
      assert RefsOk(s, a);
    }
    forall i | 0 <= i < |t.pending| ensures MessageOk(t, t.pending[i]) {
      assert MessageOk(s, s.pending[i]);
    }
  }

  lemma NotifiedOk(e: Entry, events: set<Signal>)
    requires EntryOk(e) && Unspoilt(e) && MaskOf(e.d) != {} && CanNotify(e.d) && NextPort(e.d) in e.accounts
    ensures var f := Notified(e, events); EntryOk(f) && Unspoilt(f) && Evolved(e, f)
    ensures PostingFor(e, events).Nobody? ==> Notified(e, events) == e
  {
    NotifyOk(e);
    BroadcastOk(e);
  }

  /** Exactly the ports that a post reaches pay for it, with one token. */
  ghost predicate Paid(before: Entry, after: Entry, posting: Posting) {
    forall p :: Registered(before.d, p) ==>
                  && Registered(after.d, p)
                  && Tokens(after.d, p) == Tokens(before.d, p) - if Reaches(posting, before.d, p) then 1 else 0
  }

  lemma NotifiedSpends(e: Entry, events: set<Signal>)
    requires EntryOk(e) && CanNotify(e.d) && NextPort(e.d) in e.accounts
    ensures Paid(e, Notified(e, events), PostingFor(e, events))
  {
    NotifyNextSound(e.d);
    NotifyAllSound(e.d);
  }

  /** An event posts exactly what its mask says, and keeps every invariant and every other descriptor. */
  lemma EventKeeps(s: State, r: Ready, addOk: bool)
    requires Inv(s) && r.fd in s.epoll
    ensures Inv(HandleEvent(s, r))
    ensures var t := HandleEvent(s, r);
            && r.fd in s.infos && CanNotify(s.infos[r.fd].d) && NextPort(s.infos[r.fd].d) in s.infos[r.fd].accounts
            && t.infos == s.infos[r.fd := Notified(s.infos[r.fd], r.events)]
            && Paid(s.infos[r.fd], t.infos[r.fd], PostingFor(s.infos[r.fd], r.events))
            && t.sockets == s.sockets && t.pending == s.pending
            && (forall f :: f != r.fd ==> (f in t.epoll <==> f in s.epoll))
            && t == if PostingFor(s.infos[r.fd], r.events).Nobody? then s
                    else Replace(s, r.fd, s.infos[r.fd], Notified(s.infos[r.fd], r.events), addOk)
  {
    hide EntryOk, Unspoilt, MaskOf, QueueOk, OwnersOk, EpollOk, Notified, EntriesOk, Paid, PostingFor;
    EventLive(s, r.fd);
    var e := s.infos[r.fd];
    var after := Notified(e, r.events);
    NotifiedOk(e, r.events);
    NotifiedMask(e, r.events);
    NotifiedSpends(e, r.events);
    var t := HandleEvent(s, r);
    if !PostingFor(e, r.events).Nobody? {
      var a :| Holds(s, a, r.fd);
      EventHolder(s, r.fd, a);
      ReplaceKeeps(s, a, after, addOk);
      ReplaceKeeps(s, a, after, true);
      QueueGrows(s, t);
    }
  }

  lemma EventHolder(s: State, fd: int, a: int)
    requires EntriesOk(s) && fd in s.infos && Holds(s, a, fd)
    ensures s.sockets[a].IsOpen() && EntryFor(s, fd, s.sockets[a].listening) == s.infos[fd]
  {
  }

  // ---------- What the Dart side does ----------

  /** A new socket; only listening sockets get the descriptor of another one. */
  ghost predicate CanCreate(s: State, a: int, fd: int, listening: bool) {
    && a !in s.sockets && IsAddress(a) && fd >= 0
    && forall b :: Holds(s, b, fd) ==> listening && s.sockets[b].listening
  }

  function Create(s: State, a: int, fd: int, listening: bool): State {
    s.(sockets := s.sockets[a := Socket(fd, ILLEGAL_PORT, listening, true, 1)])
  }

  /** `EventHandler_SendData`: always with the port of the socket; tokens returned are tokens received. */
  ghost predicate CanSend(s: State, a: int, port: Port, command: Command) {
    && a in s.sockets && s.sockets[a].alive && port != ILLEGAL_PORT && InRange(port)
    && (s.sockets[a].port == port || s.sockets[a].port == ILLEGAL_PORT)
    && (forall b :: Together(s, a, b) ==> s.sockets[b].port != port)
    && CommandOk(s.sockets[a], port, command)
    && (s.sockets[a].IsOpen() && command.ReturnToken? ==>
          PendingReturns(s.pending, a) + command.count <= Owed(s, s.sockets[a].fd, port))
  }

  function Send(s: State, a: int, port: Port, command: Command): State
    requires a in s.sockets
  {
    var x := s.sockets[a];
    s.(sockets := s.sockets[a := x.(port := port, refs := x.refs + 1)],
    pending := s.pending + [SocketMessage(a, port, command)])
  }

  /** A socket's finalizer hands its reference over to a close message. */
  function Finalize(s: State, a: int): State
    requires a in s.sockets
  {
    s.(sockets := s.sockets[a := s.sockets[a].(alive := false)],
    pending := s.pending + [SocketMessage(a, s.sockets[a].port, Close)])
  }

  function SendOther(s: State, m: Message): State {
    s.(pending := s.pending + [m])
  }

  // ---------- It keeps the invariants ----------

  lemma {:induction false} NotNamed(pending: seq<Message>, a: int)
    requires forall i :: 0 <= i < |pending| ==> !Names(pending[i], a)
    ensures Naming(pending, a) == 0
  {
    if pending != [] {
      NotNamed(pending[1..], a);
    }
  }

  /** Port 0 has no account. */
  lemma NoIllegalAccount(s: State, fd: int)
    requires EntriesOk(s)
    ensures Owed(s, fd, ILLEGAL_PORT) == 0
  {
    assert fd in s.infos ==> (ILLEGAL_PORT in s.infos[fd].accounts <==> Registered(s.infos[fd].d, ILLEGAL_PORT));
  }

  lemma CreateKeeps(s: State, a: int, fd: int, listening: bool)
    requires Inv(s) && CanCreate(s, a, fd, listening)
    ensures Inv(Create(s, a, fd, listening))
  {
    hide EntryOk, Unspoilt, MaskOf, InterestFor;
    var t := Create(s, a, fd, listening);
    forall i | 0 <= i < |s.pending| ensures !Names(s.pending[i], a) && MessageOk(t, s.pending[i]) {
      assert MessageOk(s, s.pending[i]);
    }
    NotNamed(s.pending, a);
    NamingZero(s.pending, a);
    NoIllegalAccount(s, fd);
    forall b | b in t.sockets ensures RefsOk(t, b) {
      assert b != a ==> RefsOk(s, b);
    }
    assert forall b, f :: Holds(s, b, f) ==> Holds(t, b, f);
    forall b, c | Together(t, b, c) ensures Shareable(t.sockets[b], t.sockets[c]) {
      if b == a {
        assert Holds(s, c, fd);
      } else if c == a {
        assert Holds(s, b, fd);
      } else {
        assert Together(s, b, c);
      }
    }
    if fd in s.infos {
      var b :| Holds(s, b, fd);
    }
  }

  lemma SendSockets(s: State, t: State, a: int, x: Socket)
    requires EntriesOk(s) && EpollOk(s) && OwnersOk(s) && SocketsOk(s) && a in s.sockets
    requires t == s.(sockets := s.sockets[a := x], pending := t.pending)
    requires x.fd == s.sockets[a].fd && x.listening == s.sockets[a].listening
    requires x.port == s.sockets[a].port || s.sockets[a].port == ILLEGAL_PORT
    requires forall b :: Together(s, a, b) ==> s.sockets[b].port != x.port || x.port == ILLEGAL_PORT
    ensures EntriesOk(t) && EpollOk(t) && OwnersOk(t) && SocketsOk(t)
  {
    hide EntryOk, Unspoilt, MaskOf, InterestFor, Owed;
    forall fd, p | fd in t.infos && p in t.infos[fd].accounts
      ensures var b := t.infos[fd].accounts[p].owner; Holds(t, b, fd) && t.sockets[b].port == p
    {
      assert Holds(s, s.infos[fd].accounts[p].owner, fd);
      AccountPort(s.infos[fd], p);
    }
    assert forall b, f :: Holds(s, b, f) == Holds(t, b, f);
    forall b, c | Together(t, b, c) ensures Shareable(t.sockets[b], t.sockets[c]) {
      assert Together(s, b, c) && Together(s, c, b);
    }
  }

  lemma AccountPort(e: Entry, p: Port)
    requires EntryOk(e) && p in e.accounts
    ensures p != ILLEGAL_PORT
  {
    assert Registered(e.d, p);
  }

  /** A port that no socket of the descriptor has, has no account. */
  lemma NoAccountYet(s: State, a: int, port: Port)
    requires EntriesOk(s) && OwnersOk(s) && a in s.sockets && s.sockets[a].port == ILLEGAL_PORT != port
    requires forall b :: Together(s, a, b) ==> s.sockets[b].port != port
    ensures Owed(s, s.sockets[a].fd, port) == 0
  {
    var fd := s.sockets[a].fd;
    if fd in s.infos && port in s.infos[fd].accounts {
      var b := s.infos[fd].accounts[port].owner;
      assert Holds(s, b, fd) && Together(s, a, b);
    }
  }

  lemma SendQueue(s: State, t: State, a: int, x: Socket, m: Message)
    requires QueueOk(s) && a in s.sockets && Names(m, a) && InRange(m.port)
    requires t == s.(sockets := s.sockets[a := x], pending := s.pending + [m])
    requires x.fd == s.sockets[a].fd && x.listening == s.sockets[a].listening
    requires m.port == x.port && CommandOk(x, m.port, m.command)
    requires x.port == s.sockets[a].port || (s.sockets[a].port == ILLEGAL_PORT && s.sockets[a].alive)
    requires x.alive ==> x.port != ILLEGAL_PORT
    requires x.refs + (if s.sockets[a].alive then 1 else 0) == s.sockets[a].refs + 1 + if x.alive then 1 else 0
    requires s.sockets[a].alive && (!x.alive ==> m.command.Close?)
    requires x.IsOpen() ==> PendingReturns(s.pending, a) + ReturnedBy(m, a) <= Owed(s, x.fd, x.port)
    ensures QueueOk(t)
  {
    hide Outstanding;
    assert RefsOk(s, a);
    NamingZero(s.pending, a);
    forall b | b in t.sockets ensures RefsOk(t, b) {
      assert RefsOk(s, b);
      SendCounts(s.pending, m, b);
    }
    forall i | 0 <= i < |t.pending| ensures MessageOk(t, t.pending[i]) {
      if i < |s.pending| {
        assert t.pending[i] == s.pending[i] && MessageOk(s, s.pending[i]);
        assert x.port != s.sockets[a].port ==> !Names(s.pending[i], a);
      }
    }
  }

  lemma SendKeeps(s: State, a: int, port: Port, command: Command)
    requires Inv(s) && CanSend(s, a, port, command)
    ensures Inv(Send(s, a, port, command))
  {
    hide EntriesOk, EpollOk, OwnersOk, SocketsOk;
    var t := Send(s, a, port, command);
    assert RefsOk(s, a);
    if s.sockets[a].port == ILLEGAL_PORT {
      NoAccountYet(s, a, port);
      NamingZero(s.pending, a);
    }
    SendSockets(s, t, a, t.sockets[a]);
    SendQueue(s, t, a, t.sockets[a], SocketMessage(a, port, command));
  }

  lemma FinalizeKeeps(s: State, a: int)
    requires Inv(s) && a in s.sockets && s.sockets[a].alive
    ensures Inv(Finalize(s, a))
  {
    hide EntriesOk, EpollOk, OwnersOk;
    var t := Finalize(s, a);
    assert RefsOk(s, a);
    SendSockets(s, t, a, t.sockets[a]);
    SendQueue(s, t, a, t.sockets[a], SocketMessage(a, s.sockets[a].port, Close));
  }

  lemma SendOtherKeeps(s: State, m: Message)
    requires Inv(s) && !m.SocketMessage? && Spellable(m)
    ensures Inv(SendOther(s, m))
  {
    hide EntryOk, Unspoilt, MaskOf, InterestFor;
    var t := SendOther(s, m);
    forall b | b in t.sockets ensures RefsOk(t, b) {
      assert RefsOk(s, b);
      SendCounts(s.pending, m, b);
    }
    forall i | 0 <= i < |t.pending| ensures MessageOk(t, t.pending[i]) {
      assert i < |s.pending| ==> t.pending[i] == s.pending[i] && MessageOk(s, s.pending[i]);
    }
    assert forall b, f :: Holds(s, b, f) == Holds(t, b, f);
    assert forall b, c :: Together(s, b, c) == Together(t, b, c);
  }
}
