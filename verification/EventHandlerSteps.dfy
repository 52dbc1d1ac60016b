/** The steps of the Linux event handler and of the Dart objects that talk to it. */
module EventHandlerSteps {
  import opened ReaderQueue
  import opened Descriptors
  import opened Ledger
  import opened EventHandlerState

  // ---------- One command ----------

  /** The handler's effect of replacing the entry of a descriptor and updating epoll. */
  function Replace(s: State, fd: int, before: Entry, after: Entry, addOk: bool): State {
    UpdateEpoll(Changed(s, fd, after), MaskOf(before.d), fd, addOk)
  }

  /** No other socket uses the descriptor of this one. */
  predicate Last(s: State, a: int)
    requires a in s.sockets
  {
    forall b :: b in s.sockets && b != a ==> s.sockets[b].fd != s.sockets[a].fd
  }

  function CloseSocket(s: State, a: int, port: Port, addOk: bool): State
    requires a in s.sockets
  {
    var x := s.sockets[a];
    var e := EntryFor(s, x.fd, x.listening);
    var t := Replace(s, x.fd, e, if port != ILLEGAL_PORT then Deregister(e, port) else e, addOk);
    t.(infos := if e.d.Single? || Last(s, a) then t.infos - {x.fd} else t.infos,
    sockets := t.sockets[a := x.(fd := -1)])
  }

  /** A command on an open socket. */
  function Perform(s: State, m: Message, addOk: bool): State
    requires m.SocketMessage? && m.socket in s.sockets
    requires m.command.ReturnToken? ==>
               var x := s.sockets[m.socket];
               var e := EntryFor(s, x.fd, x.listening); m.port in e.accounts && Registered(e.d, m.port)
  {
    var x := s.sockets[m.socket];
    var e := EntryFor(s, x.fd, x.listening);
    match m.command
    case SetEventMask(mask) => Replace(s, x.fd, e, Register(e, m.socket, m.port, mask), addOk)
    case ReturnToken(count) => Replace(s, x.fd, e, GiveBack(e, m.port, count), addOk)
    case Close => CloseSocket(s, m.socket, m.port, addOk)
    case _ => Changed(s, x.fd, e)
  }

  /** The message is done: it leaves the queue and lets go of its socket. */
  function Release(s: State, a: int): State
    requires s.pending != [] && a in s.sockets && s.sockets[a].refs > 0
  {
    var x := s.sockets[a];
    s.(pending := s.pending[1..],
    sockets := if x.refs == 1 then s.sockets - {a} else s.sockets[a := x.(refs := x.refs - 1)])
  }

  // ---------- What a change of one entry keeps ----------

  /** The entry a message on an open socket works on. */
  lemma EntryForOk(s: State, a: int)
    requires Inv(s) && a in s.sockets && s.sockets[a].IsOpen()
    ensures var x := s.sockets[a];
            var e := EntryFor(s, x.fd, x.listening);
            && EntryOk(e) && Unspoilt(e) && e.d.Multiple? == x.listening
            && (x.fd !in s.infos ==> MaskOf(e.d) == {} && e.accounts == map[])
            && (e.d.Single? ==> e.d.port == ILLEGAL_PORT || e.d.port == x.port)
            && (Last(s, a) || e.d.Single? ==> e.accounts.Keys <= {x.port})
            && (forall p :: p in e.accounts ==> p != ILLEGAL_PORT)
            && (forall p :: Owed(s, x.fd, p) == Outstanding(e, p))
  {
    NewEntryOk(s.sockets[a].listening);
    var x := s.sockets[a];
    var e := EntryFor(s, x.fd, x.listening);
    forall p | p in e.accounts
      ensures p != ILLEGAL_PORT && (Last(s, a) || e.d.Single? ==> p == x.port)
    {
      var b := e.accounts[p].owner;
      assert Holds(s, b, x.fd);
      if b != a {
        assert Together(s, a, b);
      }
    }
    if e.d.Single? && e.d.port != ILLEGAL_PORT {
      assert Registered(e.d, e.d.port);
    }
  }

  /** The accounts of the new entry are the old ones, or the socket's own. */
  ghost predicate Succeeds(before: Entry, after: Entry, a: int, port: Port) {
    && EntryOk(after) && after.d.Single? == before.d.Single?
    && forall p :: p in after.accounts ==>
                     if p in before.accounts then after.accounts[p].owner == before.accounts[p].owner
                     else p == port && after.accounts[p].owner == a
  }

  lemma ReplaceOwners(s: State, t: State, a: int, fd: int, before: Entry, after: Entry)
    requires OwnersOk(s) && Holds(s, a, fd) && Succeeds(before, after, a, s.sockets[a].port)
    requires before.accounts == if fd in s.infos then s.infos[fd].accounts else map[]
    requires t.sockets == s.sockets && fd in t.infos && t.infos == s.infos[fd := t.infos[fd]]
    requires Evolved(after, t.infos[fd])
    ensures OwnersOk(t)
  {
    hide EntryOk;
  }

  lemma ReplaceSockets(s: State, t: State, a: int, fd: int)
    requires SocketsOk(s) && Holds(s, a, fd) && t.sockets == s.sockets
    requires fd in t.infos && t.infos == s.infos[fd := t.infos[fd]] && Unspoilt(t.infos[fd])
    requires fd >= 0 && t.infos[fd].d.Multiple? == s.sockets[a].listening
    ensures SocketsOk(t)
  {
    hide Unspoilt;
    assert forall b, f :: Holds(s, b, f) == Holds(t, b, f);
    assert forall b, c :: Together(s, b, c) == Together(t, b, c);
    forall b | b in t.sockets && t.sockets[b].fd == fd
      ensures t.sockets[b].listening == s.sockets[a].listening
    {
      if b != a {
        assert Together(s, a, b);
      }
    }
  }

  lemma ReplaceKeeps(s: State, a: int, after: Entry, addOk: bool)
    requires Inv(s) && a in s.sockets && s.sockets[a].IsOpen()
    requires var x := s.sockets[a]; Succeeds(EntryFor(s, x.fd, x.listening), after, a, x.port)
    ensures var x := s.sockets[a];
            var t := Replace(s, x.fd, EntryFor(s, x.fd, x.listening), after, addOk);
            && EntriesOk(t) && EpollOk(t) && OwnersOk(t) && (Unspoilt(after) ==> SocketsOk(t))
            && t.sockets == s.sockets && t.pending == s.pending
            && t.infos == s.infos[x.fd := t.infos[x.fd]]
            && Evolved(after, t.infos[x.fd])
            && (MaskOf(after.d) == {} ==> x.fd !in t.epoll && t.infos[x.fd] == after)
            && (var e := EntryFor(s, x.fd, x.listening);
                && t.infos[x.fd] == (if Attempted(e, after) && !addOk then Broadcast(after) else after)
                && (MaskOf(after.d) != {} ==>
                      (x.fd in t.epoll <==> if Attempted(e, after) then addOk else x.fd in s.epoll)))
            && (forall f :: f != x.fd ==> (f in t.epoll <==> f in s.epoll))
  {
    hide EntryOk, Unspoilt, MaskOf, QueueOk, Broadcast, UpdateEpoll, OwnersOk, SocketsOk, EntriesOk, EpollOk;
    var x := s.sockets[a];
    var e := EntryFor(s, x.fd, x.listening);
    EntryForOk(s, a);
    UpdateEpollKeeps(s, x.fd, e, after, addOk);
    if MaskOf(after.d) != {} {
      BroadcastOk(after);
    }
    var t := Replace(s, x.fd, e, after, addOk);
    ReplaceOwners(s, t, a, x.fd, e, after);
    if Unspoilt(after) {
      ReplaceSockets(s, t, a, x.fd);
    }
  }

  // ---------- What a command keeps ----------

  /** The command at the head of the queue is done, except for letting go of the message. */
  ghost predicate Performed(s: State, t: State, m: Message) {
    && m.SocketMessage? && m.socket in s.sockets
    && EntriesOk(t) && EpollOk(t) && OwnersOk(t) && SocketsOk(t)
    && t.pending == s.pending
    && t.sockets == (if m.command.Close? then s.sockets[m.socket := s.sockets[m.socket].(fd := -1)] else s.sockets)
    && forall b :: b in s.sockets && t.sockets[b].IsOpen() ==> OwedKept(s, t, m, b)
  }

  ghost predicate OwedKept(s: State, t: State, m: Message, b: int)
    requires b in s.sockets
  {
    Owed(t, s.sockets[b].fd, s.sockets[b].port) >= Owed(s, s.sockets[b].fd, s.sockets[b].port) - ReturnedBy(m, b)
  }

  lemma MaskPerformed(s: State, m: Message, mask: Mask, addOk: bool)
    requires Inv(s) && MessageOk(s, m) && m.SocketMessage? && s.sockets[m.socket].IsOpen()
    requires m.command == SetEventMask(mask)
    ensures Performed(s, Perform(s, m, addOk), m)
  {
    hide EntryOk, Unspoilt, QueueOk, EntriesOk, EpollOk, OwnersOk, SocketsOk;
    var x := s.sockets[m.socket];
    var e := EntryFor(s, x.fd, x.listening);
    EntryForOk(s, m.socket);
    RegisterOk(e, m.socket, m.port, mask);
    ReplaceKeeps(s, m.socket, Register(e, m.socket, m.port, mask), addOk);
  }

  lemma ReturnPerformed(s: State, m: Message, count: nat, addOk: bool)
    requires Inv(s) && MessageOk(s, m) && m.SocketMessage? && s.sockets[m.socket].IsOpen()
    requires s.pending != [] && s.pending[0] == m && m.command == ReturnToken(count)
    ensures var x := s.sockets[m.socket];
            var e := EntryFor(s, x.fd, x.listening); m.port in e.accounts && Registered(e.d, m.port)
    ensures Performed(s, Perform(s, m, addOk), m)
  {
    hide Unspoilt, EntriesOk, EpollOk, OwnersOk, SocketsOk;
    var x := s.sockets[m.socket];
    var e := EntryFor(s, x.fd, x.listening);
    EntryForOk(s, m.socket);
    assert RefsOk(s, m.socket);
    assert Outstanding(e, m.port) >= PendingReturns(s.pending, m.socket) >= count;
    GiveBackOk(e, m.port, count);
    ReplaceKeeps(s, m.socket, GiveBack(e, m.port, count), addOk);
    var t := Perform(s, m, addOk);
    forall b | b in s.sockets && t.sockets[b].IsOpen() ensures OwedKept(s, t, m, b) {
      if b != m.socket && s.sockets[b].fd == x.fd {
        assert Together(s, m.socket, b) by { hide Performed; }
        OtherPort(s, m.socket, b);
      }
    }
  }

  lemma OtherPort(s: State, a: int, b: int)
    requires SocketsOk(s) && Together(s, a, b)
    ensures s.sockets[a].port != s.sockets[b].port || s.sockets[a].port == ILLEGAL_PORT
  {
  }

  lemma ShutdownPerformed(s: State, m: Message, addOk: bool)
    requires Inv(s) && MessageOk(s, m) && m.SocketMessage? && s.sockets[m.socket].IsOpen()
    requires m.command.ShutdownRead? || m.command.ShutdownWrite?
    ensures Performed(s, Perform(s, m, addOk), m)
  {
    hide EntryOk, Unspoilt, QueueOk, EntriesOk, EpollOk, OwnersOk, SocketsOk;
    var x := s.sockets[m.socket];
    var e := EntryFor(s, x.fd, x.listening);
    EntryForOk(s, m.socket);
    ReplaceKeeps(s, m.socket, e, addOk);
  }

  /** What closing leaves of the entry; with the last socket, nothing, so that epoll has let go. */
  lemma CloseEntry(s: State, a: int, port: Port)
    requires Inv(s) && a in s.sockets && s.sockets[a].IsOpen() && port == s.sockets[a].port
    ensures var x := s.sockets[a];
            var e := EntryFor(s, x.fd, x.listening);
            var after := if port != ILLEGAL_PORT then Deregister(e, port) else e;
            && Succeeds(e, after, a, port) && after.accounts == e.accounts - {port}
            && (x.listening ==> Unspoilt(after))
            && (e.d.Single? || Last(s, a) ==> MaskOf(after.d) == {})
  {
    var x := s.sockets[a];
    var e := EntryFor(s, x.fd, x.listening);
    EntryForOk(s, a);
    var after := if port != ILLEGAL_PORT then Deregister(e, port) else e;
    if port != ILLEGAL_PORT {
      DeregisterOk(e, port);
    }
    if e.d.Single? || Last(s, a) {
      assert after.accounts.Keys == {};
      NoAccountsNoMask(after);
    }
  }

  lemma ClosePerformed(s: State, m: Message, addOk: bool)
    requires Inv(s) && MessageOk(s, m) && m.SocketMessage? && s.sockets[m.socket].IsOpen() && m.command.Close?
    ensures Performed(s, Perform(s, m, addOk), m)
  {
    hide EntryOk, Unspoilt, QueueOk, Last, MaskOf, UpdateEpoll, EntriesOk, EpollOk, OwnersOk, SocketsOk, OwedKept;
    var a, x := m.socket, s.sockets[m.socket];
    var e := EntryFor(s, x.fd, x.listening);
    EntryForOk(s, a);
    CloseEntry(s, a, m.port);
    var after := if m.port != ILLEGAL_PORT then Deregister(e, m.port) else e;
    ReplaceKeeps(s, a, after, addOk);
    var r := Replace(s, x.fd, e, after, addOk);
    var t := Perform(s, m, addOk);
    CloseEpoll(s, r, t, a);
    CloseOwners(s, r, t, a);
    CloseSockets(s, r, t, a);
    forall b | b in s.sockets && t.sockets[b].IsOpen() ensures OwedKept(s, t, m, b) {
      CloseOwed(s, r, t, m, after, b);
    }
  }

  lemma CloseEpoll(s: State, r: State, t: State, a: int)
    requires Closed(s, r, t, a) && EntriesOk(r) && EpollOk(r)
    requires t.epoll == r.epoll && t.failed == r.failed && s.sockets[a].fd in r.infos
    requires s.sockets[a].fd !in t.infos ==> s.sockets[a].fd !in r.epoll
    ensures EntriesOk(t) && EpollOk(t)
  {
    hide EntryOk, MaskOf, InterestFor, Last;
  }

  lemma CloseOwed(s: State, r: State, t: State, m: Message, after: Entry, b: int)
    requires m.SocketMessage? && m.command.Close? && Closed(s, r, t, m.socket)
    requires SocketsOk(s) && s.sockets[m.socket].IsOpen() && b in s.sockets && t.sockets[b].IsOpen()
    requires var x := s.sockets[m.socket];
             var e := EntryFor(s, x.fd, x.listening);
             && x.fd in r.infos && r.infos == s.infos[x.fd := r.infos[x.fd]]
             && after.accounts == e.accounts - {x.port} && Evolved(after, r.infos[x.fd])
             && (forall p :: p in e.accounts ==> p != ILLEGAL_PORT)
             && (forall p :: Owed(s, x.fd, p) == Outstanding(e, p))
             && (x.listening && !Last(s, m.socket) ==> x.fd in t.infos)
    ensures OwedKept(s, t, m, b)
  {
    hide Unspoilt, Last;
    if s.sockets[b].fd == s.sockets[m.socket].fd {
      assert Together(s, m.socket, b);
      NotLast(s, m.socket, b);
    }
  }

  lemma NotLast(s: State, a: int, b: int)
    requires Together(s, a, b)
    ensures !Last(s, a)
  {
  }

  /** `t` is `r` without the socket `a`, and without its descriptor if that has become unused. */
  ghost predicate Closed(s: State, r: State, t: State, a: int) {
    && a in s.sockets && r.sockets == s.sockets
    && t.sockets == s.sockets[a := s.sockets[a].(fd := -1)]
    && (t.infos == r.infos || t.infos == r.infos - {s.sockets[a].fd})
    && (s.sockets[a].fd in t.infos ==> s.sockets[a].listening && !Last(s, a))
  }

  lemma CloseOwners(s: State, r: State, t: State, a: int)
    requires Closed(s, r, t, a) && OwnersOk(r)
    requires s.sockets[a].fd in r.infos && s.sockets[a].port !in r.infos[s.sockets[a].fd].accounts
    ensures OwnersOk(t)
  {
    forall fd, p | fd in t.infos && p in t.infos[fd].accounts
      ensures var b := t.infos[fd].accounts[p].owner; Holds(t, b, fd) && t.sockets[b].port == p
    {
      assert Holds(r, r.infos[fd].accounts[p].owner, fd);
    }
  }

  lemma CloseSockets(s: State, r: State, t: State, a: int)
    requires Closed(s, r, t, a) && SocketsOk(s) && EntriesOk(r) && s.sockets[a].IsOpen()
    requires s.sockets[a].listening ==> SocketsOk(r)
    requires s.sockets[a].fd in r.infos && r.infos == s.infos[s.sockets[a].fd := r.infos[s.sockets[a].fd]]
    ensures SocketsOk(t)
  {
    hide Unspoilt, EntryOk;
    assert forall b, c :: Together(t, b, c) ==> Together(s, b, c);
    forall fd | fd in t.infos
      ensures Unspoilt(t.infos[fd]) && exists b :: Holds(t, b, fd)
    {
      if fd == s.sockets[a].fd {
        var b :| b in s.sockets && b != a && s.sockets[b].fd == fd;
        assert Holds(t, b, fd);
      } else {
        var b :| Holds(s, b, fd);
        assert Holds(t, b, fd);
      }
    }
  }

  /** Every command on an open socket. */
  lemma PerformKeeps(s: State, m: Message, addOk: bool)
    requires Inv(s) && s.pending != [] && s.pending[0] == m && m.SocketMessage? && m.socket in s.sockets
    requires s.sockets[m.socket].IsOpen()
    ensures m.command.ReturnToken? ==>
              var x := s.sockets[m.socket];
              var e := EntryFor(s, x.fd, x.listening); m.port in e.accounts && Registered(e.d, m.port)
    ensures Performed(s, Perform(s, m, addOk), m)
  {
    assert MessageOk(s, m);
    match m.command
    case SetEventMask(mask) => MaskPerformed(s, m, mask, addOk);
    case ReturnToken(count) => ReturnPerformed(s, m, count, addOk);
    case Close => ClosePerformed(s, m, addOk);
    case _ => ShutdownPerformed(s, m, addOk);
  }

  // ---------- One message ----------

  /** The message at the head of the queue; timers and the shutdown flag are kept elsewhere. */
  function HandleMessage(s: State, addOk: bool): State
    requires Inv(s) && s.pending != []
  {
    var m := s.pending[0];
    if !m.SocketMessage? then s.(pending := s.pending[1..])
    else
      assert MessageOk(s, m) && RefsOk(s, m.socket);
      if s.sockets[m.socket].fd == -1 then Release(s, m.socket)
      else
        PerformKeeps(s, m, addOk);
        Release(Perform(s, m, addOk), m.socket)
  }

  /** A socket that loses its last reference is closed, as its destructor asserts. */
  lemma LastReferenceClosed(s: State, t: State, m: Message)
    requires Inv(s) && s.pending != [] && s.pending[0] == m && Performed(s, t, m) && t.sockets[m.socket].refs == 1
    ensures t.sockets[m.socket].fd == -1 && Naming(s.pending[1..], m.socket) == 0
  {
    assert RefsOk(s, m.socket) && MessageOk(s, m);
    NamingZero(s.pending[1..], m.socket);
  }

  lemma ReleaseQueue(s: State, t: State, m: Message)
    requires Inv(s) && s.pending != [] && s.pending[0] == m && Performed(s, t, m) && t.sockets[m.socket].refs > 0
    ensures QueueOk(Release(t, m.socket))
  {
    hide EntriesOk, EpollOk, OwnersOk, SocketsOk;
    var r := Release(t, m.socket);
    assert RefsOk(s, m.socket) && MessageOk(s, m);
    if t.sockets[m.socket].refs == 1 {
      LastReferenceClosed(s, t, m);
      NamingZero(r.pending, m.socket);
    }
    forall b | b in r.sockets ensures RefsOk(r, b) {
      assert RefsOk(s, b);
      if t.sockets[b].IsOpen() {
        assert OwedKept(s, t, m, b);
      }
    }
    forall i | 0 <= i < |r.pending| ensures MessageOk(r, r.pending[i]) {
      assert r.pending[i] == s.pending[i + 1];
      assert MessageOk(s, s.pending[i + 1]);
      assert t.sockets[m.socket].refs == 1 ==> !Names(r.pending[i], m.socket);
    }
  }

  lemma ReleaseSockets(s: State, t: State, m: Message)
    requires Inv(s) && s.pending != [] && s.pending[0] == m && Performed(s, t, m) && t.sockets[m.socket].refs > 0
    ensures var r := Release(t, m.socket); EntriesOk(r) && EpollOk(r) && OwnersOk(r) && SocketsOk(r)
  {
    hide EntryOk, Unspoilt, MaskOf, InterestFor, QueueOk;
    var r := Release(t, m.socket);
    if t.sockets[m.socket].refs == 1 {
      LastReferenceClosed(s, t, m);
    }
    assert forall b, f :: f >= 0 ==> Holds(r, b, f) == Holds(t, b, f);
    assert forall b, c :: Together(r, b, c) ==> Together(t, b, c);
  }

  /** Handling a message keeps every invariant. */
  lemma MessageKeeps(s: State, addOk: bool)
    requires Inv(s) && s.pending != []
    ensures Inv(HandleMessage(s, addOk))
  {
    hide EntriesOk, EpollOk, OwnersOk, SocketsOk;
    var m := s.pending[0];
    if m.SocketMessage? {
      assert MessageOk(s, m) && RefsOk(s, m.socket);
      if s.sockets[m.socket].fd != -1 {
        PerformKeeps(s, m, addOk);
        ReleaseQueue(s, Perform(s, m, addOk), m);
        ReleaseSockets(s, Perform(s, m, addOk), m);
      } else {
        ReleaseQueue(s, s, m);
        ReleaseSockets(s, s, m);
      }
    } else {
      OtherMessageKeeps(s);
    }
  }

  lemma OtherMessageKeeps(s: State)
    requires Inv(s) && s.pending != [] && !s.pending[0].SocketMessage?
    ensures Inv(s.(pending := s.pending[1..]))
  {
    hide EntryOk, Unspoilt, MaskOf, InterestFor;
    var t := s.(pending := s.pending[1..]);
    forall a | a in t.sockets ensures RefsOk(t, a) {
      assert RefsOk(s, a);
    }
    assert forall i :: 0 <= i < |t.pending| ==> t.pending[i] == s.pending[i + 1];
    assert forall i :: 0 <= i < |s.pending| ==> MessageOk(s, s.pending[i]) == MessageOk(t, s.pending[i]);
    assert forall b, f :: Holds(s, b, f) == Holds(t, b, f);
    assert forall b, c :: Together(s, b, c) == Together(t, b, c);
  }

  lemma MessagePops(s: State, addOk: bool)
    requires Inv(s) && s.pending != []
    ensures HandleMessage(s, addOk).pending == s.pending[1..]
  {
    hide EntriesOk, EpollOk, OwnersOk, SocketsOk, Perform;
    var m := s.pending[0];
    if m.SocketMessage? {
      assert MessageOk(s, m);
      if s.sockets[m.socket].fd != -1 {
        assert RefsOk(s, m.socket);
        PerformKeeps(s, m, addOk);
      }
    }
  }

  lemma HeadOk(s: State)
    requires Inv(s) && s.pending != []
    ensures MessageOk(s, s.pending[0])
    ensures s.pending[0].SocketMessage? ==> RefsOk(s, s.pending[0].socket)
  {
    hide EntriesOk, EpollOk, OwnersOk, SocketsOk;
    assert MessageOk(s, s.pending[0]);
  }
}
