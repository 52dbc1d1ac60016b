/** What each message does: to its descriptor, to the tokens of every port, and what is posted for it. */
module EventHandlerEffects {
  import opened ReaderQueue
  import opened Descriptors
  import opened Ledger
  import opened EventHandlerState
  import opened EventHandlerSteps

  // ---------- Posts ----------

  /** What is posted: to one port, to all ports of a descriptor, or the news that a socket is destroyed. */
  datatype Posting = Nobody | One(port: Port, mask: Mask) | Everyone(mask: Mask) | Destroyed(port: Port)

  /** The ports of a descriptor that pay for a post with a token. */
  predicate Reaches(posting: Posting, d: Descriptor, port: Port) {
    (posting.One? && posting.port == port) || (posting.Everyone? && Registered(d, port))
  }

  // ---------- The descriptor of a message ----------

  /** The message at the head of the queue is a command on an open socket. */
  ghost predicate CommandAhead(s: State) {
    && Inv(s) && s.pending != [] && s.pending[0].SocketMessage?
    && s.pending[0].socket in s.sockets && s.sockets[s.pending[0].socket].IsOpen()
  }

  function EntryAhead(s: State): Entry
    requires CommandAhead(s)
  {
    var x := s.sockets[s.pending[0].socket];
    EntryFor(s, x.fd, x.listening)
  }

  /** The entry of the descriptor after the command, before epoll is updated. */
  function Commanded(s: State): Entry
    requires CommandAhead(s)
  {
    var m, e := s.pending[0], EntryAhead(s);
    PerformKeeps(s, m, true);
    match m.command
    case SetEventMask(mask) => Register(e, m.socket, m.port, mask)
    case ReturnToken(count) => GiveBack(e, m.port, count)
    case Close => if m.port != ILLEGAL_PORT then Deregister(e, m.port) else e
    case _ => e
  }

  /** The command makes the handler add the descriptor to epoll, and that fails. */
  predicate AddFails(s: State, addOk: bool)
    requires CommandAhead(s)
  {
    Attempted(EntryAhead(s), Commanded(s)) && !addOk
  }

  /** What is posted for the message at the head of the queue. */
  ghost function MessagePosting(s: State, addOk: bool): Posting
    requires Inv(s) && s.pending != []
  {
    if !CommandAhead(s) then Nobody
    else if AddFails(s, addOk) then Everyone({CloseEvent})
    else if s.pending[0].command.Close? then Destroyed(s.pending[0].port)
    else Nobody
  }

  /** The descriptors are those of `s`, except that the command has changed its own and updated epoll. */
  ghost predicate EntryTold(s: State, t: State, addOk: bool)
    requires CommandAhead(s)
  {
    var fd := s.sockets[s.pending[0].socket].fd;
    && fd in t.infos && t.infos == s.infos[fd := t.infos[fd]]
    && t.infos[fd] == (if AddFails(s, addOk) then Broadcast(Commanded(s)) else Commanded(s))
    && (MaskOf(Commanded(s).d) != {} ==>
          (fd in t.epoll <==> if Attempted(EntryAhead(s), Commanded(s)) then addOk else fd in s.epoll))
  }

  lemma OpenEntry(s: State, addOk: bool)
    requires CommandAhead(s) && !s.pending[0].command.Close?
    requires s.pending[0].command.ReturnToken? ==>
               s.pending[0].port in EntryAhead(s).accounts && Registered(EntryAhead(s).d, s.pending[0].port)
    ensures EntryTold(s, Perform(s, s.pending[0], addOk), addOk)
  {
    hide Unspoilt, QueueOk, EntriesOk, EpollOk, OwnersOk, SocketsOk, EntryOk, UpdateEpoll, Broadcast, Register, GiveBack;
    var m, e := s.pending[0], EntryAhead(s);
    HeadOk(s);
    EntryForOk(s, m.socket);
    if m.command.SetEventMask? {
      RegisterOk(e, m.socket, m.port, m.command.mask);
    } else if m.command.ReturnToken? {
      GiveBackOk(e, m.port, m.command.count);
    } else {
      NoUpdate(s, m.socket, addOk);
    }
    ReplaceKeeps(s, m.socket, Commanded(s), addOk);
  }

  lemma NoUpdate(s: State, a: int, addOk: bool)
    requires a in s.sockets
    ensures var x := s.sockets[a];
            var e := EntryFor(s, x.fd, x.listening); Replace(s, x.fd, e, e, addOk) == Changed(s, x.fd, e)
  {
  }

  lemma ClosedEntry(s: State, addOk: bool)
    requires CommandAhead(s) && s.pending[0].command.Close?
    ensures EntryTold(s, Replace(s, s.sockets[s.pending[0].socket].fd, EntryAhead(s), Commanded(s), addOk), addOk)
  {
    hide Unspoilt, QueueOk, EntriesOk, EpollOk, OwnersOk, SocketsOk, EntryOk, UpdateEpoll, Broadcast, Deregister, Last;
    var m := s.pending[0];
    HeadOk(s);
    CloseEntry(s, m.socket, m.port);
    ReplaceKeeps(s, m.socket, Commanded(s), addOk);
  }

  /** A command changes the entry of its own descriptor, as it says, and no other. */
  lemma MessageEntry(s: State, addOk: bool)
    requires CommandAhead(s)
    ensures var fd, t, m := s.sockets[s.pending[0].socket].fd, HandleMessage(s, addOk), s.pending[0];
            && (forall f :: f != fd ==> (f in t.infos <==> f in s.infos) && (f in s.infos ==> t.infos[f] == s.infos[f]))
            && (fd in t.infos <==> !(m.command.Close? && (EntryAhead(s).d.Single? || Last(s, m.socket))))
            && (fd in t.infos ==> t.infos[fd] == if AddFails(s, addOk) then Broadcast(Commanded(s)) else Commanded(s))
            && (MaskOf(Commanded(s).d) != {} && fd in t.infos ==>
                  (fd in t.epoll <==> if Attempted(EntryAhead(s), Commanded(s)) then addOk else fd in s.epoll))
  {
    hide Inv, EntryOk, UpdateEpoll, Last, Broadcast, HandleMessage, Deregister, Register, GiveBack, Replace;
    HandledAs(s, addOk);
    if s.pending[0].command.Close? {
      ClosedEntry(s, addOk);
    } else {
      OpenEntry(s, addOk);
    }
  }

  /** Letting go of the message leaves the descriptors alone. */
  lemma HandledAs(s: State, addOk: bool)
    requires CommandAhead(s)
    ensures s.pending[0].command.ReturnToken? ==> s.pending[0].port in EntryAhead(s).accounts
    ensures s.pending[0].command.ReturnToken? ==> Registered(EntryAhead(s).d, s.pending[0].port)
    ensures HandleMessage(s, addOk).infos == Perform(s, s.pending[0], addOk).infos
    ensures HandleMessage(s, addOk).epoll == Perform(s, s.pending[0], addOk).epoll
  {
    hide EntriesOk, EpollOk, OwnersOk, SocketsOk, Perform;
    HeadOk(s);
    PerformKeeps(s, s.pending[0], addOk);
  }

  // ---------- What each command is for ----------

  /** The events a port gets on a descriptor of its own, or on a shared one. */
  predicate Watches(d: Descriptor, port: Port, mask: Mask) {
    && Registered(d, port)
    && if d.Single? then MaskOf(d) == (if d.tokens > 0 then mask else {})
       else d.readers.ports[port].reading == (mask == {InEvent})
  }

  /**
   A mask takes effect, whether or not the addition to epoll succeeds: the port is registered for
   exactly those events; and epoll watches the descriptor if the addition succeeds, or if it did before
   and the mask is the same.
   */
  lemma MaskTakesEffect(s: State, mask: Mask, addOk: bool)
    requires CommandAhead(s) && s.pending[0].command == SetEventMask(mask)
    ensures var m := s.pending[0];
            var fd, t := s.sockets[m.socket].fd, HandleMessage(s, addOk);
            && fd in t.infos && Watches(t.infos[fd].d, m.port, mask)
            && (MaskOf(Commanded(s).d) != {} ==>
                  (fd in t.epoll <==> if Attempted(EntryAhead(s), Commanded(s)) then addOk else fd in s.epoll))
  {
    hide Unspoilt, QueueOk, EntriesOk, EpollOk, OwnersOk, SocketsOk, HandleMessage;
    var m := s.pending[0];
    HeadOk(s);
    EntryForOk(s, m.socket);
    MessageEntry(s, addOk);
    RegisterWatches(EntryAhead(s), m.socket, m.port, mask);
    RegisterOk(EntryAhead(s), m.socket, m.port, mask);
    BroadcastWatches(Commanded(s), m.port, mask);
  }

  lemma RegisterWatches(e: Entry, owner: int, port: Port, mask: Mask)
    requires EntryOk(e) && port != ILLEGAL_PORT && AcceptsMask(e.d, mask)
    ensures Watches(Register(e, owner, port, mask).d, port, mask)
  {
  }

  lemma BroadcastWatches(e: Entry, port: Port, mask: Mask)
    requires EntryOk(e) && Watches(e.d, port, mask)
    ensures Watches(Broadcast(e).d, port, mask)
  {
    NotifyAllSound(e.d);
  }

  /** Returned tokens arrive: the port has so many more, less the one that a failed addition costs. */
  lemma ReturnTakesEffect(s: State, count: nat, addOk: bool)
    requires CommandAhead(s) && s.pending[0].command == ReturnToken(count)
    ensures var m := s.pending[0];
            var fd, t := s.sockets[m.socket].fd, HandleMessage(s, addOk);
            && fd in s.infos && Registered(s.infos[fd].d, m.port) && fd in t.infos && Registered(t.infos[fd].d, m.port)
            && Tokens(t.infos[fd].d, m.port)
               == Tokens(s.infos[fd].d, m.port) + count - if AddFails(s, addOk) then 1 else 0
  {
    hide Unspoilt, QueueOk, EntriesOk, EpollOk, OwnersOk, SocketsOk, HandleMessage;
    var m := s.pending[0];
    HeadOk(s);
    EntryForOk(s, m.socket);
    PerformKeeps(s, m, true);
    MessageEntry(s, addOk);
    GiveBackOk(EntryAhead(s), m.port, count);
    ReturnTokensSound(EntryAhead(s).d, m.port, count);
    NotifyAllSound(Commanded(s).d);
  }

  /** A close takes effect: the port is registered no more, and the descriptor goes with its last socket. */
  lemma CloseTakesEffect(s: State, addOk: bool)
    requires CommandAhead(s) && s.pending[0].command.Close?
    ensures var m := s.pending[0];
            var fd, t := s.sockets[m.socket].fd, HandleMessage(s, addOk);
            && !Holds(t, m.socket, fd)
            && (fd in t.infos <==> s.sockets[m.socket].listening && exists b :: b != m.socket && Holds(s, b, fd))
            && (fd in t.infos ==> !Registered(t.infos[fd].d, m.port))
            && MessagePosting(s, addOk) == Destroyed(m.port)
  {
    hide Unspoilt, QueueOk, EpollOk, OwnersOk, SocketsOk, UpdateEpoll, Last;
    var m := s.pending[0];
    HeadOk(s);
    EntryForOk(s, m.socket);
    CloseEntry(s, m.socket, m.port);
    PerformKeeps(s, m, addOk);
    MessageEntry(s, addOk);
    CloseNeverAdds(s);
    NotLastIff(s, m.socket);
    if s.sockets[m.socket].fd in HandleMessage(s, addOk).infos {
      assert m.port !in Commanded(s).accounts;
    }
  }

  lemma NotLastIff(s: State, a: int)
    requires a in s.sockets
    ensures Last(s, a) <==> !exists b :: b != a && Holds(s, b, s.sockets[a].fd)
  {
    if !Last(s, a) {
      var b :| b in s.sockets && b != a && s.sockets[b].fd == s.sockets[a].fd;
      assert Holds(s, b, s.sockets[a].fd);
    }
  }

  lemma CloseNeverAdds(s: State)
    requires CommandAhead(s) && s.pending[0].command.Close?
    ensures !Attempted(EntryAhead(s), Commanded(s))
  {
    hide QueueOk, EpollOk, OwnersOk, SocketsOk;
    HeadOk(s);
    EntryForOk(s, s.pending[0].socket);
    RemovalShrinks(EntryAhead(s), s.pending[0].port);
  }

  /** Removing a port leaves no events, or those there were. */
  lemma RemovalShrinks(e: Entry, port: Port)
    requires EntryOk(e) && (e.d.Single? ==> e.d.port == ILLEGAL_PORT || e.d.port == port)
    ensures MaskOf(Deregister(e, port).d) == {} || MaskOf(Deregister(e, port).d) == MaskOf(e.d)
  {
    DeregisterOk(e, port);
  }

  // ---------- What is posted for a message ----------

  /** Were its addition to succeed, epoll would watch the descriptor of the command as it does not now. */
  ghost predicate WouldAdd(s: State)
    requires CommandAhead(s)
  {
    var fd, t := s.sockets[s.pending[0].socket].fd, HandleMessage(s, true);
    fd in t.epoll && (fd !in s.epoll || s.epoll[fd] != t.epoll[fd])
  }

  lemma WouldAddIff(s: State)
    requires CommandAhead(s)
    ensures WouldAdd(s) <==> Attempted(EntryAhead(s), Commanded(s))
  {
    hide Unspoilt, QueueOk, OwnersOk, SocketsOk, HandleMessage, Commanded, EntriesOk;
    var m := s.pending[0];
    var fd, t := s.sockets[m.socket].fd, HandleMessage(s, true);
    EntryForOk(s, m.socket);
    MessageEntry(s, true);
    MessageKeeps(s, true);
    if m.command.Close? {
      CloseNeverAdds(s);
    }
    if fd in t.epoll {
      WatchedAs(t, fd);
      KindKept(s);
      if fd in s.epoll {
        WatchedAs(s, fd);
        InterestDiffers(EntryAhead(s).d, Commanded(s).d);
      }
    }
  }

  lemma WatchedAs(s: State, fd: int)
    requires Inv(s) && fd in s.epoll
    ensures fd in s.infos && s.epoll[fd] == InterestFor(s.infos[fd].d) && MaskOf(s.infos[fd].d) != {} && Sound(s.infos[fd].d)
  {
    assert EpollAt(s, fd, InterestFor(s.infos[fd].d), MaskOf(s.infos[fd].d));
    assert EntryOk(s.infos[fd]);
  }

  lemma KindKept(s: State)
    requires CommandAhead(s)
    ensures Commanded(s).d.Single? == EntryAhead(s).d.Single?
  {
    hide QueueOk, EpollOk, OwnersOk, SocketsOk, EntriesOk;
    PerformKeeps(s, s.pending[0], true);
  }

  lemma InterestDiffers(d: Descriptor, e: Descriptor)
    requires Sound(d) && Sound(e) && d.Single? == e.Single?
    ensures InterestFor(d) == InterestFor(e) <==> MaskOf(d) == MaskOf(e)
  {
    if InterestFor(d) == InterestFor(e) {
      forall x: Event ensures x in MaskOf(d) <==> x in MaskOf(e) {
        match x
        case InEvent =>
        case OutEvent =>
        case ErrorEvent =>
        case CloseEvent =>
      }
    }
  }

  /**
   A close of an open socket is answered with the news that it is destroyed, an addition to epoll that fails
   with a close event to every port; nothing else is posted for a message.
   */
  ghost predicate MessageTold(s: State, addOk: bool, posting: Posting)
    requires Inv(s) && s.pending != []
  {
    var m := s.pending[0];
    && (forall port :: posting == Destroyed(port) <==> CommandAhead(s) && m.command.Close? && m.port == port)
    && (posting == Everyone({CloseEvent}) <==> CommandAhead(s) && WouldAdd(s) && !addOk)
    && (posting == Nobody || posting == Everyone({CloseEvent}) || posting.Destroyed?)
  }

  lemma MessagePostingTold(s: State, addOk: bool)
    requires Inv(s) && s.pending != []
    ensures MessageTold(s, addOk, MessagePosting(s, addOk))
  {
    hide Inv, WouldAdd, Commanded, EntryAhead;
    if CommandAhead(s) {
      WouldAddIff(s);
      if s.pending[0].command.Close? {
        CloseNeverAdds(s);
      }
    }
  }

  // ---------- The books of a message ----------

  /** An account, as far as there is one. */
  function Booked(e: Entry, port: Port): Account {
    if port in e.accounts then e.accounts[port] else Account(0, 0, 0, 0)
  }

  /** What the accounts say after a command, in terms of what was posted and returned. */
  lemma CommandBooks(s: State, addOk: bool, port: Port)
    requires CommandAhead(s) && port in Commanded(s).accounts
    ensures var m := s.pending[0];
            var after := if AddFails(s, addOk) then Broadcast(Commanded(s)) else Commanded(s);
            var was, paid := Booked(EntryAhead(s), port), if AddFails(s, addOk) then 1 else 0;
            && port in after.accounts
            && after.accounts[port].sent == was.sent + paid && after.accounts[port].broadcast == was.broadcast + paid
            && after.accounts[port].returned == was.returned + if m.port == port then ReturnedBy(m, m.socket) else 0
  {
    hide Inv, Commanded, Broadcast, EntryOk, Attempted;
    CommandedBooks(s, port);
    BroadcastBooks(Commanded(s), port);
  }

  lemma CommandedBooks(s: State, port: Port)
    requires CommandAhead(s) && port in Commanded(s).accounts
    ensures var m, was, now := s.pending[0], Booked(EntryAhead(s), port), Commanded(s).accounts[port];
            && now.sent == was.sent && now.broadcast == was.broadcast
            && now.returned == was.returned + if m.port == port then ReturnedBy(m, m.socket) else 0
  {
    hide EntriesOk, QueueOk, EpollOk, OwnersOk, SocketsOk, EntryOk, Unspoilt, Registered, Perform;
    var m := s.pending[0];
    EntryForOk(s, m.socket);
    PerformKeeps(s, m, true);
  }

  lemma BroadcastBooks(e: Entry, port: Port)
    requires port in e.accounts
    ensures var was, now := e.accounts[port], Broadcast(e).accounts;
            port in now && now[port] == was.(sent := was.sent + 1, broadcast := was.broadcast + 1)
  {
  }
}
