/** Tokens over whole runs, counted from what is posted and what is returned. */
module EventHandlerBooks {
  import opened ReaderQueue
  import opened Descriptors
  import opened Polling
  import opened Ledger
  import opened EventHandlerState
  import opened EventHandlerSteps
  import opened EventHandlerEffects
  import opened EventHandlerRuns
  import opened EventHandlerSafety

  // ---------- Counting ----------

  /** Posts to a port, those among them that went to every port of its descriptor, and tokens it gave back. */
  datatype Tally = Tally(posts: nat, broadcasts: nat, givenBack: nat)

  const NOTHING := Tally(0, 0, 0)

  ghost predicate HasPort(c: Config, fd: int, port: Port) {
    fd in c.s.infos && Registered(c.s.infos[fd].d, port)
  }

  /** What a post on a descriptor adds to the tally of a port. */
  function PostTally(posting: Posting, d: Descriptor, port: Port): Tally {
    Tally(if Reaches(posting, d, port) then 1 else 0, if posting.Everyone? && Registered(d, port) then 1 else 0, 0)
  }

  /** What a step posts to a port of a descriptor, and the tokens that it hands back for it. */
  ghost function StepTally(c: Config, step: Step, fd: int, port: Port): Tally
    requires ConfigInv(c) && Enabled(c, step)
  {
    match step
    case EventStep =>
      EventLive(c.s, c.ready[0].fd);
      if c.ready[0].fd != fd then NOTHING
      else PostTally(PostingFor(c.s.infos[fd], c.ready[0].events), c.s.infos[fd].d, port)
    case MessageStep(addOk) =>
      if !CommandAhead(c.s) || c.s.sockets[c.s.pending[0].socket].fd != fd then NOTHING
      else
        var m := c.s.pending[0];
        PostTally(MessagePosting(c.s, addOk), Commanded(c.s).d, port)
        .(givenBack := if m.port == port then ReturnedBy(m, m.socket) else 0)
    case _ => NOTHING
  }

  function Plus(a: Tally, b: Tally): Tally {
    Tally(a.posts + b.posts, a.broadcasts + b.broadcasts, a.givenBack + b.givenBack)
  }

  /** The tally of a port over a run, since it was last registered; `t` is what it starts with. */
  ghost function RunTally(c: Config, steps: seq<Step>, fd: int, port: Port, t: Tally): Tally
    requires ConfigInv(c) && Runs(c, steps)
    decreases |steps|
  {
    if steps == [] then t
    else
      NextKeeps(c, steps[0]);
      var n := Next(c, steps[0]);
      var u := if !HasPort(n, fd, port) then NOTHING
               else Plus(if HasPort(c, fd, port) then t else NOTHING, StepTally(c, steps[0], fd, port));
      RunTally(n, steps[1..], fd, port, u)
  }

  // ---------- The accounts tell the truth ----------

  /** What the account of a port says. */
  function AccountTally(e: Entry, port: Port): Tally {
    Tally(Booked(e, port).sent, Booked(e, port).broadcast, Booked(e, port).returned)
  }

  ghost function BookedTally(c: Config, fd: int, port: Port): Tally {
    if fd in c.s.infos then AccountTally(c.s.infos[fd], port) else NOTHING
  }

  lemma HasAccount(c: Config, fd: int, port: Port)
    requires ConfigInv(c)
    ensures HasPort(c, fd, port) <==> fd in c.s.infos && port in c.s.infos[fd].accounts
    ensures !HasPort(c, fd, port) ==> BookedTally(c, fd, port) == NOTHING
  {
    hide QueueOk, EpollOk, OwnersOk, SocketsOk;
    assert fd in c.s.infos ==> EntryOk(c.s.infos[fd]);
  }

  lemma EventBooks(e: Entry, events: set<Signal>, port: Port)
    requires EntryOk(e) && CanNotify(e.d) && NextPort(e.d) in e.accounts && port in e.accounts
    ensures port in Notified(e, events).accounts
    ensures AccountTally(Notified(e, events), port) ==
            Plus(AccountTally(e, port), PostTally(PostingFor(e, events), e.d, port))
  {
  }

  /** A step adds to the account of a registered port what it posts to it and what it hands back. */
  lemma StepBooks(c: Config, step: Step, fd: int, port: Port)
    requires ConfigInv(c) && Enabled(c, step) && HasPort(Next(c, step), fd, port)
    ensures BookedTally(Next(c, step), fd, port) == Plus(BookedTally(c, fd, port), StepTally(c, step, fd, port))
  {
    hide EntriesOk, EpollOk, OwnersOk, SocketsOk, EntryOk, HandleMessage, HandleEvent, Notified, Commanded, Broadcast;
    NextKeeps(c, step);
    HasAccount(c, fd, port);
    HasAccount(Next(c, step), fd, port);
    if step.EventStep? {
      EventLive(c.s, c.ready[0].fd);
      EventKeeps(c.s, c.ready[0], true);
      if c.ready[0].fd == fd {
        NotifiedOk(c.s.infos[fd], c.ready[0].events);
        EventBooks(c.s.infos[fd], c.ready[0].events, port);
      }
    } else if step.MessageStep? {
      MessageBooks(c.s, step.addOk, fd, port);
    }
  }

  /** The tally of a port after the message at the head of the queue. */
  lemma MessageBooks(s: State, addOk: bool, fd: int, port: Port)
    requires Inv(s) && s.pending != []
    requires fd in HandleMessage(s, addOk).infos && port in HandleMessage(s, addOk).infos[fd].accounts
    ensures var c := Config(s, []);
            AccountTally(HandleMessage(s, addOk).infos[fd], port) ==
            Plus(BookedTally(c, fd, port), StepTally(c, MessageStep(addOk), fd, port))
  {
    hide Inv, CommandAhead, Commanded, HandleMessage, Broadcast, EntryOk, AddFails, EntryAhead, AccountTally, Booked;
    if CommandAhead(s) {
      OwnBooks(s, addOk, fd, port);
    } else {
      NoCommand(s, addOk);
    }
  }

  lemma OwnBooks(s: State, addOk: bool, fd: int, port: Port)
    requires CommandAhead(s)
    requires fd in HandleMessage(s, addOk).infos && port in HandleMessage(s, addOk).infos[fd].accounts
    ensures var c := Config(s, []);
            AccountTally(HandleMessage(s, addOk).infos[fd], port) ==
            Plus(BookedTally(c, fd, port), StepTally(c, MessageStep(addOk), fd, port))
  {
    hide Inv, Commanded, HandleMessage, Broadcast, EntryOk, Attempted, AddFails, EntryAhead, StepTally;
    MessageEntry(s, addOk);
    CommandTally(s, addOk, fd, port);
    if s.sockets[s.pending[0].socket].fd == fd {
      CommandPorts(s, addOk, port);
      CommandBooks(s, addOk, port);
      AheadTally(s, port);
    }
  }

  lemma AheadTally(s: State, port: Port)
    requires CommandAhead(s)
    ensures BookedTally(Config(s, []), s.sockets[s.pending[0].socket].fd, port) == AccountTally(EntryAhead(s), port)
  {
    hide Inv;
  }

  /** What a command adds to the tally of a port. */
  lemma CommandTally(s: State, addOk: bool, fd: int, port: Port)
    requires CommandAhead(s)
    ensures var m, t := s.pending[0], StepTally(Config(s, []), MessageStep(addOk), fd, port);
            if s.sockets[m.socket].fd != fd then t == NOTHING
            else var paid := if AddFails(s, addOk) && Registered(Commanded(s).d, port) then 1 else 0;
                 t == Tally(paid, paid, if m.port == port then ReturnedBy(m, m.socket) else 0)
  {
    hide Inv, Commanded, EntryOk, Attempted, EntryAhead, ReturnedBy, Registered;
  }

  lemma NoCommand(s: State, addOk: bool)
    requires Inv(s) && s.pending != [] && !CommandAhead(s)
    ensures HandleMessage(s, addOk).infos == s.infos
  {
    hide EntriesOk, EpollOk, OwnersOk, SocketsOk;
    HeadOk(s);
  }

  lemma CommandPorts(s: State, addOk: bool, port: Port)
    requires CommandAhead(s)
    ensures port in Commanded(s).accounts <==> Registered(Commanded(s).d, port)
    ensures port in (if AddFails(s, addOk) then Broadcast(Commanded(s)) else Commanded(s)).accounts <==>
            port in Commanded(s).accounts
  {
  }

  /** Over every run, the account of a registered port is its tally. */
  lemma {:induction false} AccountsAreTallies(c: Config, steps: seq<Step>, fd: int, port: Port)
    requires ConfigInv(c) && Runs(c, steps) && HasPort(After(c, steps), fd, port)
    ensures BookedTally(After(c, steps), fd, port) == RunTally(c, steps, fd, port, BookedTally(c, fd, port))
    decreases |steps|
  {
    hide ConfigInv, Enabled, Next, StepTally, BookedTally, HasPort;
    if steps != [] {
      NextKeeps(c, steps[0]);
      var n := Next(c, steps[0]);
      HasAccount(c, fd, port);
      HasAccount(n, fd, port);
      if HasPort(n, fd, port) {
        StepBooks(c, steps[0], fd, port);
      }
      AccountsAreTallies(n, steps[1..], fd, port);
    }
  }

  // ---------- Flow control ----------

  lemma InvTokens(c: Config, fd: int, port: Port)
    requires ConfigInv(c) && HasPort(c, fd, port)
    ensures var d, t := c.s.infos[fd].d, BookedTally(c, fd, port);
            && Tokens(d, port) == InitialTokens(d) - t.posts + t.givenBack
            && t.givenBack <= t.posts
            && t.posts - t.givenBack <= InitialTokens(d) + if d.Single? then 0 else t.broadcasts
  {
    var e := c.s.infos[fd];
    assert EntryOk(e) && Balanced(e.d, port, e.accounts[port]);
    assert Holds(c.s, e.accounts[port].owner, fd);
    assert RefsOk(c.s, e.accounts[port].owner);
  }

  /**
   In every run the tokens of a registered port are its initial tokens, less the posts to it, plus the
   tokens in its messages that were handled, since it was registered. So a port on its own descriptor has
   at most 16 posts it has not answered, and a listening port at most 4 beside those to every port.
   */
  lemma TokensConserved(steps: seq<Step>, fd: int, port: Port)
    requires ConfigInv(INITIAL_CONFIG) && Runs(INITIAL_CONFIG, steps) && HasPort(After(INITIAL_CONFIG, steps), fd, port)
    ensures var d := After(INITIAL_CONFIG, steps).s.infos[fd].d;
            var t := RunTally(INITIAL_CONFIG, steps, fd, port, NOTHING);
            && Tokens(d, port) == (if d.Single? then 16 else 4) - t.posts + t.givenBack
            && t.givenBack <= t.posts
            && t.posts - t.givenBack <= if d.Single? then 16 else 4 + t.broadcasts
  {
    hide ConfigInv, Runs, After, RunTally;
    AccountsAreTallies(INITIAL_CONFIG, steps, fd, port);
    InvTokens(After(INITIAL_CONFIG, steps), fd, port);
    assert BookedTally(INITIAL_CONFIG, fd, port) == NOTHING;
  }
}
