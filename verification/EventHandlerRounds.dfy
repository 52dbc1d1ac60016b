/**
 One round of the handler's loop as steps of a run: the events of a batch, then the messages of one
 read, with anything the Dart side does before each of them.
 */
module EventHandlerRounds {
  import opened ReaderQueue
  import opened Descriptors
  import opened Ledger
  import opened Words
  import opened Options
  import opened EventHandlerState
  import opened EventHandlerSteps
  import opened EventHandlerEffects
  import opened EventHandlerRuns
  import opened EventHandlerSafety
  import opened InterruptPipes

  // ---------- Steps of the Dart side ----------

  predicate IsDart(step: Step) {
    step.CreateStep? || step.SendStep? || step.FinalizeStep? || step.OtherStep?
  }

  predicate AllDart(steps: seq<Step>) {
    forall i :: 0 <= i < |steps| ==> IsDart(steps[i])
  }

  /** Whatever the handler makes of its steps, those of the Dart side are possible when they come. */
  ghost predicate Willing(c: Config, steps: seq<Step>)
    requires ConfigInv(c)
    decreases |steps|
  {
    steps != [] ==>
      && (IsDart(steps[0]) ==> Enabled(c, steps[0]))
      && (Enabled(c, steps[0]) ==> (NextKeeps(c, steps[0]); Willing(Next(c, steps[0]), steps[1..])))
  }

  lemma WillingNext(c: Config, step: Step, rest: seq<Step>)
    requires ConfigInv(c) && Willing(c, [step] + rest)
    ensures IsDart(step) ==> Enabled(c, step)
    ensures Enabled(c, step) ==> ConfigInv(Next(c, step)) && Willing(Next(c, step), rest)
  {
    hide ConfigInv, Enabled, Next;
    if Enabled(c, step) {
      NextKeeps(c, step);
    }
    assert ([step] + rest)[1..] == rest;
  }

  lemma {:induction false} WillingFirst(c: Config, first: seq<Step>, rest: seq<Step>)
    requires ConfigInv(c) && Willing(c, first + rest)
    ensures Willing(c, first)
    decreases |first|
  {
    hide ConfigInv, Enabled, Next;
    if first != [] {
      assert (first + rest)[1..] == first[1..] + rest;
      if Enabled(c, first[0]) {
        NextKeeps(c, first[0]);
        WillingFirst(Next(c, first[0]), first[1..], rest);
      }
    }
  }

  /** The Dart side leaves the descriptors and the batch alone, and only adds messages. */
  lemma DartStep(c: Config, step: Step)
    requires ConfigInv(c) && Enabled(c, step) && IsDart(step)
    ensures var d := Next(c, step);
            && d.ready == c.ready && d.s.pending == c.s.pending + SentBy(c, step)
            && d.s.infos == c.s.infos && d.s.epoll == c.s.epoll && d.s.failed == c.s.failed
  {
    hide Inv;
  }

  // ---------- What is posted ----------

  ghost function PostedBy(c: Config, step: Step): seq<Posting>
    requires ConfigInv(c) && Enabled(c, step)
  {
    match step
    case EventStep =>
      EventLive(c.s, c.ready[0].fd);
      [PostingFor(c.s.infos[c.ready[0].fd], c.ready[0].events)]
    case MessageStep(addOk) => [MessagePosting(c.s, addOk)]
    case _ => []
  }

  ghost function Posted(c: Config, steps: seq<Step>): seq<Posting>
    requires ConfigInv(c) && Runs(c, steps)
    decreases |steps|
  {
    if steps == [] then []
    else
      NextKeeps(c, steps[0]);
      PostedBy(c, steps[0]) + Posted(Next(c, steps[0]), steps[1..])
  }

  /** The steps are a run from one configuration to the other, and post this. */
  ghost predicate Did(c: Config, steps: seq<Step>, d: Config, postings: seq<Posting>) {
    ConfigInv(c) && Runs(c, steps) && After(c, steps) == d && Posted(c, steps) == postings
  }

  lemma DidOne(c: Config, step: Step)
    requires ConfigInv(c) && Enabled(c, step)
    ensures Did(c, [step], Next(c, step), PostedBy(c, step))
  {
    hide ConfigInv, Enabled, Next, PostedBy;
    NextKeeps(c, step);
    var d := Next(c, step);
    assert [step][1..] == [];
    assert Runs(d, []) && After(d, []) == d && Posted(d, []) == [];
    assert Runs(c, [step]) && Posted(c, [step]) == PostedBy(c, step) + [];
  }

  lemma DidNothing(c: Config)
    requires ConfigInv(c)
    ensures Did(c, [], c, [])
  {
  }

  /** Runs that follow each other are one run. */
  lemma {:induction false} DidJoin(b: Config, first: seq<Step>, c: Config, p: seq<Posting>,
                                   second: seq<Step>, d: Config, q: seq<Posting>)
    requires Did(b, first, c, p) && Did(c, second, d, q)
    ensures Did(b, first + second, d, p + q)
    decreases |first|
  {
    hide ConfigInv, Enabled, Next, PostedBy;
    if first == [] {
      assert first + second == second;
    } else {
      NextKeeps(b, first[0]);
      var n := Next(b, first[0]);
      DidJoin(n, first[1..], c, Posted(n, first[1..]), second, d, q);
      assert (first + second)[1..] == first[1..] + second;
    }
  }

  /** What a step posts says what has happened. */
  ghost predicate StepTold(c: Config, step: Step, posts: seq<Posting>)
    requires ConfigInv(c) && Enabled(c, step)
  {
    match step
    case EventStep =>
      && |posts| == 1 && c.ready[0].fd in c.s.infos
      && Told(c.s.infos[c.ready[0].fd].d, c.ready[0].events, posts[0])
    case MessageStep(addOk) => |posts| == 1 && MessageTold(c.s, addOk, posts[0])
    case _ => posts == []
  }

  lemma PostedTold(c: Config, step: Step)
    requires ConfigInv(c) && Enabled(c, step)
    ensures StepTold(c, step, PostedBy(c, step))
  {
    hide Inv, Told, MessageTold;
    if step.EventStep? {
      EventLive(c.s, c.ready[0].fd);
      PostingTold(c.s.infos[c.ready[0].fd], c.ready[0].events);
    } else if step.MessageStep? {
      MessagePostingTold(c.s, step.addOk);
    }
  }

  /** The posts of a run are what each of its steps has to say, in order. */
  lemma {:induction false} RunTold(c: Config, before: seq<Step>, step: Step, rest: seq<Step>)
    requires ConfigInv(c) && Runs(c, before + ([step] + rest))
    ensures Runs(c, before) && Enabled(After(c, before), step)
    ensures var d := After(c, before);
            ConfigInv(Next(d, step)) && Runs(Next(d, step), rest)
            && exists posts :: StepTold(d, step, posts) &&
                               Posted(c, before + ([step] + rest)) == Posted(c, before) + posts + Posted(Next(d, step), rest)
    decreases |before|
  {
    hide ConfigInv, Enabled, Next, PostedBy, StepTold;
    var steps := before + ([step] + rest);
    if before == [] {
      assert steps == [step] + rest && steps[1..] == rest;
      NextKeeps(c, step);
      PostedTold(c, step);
      assert Posted(c, steps) == Posted(c, before) + PostedBy(c, step) + Posted(Next(c, step), rest);
    } else {
      NextKeeps(c, before[0]);
      var n := Next(c, before[0]);
      assert steps[1..] == before[1..] + ([step] + rest);
      RunTold(n, before[1..], step, rest);
      var d := After(n, before[1..]);
      var posts :| StepTold(d, step, posts) &&
                   Posted(n, steps[1..]) == Posted(n, before[1..]) + posts + Posted(Next(d, step), rest);
      assert Posted(c, steps) == Posted(c, before) + posts + Posted(Next(d, step), rest);
    }
  }

  // ---------- The steps of a round ----------

  /** The most messages one read of the interrupt pipe takes: the size of a message in bytes. */
  const MAX_MESSAGES := MESSAGE_SIZE

  /** What epoll reports: the interrupt pipe, the timer descriptor, or a socket. */
  datatype EpollEvent = Interrupt | TimerExpired | SocketReady(r: Ready)

  /** The socket events of a batch, in order. */
  function SocketEvents(events: seq<EpollEvent>): (ready: seq<Ready>)
    ensures |ready| <= |events|
  {
    if events == [] then []
    else if events[0].SocketReady? then [events[0].r] + SocketEvents(events[1..])
    else SocketEvents(events[1..])
  }

  function EventSteps(event: EpollEvent): seq<Step> {
    if event.SocketReady? then [EventStep] else []
  }

  /** The events of a batch; `env` is what the Dart side does before each. */
  function BatchSteps(events: seq<EpollEvent>, env: seq<seq<Step>>): seq<Step>
    requires |env| == |events|
  {
    if events == [] then []
    else env[0] + EventSteps(events[0]) + BatchSteps(events[1..], env[1..])
  }

  /** What the Dart side does before a message, and the kernel's answer to an addition to epoll. */
  datatype Turn = Turn(before: seq<Step>, addOk: bool)

  function MessageSteps(turns: seq<Turn>): seq<Step> {
    if turns == [] then [] else turns[0].before + [MessageStep(turns[0].addOk)] + MessageSteps(turns[1..])
  }

  /** What is posted for an event of a batch. */
  ghost predicate Said(event: EpollEvent, posts: seq<Posting>) {
    if event.SocketReady? then |posts| == 1 && Says(event.r.events, posts[0]) else posts == []
  }

  /** Every socket event of a batch has its post, in order, and there are no others. */
  ghost predicate AllSaid(events: seq<EpollEvent>, posts: seq<Posting>)
    decreases |events|
  {
    if events == [] then posts == []
    else
      var n := |events| - 1;
      if events[n].SocketReady?
      then posts != [] && Says(events[n].r.events, posts[|posts| - 1]) && AllSaid(events[..n], posts[..|posts| - 1])
      else AllSaid(events[..n], posts)
  }

  // ---------- The words of the messages under way ----------

  /** The socket that a message names listens. */
  ghost predicate ListensFor(s: State, m: Message) {
    m.SocketMessage? && m.socket in s.sockets && s.sockets[m.socket].listening
  }

  ghost predicate Spelled(words: seq<InterruptMessage>, s: State) {
    && |words| == |s.pending|
    && forall i :: 0 <= i < |words| ==> words[i] == Spelling(s.pending[i], ListensFor(s, s.pending[i]))
  }

  /** The oldest word is understood as the message at the head of the queue. */
  lemma SpelledHead(words: seq<InterruptMessage>, s: State)
    requires Inv(s) && Spelled(words, s) && words != []
    ensures s.pending != [] && MessageOf(words[0]) == Some(s.pending[0])
    ensures s.pending[0].SocketMessage? ==>
              var a := s.pending[0].socket; a in s.sockets && ListeningOf(words[0].data) == s.sockets[a].listening
  {
    hide EntriesOk, EpollOk, OwnersOk, SocketsOk, Spelling, MessageOf;
    HeadOk(s);
    SpellingRoundTrip(s.pending[0], ListensFor(s, s.pending[0]));
  }

  /** A message makes no socket, and none listen that did not. */
  lemma ListeningKept(s: State, addOk: bool)
    requires Inv(s) && s.pending != []
    ensures forall a :: a in HandleMessage(s, addOk).sockets ==>
                          a in s.sockets && HandleMessage(s, addOk).sockets[a].listening == s.sockets[a].listening
  {
    hide EntriesOk, EpollOk, OwnersOk, SocketsOk, Perform;
    var m := s.pending[0];
    HeadOk(s);
    if m.SocketMessage? && s.sockets[m.socket].fd != -1 {
      PerformKeeps(s, m, addOk);
    }
  }

  lemma SpelledRest(words: seq<InterruptMessage>, s: State, addOk: bool)
    requires Inv(s) && Spelled(words, s) && s.pending != []
    ensures Spelled(words[1..], HandleMessage(s, addOk))
  {
    hide EntriesOk, EpollOk, OwnersOk, SocketsOk, Spelling, HandleMessage;
    MessagePops(s, addOk);
    MessageKeeps(s, addOk);
    ListeningKept(s, addOk);
    var t := HandleMessage(s, addOk);
    forall i | 0 <= i < |words| - 1 ensures words[1..][i] == Spelling(t.pending[i], ListensFor(t, t.pending[i])) {
      assert t.pending[i] == s.pending[i + 1] && MessageOk(t, t.pending[i]);
    }
  }

  /** The word of a message that is being sent. */
  ghost function WordsSent(c: Config, step: Step): seq<InterruptMessage>
    requires Enabled(c, step)
  {
    var sent := SentBy(c, step);
    if sent == [] then [] else [Spelling(sent[0], ListensFor(c.s, sent[0]))]
  }

  lemma SpelledSent(words: seq<InterruptMessage>, c: Config, step: Step)
    requires ConfigInv(c) && Enabled(c, step) && IsDart(step) && Spelled(words, c.s)
    ensures Spelled(words + WordsSent(c, step), Next(c, step).s)
  {
    hide EntriesOk, EpollOk, OwnersOk, SocketsOk, Spelling;
    var s, t := c.s, Next(c, step).s;
    forall i | 0 <= i < |words| ensures ListensFor(s, s.pending[i]) == ListensFor(t, s.pending[i]) {
      assert MessageOk(s, s.pending[i]);
    }
  }
}
