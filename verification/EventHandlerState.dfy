/**
 The state of the Linux event handler: the map of descriptors, the interest set that the kernel
 keeps in epoll, the sockets with their reference counts, and the interrupt messages under way.
 */
module EventHandlerState {
  import opened ReaderQueue
  import opened Descriptors
  import opened Ledger
  import opened Words

  // ---------- State ----------

  /** The events asked of epoll, and whether they are edge-triggered. */
  datatype Interest = Interest(inEvents: bool, outEvents: bool, edgeTriggered: bool)

  function InterestFor(d: Descriptor): Interest {
    Interest(InEvent in MaskOf(d), OutEvent in MaskOf(d), d.Single?)
  }

  /** A Dart socket: its descriptor is -1 once closed, its port 0 until its first message. */
  datatype Socket = Socket(fd: int, port: Port, listening: bool, alive: bool, refs: nat) {
    predicate IsOpen() {
      fd >= 0
    }
  }

  datatype Command = SetEventMask(mask: Mask) | ReturnToken(count: nat) | Close | ShutdownRead | ShutdownWrite

  datatype Message =
    | SocketMessage(socket: int, port: Port, command: Command)
    | TimerMessage(port: Port, deadline: int)
    | ShutdownMessage

  datatype State = State(
    infos: map<int, Entry>,
    epoll: map<int, Interest>,
    failed: set<int>,
    sockets: map<int, Socket>,
    pending: seq<Message>)

  const INITIAL_STATE := State(map[], map[], {}, map[], [])

  // ---------- Descriptors and epoll ----------

  /** Epoll holds what the descriptor asks for, unless the last attempt to add it failed. */
  ghost predicate EpollAt(s: State, fd: int, interest: Interest, mask: Mask) {
    if fd in s.epoll then mask != {} && s.epoll[fd] == interest else mask == {} || fd in s.failed
  }

  ghost predicate EntriesOk(s: State) {
    forall fd :: fd in s.infos ==> fd >= 0 && EntryOk(s.infos[fd])
  }

  ghost predicate EpollOk(s: State) {
    && (forall fd :: fd in s.epoll ==> fd in s.infos)
    && (forall fd :: fd in s.infos ==> EpollAt(s, fd, InterestFor(s.infos[fd].d), MaskOf(s.infos[fd].d)))
  }

  // ---------- Sockets ----------

  ghost predicate Holds(s: State, a: int, fd: int) {
    a in s.sockets && s.sockets[a].fd == fd
  }

  /** Every account is kept for an open socket with that port. */
  ghost predicate OwnersOk(s: State) {
    forall fd, p :: fd in s.infos && p in s.infos[fd].accounts ==>
                      var a := s.infos[fd].accounts[p].owner; Holds(s, a, fd) && s.sockets[a].port == p
  }

  /** Sockets share a descriptor only to listen, each with its own port. */
  ghost predicate Shareable(x: Socket, y: Socket) {
    x.listening && y.listening && (x.port != y.port || x.port == ILLEGAL_PORT)
  }

  ghost predicate Together(s: State, a: int, b: int) {
    && a in s.sockets && b in s.sockets && a != b
    && s.sockets[a].IsOpen() && s.sockets[a].fd == s.sockets[b].fd
  }

  ghost predicate SocketsOk(s: State) {
    && (forall a, b :: Together(s, a, b) ==> Shareable(s.sockets[a], s.sockets[b]))
    && (forall a :: a in s.sockets && s.sockets[a].fd in s.infos ==>
                      s.infos[s.sockets[a].fd].d.Multiple? == s.sockets[a].listening)
    && (forall fd :: fd in s.infos ==> Unspoilt(s.infos[fd]) && exists a :: Holds(s, a, fd))
  }

  // ---------- Messages under way ----------

  predicate Names(m: Message, a: int) {
    m.SocketMessage? && m.socket == a
  }

  function Naming(pending: seq<Message>, a: int): nat {
    if pending == [] then 0 else (if Names(pending[0], a) then 1 else 0) + Naming(pending[1..], a)
  }

  function ReturnedBy(m: Message, a: int): nat {
    if Names(m, a) && m.command.ReturnToken? then m.command.count else 0
  }

  function PendingReturns(pending: seq<Message>, a: int): nat {
    if pending == [] then 0 else ReturnedBy(pending[0], a) + PendingReturns(pending[1..], a)
  }

  predicate ClosePending(pending: seq<Message>, a: int) {
    pending != [] && ((Names(pending[0], a) && pending[0].command.Close?) || ClosePending(pending[1..], a))
  }

  /** Notifications of the port whose tokens have not come back. */
  function Owed(s: State, fd: int, port: Port): int {
    if fd in s.infos then Outstanding(s.infos[fd], port) else 0
  }

  predicate MaskAllowed(listening: bool, mask: Mask) {
    if listening then mask == {InEvent} || mask == {} else mask <= {InEvent, OutEvent}
  }

  predicate CommandOk(x: Socket, port: Port, command: Command) {
    match command
    case SetEventMask(mask) => port != ILLEGAL_PORT && MaskAllowed(x.listening, mask)
    case ReturnToken(count) => port != ILLEGAL_PORT && 0 < count < MAX_COUNT
    case Close => true
    case _ => port != ILLEGAL_PORT && !x.listening
  }

  /** Counts of tokens share a word with the command, below its bits. */
  const MAX_COUNT := 256

  /** Addresses of sockets are words, apart from the two that mark timers and the shutdown. */
  predicate IsAddress(a: int) {
    InRange(a) && a != -1 && a != -2
  }

  /** A message that its three words can spell. */
  predicate Spellable(m: Message) {
    match m
    case SocketMessage(a, port, command) =>
      IsAddress(a) && InRange(port) && (command.ReturnToken? ==> command.count < MAX_COUNT)
    case TimerMessage(port, deadline) => InRange(port) && InRange(deadline)
    case ShutdownMessage => true
  }

  /** A message under way can be spelled, names an existing socket and carries its port. */
  ghost predicate MessageOk(s: State, m: Message) {
    && Spellable(m)
    && (m.SocketMessage? ==>
          && m.socket in s.sockets && m.port == s.sockets[m.socket].port
          && CommandOk(s.sockets[m.socket], m.port, m.command))
  }

  /** The reference count of a socket: one for the Dart object, one for every message. */
  ghost predicate RefsOk(s: State, a: int)
    requires a in s.sockets
  {
    var x := s.sockets[a];
    && x.fd >= -1 && IsAddress(a) && InRange(x.port)
    && x.refs == (if x.alive then 1 else 0) + Naming(s.pending, a)
    && x.refs > 0
    && (x.IsOpen() && !x.alive ==> ClosePending(s.pending, a))
    && (x.alive && x.port == ILLEGAL_PORT ==> Naming(s.pending, a) == 0)
    && (x.IsOpen() ==> PendingReturns(s.pending, a) <= Owed(s, x.fd, x.port))
  }

  ghost predicate QueueOk(s: State) {
    && (forall a :: a in s.sockets ==> RefsOk(s, a))
    && (forall i :: 0 <= i < |s.pending| ==> MessageOk(s, s.pending[i]))
  }

  ghost predicate Inv(s: State) {
    EntriesOk(s) && EpollOk(s) && OwnersOk(s) && SocketsOk(s) && QueueOk(s)
  }

  // ---------- Counting over the queue ----------

  lemma {:induction false} SendCounts(pending: seq<Message>, m: Message, a: int)
    ensures Naming(pending + [m], a) == Naming(pending, a) + if Names(m, a) then 1 else 0
    ensures PendingReturns(pending + [m], a) == PendingReturns(pending, a) + ReturnedBy(m, a)
    ensures ClosePending(pending + [m], a) == (ClosePending(pending, a) || (Names(m, a) && m.command.Close?))
  {
    if pending == [] {
      assert pending + [m] == [m];
    } else {
      assert (pending + [m])[1..] == pending[1..] + [m];
      SendCounts(pending[1..], m, a);
    }
  }

  lemma {:induction false} NamingZero(pending: seq<Message>, a: int)
    ensures Naming(pending, a) == 0 ==> PendingReturns(pending, a) == 0 && !ClosePending(pending, a)
    ensures Naming(pending, a) == 0 ==> forall i :: 0 <= i < |pending| ==> !Names(pending[i], a)
  {
    if pending != [] {
      NamingZero(pending[1..], a);
      if Naming(pending, a) == 0 {
        forall i | 0 <= i < |pending| ensures !Names(pending[i], a) {
          if i > 0 {
            assert pending[i] == pending[1..][i - 1];
          }
        }
      }
    }
  }

  // ---------- Changes to epoll ----------

  function AddToEpoll(s: State, fd: int, addOk: bool): State
    requires fd in s.infos
  {
    if addOk then s.(epoll := s.epoll[fd := InterestFor(s.infos[fd].d)], failed := s.failed - {fd})
    else s.(failed := s.failed + {fd}, infos := s.infos[fd := Broadcast(s.infos[fd])])
  }

  function RemoveFromEpoll(s: State, fd: int): State {
    s.(epoll := s.epoll - {fd})
  }

  function UpdateEpoll(s: State, oldMask: Mask, fd: int, addOk: bool): State
    requires fd in s.infos
  {
    var newMask := MaskOf(s.infos[fd].d);
    if oldMask != {} && newMask == {} then RemoveFromEpoll(s, fd)
    else if oldMask == {} && newMask != {} then AddToEpoll(s, fd, addOk)
    else if oldMask != {} && newMask != {} && oldMask != newMask then AddToEpoll(RemoveFromEpoll(s, fd), fd, addOk)
    else s
  }

  /** The descriptor's entry has just changed from `before` to `after`; epoll still shows `before`. */
  function Changed(s: State, fd: int, after: Entry): State {
    s.(infos := s.infos[fd := after])
  }

  /** Whether the update adds the descriptor to epoll, anew or with another mask. */
  predicate Attempted(before: Entry, after: Entry) {
    MaskOf(after.d) != {} && MaskOf(before.d) != MaskOf(after.d)
  }

  /** What an update does to epoll at the descriptor, and to its entry. */
  lemma UpdateEpollAt(s: State, fd: int, before: Entry, after: Entry, addOk: bool)
    requires fd in s.infos && s.infos[fd] == after && after.d.Single? == before.d.Single?
    requires EpollAt(s, fd, InterestFor(before.d), MaskOf(before.d))
    ensures var t := UpdateEpoll(s, MaskOf(before.d), fd, addOk);
            && t.sockets == s.sockets && t.pending == s.pending
            && t.infos == s.infos[fd := t.infos[fd]]
            && t.infos[fd] == (if Attempted(before, after) && !addOk then Broadcast(after) else after)
            && (MaskOf(after.d) != {} ==> (fd in t.epoll <==> if Attempted(before, after) then addOk else fd in s.epoll))
            && EpollAt(t, fd, InterestFor(t.infos[fd].d), MaskOf(t.infos[fd].d))
            && t.epoll - {fd} == s.epoll - {fd} && t.failed - {fd} == s.failed - {fd}
            && (MaskOf(after.d) == {} ==> fd !in t.epoll)
  {
    hide MaskOf, Broadcast;
  }

  /** Updating epoll makes it agree with the descriptor again, and keeps the books. */
  lemma UpdateEpollKeeps(s: State, fd: int, before: Entry, after: Entry, addOk: bool)
    requires EntriesOk(s) && EpollOk(s)
    requires fd >= 0 && (if fd in s.infos then s.infos[fd] == before else MaskOf(before.d) == {})
    requires EntryOk(after) && after.d.Single? == before.d.Single?
    ensures var t := UpdateEpoll(Changed(s, fd, after), MaskOf(before.d), fd, addOk);
            && EntriesOk(t) && EpollOk(t)
            && t.sockets == s.sockets && t.pending == s.pending
            && t.infos == s.infos[fd := t.infos[fd]]
            && t.infos[fd] == (if Attempted(before, after) && !addOk then Broadcast(after) else after)
            && (MaskOf(after.d) != {} ==> (fd in t.epoll <==> if Attempted(before, after) then addOk else fd in s.epoll))
            && (forall x :: x != fd ==> (x in t.epoll <==> x in s.epoll))
            && (MaskOf(after.d) == {} ==> fd !in t.epoll)
  {
    hide EntryOk, MaskOf, Broadcast, UpdateEpoll, InterestFor;
    if MaskOf(after.d) != {} {
      BroadcastOk(after);
    }
    var r := Changed(s, fd, after);
    UpdateEpollAt(r, fd, before, after, addOk);
    var t := UpdateEpoll(r, MaskOf(before.d), fd, addOk);
    forall x | x != fd
      ensures x in t.epoll <==> x in s.epoll
      ensures x in t.infos ==> EpollAt(t, x, InterestFor(t.infos[x].d), MaskOf(t.infos[x].d))
    {
      assert x in t.epoll <==> x in t.epoll - {fd};
      assert x in s.epoll <==> x in s.epoll - {fd};
      assert x in t.failed <==> x in t.failed - {fd};
      assert x in t.epoll ==> (t.epoll - {fd})[x] == (s.epoll - {fd})[x];
    }
  }

  /** The entry of a message's descriptor, new if there was none. */
  function EntryFor(s: State, fd: int, listening: bool): Entry {
    if fd in s.infos then s.infos[fd] else NewEntry(listening)
  }
}
