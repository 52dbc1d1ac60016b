/**
 A descriptor that several ports listen on: `DescriptorInfoMultipleMixin`, with its map of port
 entries and its linked list of ready readers. Every operation is proved to do to the pair what
 `Readers` says, so the two stay in step.
 */
module DescriptorInfos {
  import opened CircularLists
  import opened ReaderQueue
  import Fairness

  class PortEntry {
    const port: Port
    var isReading: bool
    var tokenCount: int

    constructor (port: Port, isReading: bool, tokenCount: int)
      ensures this.port == port && this.isReading == isReading && this.tokenCount == tokenCount
    {
      this.port, this.isReading, this.tokenCount := port, isReading, tokenCount;
    }

    ghost function State(): PortState
      reads this
    {
      PortState(isReading, tokenCount)
    }

    predicate IsReady()
      reads this
    {
      tokenCount > 0 && isReading
    }
  }

  ghost function PortsOf(entries: seq<PortEntry>): (ports: seq<Port>)
    ensures |ports| == |entries| && forall i :: 0 <= i < |ports| ==> ports[i] == entries[i].port
  {
    seq(|entries|, i requires 0 <= i < |entries| => entries[i].port)
  }

  /** Removing an entry removes its port, when no other entry has that port. */
  lemma {:induction false} PortsWithout(entries: seq<PortEntry>, e: PortEntry)
    requires forall x :: x in entries && x.port == e.port ==> x == e
    ensures PortsOf(Without(entries, e)) == Without(PortsOf(entries), e.port)
  {
    if entries != [] {
      var rest := entries[1..];
      PortsWithout(rest, e);
      assert PortsOf(entries)[1..] == PortsOf(rest);
      assert entries[0] in entries;
      if entries[0] != e {
        assert PortsOf([entries[0]] + Without(rest, e)) == [entries[0].port] + PortsOf(Without(rest, e));
      }
    }
  }

  class DescriptorInfoMultiple {
    const disableTokens: bool
    const activeReaders: CircularLinkedList<PortEntry>
    var tokensMap: map<Port, PortEntry>

    ghost function View(): Readers
      reads this, activeReaders, tokensMap.Values
    {
      Readers(map p | p in tokensMap :: tokensMap[p].State(), PortsOf(activeReaders.Contents()))
    }

    /** The map and the list speak of the same entries. */
    ghost predicate Linked()
      reads this, activeReaders, activeReaders.repr
    {
      && activeReaders.Valid()
      && (forall p :: p in tokensMap ==> tokensMap[p].port == p)
      && (forall e :: e in activeReaders.Contents() ==> e.port in tokensMap && tokensMap[e.port] == e)
    }

    ghost predicate Valid()
      reads this, activeReaders, activeReaders.repr, tokensMap.Values
    {
      Linked() && WellFormed(View())
    }

    constructor (disableTokens: bool)
      ensures Valid() && View() == Readers(map[], []) && this.disableTokens == disableTokens
      ensures fresh(activeReaders) && activeReaders.repr == {}
    {
      this.disableTokens := disableTokens;
      activeReaders := new CircularLinkedList<PortEntry>();
      tokensMap := map[];
    }

    method Mask() returns (inEvent: bool)
      requires Valid()
      ensures inEvent <==> HasReader(View())
    {
      inEvent := activeReaders.head != null;
    }

    lemma SameKeys()
      ensures View().ports.Keys == tokensMap.Keys
    {
    }

    lemma ListValid()
      requires Linked()
      ensures activeReaders.Valid()
    {
    }

    lemma EmptyReaders()
      requires activeReaders.Valid() && tokensMap == map[] && View().active == []
      ensures Valid() && View() == Readers(map[], []) && activeReaders.Contents() == []
    {
    }

    // ----- The queue -----

    method AddReader(entry: PortEntry)
      requires Linked() && entry.port in tokensMap && tokensMap[entry.port] == entry
      modifies activeReaders, activeReaders.repr
      ensures Linked() && View() == old(View()).(active := old(View()).active + [entry.port])
      ensures fresh(activeReaders.repr - old(activeReaders.repr))
    {
      hide CircularLinkedList.Valid;
      var _ := activeReaders.Add(entry);
      assert View().active == old(View()).active + [entry.port];
    }

    method RemoveReader(entry: PortEntry)
      requires Linked()
      requires entry.port in tokensMap ==> tokensMap[entry.port] == entry
      modifies activeReaders, activeReaders.repr
      ensures Linked() && View() == old(View()).(active := Without(old(View()).active, entry.port))
      ensures activeReaders.repr == old(activeReaders.repr)
    {
      hide CircularLinkedList.Valid;
      ghost var was := activeReaders.Contents();
      assert forall x :: x in was && x.port == entry.port ==> x == entry;
      PortsWithout(was, entry);
      WithoutSubset(was, entry);
      activeReaders.Remove(entry);
    }

    /** Sets the fields of an entry; the queue follows in a second step. */
    method SetEntry(entry: PortEntry, isReading: bool, tokenCount: int)
      requires Linked() && entry.port in tokensMap && tokensMap[entry.port] == entry
      modifies entry
      ensures Linked() && View() == old(View()).(ports := old(View()).ports[entry.port := PortState(isReading, tokenCount)])
      ensures entry.isReading == isReading && entry.tokenCount == tokenCount
    {
      entry.isReading, entry.tokenCount := isReading, tokenCount;
      assert forall p :: p in tokensMap && p != entry.port ==> tokensMap[p] != entry;
      assert View().ports == old(View()).ports[entry.port := PortState(isReading, tokenCount)];
    }

    method Reorder(entry: PortEntry, wasReady: bool, ghost was: PortState)
      requires Linked() && entry.port in tokensMap && tokensMap[entry.port] == entry && wasReady == was.Ready()
      modifies activeReaders, activeReaders.repr
      ensures Linked()
      ensures View() == old(View()).(active := Requeue(old(View()).active, entry.port, was, entry.State()))
    {
      if wasReady && !entry.IsReady() {
        RemoveReader(entry);
      } else if !wasReady && entry.IsReady() {
        AddReader(entry);
      }
    }

    // ----- Operations -----

    /** Registers a port, or changes whether it reads. */
    method SetPortAndMask(port: Port, reading: bool)
      requires Valid() && port != ILLEGAL_PORT
      modifies this, activeReaders, activeReaders.repr, tokensMap.Values
      ensures Valid() && View() == SetPort(old(View()), port, reading)
    {
      hide Linked, WellFormed;
      SetPortKeeps(View(), port, reading);
      if port !in tokensMap {
        var entry := new PortEntry(port, reading, TOKEN_COUNT);
        Insert(entry);
        if entry.IsReady() {
          AddReader(entry);
        }
      } else {
        var entry := Lookup(port);
        var wasReady := entry.IsReady();
        ghost var was := entry.State();
        SetEntry(entry, reading, entry.tokenCount);
        Reorder(entry, wasReady, was);
      }
    }

    /** Forgets a port. One that was never registered is ignored. */
    method RemovePort(port: Port)
      requires Valid()
      modifies this, activeReaders, activeReaders.repr
      ensures Valid() && View() == ReaderQueue.RemovePort(old(View()), port)
    {
      hide Linked, WellFormed;
      RemovePortKeeps(View(), port);
      NotActive(View(), port);
      if port in tokensMap {
        var entry := Lookup(port);
        if entry.IsReady() {
          RemoveReader(entry);
        }
        Erase(port);
      }
    }

    /** Takes the entries out of the queue, one by one in the order of the map. */
    method RemoveReaders(order: seq<Port>) returns (ghost freed: seq<Port>)
      requires Valid() && Enumerates(order, tokensMap.Keys)
      modifies activeReaders, activeReaders.repr
      ensures Linked() && View().active == [] && freed == order
      ensures activeReaders.repr == old(activeReaders.repr)
    {
      hide Linked, SetOf;
      ActiveKnown(View());
      SetOfNone();
      freed := [];
      for i := 0 to |order|
        invariant Linked() && freed == order[..i]
        invariant activeReaders.repr == old(activeReaders.repr)
        invariant NoDuplicates(View().active)
        invariant forall k :: 0 <= k < |View().active| ==> View().active[k] in tokensMap.Keys - SetOf(order[..i])
      {
        NextInOrder(order, tokensMap.Keys, i);
        var entry := Lookup(order[i]);
        WithoutKeeps(View().active, order[i]);
        WithoutAvoids(View().active, order[i], tokensMap.Keys - SetOf(order[..i]));
        RemoveReader(entry);
        freed := freed + [order[i]];
      }
      assert order[..|order|] == order;
      NoneLeft(View().active, tokensMap.Keys - SetOf(order));
    }

    /**
     Removes everything. Every entry is freed once: none is left in the queue when the queue is emptied.
     */
    method RemoveAllPorts(order: seq<Port>) returns (ghost freed: seq<Port>)
      requires Valid() && Enumerates(order, tokensMap.Keys)
      modifies this, activeReaders, activeReaders.repr
      ensures Valid() && View() == Readers(map[], [])
      ensures freed == order
    {
      hide Linked, Enumerates;
      freed := RemoveReaders(order);
      ListValid();
      tokensMap := map[];
      EmptyReaders();
      ghost var cleared := activeReaders.RemoveAll();
      freed := freed + PortsOf(cleared);
      EmptyReaders();
    }

    method Erase(port: Port)
      requires Linked() && port !in View().active
      modifies this
      ensures Linked() && View() == old(View()).(ports := old(View()).ports - {port})
    {
      assert forall e :: e in activeReaders.Contents() ==> e.port in View().active;
      tokensMap := tokensMap - {port};
      assert View().ports == old(View()).ports - {port};
    }

    /** Picks the port to notify, and takes one of its tokens; 0 when no reader is ready. */
    method NextNotifyDartPort() returns (port: Port)
      requires Valid()
      modifies activeReaders, tokensMap.Values
      modifies activeReaders.repr
      ensures Valid()
      ensures port == if HasReader(old(View())) then old(View()).active[0] else ILLEGAL_PORT
      ensures HasReader(old(View())) ==> port in old(View()).ports
      ensures View() == if HasReader(old(View())) then NotifyNext(old(View()), disableTokens) else old(View())
      ensures activeReaders.repr == old(activeReaders.repr)
    {
      hide Linked, View, WellFormed;
      ActiveKnown(View());
      var hasHead := Mask();
      if hasHead {
        NotifyNextKeeps(View(), disableTokens);
        var entry := Head();
        port := entry.port;
        if !disableTokens {
          SetEntry(entry, entry.isReading, entry.tokenCount - 1);
        }
        assert View().ports == old(View()).ports[port := entry.State()];
        Turn(entry.tokenCount <= 0);
      } else {
        port := ILLEGAL_PORT;
      }
    }

    method Head() returns (entry: PortEntry)
      requires Linked() && View().active != []
      ensures entry.port in tokensMap && tokensMap[entry.port] == entry && entry in tokensMap.Values
      ensures entry.port == View().active[0] && View().ports[entry.port] == entry.State()
    {
      entry := activeReaders.head.t;
      assert entry == activeReaders.Contents()[0];
    }

    method Turn(leaves: bool)
      requires Linked() && View().active != []
      modifies activeReaders, activeReaders.repr
      ensures Linked()
      ensures var was := old(View()).active;
              was != [] && View() == old(View()).(active := if leaves then was[1..] else was[1..] + [was[0]])
      ensures activeReaders.repr == old(activeReaders.repr)
    {
      hide CircularLinkedList.Valid;
      ghost var was := activeReaders.Contents();
      PortsTurned(was);
      if leaves {
        activeReaders.RemoveHead();
      } else {
        activeReaders.Rotate();
        assert activeReaders.Contents() == was[1..] + [was[0]];
      }
    }

    /** Posts to every port, in the order of the map, and takes one token of each. */
    method NotifyAllDartPorts(order: seq<Port>) returns (posted: seq<Port>)
      requires Valid() && Enumerates(order, tokensMap.Keys)
      modifies activeReaders, activeReaders.repr, tokensMap.Values
      ensures Valid() && posted == order
      ensures View() == NotifyAll(old(View()), disableTokens)
    {
      hide Linked, View, SpentReaders, NotifyAll, WellFormed, Enumerates;
      ghost var r := View();
      SameKeys();
      NotifyAllKeeps(r, disableTokens);
      SpendNone(r, disableTokens);
      posted := [];
      for i := 0 to |order|
        invariant Linked() && posted == order[..i] && tokensMap == old(tokensMap)
        invariant activeReaders.repr == old(activeReaders.repr)
        invariant View() == SpentReaders(r, order[..i], disableTokens)
      {
        NextInOrder(order, tokensMap.Keys, i);
        var port := order[i];
        posted := posted + [port];
        SpendOne(r, order, i, disableTokens);
        Spend(port);
      }
      assert order[..|order|] == order;
      SpentAll(r, order, disableTokens);
    }

    method Spend(port: Port)
      requires Linked() && port in tokensMap
      modifies activeReaders, activeReaders.repr, tokensMap.Values
      ensures Linked()
      ensures activeReaders.repr == old(activeReaders.repr)
      ensures port in old(View()).ports
      ensures var r := old(View());
              var was, now := r.ports[port], r.ports[port].Spend(disableTokens);
              View() == Readers(r.ports[port := now],
                                if was.Ready() && now.tokens <= 0 then Without(r.active, port) else r.active)
    {
      hide Linked;
      var entry := Lookup(port);
      var wasReady := entry.IsReady();
      if !disableTokens {
        SetEntry(entry, entry.isReading, entry.tokenCount - 1);
      }
      assert View().ports == old(View()).ports[port := old(View()).ports[port].Spend(disableTokens)];
      if wasReady && entry.tokenCount <= 0 {
        RemoveReader(entry);
      }
    }

    /** Gives tokens back to a port. */
    method ReturnTokens(port: Port, count: nat)
      requires Valid() && port in tokensMap
      modifies activeReaders, activeReaders.repr, tokensMap.Values
      ensures Valid() && old(View()).ports.Keys == tokensMap.Keys
      ensures View() == ReaderQueue.ReturnTokens(old(View()), port, count, disableTokens)
    {
      hide Linked, View, WellFormed;
      SameKeys();
      ReturnTokensKeeps(View(), port, count, disableTokens);
      var entry := Lookup(port);
      var wasReady := entry.IsReady();
      ghost var was := entry.State();
      if !disableTokens {
        SetEntry(entry, entry.isReading, entry.tokenCount + count);
      }
      assert View().ports == old(View()).ports[port := entry.State()];
      if !wasReady && entry.IsReady() {
        AddReader(entry);
      }
    }

    method Insert(entry: PortEntry)
      requires Linked() && entry.port !in tokensMap && entry !in tokensMap.Values
      modifies this
      ensures Linked() && tokensMap == old(tokensMap)[entry.port := entry]
      ensures View() == old(View()).(ports := old(View()).ports[entry.port := entry.State()])
    {
      tokensMap := tokensMap[entry.port := entry];
      assert View().ports == old(View()).ports[entry.port := entry.State()];
    }

    method Lookup(port: Port) returns (entry: PortEntry)
      requires Linked() && port in tokensMap
      ensures entry == tokensMap[port] && entry.port == port && entry in tokensMap.Values
      ensures View().ports[port] == entry.State()
    {
      entry := tokensMap[port];
    }
  }

  /**
   Tells the readers of a listening socket about its queued connections, on Windows: one
   notification a connection, as long as there is a reader.
   */
  method TryDispatchingPendingAccepts(info: DescriptorInfoMultiple, isClosing: bool, acceptedCount: nat)
    returns (posted: seq<Port>)
    requires info.Valid() && info.disableTokens
    modifies info.activeReaders, info.activeReaders.repr, info.tokensMap.Values
    ensures info.Valid()
    ensures posted == if isClosing then [] else Fairness.Dispatched(old(info.View()), acceptedCount)
  {
    hide DescriptorInfoMultiple.Linked, DescriptorInfoMultiple.View, WellFormed;
    posted := [];
    if !isClosing && acceptedCount > 0 {
      var i := 0;
      var inEvent := info.Mask();
      while i < acceptedCount && inEvent
        invariant 0 <= i <= acceptedCount && info.Valid() && (inEvent <==> HasReader(info.View()))
        invariant info.tokensMap == old(info.tokensMap) && info.activeReaders.repr == old(info.activeReaders.repr)
        invariant posted + Fairness.Dispatched(info.View(), acceptedCount - i)
               == Fairness.Dispatched(old(info.View()), acceptedCount)
      {
        var port := info.NextNotifyDartPort();
        ghost var rest := Fairness.Dispatched(info.View(), acceptedCount - i - 1);
        assert posted + ([port] + rest) == (posted + [port]) + rest;
        posted := posted + [port];
        i := i + 1;
        inEvent := info.Mask();
      }
      assert posted + [] == posted;
    }
  }

  // ---------- Broadcasting, one port after the other ----------

  ghost function SpendSome(ports: map<Port, PortState>, done: set<Port>, disableTokens: bool): map<Port, PortState> {
    map p | p in ports :: if p in done then ports[p].Spend(disableTokens) else ports[p]
  }

  lemma {:induction false} KeepReadyAll(active: seq<Port>, ports: map<Port, PortState>)
    requires forall i :: 0 <= i < |active| ==> active[i] in ports && ports[active[i]].Ready()
    ensures KeepReady(active, ports) == active
  {
    if active != [] {
      assert active[0] in active;
      KeepReadyAll(active[1..], ports);
    }
  }

  /** A port that stops being ready leaves the queue; the order of the others stays. */
  lemma {:induction false} KeepReadyStep(active: seq<Port>, ports: map<Port, PortState>, p: Port, now: PortState)
    requires NoDuplicates(active) && p in ports && (now.Ready() ==> ports[p].Ready())
    ensures var kept := KeepReady(active, ports);
            KeepReady(active, ports[p := now]) == if ports[p].Ready() && !now.Ready() then Without(kept, p) else kept
  {
    if active != [] {
      KeepReadyStep(active[1..], ports, p, now);
      if active[0] == p {
        assert p !in active[1..];
        assert p !in KeepReady(active[1..], ports);
      }
    }
  }

  lemma PortsTurned(entries: seq<PortEntry>)
    requires entries != []
    ensures PortsOf(entries[1..]) == PortsOf(entries)[1..]
    ensures PortsOf(entries[1..] + [entries[0]]) == PortsOf(entries)[1..] + [PortsOf(entries)[0]]
  {
  }

  lemma NotActive(r: Readers, port: Port)
    requires WellFormed(r)
    ensures port !in r.ports || !r.ports[port].Ready() ==> port !in r.active
    ensures port !in Without(r.active, port)
  {
    WithoutKeeps(r.active, port);
  }

  lemma ActiveKnown(r: Readers)
    requires WellFormed(r)
    ensures forall i :: 0 <= i < |r.active| ==> r.active[i] in r.ports
  {
  }

  lemma SpendNone(r: Readers, disableTokens: bool)
    requires WellFormed(r)
    ensures SpentReaders(r, [], disableTokens) == r
  {
    KeepReadyAll(r.active, r.ports);
    assert SpendSome(r.ports, SetOf([]), disableTokens) == r.ports;
  }

  /** The readers after the broadcast has reached the given ports. */
  ghost function SpentReaders(r: Readers, done: seq<Port>, disableTokens: bool): Readers {
    var ports := SpendSome(r.ports, SetOf(done), disableTokens);
    Readers(ports, KeepReady(r.active, ports))
  }

  lemma SpendOne(r: Readers, order: seq<Port>, i: nat, disableTokens: bool)
    requires WellFormed(r) && i < |order| && order[i] in r.ports && order[i] !in SetOf(order[..i])
    requires SetOf(order[..i + 1]) == SetOf(order[..i]) + {order[i]}
    ensures var before, port := SpentReaders(r, order[..i], disableTokens), order[i];
            && port in before.ports
            && var was, now := before.ports[port], before.ports[port].Spend(disableTokens);
            SpentReaders(r, order[..i + 1], disableTokens)
            == Readers(before.ports[port := now],
                       if was.Ready() && now.tokens <= 0 then Without(before.active, port) else before.active)
  {
    hide KeepReady, SetOf;
    var ports, port := SpendSome(r.ports, SetOf(order[..i]), disableTokens), order[i];
    var now := ports[port].Spend(disableTokens);
    KeepReadyStep(r.active, ports, port, now);
    assert SpendSome(r.ports, SetOf(order[..i + 1]), disableTokens) == ports[port := now];
  }

  lemma SpentAll(r: Readers, order: seq<Port>, disableTokens: bool)
    requires Enumerates(order, r.ports.Keys)
    ensures SpentReaders(r, order, disableTokens) == NotifyAll(r, disableTokens)
  {
    assert SpendSome(r.ports, SetOf(order), disableTokens) == SpendAll(r.ports, disableTokens);
  }

  ghost function SetOf(s: seq<Port>): set<Port> {
    if s == [] then {} else SetOf(s[..|s| - 1]) + {s[|s| - 1]}
  }

  lemma SetOfNone()
    ensures SetOf([]) == {}
  {
  }

  lemma NoneLeft(s: seq<Port>, all: set<Port>)
    requires forall k :: 0 <= k < |s| ==> s[k] in all
    ensures s != [] ==> all != {}
  {
    if s != [] {
      assert s[0] in all;
    }
  }

  /** The order in which the map is walked: every port once. */
  ghost predicate Enumerates(order: seq<Port>, ports: set<Port>) {
    NoDuplicates(order) && SetOf(order) == ports
  }

  lemma {:induction false} NextInOrder(order: seq<Port>, ports: set<Port>, i: nat)
    requires Enumerates(order, ports) && i < |order|
    ensures order[i] in ports && order[i] !in SetOf(order[..i])
    ensures SetOf(order[..i + 1]) == SetOf(order[..i]) + {order[i]}
  {
    SetOfHas(order, i);
    SetOfLacks(order[..i], order[i]);
    assert order[..i + 1][..i] == order[..i];
  }

  lemma {:induction false} SetOfHas(s: seq<Port>, i: nat)
    requires i < |s|
    ensures s[i] in SetOf(s)
  {
    if i < |s| - 1 {
      SetOfHas(s[..|s| - 1], i);
    }
  }

  lemma {:induction false} SetOfLacks(s: seq<Port>, p: Port)
    requires forall k :: 0 <= k < |s| ==> s[k] != p
    ensures p !in SetOf(s)
  {
    if s != [] {
      SetOfLacks(s[..|s| - 1], p);
    }
  }

  lemma {:induction false} WithoutSubset(s: seq<PortEntry>, x: PortEntry)
    ensures forall e :: e in Without(s, x) ==> e in s
  {
    if s != [] {
      WithoutSubset(s[1..], x);
    }
  }
}
