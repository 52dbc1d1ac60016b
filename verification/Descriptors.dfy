/**
 Descriptors as values: `DescriptorInfoSingleMixin`, connected to one port, and
 `DescriptorInfoMultipleMixin`, with its queue of readers; tokens are in use.
 */
module Descriptors {
  import opened ReaderQueue

  datatype Event = InEvent | OutEvent | ErrorEvent | CloseEvent

  type Mask = set<Event>

  /** The tokens of a new descriptor with a single port. */
  const SINGLE_TOKEN_COUNT := 16

  datatype Descriptor =
    | Single(port: Port, tokens: int, mask: Mask)
    | Multiple(readers: Readers)

  function NewDescriptor(listening: bool): Descriptor {
    if listening then Multiple(Readers(map[], [])) else Single(ILLEGAL_PORT, SINGLE_TOKEN_COUNT, {})
  }

  ghost predicate Sound(d: Descriptor) {
    match d
    case Single(port, _, mask) => (mask != {} ==> port != ILLEGAL_PORT) && mask <= {InEvent, OutEvent}
    case Multiple(r) => WellFormed(r)
  }

  /** Whether a port has asked for events. */
  predicate Registered(d: Descriptor, port: Port) {
    match d
    case Single(p, _, _) => p == port != ILLEGAL_PORT
    case Multiple(r) => port in r.ports
  }

  function Tokens(d: Descriptor, port: Port): int
    requires Registered(d, port)
  {
    match d
    case Single(_, tokens, _) => tokens
    case Multiple(r) => r.ports[port].tokens
  }

  function InitialTokens(d: Descriptor): int {
    if d.Single? then SINGLE_TOKEN_COUNT else ReaderQueue.TOKEN_COUNT
  }

  /** The events to ask the system for: none for ports without tokens. */
  function MaskOf(d: Descriptor): Mask {
    match d
    case Single(_, tokens, mask) => if tokens <= 0 then {} else mask
    case Multiple(r) => if HasReader(r) then {InEvent} else {}
  }

  // ---------- Operations ----------

  predicate AcceptsMask(d: Descriptor, mask: Mask) {
    if d.Single? then mask <= {InEvent, OutEvent} else mask == {InEvent} || mask == {}
  }

  function SetPortAndMask(d: Descriptor, port: Port, mask: Mask): Descriptor {
    match d
    case Single(_, tokens, _) => Single(port, tokens, mask)
    case Multiple(r) => Multiple(SetPort(r, port, mask == {InEvent}))
  }

  function RemovePort(d: Descriptor, port: Port): Descriptor {
    match d
    case Single(_, tokens, _) => Single(ILLEGAL_PORT, tokens, {})
    case Multiple(r) => Multiple(ReaderQueue.RemovePort(r, port))
  }

  function ReturnTokens(d: Descriptor, port: Port, count: nat): Descriptor
    requires Registered(d, port)
  {
    match d
    case Single(p, tokens, mask) => Single(p, tokens + count, mask)
    case Multiple(r) => Multiple(ReaderQueue.ReturnTokens(r, port, count, false))
  }

  predicate CanNotify(d: Descriptor) {
    d.Single? || (d.readers.active != [] && d.readers.active[0] in d.readers.ports)
  }

  function NextPort(d: Descriptor): Port
    requires CanNotify(d)
  {
    if d.Single? then d.port else d.readers.active[0]
  }

  function NotifyNext(d: Descriptor): Descriptor
    requires CanNotify(d)
  {
    match d
    case Single(p, tokens, mask) => Single(p, tokens - 1, mask)
    case Multiple(r) => Multiple(ReaderQueue.NotifyNext(r, false))
  }

  function NotifyAll(d: Descriptor): Descriptor {
    match d
    case Single(p, tokens, mask) => Single(p, tokens - 1, mask)
    case Multiple(r) => Multiple(ReaderQueue.NotifyAll(r, false))
  }

  // ---------- What each operation does to soundness, registrations and tokens ----------

  lemma NewDescriptorSound(listening: bool)
    ensures Sound(NewDescriptor(listening)) && MaskOf(NewDescriptor(listening)) == {}
    ensures forall p :: !Registered(NewDescriptor(listening), p)
  {
  }

  lemma SetPortAndMaskSound(d: Descriptor, port: Port, mask: Mask)
    requires Sound(d) && port != ILLEGAL_PORT && AcceptsMask(d, mask)
    requires d.Single? ==> d.port == ILLEGAL_PORT || d.port == port
    ensures var e := SetPortAndMask(d, port, mask);
            && Sound(e) && e.Single? == d.Single?
            && (forall p :: Registered(e, p) <==> p == port || Registered(d, p))
            && (forall p :: Registered(d, p) ==> Tokens(e, p) == Tokens(d, p))
            && (!Registered(d, port) ==> Tokens(e, port) == if d.Single? then d.tokens else ReaderQueue.TOKEN_COUNT)
            && (d.Single? ==> MaskOf(e) == if d.tokens > 0 then mask else {})
            && (d.Multiple? && mask == {InEvent} && Tokens(e, port) > 0 ==> MaskOf(e) == {InEvent})
  {
    if d.Multiple? {
      SetPortKeeps(d.readers, port, mask == {InEvent});
      var r := SetPort(d.readers, port, mask == {InEvent});
      assert mask == {InEvent} && r.ports[port].tokens > 0 ==> r.ports[port].Ready();
    }
  }

  lemma RemovePortSound(d: Descriptor, port: Port)
    requires Sound(d) && (d.Single? ==> d.port == ILLEGAL_PORT || d.port == port)
    ensures var e := RemovePort(d, port);
            && Sound(e) && e.Single? == d.Single?
            && (forall p :: Registered(e, p) <==> p != port && Registered(d, p))
            && (forall p :: Registered(e, p) ==> Tokens(e, p) == Tokens(d, p))
            && (d.Single? ==> MaskOf(e) == {})
  {
    if d.Multiple? {
      RemovePortKeeps(d.readers, port);
    }
  }

  lemma ReturnTokensSound(d: Descriptor, port: Port, count: nat)
    requires Sound(d) && Registered(d, port)
    ensures var e := ReturnTokens(d, port, count);
            && Sound(e) && e.Single? == d.Single?
            && (forall p :: Registered(e, p) <==> Registered(d, p))
            && (forall p :: Registered(d, p) ==> Tokens(e, p) == Tokens(d, p) + if p == port then count else 0)
  {
    if d.Multiple? {
      ReturnTokensKeeps(d.readers, port, count, false);
    }
  }

  /** A descriptor with a mask has a registered port to notify, and that port has tokens left. */
  lemma NextPortReady(d: Descriptor)
    requires Sound(d) && MaskOf(d) != {}
    ensures CanNotify(d) && Registered(d, NextPort(d)) && NextPort(d) != ILLEGAL_PORT && Tokens(d, NextPort(d)) > 0
  {
  }

  lemma NotifyNextSound(d: Descriptor)
    requires Sound(d) && CanNotify(d) && Registered(d, NextPort(d))
    ensures var e := NotifyNext(d);
            && Sound(e) && e.Single? == d.Single?
            && (forall p :: Registered(e, p) <==> Registered(d, p))
            && (forall p :: Registered(d, p) ==> Tokens(e, p) == Tokens(d, p) - if p == NextPort(d) then 1 else 0)
  {
    if d.Multiple? {
      NotifyNextKeeps(d.readers, false);
    }
  }

  lemma NotifyAllSound(d: Descriptor)
    requires Sound(d)
    ensures var e := NotifyAll(d);
            && Sound(e) && e.Single? == d.Single?
            && (forall p :: Registered(e, p) <==> Registered(d, p))
            && (forall p :: Registered(d, p) ==> Tokens(e, p) == Tokens(d, p) - 1)
  {
    if d.Multiple? {
      NotifyAllKeeps(d.readers, false);
    }
  }

  /** With no port left, there is nothing to ask the system for. */
  lemma NoPortsNoMask(d: Descriptor)
    requires Sound(d) && forall p :: !Registered(d, p)
    ensures MaskOf(d) == {}
  {
    if d.Multiple? && d.readers.active != [] {
      assert Registered(d, d.readers.active[0]);
    } else if d.Single? {
      assert !Registered(d, d.port);
    }
  }
}
