/**
 A descriptor together with its books: for every registered port the socket that registered it, the
 notifications it was sent (of which `broadcast` went to every port of the descriptor), and the
 tokens it gave back.
 */
module Ledger {
  import opened ReaderQueue
  import opened Descriptors

  datatype Account = Account(owner: int, sent: nat, broadcast: nat, returned: nat)

  datatype Entry = Entry(d: Descriptor, accounts: map<Port, Account>)

  /** The books balance: tokens held + notifications sent - tokens returned == initial tokens. */
  ghost predicate Balanced(d: Descriptor, port: Port, a: Account)
    requires Registered(d, port)
  {
    && Tokens(d, port) + a.sent - a.returned == InitialTokens(d)
    && (d.Single? ==> Tokens(d, port) >= 0)
    && Tokens(d, port) + a.broadcast >= 0
  }

  ghost predicate EntryOk(e: Entry) {
    && Sound(e.d)
    && (forall p :: p in e.accounts <==> Registered(e.d, p))
    && (forall p :: p in e.accounts ==> Balanced(e.d, p, e.accounts[p]))
  }

  /** A single-port descriptor that no socket has registered with is unused. */
  ghost predicate Unspoilt(e: Entry) {
    e.d.Single? && e.d.port == ILLEGAL_PORT ==> e.d.tokens == SINGLE_TOKEN_COUNT
  }

  /** Notifications of the port whose tokens have not come back. */
  function Outstanding(e: Entry, port: Port): int {
    if port in e.accounts then e.accounts[port].sent - e.accounts[port].returned else 0
  }

  // ---------- Operations ----------

  function NewEntry(listening: bool): Entry {
    Entry(NewDescriptor(listening), map[])
  }

  function Register(e: Entry, owner: int, port: Port, mask: Mask): Entry {
    Entry(SetPortAndMask(e.d, port, mask),
          if port in e.accounts then e.accounts else e.accounts[port := Account(owner, 0, 0, 0)])
  }

  function Deregister(e: Entry, port: Port): Entry {
    Entry(Descriptors.RemovePort(e.d, port), e.accounts - {port})
  }

  function GiveBack(e: Entry, port: Port, count: nat): Entry
    requires Registered(e.d, port) && port in e.accounts
  {
    var a := e.accounts[port];
    Entry(Descriptors.ReturnTokens(e.d, port, count), e.accounts[port := a.(returned := a.returned + count)])
  }

  function Notify(e: Entry): Entry
    requires CanNotify(e.d) && NextPort(e.d) in e.accounts
  {
    var a := e.accounts[NextPort(e.d)];
    Entry(Descriptors.NotifyNext(e.d), e.accounts[NextPort(e.d) := a.(sent := a.sent + 1)])
  }

  function Broadcast(e: Entry): Entry {
    Entry(Descriptors.NotifyAll(e.d),
          map p | p in e.accounts ::
            e.accounts[p].(sent := e.accounts[p].sent + 1, broadcast := e.accounts[p].broadcast + 1))
  }

  // ---------- Every operation keeps the books ----------

  lemma NewEntryOk(listening: bool)
    ensures EntryOk(NewEntry(listening)) && Unspoilt(NewEntry(listening))
    ensures MaskOf(NewEntry(listening).d) == {} && NewEntry(listening).d.Multiple? == listening
  {
    NewDescriptorSound(listening);
  }

  lemma RegisterOk(e: Entry, owner: int, port: Port, mask: Mask)
    requires EntryOk(e) && Unspoilt(e) && port != ILLEGAL_PORT && AcceptsMask(e.d, mask)
    requires e.d.Single? ==> e.d.port == ILLEGAL_PORT || e.d.port == port
    ensures var f := Register(e, owner, port, mask);
            && EntryOk(f) && Unspoilt(f) && f.d.Single? == e.d.Single?
            && f.accounts.Keys == e.accounts.Keys + {port}
            && (forall p :: p in e.accounts ==> f.accounts[p] == e.accounts[p])
            && (port !in e.accounts ==> f.accounts[port] == Account(owner, 0, 0, 0))
  {
    SetPortAndMaskSound(e.d, port, mask);
  }

  lemma DeregisterOk(e: Entry, port: Port)
    requires EntryOk(e) && (e.d.Single? ==> e.d.port == ILLEGAL_PORT || e.d.port == port)
    ensures var f := Deregister(e, port);
            && EntryOk(f) && f.d.Single? == e.d.Single? && f.accounts == e.accounts - {port}
            && (e.d.Multiple? ==> Unspoilt(f))
  {
    RemovePortSound(e.d, port);
  }

  lemma GiveBackOk(e: Entry, port: Port, count: nat)
    requires EntryOk(e) && Unspoilt(e) && port in e.accounts
    ensures var f := GiveBack(e, port, count);
            && EntryOk(f) && Unspoilt(f) && f.d.Single? == e.d.Single? && f.accounts.Keys == e.accounts.Keys
            && (forall p :: p in e.accounts && p != port ==> f.accounts[p] == e.accounts[p])
            && f.accounts[port] == e.accounts[port].(returned := e.accounts[port].returned + count)
  {
    ReturnTokensSound(e.d, port, count);
  }

  /** A descriptor with a mask notifies a registered port that has tokens. */
  lemma NotifyOk(e: Entry)
    requires EntryOk(e) && Unspoilt(e) && MaskOf(e.d) != {}
    ensures CanNotify(e.d) && NextPort(e.d) != ILLEGAL_PORT
    ensures NextPort(e.d) in e.accounts && Tokens(e.d, NextPort(e.d)) > 0
    ensures Evolved(e, Notify(e)) && EntryOk(Notify(e)) && Unspoilt(Notify(e))
  {
    NextPortReady(e.d);
    NotifyNextSound(e.d);
  }

  lemma BroadcastOk(e: Entry)
    requires EntryOk(e) && MaskOf(e.d) != {}
    ensures Evolved(e, Broadcast(e)) && EntryOk(Broadcast(e)) && Unspoilt(Broadcast(e))
  {
    NotifyAllSound(e.d);
  }

  /** The same registrations, with at least as many notifications. */
  ghost predicate Evolved(e: Entry, f: Entry) {
    && f.d.Single? == e.d.Single?
    && f.accounts.Keys == e.accounts.Keys
    && forall p :: p in e.accounts ==>
                     && f.accounts[p].owner == e.accounts[p].owner
                     && f.accounts[p].sent >= e.accounts[p].sent
                     && f.accounts[p].returned == e.accounts[p].returned
  }

  /** An entry without accounts asks for nothing. */
  lemma NoAccountsNoMask(e: Entry)
    requires EntryOk(e) && e.accounts == map[]
    ensures MaskOf(e.d) == {}
  {
    NoPortsNoMask(e.d);
  }
}
