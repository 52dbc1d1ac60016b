/** The interrupt pipe: how a message is spelled, and why a read yields whole messages in order. */
module InterruptPipes {
  import opened Options
  import opened Words
  import opened Descriptors
  import opened EventHandlerState

  // ---------- Bits ----------

  /** The bits of either number. */
  function Or(a: nat, b: nat): nat {
    if a == 0 then b
    else if b == 0 then a
    else (if a % 2 == 1 || b % 2 == 1 then 1 else 0) + 2 * Or(a / 2, b / 2)
  }

  /** Bits that do not overlap add up. */
  lemma {:induction false} OrDisjoint(h: nat, k: nat, b: nat)
    requires b < Exp(k)
    ensures Or(h * Exp(k), b) == h * Exp(k) + b
    decreases k
  {
    if k > 0 && h > 0 && b > 0 {
      var high := h * Exp(k - 1);
      assert h * Exp(k) == 2 * high;
      OrDisjoint(h, k - 1, b / 2);
    }
  }

  // ---------- The data word of a message ----------

  const CLOSE_COMMAND := 0x100
  const SHUTDOWN_READ_COMMAND := 0x200
  const SHUTDOWN_WRITE_COMMAND := 0x400
  const RETURN_TOKEN_COMMAND := 0x800
  const SET_EVENT_MASK_COMMAND := 0x1000
  const LISTENING_SOCKET := 0x1_0000

  function MaskBits(mask: Mask): nat {
    (if InEvent in mask then 1 else 0) + (if OutEvent in mask then 2 else 0)
    + (if ErrorEvent in mask then 4 else 0) + (if CloseEvent in mask then 8 else 0)
  }

  function MaskOfBits(bits: nat): Mask {
    (if bits % 2 == 1 then {InEvent} else {}) + (if bits / 2 % 2 == 1 then {OutEvent} else {})
    + (if bits / 4 % 2 == 1 then {ErrorEvent} else {}) + (if bits / 8 % 2 == 1 then {CloseEvent} else {})
  }

  /** The numbers of the commands on the Dart side; the constants above are those of the handler. */
  function CommandBit(c: Command): nat {
    match c
    case Close => Exp(8)
    case ShutdownRead => Exp(9)
    case ShutdownWrite => Exp(10)
    case ReturnToken(_) => Exp(11)
    case SetEventMask(_) => Exp(12)
  }

  /** A mask, or a count of tokens, shares the word with the command. */
  function Payload(c: Command): nat {
    match c
    case SetEventMask(mask) => MaskBits(mask)
    case ReturnToken(count) => count
    case _ => 0
  }

  function TypeFlag(listening: bool): nat {
    if listening then Exp(16) else 0
  }

  /** The word that the Dart side sends. */
  function Data(c: Command, listening: bool): nat {
    Or(TypeFlag(listening), Or(CommandBit(c), Payload(c)))
  }

  /** What the handler makes of it: the bits of commands are 8 to 12, those of a count 0 to 7, of events 0 to 4. */
  function CommandOf(data: nat): Option<Command> {
    Understood(data / 0x100 % 0x20 * 0x100, data % 0x100, data % 0x20)
  }

  /** In the order of its tests. */
  function Understood(command: nat, count: nat, events: nat): Option<Command> {
    if command == SHUTDOWN_READ_COMMAND then Some(ShutdownRead)
    else if command == SHUTDOWN_WRITE_COMMAND then Some(ShutdownWrite)
    else if command == CLOSE_COMMAND then Some(Close)
    else if command == RETURN_TOKEN_COMMAND then Some(ReturnToken(count))
    else if command == SET_EVENT_MASK_COMMAND then Some(SetEventMask(MaskOfBits(events)))
    else None
  }

  predicate ListeningOf(data: nat) {
    data / LISTENING_SOCKET % 2 == 1
  }

  lemma MaskRoundTrip(mask: Mask)
    ensures MaskOfBits(MaskBits(mask)) == mask
    ensures MaskBits(mask) < 16
  {
    forall e: Event ensures e in MaskOfBits(MaskBits(mask)) <==> e in mask {
      match e
      case InEvent =>
      case OutEvent =>
      case ErrorEvent =>
      case CloseEvent =>
    }
  }

  lemma ExpFacts()
    ensures Exp(8) == CLOSE_COMMAND && Exp(9) == SHUTDOWN_READ_COMMAND && Exp(10) == SHUTDOWN_WRITE_COMMAND
    ensures Exp(11) == RETURN_TOKEN_COMMAND && Exp(12) == SET_EVENT_MASK_COMMAND && Exp(16) == LISTENING_SOCKET
  {
    assert Exp(4) == 16;
    assert Exp(14) == 0x4000;
  }

  /** With a payload below the command bits, the parts of the word add up. */
  lemma DataSum(c: Command, listening: bool)
    requires Payload(c) < 0x100
    ensures Data(c, listening) == TypeFlag(listening) + CommandBit(c) + Payload(c)
  {
    hide Or, Exp;
    ExpFacts();
    OrDisjoint(CommandBit(c) / 0x100, 8, Payload(c));
    OrDisjoint(if listening then 1 else 0, 16, CommandBit(c) + Payload(c));
  }

  /**
   A command is understood as it was meant, from a listening socket or not, exactly when a count of
   tokens stays below the command bits.
   */
  lemma CommandRoundTrip(c: Command, listening: bool)
    ensures CommandOf(Data(c, listening)) == Some(c) && ListeningOf(Data(c, listening)) == listening
       <==> (c.ReturnToken? ==> c.count < MAX_COUNT)
  {
    hide Data, MaskBits, MaskOfBits, Exp, CommandOf, ListeningOf;
    if c.ReturnToken? ==> c.count < MAX_COUNT {
      ExpFacts();
      if c.SetEventMask? {
        MaskRoundTrip(c.mask);
      }
      DataSum(c, listening);
      WordParts(listening, CommandBit(c), Payload(c));
    } else {
      CountTooLarge(Data(c, listening), c.count);
    }
  }

  /** How the handler reads a word whose parts do not overlap. */
  lemma WordParts(listening: bool, command: nat, payload: nat)
    requires command % 0x100 == 0 && command < 0x2000 && payload < 0x100
    ensures var data := (if listening then LISTENING_SOCKET else 0) + command + payload;
            CommandOf(data) == Understood(command, payload, payload % 0x20) && ListeningOf(data) == listening
  {
    hide Understood;
    var data, k := (if listening then LISTENING_SOCKET else 0) + command + payload, command / 0x100;
    assert command == 0x100 * k && k < 0x20;
    assert data / 0x100 == (if listening then 0x100 else 0) + k && data % 0x100 == payload;
    assert data / 0x100 % 0x20 == k;
    assert data % 0x20 == payload % 0x20;
  }

  lemma CountTooLarge(data: nat, count: nat)
    requires count >= MAX_COUNT
    ensures CommandOf(data) != Some(ReturnToken(count))
  {
  }

  // ---------- A message as three words ----------

  const TIMER_ID: Word := WORD_LIMIT - 1
  const SHUTDOWN_ID: Word := WORD_LIMIT - 2

  datatype InterruptMessage = InterruptMessage(id: Word, port: Word, data: Word)

  function Spelling(m: Message, listening: bool): InterruptMessage {
    match m
    case SocketMessage(a, port, command) => InterruptMessage(Wrap(a), Wrap(port), Wrap(Data(command, listening)))
    case TimerMessage(port, deadline) => InterruptMessage(TIMER_ID, Wrap(port), Wrap(deadline))
    case ShutdownMessage => InterruptMessage(SHUTDOWN_ID, 0, 0)
  }

  function MessageOf(w: InterruptMessage): Option<Message> {
    if w.id == TIMER_ID then Some(TimerMessage(Signed(w.port), Signed(w.data)))
    else if w.id == SHUTDOWN_ID then Some(ShutdownMessage)
    else match CommandOf(w.data)
         case Some(command) => Some(SocketMessage(Signed(w.id), Signed(w.port), command))
         case None => None
  }

  /** Every message that may be sent is understood as it was meant. */
  lemma SpellingRoundTrip(m: Message, listening: bool)
    requires Spellable(m)
    ensures MessageOf(Spelling(m, listening)) == Some(m)
    ensures m.SocketMessage? ==> ListeningOf(Spelling(m, listening).data) == listening
  {
    hide Wrap, Signed, CommandOf, Data;
    match m
    case SocketMessage(a, port, command) =>
      SignedWrap(a);
      SignedWrap(port);
      MarkersRead();
      CommandRoundTrip(command, listening);
      DataFits(command, listening);
    case TimerMessage(port, deadline) =>
      SignedWrap(port);
      SignedWrap(deadline);
    case ShutdownMessage =>
  }

  lemma MarkersRead()
    ensures Signed(TIMER_ID) == -1 && Signed(SHUTDOWN_ID) == -2
  {
  }

  lemma DataFits(c: Command, listening: bool)
    requires c.ReturnToken? ==> c.count < MAX_COUNT
    ensures Wrap(Data(c, listening)) == Data(c, listening)
  {
    hide Data, MaskBits, MaskOfBits, Exp, Wrap;
    ExpFacts();
    if c.SetEventMask? {
      MaskRoundTrip(c.mask);
    }
    DataSum(c, listening);
    NoWrap(Data(c, listening));
  }

  // ---------- Messages as bytes ----------

  type Byte = x: int | 0 <= x < 256

  const MESSAGE_SIZE := 24

  /** Least significant byte first. */
  function Bytes(x: nat, n: nat): (r: seq<Byte>)
    ensures |r| == n
    decreases n
  {
    if n == 0 then [] else [x % 256] + Bytes(x / 256, n - 1)
  }

  function Number(bytes: seq<Byte>): nat {
    if bytes == [] then 0 else bytes[0] + 256 * Number(bytes[1..])
  }

  function Power(n: nat): nat {
    if n == 0 then 1 else 256 * Power(n - 1)
  }

  lemma {:induction false} NumberOfBytes(x: nat, n: nat)
    requires x < Power(n)
    ensures Number(Bytes(x, n)) == x
    decreases n
  {
    if n > 0 {
      NumberOfBytes(x / 256, n - 1);
      assert Bytes(x, n)[1..] == Bytes(x / 256, n - 1);
    }
  }

  function Encode(m: InterruptMessage): (r: seq<Byte>)
    ensures |r| == MESSAGE_SIZE
  {
    Bytes(m.id, 8) + Bytes(m.port, 8) + Bytes(m.data, 8)
  }

  function Decode(bytes: seq<Byte>): InterruptMessage
    requires |bytes| == MESSAGE_SIZE
  {
    InterruptMessage(Number(bytes[..8]) % WORD_LIMIT, Number(bytes[8..16]) % WORD_LIMIT, Number(bytes[16..]) % WORD_LIMIT)
  }

  lemma MessageRoundTrip(m: InterruptMessage)
    ensures Decode(Encode(m)) == m
  {
    hide Bytes, Number;
    var r := Encode(m);
    assert r[..8] == Bytes(m.id, 8) && r[8..16] == Bytes(m.port, 8) && r[16..] == Bytes(m.data, 8);
    PowerEight();
    NumberOfBytes(m.id, 8);
    NumberOfBytes(m.port, 8);
    NumberOfBytes(m.data, 8);
  }

  lemma PowerEight()
    ensures Power(8) == WORD_LIMIT
  {
    assert Power(4) == 0x1_0000_0000;
    assert Power(6) == 0x1_0000_0000_0000;
  }

  // ---------- The pipe ----------

  function EncodeAll(messages: seq<InterruptMessage>): (r: seq<Byte>)
    ensures |r| == MESSAGE_SIZE * |messages|
  {
    if messages == [] then [] else Encode(messages[0]) + EncodeAll(messages[1..])
  }

  lemma {:induction false} EncodeAllConcat(a: seq<InterruptMessage>, b: seq<InterruptMessage>)
    ensures EncodeAll(a + b) == EncodeAll(a) + EncodeAll(b)
  {
    if a == [] {
      assert a + b == b;
    } else {
      assert (a + b)[1..] == a[1..] + b;
      EncodeAllConcat(a[1..], b);
    }
  }

  /** The bytes of the `i`-th message. */
  lemma MessageAt(messages: seq<InterruptMessage>, i: nat)
    requires i < |messages|
    ensures EncodeAll(messages)[MESSAGE_SIZE * i..MESSAGE_SIZE * i + MESSAGE_SIZE] == Encode(messages[i])
  {
    hide Encode, EncodeAll;
    ReadSplits(messages, i);
    ReadSplits(messages[i..], 1);
    EncodeOne(messages[i]);
    assert messages[i..][..1] == [messages[i]];
    var all, k := EncodeAll(messages), MESSAGE_SIZE * i;
    assert all[k..][..MESSAGE_SIZE] == all[k..k + MESSAGE_SIZE];
  }

  lemma EncodeOne(m: InterruptMessage)
    ensures EncodeAll([m]) == Encode(m)
  {
    assert [m][1..] == [];
  }

  class InterruptPipe {
    var bytes: seq<Byte>
    ghost var messages: seq<InterruptMessage>

    ghost predicate Valid()
      reads this
    {
      bytes == EncodeAll(messages)
    }

    constructor ()
      ensures Valid() && messages == []
    {
      bytes, messages := [], [];
    }

    /** A sender's write of one message; the kernel does not interleave writes this small. */
    method WakeupHandler(m: InterruptMessage)
      requires Valid()
      modifies this
      ensures Valid() && messages == old(messages) + [m]
    {
      hide Encode, EncodeAll;
      EncodeAllConcat(messages, [m]);
      EncodeOne(m);
      bytes := bytes + Encode(m);
      messages := messages + [m];
    }

    /** The handler's read: whole messages, the oldest ones, at most as many as a message has bytes. */
    method Read() returns (taken: seq<InterruptMessage>)
      requires Valid()
      modifies this
      ensures Valid() && old(messages) == taken + messages
      ensures |taken| == if |old(messages)| < MESSAGE_SIZE then |old(messages)| else MESSAGE_SIZE
    {
      hide Encode, EncodeAll, Decode;
      var size := if |bytes| < MESSAGE_SIZE * MESSAGE_SIZE then |bytes| else MESSAGE_SIZE * MESSAGE_SIZE;
      var buffer := bytes[..size];
      ghost var n := size / MESSAGE_SIZE;
      ReadSplits(messages, n);
      bytes := bytes[size..];
      messages := messages[n..];
      taken := [];
      var i := 0;
      while i < size / MESSAGE_SIZE
        invariant 0 <= i <= size / MESSAGE_SIZE == n <= |old(messages)|
        invariant taken == old(messages)[..i] && Valid() && messages == old(messages)[n..]
      {
        MessageAt(old(messages)[..n], i);
        MessageRoundTrip(old(messages)[i]);
        taken := taken + [Decode(buffer[MESSAGE_SIZE * i..MESSAGE_SIZE * i + MESSAGE_SIZE])];
        i := i + 1;
      }
    }
  }

  lemma ReadSplits(messages: seq<InterruptMessage>, n: nat)
    requires n <= |messages|
    ensures EncodeAll(messages)[..MESSAGE_SIZE * n] == EncodeAll(messages[..n])
    ensures EncodeAll(messages)[MESSAGE_SIZE * n..] == EncodeAll(messages[n..])
  {
    assert messages == messages[..n] + messages[n..];
    EncodeAllConcat(messages[..n], messages[n..]);
  }
}
