/**
 Edge-triggered events from level-triggered signals on Fuchsia. The enable flags of a handle are
 changed by the thread of the event handler and by Dart threads, each time under the handle's mutex;
 so a run is any interleaving of the actions below.
 */
module EdgeTrigger {
  import opened Descriptors
  import opened Polling

  // ---------- The handle ----------

  datatype Handle = Handle(writeEnabled: bool, readEnabled: bool, closeEnabled: bool, available: int)

  /** What happens to a handle under its mutex; results of system calls are parameters. */
  datatype Action =
    | Read(bytes: int)
    | Write(bytes: int)
    | Accept(socket: int)
    | AvailableBytes(bytes: int)
    | Toggle(mask: Mask, bytes: int)

  function AfterRead(h: Handle, bytes: int): Handle {
    var left := if bytes <= 0 then h.available else if h.available >= bytes then h.available - bytes else 0;
    h.(available := left, readEnabled := h.readEnabled || left == 0 || bytes < 0)
  }

  /** The events that `ToggleEvents` lets through. */
  function Asserted(h: Handle, mask: Mask): Mask {
    mask - (if h.writeEnabled then {} else {OutEvent})
    - (if h.readEnabled then {} else {InEvent})
    - (if h.closeEnabled then {} else {CloseEvent})
  }

  /** Whether it suppresses further read events; a close event counts even if it is not let through. */
  predicate DisablesRead(h: Handle, mask: Mask, bytes: int) {
    InEvent in Asserted(h, mask) && (bytes != 0 || CloseEvent in mask)
  }

  function AfterToggle(h: Handle, mask: Mask, bytes: int): Handle {
    h.(writeEnabled := h.writeEnabled && OutEvent !in mask,
                       readEnabled := h.readEnabled && !DisablesRead(h, mask, bytes),
                                      closeEnabled := h.closeEnabled && CloseEvent !in mask)
  }

  function Do(h: Handle, a: Action): Handle {
    match a
    case Read(bytes) => AfterRead(h, bytes)
    case Write(_) => h.(writeEnabled := true)
    case Accept(_) => h.(readEnabled := true)
    case AvailableBytes(bytes) => h.(available := if bytes < 0 then 1 else bytes)
    case Toggle(mask, bytes) => AfterToggle(h, mask, bytes)
  }

  function After(h: Handle, actions: seq<Action>): Handle
    decreases |actions|
  {
    if actions == [] then h else After(Do(h, actions[0]), actions[1..])
  }

  /** The events let through by an action. */
  function Shown(h: Handle, a: Action): Mask {
    if a.Toggle? then Asserted(h, a.mask) else {}
  }

  lemma {:induction false} AfterSplit(h: Handle, actions: seq<Action>, i: nat)
    requires i <= |actions|
    ensures After(h, actions) == After(After(h, actions[..i]), actions[i..])
    decreases i
  {
    if i == 0 {
      assert actions[..0] == [] && actions[0..] == actions;
    } else {
      AfterSplit(Do(h, actions[0]), actions[1..], i - 1);
      assert actions[1..][..i - 1] == actions[..i][1..] && actions[1..][i - 1..] == actions[i..];
    }
  }

  // ---------- Suppressed events stay suppressed ----------

  /** A read that fails, or that leaves nothing of what was available. */
  predicate Drains(h: Handle, bytes: int) {
    bytes < 0 || h.available == 0 || (bytes > 0 && h.available <= bytes)
  }

  /** An action that makes read events possible again. */
  predicate EnablesRead(h: Handle, a: Action) {
    a.Accept? || (a.Read? && Drains(h, a.bytes))
  }

  lemma {:induction false} OutStaysOff(h: Handle, actions: seq<Action>)
    requires !h.writeEnabled
    requires forall k :: 0 <= k < |actions| ==> !actions[k].Write?
    ensures !After(h, actions).writeEnabled
    decreases |actions|
  {
    if actions != [] {
      OutStaysOff(Do(h, actions[0]), actions[1..]);
    }
  }

  lemma {:induction false} CloseStaysOff(h: Handle, actions: seq<Action>)
    requires !h.closeEnabled
    ensures !After(h, actions).closeEnabled
    decreases |actions|
  {
    if actions != [] {
      CloseStaysOff(Do(h, actions[0]), actions[1..]);
    }
  }

  lemma {:induction false} InStaysOff(h: Handle, actions: seq<Action>)
    requires !h.readEnabled
    requires forall k :: 0 <= k < |actions| ==> !EnablesRead(After(h, actions[..k]), actions[k])
    ensures !After(h, actions).readEnabled
    decreases |actions|
  {
    if actions != [] {
      assert actions[..0] == [] && !EnablesRead(After(h, actions[..0]), actions[0]);
      forall k | 0 <= k < |actions| - 1
        ensures !EnablesRead(After(Do(h, actions[0]), actions[1..][..k]), actions[1..][k])
      {
        assert actions[..k + 1][1..] == actions[1..][..k];
        assert !EnablesRead(After(h, actions[..k + 1]), actions[k + 1]);
      }
      InStaysOff(Do(h, actions[0]), actions[1..]);
    }
  }

  /** The handle when the `i`-th action of a run is about to happen. */
  function At(h: Handle, actions: seq<Action>, i: nat): Handle
    requires i <= |actions|
  {
    After(h, actions[..i])
  }

  lemma AtNext(h: Handle, actions: seq<Action>, i: nat)
    requires i < |actions|
    ensures At(h, actions, i + 1) == Do(At(h, actions, i), actions[i])
  {
    AfterSplit(h, actions[..i + 1], i);
    assert actions[..i + 1][..i] == actions[..i] && actions[..i + 1][i..] == [actions[i]];
    assert [actions[i]][1..] == [];
  }

  lemma AtLater(h: Handle, actions: seq<Action>, i: nat, j: nat)
    requires i <= j <= |actions|
    ensures At(h, actions, j) == After(At(h, actions, i), actions[i..j])
  {
    AfterSplit(h, actions[..j], i);
    assert actions[..j][..i] == actions[..i] && actions[..j][i..] == actions[i..j];
  }

  /** Between two out events let through, a Dart thread has written. */
  lemma OutNeedsWrite(h: Handle, actions: seq<Action>, i: nat, j: nat)
    requires i < j < |actions|
    requires OutEvent in Shown(At(h, actions, i), actions[i]) && OutEvent in Shown(At(h, actions, j), actions[j])
    ensures exists k :: i < k < j && actions[k].Write?
  {
    AtNext(h, actions, i);
    AtLater(h, actions, i + 1, j);
    if forall k :: i < k < j ==> !actions[k].Write? {
      OutStaysOff(At(h, actions, i + 1), actions[i + 1..j]);
      assert false;
    }
  }

  /** A close event is let through at most once. */
  lemma CloseOnce(h: Handle, actions: seq<Action>, i: nat, j: nat)
    requires i < j < |actions|
    requires CloseEvent in Shown(At(h, actions, i), actions[i])
    ensures CloseEvent !in Shown(At(h, actions, j), actions[j])
  {
    AtNext(h, actions, i);
    AtLater(h, actions, i + 1, j);
    CloseStaysOff(At(h, actions, i + 1), actions[i + 1..j]);
  }

  /** After an in event that found bytes or a close, none is let through before an accept, a draining or a failing read. */
  lemma InNeedsRead(h: Handle, actions: seq<Action>, i: nat, j: nat)
    requires i < j < |actions| && actions[i].Toggle?
    requires DisablesRead(At(h, actions, i), actions[i].mask, actions[i].bytes)
    requires forall k :: i < k < j ==> !EnablesRead(At(h, actions, k), actions[k])
    ensures InEvent !in Shown(At(h, actions, j), actions[j])
  {
    AtNext(h, actions, i);
    AtLater(h, actions, i + 1, j);
    var rest := actions[i + 1..j];
    forall k | 0 <= k < |rest| ensures !EnablesRead(After(At(h, actions, i + 1), rest[..k]), rest[k]) {
      AtLater(h, actions, i + 1, i + 1 + k);
      assert actions[i + 1..i + 1 + k] == rest[..k];
      assert !EnablesRead(At(h, actions, i + 1 + k), actions[i + 1 + k]);
    }
    InStaysOff(At(h, actions, i + 1), rest);
  }

  // ---------- Exactly when an event is let through ----------

  /** An in event that is let through, with bytes to read or a close, suppresses further ones. */
  predicate SuppressesIn(h: Handle, a: Action) {
    a.Toggle? && InEvent in Shown(h, a) && (a.bytes != 0 || CloseEvent in a.mask)
  }

  /** What each action does to the flags. */
  lemma FlagsAfter(h: Handle, a: Action)
    ensures Do(h, a).readEnabled <==> EnablesRead(h, a) || (h.readEnabled && !SuppressesIn(h, a))
    ensures Do(h, a).writeEnabled <==> a.Write? || (h.writeEnabled && OutEvent !in Shown(h, a))
    ensures Do(h, a).closeEnabled <==> h.closeEnabled && CloseEvent !in Shown(h, a)
  {
  }

  /** Some position strictly between the two is marked. */
  ghost predicate Between(marks: seq<bool>, i: int, j: int) {
    exists k :: i < k < j && 0 <= k < |marks| && marks[k]
  }

  /** A flag that is on at the start, or set since, and set again after every time it was cleared. */
  ghost predicate Standing(start: bool, sets: seq<bool>, clears: seq<bool>, j: nat) {
    && (start || Between(sets, -1, j))
    && forall i :: 0 <= i < j && i < |clears| && clears[i] ==> Between(sets, i, j)
  }

  lemma BetweenNext(marks: seq<bool>, i: int, j: nat)
    requires i <= j < |marks|
    ensures Between(marks, i, j + 1) <==> Between(marks, i, j) || (i < j && marks[j])
  {
  }

  lemma {:induction false} FlagStands(flags: seq<bool>, sets: seq<bool>, clears: seq<bool>, j: nat)
    requires j < |flags| && |sets| == |clears| == |flags| - 1
    requires forall k :: 0 <= k < |sets| ==> (flags[k + 1] <==> sets[k] || (flags[k] && !clears[k]))
    requires forall k :: 0 <= k < |sets| ==> !(sets[k] && clears[k])
    ensures flags[j] <==> Standing(flags[0], sets, clears, j)
  {
    if j > 0 {
      FlagStands(flags, sets, clears, j - 1);
      forall i | -1 <= i < j
        ensures Between(sets, i, j) <==> Between(sets, i, j - 1) || (i < j - 1 && sets[j - 1])
      {
        BetweenNext(sets, i, j - 1);
      }
      assert flags[j] <==> sets[j - 1] || (flags[j - 1] && !clears[j - 1]);
      assert !Between(sets, j - 1, j);
    }
  }

  /** The actions of a run that enable an event, and those that suppress it. */
  ghost function Enabling(h: Handle, actions: seq<Action>, event: Event): seq<bool> {
    seq(|actions|, k requires 0 <= k < |actions| =>
      (event == InEvent && EnablesRead(At(h, actions, k), actions[k])) || (event == OutEvent && actions[k].Write?))
  }

  ghost function Suppressing(h: Handle, actions: seq<Action>, event: Event): seq<bool> {
    seq(|actions|, k requires 0 <= k < |actions| =>
      if event == InEvent then SuppressesIn(At(h, actions, k), actions[k])
      else event in Shown(At(h, actions, k), actions[k]))
  }

  predicate Allows(h: Handle, event: Event) {
    match event
    case InEvent => h.readEnabled
    case OutEvent => h.writeEnabled
    case CloseEvent => h.closeEnabled
    case ErrorEvent => true
  }

  /**
   In every run an in, out or close event is let through exactly if it is reported, and enabled at the start
   or since, and enabled again after every action that suppressed it. A close event is never enabled again.
   */
  lemma ShownExactly(h: Handle, actions: seq<Action>, event: Event, j: nat)
    requires j < |actions| && actions[j].Toggle? && event != ErrorEvent
    ensures event in Shown(At(h, actions, j), actions[j]) <==>
            && event in actions[j].mask
            && Standing(Allows(h, event), Enabling(h, actions, event), Suppressing(h, actions, event), j)
  {
    hide Standing;
    var flags := seq(|actions| + 1, k requires 0 <= k <= |actions| => Allows(At(h, actions, k), event));
    var sets, clears := Enabling(h, actions, event), Suppressing(h, actions, event);
    forall k | 0 <= k < |actions|
      ensures (flags[k + 1] <==> sets[k] || (flags[k] && !clears[k])) && !(sets[k] && clears[k])
    {
      AtNext(h, actions, k);
      FlagsAfter(At(h, actions, k), actions[k]);
    }
    FlagStands(flags, sets, clears, j);
    assert actions[..0] == [] && At(h, actions, 0) == h;
  }

  /** The bytes read by a run of actions. */
  function TotalRead(actions: seq<Action>): nat {
    if actions == [] then 0
    else (if actions[0].Read? && actions[0].bytes > 0 then actions[0].bytes else 0) + TotalRead(actions[1..])
  }

  /** What counts as available is what the system last said, less what has been read since. */
  lemma {:induction false} AvailableIsUnread(h: Handle, actions: seq<Action>)
    requires h.available >= 0 && forall k :: 0 <= k < |actions| ==> !actions[k].AvailableBytes?
    ensures After(h, actions).available == if TotalRead(actions) < h.available then h.available - TotalRead(actions) else 0
    decreases |actions|
  {
    if actions != [] {
      AvailableIsUnread(Do(h, actions[0]), actions[1..]);
    }
  }

  /** So a read lets in events through again exactly if it fails, or if all that the system said is there is read. */
  lemma ReadEnablesIff(h: Handle, n: int, actions: seq<Action>, bytes: int)
    requires forall k :: 0 <= k < |actions| ==> !actions[k].AvailableBytes?
    requires !After(Do(h, AvailableBytes(n)), actions).readEnabled
    ensures Do(After(Do(h, AvailableBytes(n)), actions), Read(bytes)).readEnabled <==>
            bytes < 0 || TotalRead(actions) + (if bytes > 0 then bytes else 0) >= if n < 0 then 1 else n
  {
    AvailableIsUnread(Do(h, AvailableBytes(n)), actions);
  }

  // ---------- What the system is asked to wait for ----------

  /** `MaskToEpollEvents`. */
  function SignalsFor(h: Handle, mask: Mask): set<Signal> {
    (if h.closeEnabled then {PollRdHup} else {})
    + (if h.readEnabled && InEvent in mask then {PollIn} else {})
    + (if h.writeEnabled && OutEvent in mask then {PollOut} else {})
  }

  /** What is waited for is what is wanted and would be let through; a close always is wanted. */
  lemma WaitsExactly(h: Handle, mask: Mask, signal: Signal)
    ensures signal in SignalsFor(h, mask) <==>
            || (signal == PollIn && InEvent in mask && InEvent in Asserted(h, {InEvent}))
            || (signal == PollOut && OutEvent in mask && OutEvent in Asserted(h, {OutEvent}))
            || (signal == PollRdHup && CloseEvent in Asserted(h, {CloseEvent}))
  {
  }

  /** Whatever is waited for and reported alone is let through: nothing is asked for in vain. */
  lemma WaitedForIsShown(h: Handle, mask: Mask, signal: Signal)
    requires signal in SignalsFor(h, mask)
    ensures EventsOf({signal}) != {} && Asserted(h, EventsOf({signal})) == EventsOf({signal})
  {
  }

  // ---------- Packets and posts ----------

  /** Where the event handler is with a packet. */
  datatype Phase = Idle | Posting(mask: Mask) | Updating

  /** A handle, its event handler, and counts of what has happened. */
  datatype Machine = Machine(h: Handle, phase: Phase, inPosts: nat, outPosts: nat, closePosts: nat, errorPosts: nat,
                             failed: nat, writes: nat)

  function Start(available: int): Machine {
    Machine(Handle(true, true, true, available), Idle, 0, 0, 0, 0, 0, 0)
  }

  datatype Step =
    | Dart(action: Action)                      // on a Dart thread
    | Packet(signals: set<Signal>, bytes: int)  // `HandlePacket` up to the toggling of events
    | Post                                      // the post to the next port
    | Update(wait: bool, ok: bool)              // `UpdatePort`, whose wait may fail
    | Interrupt(wait: bool, ok: bool)           // a message that makes `UpdatePort` run

  predicate Enabled(m: Machine, step: Step) {
    match step
    case Dart(a) => !a.Toggle?
    case Packet(_, _) => m.phase.Idle?
    case Post => m.phase.Posting?
    case Update(_, _) => m.phase.Updating?
    case Interrupt(_, _) => m.phase.Idle?
  }

  /** A wait that fails is reported as a close event to every port. */
  function Updated(m: Machine, wait: bool, ok: bool): Machine {
    var n := m.(phase := Idle);
    if wait && !ok then n.(closePosts := n.closePosts + 1, failed := n.failed + 1) else n
  }

  function Next(m: Machine, step: Step): Machine {
    match step
    case Dart(a) => m.(h := Do(m.h, a), writes := m.writes + if a.Write? then 1 else 0)
    case Packet(signals, bytes) =>
      var mask := EventsOf(signals);
      if ErrorEvent in mask then m.(phase := Updating, errorPosts := m.errorPosts + 1)
      else if mask == {} then m.(phase := Updating)
      else
        var shown := Asserted(m.h, mask);
        m.(h := AfterToggle(m.h, mask, bytes), phase := if shown == {} then Updating else Posting(shown))
    case Post =>
      if !m.phase.Posting? then m
      else
        m.(phase := Updating,
        inPosts := m.inPosts + if InEvent in m.phase.mask then 1 else 0,
        outPosts := m.outPosts + if OutEvent in m.phase.mask then 1 else 0,
        closePosts := m.closePosts + if CloseEvent in m.phase.mask then 1 else 0)
    case Update(wait, ok) => Updated(m, wait, ok)
    case Interrupt(wait, ok) => Updated(m, wait, ok)
  }

  /** A packet leads to exactly the posts that its signals call for and the handle lets through. */
  lemma PacketReports(m: Machine, signals: set<Signal>, bytes: int)
    requires m.phase.Idle?
    ensures var n := Next(m, Packet(signals, bytes));
            && (Pending(n, InEvent) == 1 <==> PollIn in signals && PollErr !in signals && m.h.readEnabled)
            && (Pending(n, OutEvent) == 1 <==> PollOut in signals && PollErr !in signals && m.h.writeEnabled)
            && (Pending(n, CloseEvent) == 1 <==>
                (PollHup in signals || PollRdHup in signals) && PollErr !in signals && m.h.closeEnabled)
            && (n.phase.Posting? <==> Pending(n, InEvent) + Pending(n, OutEvent) + Pending(n, CloseEvent) > 0)
            && n.errorPosts == m.errorPosts + (if PollErr in signals && PollIn in signals then 1 else 0)
            && n == m.(h := n.h, phase := n.phase, errorPosts := n.errorPosts)
            && var p := Next(n, Post);
            && p.inPosts == m.inPosts + Pending(n, InEvent)
            && p.outPosts == m.outPosts + Pending(n, OutEvent)
            && p.closePosts == m.closePosts + Pending(n, CloseEvent)
  {
    var mask, n := EventsOf(signals), Next(m, Packet(signals, bytes));
    if n.phase.Posting? {
      var e :| e in n.phase.mask;
      assert e == InEvent || e == OutEvent || e == CloseEvent;
    }
    assert mask == {} ==> InEvent !in mask && OutEvent !in mask && CloseEvent !in mask;
  }

  predicate Runs(m: Machine, steps: seq<Step>)
    decreases |steps|
  {
    steps == [] || (Enabled(m, steps[0]) && Runs(Next(m, steps[0]), steps[1..]))
  }

  function Reached(m: Machine, steps: seq<Step>): Machine
    decreases |steps|
  {
    if steps == [] then m else Reached(Next(m, steps[0]), steps[1..])
  }

  function Pending(m: Machine, event: Event): nat {
    if m.phase.Posting? && event in m.phase.mask then 1 else 0
  }

  /** Close events: one for the handle, and one for every wait that failed. Out events: one, and one for every write. */
  predicate Counted(m: Machine) {
    && m.closePosts + Pending(m, CloseEvent) == m.failed + (if m.h.closeEnabled then 0 else 1)
    && m.outPosts + Pending(m, OutEvent) + (if m.h.writeEnabled then 1 else 0) <= 1 + m.writes
  }

  lemma NextCounted(m: Machine, step: Step)
    requires Counted(m) && Enabled(m, step)
    ensures Counted(Next(m, step))
  {
  }

  /** In every interleaving of the two threads. */
  lemma {:induction false} RunsCounted(m: Machine, steps: seq<Step>)
    requires Counted(m) && Runs(m, steps)
    ensures Counted(Reached(m, steps))
    decreases |steps|
  {
    if steps != [] {
      NextCounted(m, steps[0]);
      RunsCounted(Next(m, steps[0]), steps[1..]);
    }
  }

  /** From a new handle: at most one close post beside the failed waits, and out posts bounded by writes. */
  lemma PostsBounded(available: int, steps: seq<Step>)
    requires Runs(Start(available), steps)
    ensures var m := Reached(Start(available), steps);
            m.closePosts <= m.failed + 1 && m.outPosts <= m.writes + 1
    ensures var m := Reached(Start(available), steps);
            m.phase == Idle ==> m.closePosts == m.failed + if m.h.closeEnabled then 0 else 1
  {
    RunsCounted(Start(available), steps);
  }

  /** One close post for the handle, and one more for a wait that fails. */
  lemma ClosedTwice(available: int) returns (steps: seq<Step>)
    ensures Runs(Start(available), steps) && Reached(Start(available), steps).closePosts == 2
  {
    assert EventsOf({PollRdHup}) == {CloseEvent};
    var m0 := Start(available);
    assert Asserted(m0.h, {CloseEvent}) == {CloseEvent};
    var m1 := Next(m0, Packet({PollRdHup}, 0));
    var m2 := Next(m1, Post);
    steps := [Packet({PollRdHup}, 0)] + ([Post] + ([Update(true, false)] + []));
    FirstStep(m0, Packet({PollRdHup}, 0), [Post] + ([Update(true, false)] + []), []);
    FirstStep(m1, Post, [Update(true, false)] + [], []);
    FirstStep(m2, Update(true, false), [], []);
  }

  /** No step makes read events possible again. */
  predicate ReadsNothing(m: Machine, steps: seq<Step>)
    decreases |steps|
  {
    steps == [] ||
    (!(steps[0].Dart? && EnablesRead(m.h, steps[0].action)) && ReadsNothing(Next(m, steps[0]), steps[1..]))
  }

  lemma {:induction false} NoInPost(m: Machine, steps: seq<Step>)
    requires !m.h.readEnabled && Runs(m, steps) && ReadsNothing(m, steps)
    ensures Reached(m, steps).inPosts <= m.inPosts + Pending(m, InEvent)
    decreases |steps|
  {
    if steps != [] {
      NoInPost(Next(m, steps[0]), steps[1..]);
    }
  }

  /**
   In every run: a packet that disables reads leads to at most one in post, its own, until an accept,
   a draining read or a failing read.
   */
  lemma InPostsNeedRead(m: Machine, signals: set<Signal>, bytes: int, steps: seq<Step>)
    requires m.phase.Idle? && DisablesRead(m.h, EventsOf(signals), bytes)
    requires var n := Next(m, Packet(signals, bytes)); Runs(n, steps) && ReadsNothing(n, steps)
    ensures Reached(Next(m, Packet(signals, bytes)), steps).inPosts <= m.inPosts + 1
  {
    NoInPost(Next(m, Packet(signals, bytes)), steps);
  }

  /** The write that allows an out event may come before the previous one is posted. */
  lemma WriteBeforePost(available: int) returns (before: seq<Step>, between: seq<Step>)
    ensures Runs(Start(available), before + between)
    ensures var m := Reached(Start(available), before);
            m.outPosts == 1 && Reached(m, between).outPosts == 2
    ensures forall i :: 0 <= i < |between| ==> !between[i].Dart?
  {
    assert EventsOf({PollOut}) == {OutEvent};
    before := [Packet({PollOut}, 0)] + ([Dart(Write(1))] + ([Post] + []));
    between := [Update(true, true)] + ([Packet({PollOut}, 0)] + ([Post] + []));
    var m0 := Start(available);
    assert Asserted(m0.h, {OutEvent}) == {OutEvent};
    var m1 := Next(m0, Packet({PollOut}, 0));
    var m2 := Next(m1, Dart(Write(1)));
    var m3 := Next(m2, Post);
    var m4 := Next(m3, Update(true, true));
    assert Asserted(m4.h, {OutEvent}) == {OutEvent};
    var m5 := Next(m4, Packet({PollOut}, 0));
    FirstStep(m0, Packet({PollOut}, 0), [Dart(Write(1))] + ([Post] + []), between);
    FirstStep(m1, Dart(Write(1)), [Post] + [], between);
    FirstStep(m2, Post, [], between);
    assert [] + between == between;
    FirstStep(m3, Update(true, true), [Packet({PollOut}, 0)] + ([Post] + []), []);
    FirstStep(m4, Packet({PollOut}, 0), [Post] + [], []);
    FirstStep(m5, Post, [], []);
  }

  lemma FirstStep(m: Machine, step: Step, more: seq<Step>, rest: seq<Step>)
    ensures Reached(m, [step] + more) == Reached(Next(m, step), more)
    ensures Runs(m, ([step] + more) + rest) == (Enabled(m, step) && Runs(Next(m, step), more + rest))
    ensures Runs(m, [step] + more) == (Enabled(m, step) && Runs(Next(m, step), more))
  {
    assert ([step] + more)[1..] == more;
    assert (([step] + more) + rest)[1..] == more + rest;
  }

  predicate WritesNothing(steps: seq<Step>) {
    forall i :: 0 <= i < |steps| ==> !(steps[i].Dart? && steps[i].action.Write?)
  }

  lemma {:induction false} NoOutPost(m: Machine, steps: seq<Step>)
    requires !m.h.writeEnabled && Pending(m, OutEvent) == 0 && Runs(m, steps) && WritesNothing(steps)
    ensures Reached(m, steps).outPosts == m.outPosts
    decreases |steps|
  {
    if steps != [] {
      NoOutPost(Next(m, steps[0]), steps[1..]);
    }
  }

  /** Right after an out post, the next one needs another write exactly when write events are off at that time. */
  lemma NextOutPostNeedsWriteIff(m: Machine)
    requires m.phase.Updating?
    ensures (forall steps :: Runs(m, steps) && WritesNothing(steps) ==> Reached(m, steps).outPosts == m.outPosts)
       <==> !m.h.writeEnabled
  {
    if m.h.writeEnabled {
      assert EventsOf({PollOut}) == {OutEvent} && Asserted(m.h, {OutEvent}) == {OutEvent};
      var steps := [Update(true, true)] + ([Packet({PollOut}, 0)] + ([Post] + []));
      var m1 := Next(m, Update(true, true));
      var m2 := Next(m1, Packet({PollOut}, 0));
      FirstStep(m, Update(true, true), [Packet({PollOut}, 0)] + ([Post] + []), []);
      FirstStep(m1, Packet({PollOut}, 0), [Post] + [], []);
      FirstStep(m2, Post, [], []);
      assert Runs(m, steps) && WritesNothing(steps) && Reached(m, steps).outPosts == m.outPosts + 1;
    } else {
      forall steps | Runs(m, steps) && WritesNothing(steps) ensures Reached(m, steps).outPosts == m.outPosts {
        NoOutPost(m, steps);
      }
    }
  }

  // ---------- The handle as an object ----------

  class IOHandle {
    var writeEventsEnabled: bool
    var readEventsEnabled: bool
    var closeEventsEnabled: bool
    var availableBytes: int

    function Value(): Handle
      reads this
    {
      Handle(writeEventsEnabled, readEventsEnabled, closeEventsEnabled, availableBytes)
    }

    /** The number of available bytes is left as it is found in memory. */
    constructor (memory: int)
      ensures Value() == Start(memory).h
    {
      writeEventsEnabled, readEventsEnabled, closeEventsEnabled, availableBytes := true, true, true, memory;
    }

    method Read(bytes: int)
      modifies this
      ensures Value() == Do(old(Value()), Action.Read(bytes))
      ensures readEventsEnabled == (old(readEventsEnabled) || Drains(old(Value()), bytes))
    {
      if bytes > 0 {
        availableBytes := availableBytes - if availableBytes >= bytes then bytes else availableBytes;
      }
      if availableBytes == 0 || bytes < 0 {
        readEventsEnabled := true;
      }
    }

    method Write(bytes: int)
      modifies this
      ensures Value() == Do(old(Value()), Action.Write(bytes)) && writeEventsEnabled
    {
      writeEventsEnabled := true;
    }

    method Accept(socket: int)
      modifies this
      ensures Value() == Do(old(Value()), Action.Accept(socket)) && readEventsEnabled
    {
      readEventsEnabled := true;
    }

    method AvailableBytes(bytes: int) returns (available: int)
      modifies this
      ensures Value() == Do(old(Value()), Action.AvailableBytes(bytes)) && available == availableBytes
    {
      available := bytes;
      if available < 0 {
        available := 1;
      }
      availableBytes := available;
    }

    method MaskToEpollEvents(mask: Mask) returns (signals: set<Signal>)
      ensures signals == SignalsFor(Value(), mask)
    {
      signals := {};
      if closeEventsEnabled {
        signals := signals + {PollRdHup};
      }
      if readEventsEnabled && InEvent in mask {
        signals := signals + {PollIn};
      }
      if writeEventsEnabled && OutEvent in mask {
        signals := signals + {PollOut};
      }
    }

    /** `bytes` is what the system says is available at the time. */
    method ToggleEvents(mask: Mask, bytes: int) returns (shown: Mask)
      modifies this
      ensures shown == Asserted(old(Value()), mask) && Value() == AfterToggle(old(Value()), mask, bytes)
    {
      shown := mask;
      if !writeEventsEnabled {
        shown := shown - {OutEvent};
      }
      if OutEvent in shown {
        writeEventsEnabled := false;
      }
      if !readEventsEnabled {
        shown := shown - {InEvent};
      }
      if InEvent in shown {
        if bytes != 0 {
          readEventsEnabled := false;
        }
        if CloseEvent in shown {
          readEventsEnabled := false;
        }
      }
      if !closeEventsEnabled {
        shown := shown - {CloseEvent};
      }
      if CloseEvent in shown {
        closeEventsEnabled := false;
      }
    }
  }
}
