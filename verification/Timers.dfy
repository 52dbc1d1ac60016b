/** Timers on Linux: the queue of timeouts, and the one timer descriptor that is armed for its root. */
module Timers {
  import opened HeapSpec
  import opened ReaderQueue

  /** The value of the timer descriptor; it is disarmed when both parts are zero. */
  datatype TimerFd = TimerFd(seconds: int, nanoseconds: int) {
    predicate Armed() {
      seconds != 0 || nanoseconds != 0
    }

    function Nanoseconds(): int {
      seconds * 1_000_000_000 + nanoseconds
    }
  }

  datatype TimerState = TimerState(heap: seq<Item<Port>>, fd: TimerFd)

  const NO_TIMERS := TimerState([], TimerFd(0, 0))

  // ---------- The operations ----------

  /** `UpdateTimerFd`. */
  function TimerFor(h: seq<Item<Port>>): TimerFd {
    if h == [] then TimerFd(0, 0) else TimerFd(h[0].priority / 1000, (h[0].priority % 1000) * 1_000_000)
  }

  /** The position of a port in the queue, or the length of the queue. */
  function Find(h: seq<Item<Port>>, port: Port): (k: nat)
    ensures k <= |h| && (k < |h| ==> h[k].value == port)
    ensures forall i :: 0 <= i < k ==> h[i].value != port
  {
    if h == [] || h[0].value == port then 0 else 1 + Find(h[1..], port)
  }

  /** `TimeoutQueue::UpdateTimeout`: a negative deadline cancels. */
  function UpdateTimeout(h: seq<Item<Port>>, port: Port, deadline: int): seq<Item<Port>> {
    var k := Find(h, port);
    if deadline < 0 then (if k < |h| then RemoveAt(h, k) else h)
    else if k < |h| then ChangeAt(h, k, deadline)
    else Insert(h, Item(deadline, port))
  }

  function Update(s: TimerState, port: Port, deadline: int): TimerState {
    var h := UpdateTimeout(s.heap, port, deadline);
    TimerState(h, TimerFor(h))
  }

  /** What is done when epoll reports the timer descriptor. */
  function Fire(s: TimerState): TimerState {
    var h := if s.heap == [] then s.heap else RemoveAt(s.heap, 0);
    TimerState(h, TimerFor(h))
  }

  predicate Expired(s: TimerState, now: int) {
    s.fd.Armed() && s.fd.Nanoseconds() <= now
  }

  // ---------- What the queue stands for ----------

  function Count(m: map<Port, int>, x: Item<Port>): nat {
    if x.value in m && m[x.value] == x.priority then 1 else 0
  }

  /** The queue holds the current deadline of every port that has one, and nothing else. */
  ghost predicate Represents(items: multiset<Item<Port>>, m: map<Port, int>) {
    forall x :: items[x] == Count(m, x)
  }

  predicate NonNegative(m: map<Port, int>, p: Port) {
    p in m ==> m[p] >= 0
  }

  ghost predicate TimerInv(s: TimerState, m: map<Port, int>) {
    Represents(multiset(s.heap), m) && s.fd == TimerFor(s.heap) && forall p :: NonNegative(m, p)
  }

  lemma ItemOf(h: seq<Item<Port>>, m: map<Port, int>, i: nat)
    requires Represents(multiset(h), m) && i < |h|
    ensures h[i].value in m && m[h[i].value] == h[i].priority
  {
    assert h[i] in multiset(h);
    assert multiset(h)[h[i]] == Count(m, h[i]);
  }

  lemma PortOf(h: seq<Item<Port>>, m: map<Port, int>, p: Port)
    requires Represents(multiset(h), m) && p in m
    ensures Find(h, p) < |h| && h[Find(h, p)] == Item(m[p], p)
  {
    assert multiset(h)[Item(m[p], p)] == 1;
    assert Item(m[p], p) in h;
    ItemOf(h, m, Find(h, p));
  }

  /** The deadlines after an update. */
  function Deadlines(m: map<Port, int>, port: Port, deadline: int): map<Port, int> {
    if deadline < 0 then m - {port} else m[port := deadline]
  }

  lemma FindPresent(h: seq<Item<Port>>, m: map<Port, int>, port: Port)
    requires Represents(multiset(h), m)
    ensures Find(h, port) < |h| <==> port in m
    ensures port in m ==> h[Find(h, port)] == Item(m[port], port)
  {
    if port in m {
      PortOf(h, m, port);
    } else if Find(h, port) < |h| {
      ItemOf(h, m, Find(h, port));
    }
  }

  lemma Dropped(items: multiset<Item<Port>>, m: map<Port, int>, p: Port)
    requires Represents(items, m) && p in m
    ensures Represents(items - multiset{Item(m[p], p)}, m - {p})
  {
  }

  lemma Added(items: multiset<Item<Port>>, m: map<Port, int>, p: Port, d: int)
    requires Represents(items, m) && p !in m
    ensures Represents(items + multiset{Item(d, p)}, m[p := d])
  {
  }

  /** An update leaves the queue with exactly the new deadlines. */
  lemma UpdateRepresents(h: seq<Item<Port>>, m: map<Port, int>, port: Port, deadline: int)
    requires Represents(multiset(h), m)
    ensures Represents(multiset(UpdateTimeout(h, port, deadline)), Deadlines(m, port, deadline))
  {
    hide Insert, RemoveAt, ChangeAt, Find, Represents;
    var k := Find(h, port);
    FindPresent(h, m, port);
    if port in m {
      RemoveItems(h, k);
      ChangeItems(h, k, deadline);
      Dropped(multiset(h), m, port);
      Added(multiset(h) - multiset{h[k]}, m - {port}, port, deadline);
      assert (m - {port})[port := deadline] == m[port := deadline];
    } else {
      InsertItems(h, Item(deadline, port));
      Added(multiset(h), m, port, deadline);
      assert m - {port} == m;
    }
  }

  lemma UpdateKeeps(s: TimerState, m: map<Port, int>, port: Port, deadline: int)
    requires TimerInv(s, m)
    ensures TimerInv(Update(s, port, deadline), Deadlines(m, port, deadline))
  {
    UpdateRepresents(s.heap, m, port, deadline);
    forall p ensures NonNegative(Deadlines(m, port, deadline), p) {
      assert NonNegative(m, p);
    }
  }

  // ---------- When a port is posted ----------

  lemma SplitMillis(millis: nat)
    ensures millis == 1000 * (millis / 1000) + millis % 1000
    ensures millis / 1000 == 0 && (millis % 1000) * 1_000_000 == 0 <==> millis == 0
  {
  }

  /** The descriptor is armed for the root of the queue, to the millisecond; zero disarms it. */
  lemma ArmedForRoot(s: TimerState, m: map<Port, int>)
    requires TimerInv(s, m)
    ensures s.fd.Armed() <==> s.heap != [] && s.heap[0].priority > 0
    ensures s.fd.Armed() ==> s.fd.Nanoseconds() == s.heap[0].priority * 1_000_000
    ensures 0 <= s.fd.nanoseconds < 1_000_000_000
  {
    if s.heap != [] {
      ItemOf(s.heap, m, 0);
      assert NonNegative(m, s.heap[0].value);
      SplitMillis(s.heap[0].priority);
    }
  }

  /** A port is posted once, and never before its current deadline. */
  lemma NeverEarly(s: TimerState, m: map<Port, int>, now: int)
    requires TimerInv(s, m) && Expired(s, now)
    ensures s.heap != []
    ensures var p := s.heap[0].value;
            p in m && 0 < m[p] && m[p] * 1_000_000 <= now && TimerInv(Fire(s), m - {p})
  {
    ArmedForRoot(s, m);
    ItemOf(s.heap, m, 0);
    RemoveItems(s.heap, 0);
    Dropped(multiset(s.heap), m, s.heap[0].value);
    forall p ensures NonNegative(m - {s.heap[0].value}, p) {
      assert NonNegative(m, p);
    }
  }

  // ---------- Whether the earliest port is posted first ----------

  /** With the queue in order, the descriptor is armed for the least deadline. */
  lemma ArmedForLeast(s: TimerState, m: map<Port, int>)
    requires TimerInv(s, m) && Ordered(s.heap) && s.heap != []
    ensures var p := s.heap[0].value; p in m && forall q :: q in m ==> m[p] <= m[q]
  {
    ItemOf(s.heap, m, 0);
    forall p | p in m ensures s.heap[0].priority <= m[p] {
      PortOf(s.heap, m, p);
      MinimumIsLeast(s.heap, Find(s.heap, p));
    }
  }

  /** Whether an update keeps the queue in order; only a cancellation may not. */
  predicate UpdateKeepsOrder(h: seq<Item<Port>>, port: Port, deadline: int) {
    deadline < 0 && Find(h, port) < |h| ==> RemovalKeepsOrder(h, Find(h, port))
  }

  lemma UpdateOrders(h: seq<Item<Port>>, port: Port, deadline: int)
    requires Ordered(h)
    ensures Ordered(UpdateTimeout(h, port, deadline)) <==> UpdateKeepsOrder(h, port, deadline)
  {
    hide Ordered;
    var k := Find(h, port);
    if k < |h| {
      RemoveOrders(h, k);
      ChangeOrders(h, k, deadline);
    } else {
      InsertOrders(h, Item(deadline, port));
    }
  }

  // ---------- Runs ----------

  datatype Step = UpdateStep(port: Port, deadline: int) | FireStep(now: int)

  /** A port was posted at a time (in nanoseconds) when this was its deadline (in milliseconds). */
  datatype Post = Post(port: Port, deadline: int, now: int)

  predicate Runs(s: TimerState, steps: seq<Step>)
    decreases |steps|
  {
    steps == [] ||
    match steps[0]
    case UpdateStep(port, deadline) => Runs(Update(s, port, deadline), steps[1..])
    case FireStep(now) => Expired(s, now) && Runs(Fire(s), steps[1..])
  }

  function After(s: TimerState, steps: seq<Step>): TimerState
    decreases |steps|
  {
    if steps == [] then s
    else
      match steps[0]
      case UpdateStep(port, deadline) => After(Update(s, port, deadline), steps[1..])
      case FireStep(now) => After(Fire(s), steps[1..])
  }

  /** The current deadlines, kept without a queue: a port that is posted loses its deadline. */
  function DeadlinesAfter(s: TimerState, m: map<Port, int>, steps: seq<Step>): map<Port, int>
    decreases |steps|
  {
    if steps == [] then m
    else
      match steps[0]
      case UpdateStep(port, deadline) =>
        DeadlinesAfter(Update(s, port, deadline), Deadlines(m, port, deadline), steps[1..])
      case FireStep(now) =>
        DeadlinesAfter(Fire(s), if s.heap == [] then m else m - {s.heap[0].value}, steps[1..])
  }

  ghost function Posts(s: TimerState, m: map<Port, int>, steps: seq<Step>): seq<Post>
    requires TimerInv(s, m) && Runs(s, steps)
    decreases |steps|
  {
    if steps == [] then []
    else
      match steps[0]
      case UpdateStep(port, deadline) =>
        UpdateKeeps(s, m, port, deadline);
        Posts(Update(s, port, deadline), Deadlines(m, port, deadline), steps[1..])
      case FireStep(now) =>
        NeverEarly(s, m, now);
        var p := s.heap[0].value;
        [Post(p, m[p], now)] + Posts(Fire(s), m - {p}, steps[1..])
  }

  /** In every run, each post comes at or after the deadline its port had at that time. */
  lemma {:induction false} RunsNeverEarly(s: TimerState, m: map<Port, int>, steps: seq<Step>)
    requires TimerInv(s, m) && Runs(s, steps)
    ensures TimerInv(After(s, steps), DeadlinesAfter(s, m, steps))
    ensures forall i :: 0 <= i < |Posts(s, m, steps)| ==>
                          var x := Posts(s, m, steps)[i]; 0 < x.deadline && x.deadline * 1_000_000 <= x.now
    decreases |steps|
  {
    hide TimerInv;
    if steps != [] {
      match steps[0]
      case UpdateStep(port, deadline) =>
        UpdateKeeps(s, m, port, deadline);
        RunsNeverEarly(Update(s, port, deadline), Deadlines(m, port, deadline), steps[1..]);
      case FireStep(now) =>
        NeverEarly(s, m, now);
        RunsNeverEarly(Fire(s), m - {s.heap[0].value}, steps[1..]);
    }
  }

  /** No cancellation of the run takes the queue out of order. */
  predicate KeepsOrder(s: TimerState, steps: seq<Step>)
    decreases |steps|
  {
    steps == [] ||
    match steps[0]
    case UpdateStep(port, deadline) =>
      UpdateKeepsOrder(s.heap, port, deadline) && KeepsOrder(Update(s, port, deadline), steps[1..])
    case FireStep(now) => KeepsOrder(Fire(s), steps[1..])
  }

  /** Then the descriptor is armed for the least deadline all along. */
  lemma {:induction false} RunsArmedForLeast(s: TimerState, m: map<Port, int>, steps: seq<Step>)
    requires TimerInv(s, m) && Ordered(s.heap) && Runs(s, steps) && KeepsOrder(s, steps)
    ensures Ordered(After(s, steps).heap)
    ensures var t, n := After(s, steps), DeadlinesAfter(s, m, steps);
            t.heap != [] ==> var p := t.heap[0].value;
                             && p in n && (forall q :: q in n ==> n[p] <= n[q])
                             && (t.fd.Armed() <==> n[p] > 0)
                             && (t.fd.Armed() ==> t.fd.Nanoseconds() == n[p] * 1_000_000)
    decreases |steps|
  {
    hide TimerInv, Ordered, RemoveAt;
    if steps == [] {
      if s.heap != [] {
        ArmedForLeast(s, m);
        ArmedForRoot(s, m);
        ItemOfInv(s, m);
      }
    } else {
      match steps[0]
      case UpdateStep(port, deadline) =>
        UpdateKeeps(s, m, port, deadline);
        UpdateOrders(s.heap, port, deadline);
        RunsArmedForLeast(Update(s, port, deadline), Deadlines(m, port, deadline), steps[1..]);
      case FireStep(now) =>
        NeverEarly(s, m, now);
        RemoveOrders(s.heap, 0);
        RunsArmedForLeast(Fire(s), m - {s.heap[0].value}, steps[1..]);
    }
  }

  /** What one step leaves. */
  function Next(s: TimerState, step: Step): TimerState {
    if step.UpdateStep? then Update(s, step.port, step.deadline) else Fire(s)
  }

  /** A run keeps the queue in order all along if and only if no cancellation takes it out of order. */
  lemma {:induction false} OrderedAllAlongIff(s: TimerState, steps: seq<Step>)
    requires Ordered(s.heap) && Runs(s, steps)
    ensures (forall i :: 0 <= i <= |steps| ==> Ordered(After(s, steps[..i]).heap)) <==> KeepsOrder(s, steps)
    decreases |steps|
  {
    hide Ordered, RemoveAt, UpdateTimeout, UpdateKeepsOrder;
    if steps == [] {
      assert steps[..0] == [];
    } else {
      var n, rest := Next(s, steps[0]), steps[1..];
      StepOrders(s, steps[0]);
      PrefixShift(s, steps);
      if Ordered(n.heap) {
        OrderedAllAlongIff(n, rest);
      } else {
        assert After(n, rest[..0]) == n;
      }
    }
  }

  lemma StepOrders(s: TimerState, step: Step)
    requires Ordered(s.heap)
    ensures Ordered(Next(s, step).heap) <==> (step.UpdateStep? ==> UpdateKeepsOrder(s.heap, step.port, step.deadline))
  {
    hide Ordered, RemoveAt, UpdateTimeout, UpdateKeepsOrder;
    if step.UpdateStep? {
      UpdateOrders(s.heap, step.port, step.deadline);
    } else if s.heap != [] {
      RemoveOrders(s.heap, 0);
    }
  }

  lemma PrefixShift(s: TimerState, steps: seq<Step>)
    requires steps != [] && Ordered(s.heap)
    ensures (forall i :: 0 <= i <= |steps| ==> Ordered(After(s, steps[..i]).heap)) <==>
            (forall i :: 0 <= i <= |steps| - 1 ==> Ordered(After(Next(s, steps[0]), steps[1..][..i]).heap))
  {
    hide Ordered, RemoveAt, UpdateTimeout;
    forall i | 0 <= i <= |steps| - 1
      ensures After(s, steps[..i + 1]) == After(Next(s, steps[0]), steps[1..][..i])
    {
      assert steps[..i + 1][1..] == steps[1..][..i];
    }
    assert steps[..0] == [];
    if forall i :: 0 <= i <= |steps| - 1 ==> Ordered(After(Next(s, steps[0]), steps[1..][..i]).heap) {
      forall i | 0 <= i <= |steps| ensures Ordered(After(s, steps[..i]).heap) {
        if i > 0 {
          assert Ordered(After(Next(s, steps[0]), steps[1..][..i - 1]).heap);
        }
      }
    }
    if forall i :: 0 <= i <= |steps| ==> Ordered(After(s, steps[..i]).heap) {
      forall i | 0 <= i <= |steps| - 1 ensures Ordered(After(Next(s, steps[0]), steps[1..][..i]).heap) {
        assert Ordered(After(s, steps[..i + 1]).heap);
      }
    }
  }

  lemma ItemOfInv(s: TimerState, m: map<Port, int>)
    requires TimerInv(s, m) && s.heap != []
    ensures s.heap[0].value in m && m[s.heap[0].value] == s.heap[0].priority
  {
    ItemOf(s.heap, m, 0);
  }

  // ---------- Two runs that fall short ----------

  ghost predicate IsZero(m: map<Port, int>, p: Port) {
    p in m && m[p] == 0
  }

  /** With timers set and the queue in order, none can expire if and only if some deadline is 0. */
  lemma ZeroDeadlineDisarms(s: TimerState, m: map<Port, int>)
    requires TimerInv(s, m) && Ordered(s.heap) && s.heap != []
    ensures (forall now :: !Expired(s, now)) <==> exists p :: IsZero(m, p)
  {
    ArmedForRoot(s, m);
    ItemOf(s.heap, m, 0);
    assert NonNegative(m, s.heap[0].value);
    if !s.fd.Armed() {
      assert IsZero(m, s.heap[0].value);
    } else {
      assert Expired(s, s.fd.Nanoseconds());
      forall p ensures !IsZero(m, p) {
        if p in m {
          PortOf(s.heap, m, p);
          MinimumIsLeast(s.heap, Find(s.heap, p));
        }
      }
    }
  }

  /** From no timers: one set for 0 keeps one set for 5 from ever expiring. */
  lemma ZeroHoldsUpFive() returns (steps: seq<Step>)
    ensures Runs(NO_TIMERS, steps)
    ensures var s, m := After(NO_TIMERS, steps), DeadlinesAfter(NO_TIMERS, map[], steps);
            1 in m && m[1] == 0 && 2 in m && m[2] == 5 && forall now :: !Expired(s, now)
  {
    var h1, h2 := [Item(0, 1)], [Item(0, 1), Item(5, 2)];
    forall i | 0 <= i < |h2| ensures Edge(h2, i) {
    }
    forall i | 0 <= i < |h1| ensures Edge(h1, i) {
    }
    assert [] + [Item(0, 1)] == h1 && h1 + [Item(5, 2)] == h2;
    SetInOrder([], 1, 0);
    SetInOrder(h1, 2, 5);
    hide UpdateTimeout, Find;
    var last: seq<Step> := [];
    FirstStep(Queued(h1), UpdateStep(2, 5), last);
    FirstStep(NO_TIMERS, UpdateStep(1, 0), [UpdateStep(2, 5)] + last);
    steps := [UpdateStep(1, 0)] + ([UpdateStep(2, 5)] + last);
    assert After(NO_TIMERS, steps) == Queued(h2);
    NoTimersOk();
    RunsNeverEarly(NO_TIMERS, map[], steps);
    ItemOf(h2, DeadlinesAfter(NO_TIMERS, map[], steps), 0);
    ItemOf(h2, DeadlinesAfter(NO_TIMERS, map[], steps), 1);
  }

  lemma {:induction false} UpInOrder(h: seq<Item<Port>>, i: nat)
    requires Ordered(h) && i < |h|
    ensures Up(h, i) == h
    decreases i
  {
    assert Edge(h, i);
    if i > 0 {
      UpInOrder(h, Parent(i));
    }
  }

  lemma SetInOrder(h: seq<Item<Port>>, port: Port, deadline: nat)
    requires Ordered(h + [Item(deadline, port)]) && Find(h, port) == |h|
    ensures UpdateTimeout(h, port, deadline) == h + [Item(deadline, port)]
  {
    UpInOrder(h + [Item(deadline, port)], |h|);
  }

  lemma FirstStep(s: TimerState, step: Step, rest: seq<Step>)
    ensures var t := if step.UpdateStep? then Update(s, step.port, step.deadline) else Fire(s);
            && (Runs(s, [step] + rest) <==> (step.FireStep? ==> Expired(s, step.now)) && Runs(t, rest))
            && After(s, [step] + rest) == After(t, rest)
  {
    assert ([step] + rest)[1..] == rest;
  }

  function Queued(h: seq<Item<Port>>): TimerState {
    TimerState(h, TimerFor(h))
  }

  const SEVEN_TIMERS := [Item(1, 1), Item(4, 2), Item(2, 3), Item(5, 4), Item(6, 5), Item(7, 6), Item(3, 7)]

  lemma SevenTimersFacts()
    ensures Ordered(SEVEN_TIMERS)
    ensures forall i :: 0 <= i < 7 ==> SEVEN_TIMERS[i].value == i + 1 && SEVEN_TIMERS[i].priority > 0
  {
    var h := SEVEN_TIMERS;
    forall i | 0 <= i < 7 ensures Edge(h, i) {
    }
  }

  /** A prefix of the timers, and how the next one is set. */
  lemma SetNext(h: seq<Item<Port>>, k: nat)
    requires Ordered(h) && k < |h| && h[k].priority >= 0
    requires forall i :: 0 <= i < |h| ==> h[i].value == i + 1
    ensures UpdateTimeout(h[..k], h[k].value, h[k].priority) == h[..k + 1]
  {
    hide UpdateTimeout;
    var g := h[..k + 1];
    forall i | 0 <= i <= k ensures Edge(g, i) {
      assert Edge(h, i);
    }
    assert g == h[..k] + [Item(h[k].priority, h[k].value)];
    SetInOrder(h[..k], h[k].value, h[k].priority);
  }

  /** The seven timers can be set one after the other. */
  lemma {:induction false} SetAll(h: seq<Item<Port>>, k: nat, rest: seq<Step>) returns (steps: seq<Step>)
    requires Ordered(h) && k <= |h|
    requires forall i :: 0 <= i < |h| ==> h[i].value == i + 1 && h[i].priority >= 0
    ensures Runs(Queued(h[..k]), steps) == Runs(Queued(h), rest)
    ensures After(Queued(h[..k]), steps) == After(Queued(h), rest)
    decreases |h| - k
  {
    if k == |h| {
      steps := rest;
      assert h[..k] == h;
    } else {
      hide UpdateTimeout;
      var more := SetAll(h, k + 1, rest);
      steps := [UpdateStep(h[k].value, h[k].priority)] + more;
      FirstStep(Queued(h[..k]), steps[0], more);
      SetNext(h, k);
    }
  }

  lemma DownStep(h: seq<Item<Port>>, i: nat, k: nat, g: seq<Item<Port>>)
    requires i < |h| && k == Smallest(h, i) != i && g == Swap(h, i, k) && |g| <= 2 * k + 1
    ensures Down(h, i) == g
  {
  }

  /** After the timer of port 4 is cancelled and two have fired, port 2 is waited for before port 7. */
  lemma CancelAndFire()
    ensures UpdateTimeout(SEVEN_TIMERS, 4, -1) == [Item(1, 1), Item(4, 2), Item(2, 3), Item(3, 7), Item(6, 5), Item(7, 6)]
    ensures RemoveAt([Item(1, 1), Item(4, 2), Item(2, 3), Item(3, 7), Item(6, 5), Item(7, 6)], 0)
         == [Item(2, 3), Item(4, 2), Item(7, 6), Item(3, 7), Item(6, 5)]
    ensures RemoveAt([Item(2, 3), Item(4, 2), Item(7, 6), Item(3, 7), Item(6, 5)], 0)
         == [Item(4, 2), Item(3, 7), Item(7, 6), Item(6, 5)]
  {
    var g1 := [Item(7, 6), Item(4, 2), Item(2, 3), Item(3, 7), Item(6, 5)];
    DownStep(g1, 0, 2, [Item(2, 3), Item(4, 2), Item(7, 6), Item(3, 7), Item(6, 5)]);
    RemoveRoot([Item(1, 1), Item(4, 2), Item(2, 3), Item(3, 7), Item(6, 5), Item(7, 6)], g1);
    var g2 := [Item(6, 5), Item(4, 2), Item(7, 6), Item(3, 7)];
    assert Smallest(g2, 0) == 1 && Swap(g2, 0, 1) == [Item(4, 2), Item(6, 5), Item(7, 6), Item(3, 7)];
    DownStep([Item(4, 2), Item(6, 5), Item(7, 6), Item(3, 7)], 1, 3, [Item(4, 2), Item(3, 7), Item(7, 6), Item(6, 5)]);
    RemoveRoot([Item(2, 3), Item(4, 2), Item(7, 6), Item(3, 7), Item(6, 5)], g2);
  }

  lemma RemoveRoot(h: seq<Item<Port>>, g: seq<Item<Port>>)
    requires |h| > 1 && g == [h[|h| - 1]] + h[1..|h| - 1]
    ensures RemoveAt(h, 0) == Down(g, 0)
  {
    assert g == h[..|h| - 1][0 := h[|h| - 1]];
  }

  /**
   A cancellation can leave the descriptor armed too late: from no timers, a run leads to a state that
   waits for the deadline of port 2, four milliseconds, while port 7 has a deadline of three.
   */
  lemma ArmedTooLate() returns (steps: seq<Step>)
    ensures Runs(NO_TIMERS, steps)
    ensures var s, m := After(NO_TIMERS, steps), DeadlinesAfter(NO_TIMERS, map[], steps);
            s.fd.Armed() && s.fd.Nanoseconds() == 4_000_000 && 7 in m && m[7] == 3
  {
    hide UpdateTimeout, RemoveAt, Find;
    CancelAndFire();
    SevenTimersFacts();
    var s1 := Queued([Item(1, 1), Item(4, 2), Item(2, 3), Item(3, 7), Item(6, 5), Item(7, 6)]);
    var s2 := Queued([Item(2, 3), Item(4, 2), Item(7, 6), Item(3, 7), Item(6, 5)]);
    var s3 := Queued([Item(4, 2), Item(3, 7), Item(7, 6), Item(6, 5)]);
    var last: seq<Step> := [];
    FirstStep(s2, FireStep(2_000_000), last);
    FirstStep(s1, FireStep(1_000_000), [FireStep(2_000_000)] + last);
    FirstStep(Queued(SEVEN_TIMERS), UpdateStep(4, -1), [FireStep(1_000_000)] + ([FireStep(2_000_000)] + last));
    steps := SetAll(SEVEN_TIMERS, 0, [UpdateStep(4, -1)] + ([FireStep(1_000_000)] + ([FireStep(2_000_000)] + last)));
    assert SEVEN_TIMERS[..0] == [];
    assert After(NO_TIMERS, steps) == s3;
    NoTimersOk();
    RunsNeverEarly(NO_TIMERS, map[], steps);
    ItemOf(s3.heap, DeadlinesAfter(NO_TIMERS, map[], steps), 1);
  }

  lemma NoTimersOk()
    ensures TimerInv(NO_TIMERS, map[])
  {
  }
}
