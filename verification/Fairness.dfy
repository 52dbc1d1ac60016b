/**
 Round-robin fairness of the queue of ready readers, over every run of operations, and what it
 means for the dispatch of queued connections.
 */
module Fairness {
  import opened CircularLists
  import opened ReaderQueue

  datatype Op =
    | Set(port: Port, reading: bool)
    | Remove(port: Port)
    | Return(port: Port, count: nat)
    | Notify
    | Broadcast

  ghost predicate Enabled(r: Readers, op: Op) {
    match op
    case Set(port, _) => port != ILLEGAL_PORT
    case Return(port, _) => port in r.ports
    case Notify => r.active != [] && r.active[0] in r.ports
    case _ => true
  }

  ghost function Apply(r: Readers, op: Op, disableTokens: bool): Readers
    requires Enabled(r, op)
  {
    match op
    case Set(port, reading) => SetPort(r, port, reading)
    case Remove(port) => RemovePort(r, port)
    case Return(port, count) => ReturnTokens(r, port, count, disableTokens)
    case Notify => NotifyNext(r, disableTokens)
    case Broadcast => NotifyAll(r, disableTokens)
  }

  /** A run in which `a` and `b` are ready before and after every operation. */
  ghost predicate StayReady(r: Readers, ops: seq<Op>, disableTokens: bool, a: Port, b: Port)
    decreases |ops|
  {
    && WellFormed(r) && a in r.active && b in r.active
    && (ops != [] ==> Enabled(r, ops[0]) && StayReady(Apply(r, ops[0], disableTokens), ops[1..], disableTokens, a, b))
  }

  /** The ports among `a` and `b` that a run notifies, in order. */
  ghost function Trace(r: Readers, ops: seq<Op>, disableTokens: bool, a: Port, b: Port): seq<Port>
    requires StayReady(r, ops, disableTokens, a, b)
    decreases |ops|
  {
    if ops == [] then []
    else
      var rest := Trace(Apply(r, ops[0], disableTokens), ops[1..], disableTokens, a, b);
      if ops[0].Notify? && (r.active[0] == a || r.active[0] == b) then [r.active[0]] + rest else rest
  }

  // ---------- The order of two ready ports ----------

  ghost predicate Before(s: seq<Port>, a: Port, b: Port) {
    exists i, j :: 0 <= i < j < |s| && s[i] == a && s[j] == b
  }

  lemma OneBeforeOther(s: seq<Port>, a: Port, b: Port)
    requires a in s && b in s && a != b
    ensures Before(s, a, b) || Before(s, b, a)
  {
    var i :| 0 <= i < |s| && s[i] == a;
    var j :| 0 <= j < |s| && s[j] == b;
  }

  lemma BeforeAppend(s: seq<Port>, t: seq<Port>, a: Port, b: Port)
    requires Before(s, a, b)
    ensures Before(s + t, a, b)
  {
    var i, j :| 0 <= i < j < |s| && s[i] == a && s[j] == b;
    assert (s + t)[i] == a && (s + t)[j] == b;
  }

  lemma BeforeTail(s: seq<Port>, a: Port, b: Port)
    requires Before(s, a, b) && s[0] != a
    ensures Before(s[1..], a, b)
  {
    var i, j :| 0 <= i < j < |s| && s[i] == a && s[j] == b;
    assert s[1..][i - 1] == a && s[1..][j - 1] == b;
  }

  lemma BeforeCons(x: Port, s: seq<Port>, a: Port, b: Port)
    requires Before(s, a, b) || (x == a && b in s)
    ensures Before([x] + s, a, b)
  {
    if Before(s, a, b) {
      var i, j :| 0 <= i < j < |s| && s[i] == a && s[j] == b;
      assert ([x] + s)[i + 1] == a && ([x] + s)[j + 1] == b;
    } else {
      var j :| 0 <= j < |s| && s[j] == b;
      assert ([x] + s)[0] == a && ([x] + s)[j + 1] == b;
    }
  }

  lemma {:induction false} BeforeWithout(s: seq<Port>, x: Port, a: Port, b: Port)
    requires Before(s, a, b) && x != a && x != b
    ensures Before(Without(s, x), a, b)
  {
    if s[0] == x {
      BeforeTail(s, a, b);
    } else {
      if s[0] == a {
        var j :| 0 < j < |s| && s[j] == b;
        assert s[1..][j - 1] == b;
        WithoutHas(s[1..], x, b);
      } else {
        BeforeTail(s, a, b);
        BeforeWithout(s[1..], x, a, b);
      }
      BeforeCons(s[0], Without(s[1..], x), a, b);
    }
  }

  lemma WithoutHas(s: seq<Port>, x: Port, b: Port)
    requires b in s && b != x
    ensures b in Without(s, x)
  {
  }

  lemma {:induction false} BeforeKept(s: seq<Port>, ports: map<Port, PortState>, a: Port, b: Port)
    requires Before(s, a, b) && a in KeepReady(s, ports) && b in KeepReady(s, ports)
    ensures Before(KeepReady(s, ports), a, b)
  {
    var rest := KeepReady(s[1..], ports);
    if s[0] == a {
      var j :| 0 < j < |s| && s[j] == b;
      assert s[1..][j - 1] == b;
      BeforeCons(s[0], rest, a, b);
    } else {
      BeforeTail(s, a, b);
      var i, j :| 0 <= i < j < |s[1..]| && s[1..][i] == a && s[1..][j] == b;
      BeforeKept(s[1..], ports, a, b);
      BeforeCons(s[0], rest, a, b);
    }
  }

  // ---------- Alternation ----------

  /** An operation that notifies neither port keeps their order; notifying the first puts it behind the other. */
  lemma StepOrder(r: Readers, op: Op, disableTokens: bool, a: Port, b: Port)
    requires WellFormed(r) && Enabled(r, op) && a != b && Before(r.active, a, b)
    requires var next := Apply(r, op, disableTokens); a in next.active && b in next.active && WellFormed(next)
    ensures var next := Apply(r, op, disableTokens);
            if op.Notify? && r.active[0] == a then Before(next.active, b, a)
            else !(op.Notify? && r.active[0] == b) && Before(next.active, a, b)
  {
    var next := Apply(r, op, disableTokens);
    match op
    case Set(port, _) => RequeueOrder(r.active, next.active, port, a, b);
    case Return(port, _) => RequeueOrder(r.active, next.active, port, a, b);
    case Remove(port) => RequeueOrder(r.active, next.active, port, a, b);
    case Broadcast => BeforeKept(r.active, SpendAll(r.ports, disableTokens), a, b);
    case Notify => NotifyOrder(r, disableTokens, a, b);
  }

  lemma NotifyOrder(r: Readers, disableTokens: bool, a: Port, b: Port)
    requires WellFormed(r) && r.active != [] && a != b && Before(r.active, a, b)
    requires var next := NotifyNext(r, disableTokens); a in next.active && b in next.active
    ensures r.active[0] != b
    ensures var next := NotifyNext(r, disableTokens);
            if r.active[0] == a then Before(next.active, b, a) else Before(next.active, a, b)
  {
    var next := NotifyNext(r, disableTokens);
    var head, rest := r.active[0], r.active[1..];
    var i, j :| 0 <= i < j < |r.active| && r.active[i] == a && r.active[j] == b;
    if head == a {
      assert a !in rest;
      assert next.active == rest + [a];
      assert next.active[j - 1] == b && next.active[|rest|] == a;
    } else {
      BeforeTail(r.active, a, b);
      BeforeAppend(rest, [head], a, b);
    }
  }

  lemma RequeueOrder(s: seq<Port>, t: seq<Port>, x: Port, a: Port, b: Port)
    requires Before(s, a, b) && NoDuplicates(s) && a in t && b in t
    requires t == s || t == s + [x] || t == Without(s, x)
    ensures Before(t, a, b)
  {
    if t == s + [x] {
      BeforeAppend(s, [x], a, b);
    } else if t == Without(s, x) {
      WithoutKeeps(s, x);
      if x in s {
        BeforeWithout(s, x, a, b);
      }
    }
  }

  ghost predicate Alternates(t: seq<Port>) {
    forall i :: 0 <= i < |t| - 1 ==> t[i] != t[i + 1]
  }

  /** The earlier of two ports in the queue is notified first, and then they take turns. */
  lemma {:induction false} TurnsFrom(r: Readers, ops: seq<Op>, disableTokens: bool, a: Port, b: Port)
    requires a != b && StayReady(r, ops, disableTokens, a, b) && Before(r.active, a, b)
    ensures var t := Trace(r, ops, disableTokens, a, b);
            Alternates(t) && (t != [] ==> t[0] == a)
    decreases |ops|
  {
    if ops != [] {
      var next := Apply(r, ops[0], disableTokens);
      StepOrder(r, ops[0], disableTokens, a, b);
      TraceSymmetric(next, ops[1..], disableTokens, a, b);
      if ops[0].Notify? && r.active[0] == a {
        TurnsFrom(next, ops[1..], disableTokens, b, a);
      } else {
        TurnsFrom(next, ops[1..], disableTokens, a, b);
      }
    }
  }

  lemma {:induction false} TraceSymmetric(r: Readers, ops: seq<Op>, disableTokens: bool, a: Port, b: Port)
    requires StayReady(r, ops, disableTokens, a, b)
    ensures StayReady(r, ops, disableTokens, b, a)
    ensures Trace(r, ops, disableTokens, a, b) == Trace(r, ops, disableTokens, b, a)
    decreases |ops|
  {
    if ops != [] {
      TraceSymmetric(Apply(r, ops[0], disableTokens), ops[1..], disableTokens, a, b);
    }
  }

  /**
   Two ports that stay ready are notified strictly in turn, whatever other ports join, leave,
   pause or run out of tokens.
   */
  lemma ReadersTakeTurns(r: Readers, ops: seq<Op>, disableTokens: bool, a: Port, b: Port)
    requires a != b && StayReady(r, ops, disableTokens, a, b)
    ensures Alternates(Trace(r, ops, disableTokens, a, b))
  {
    OneBeforeOther(r.active, a, b);
    if Before(r.active, a, b) {
      TurnsFrom(r, ops, disableTokens, a, b);
    } else {
      TraceSymmetric(r, ops, disableTokens, a, b);
      TurnsFrom(r, ops, disableTokens, b, a);
    }
  }

  // ---------- Ports that become ready ----------

  /** The readers after a run. */
  ghost function Final(r: Readers, ops: seq<Op>, disableTokens: bool, a: Port, b: Port): Readers
    requires StayReady(r, ops, disableTokens, a, b)
    decreases |ops|
  {
    if ops == [] then r else Final(Apply(r, ops[0], disableTokens), ops[1..], disableTokens, a, b)
  }

  /** As long as neither is notified, they keep their order. */
  lemma {:induction false} OrderKept(r: Readers, ops: seq<Op>, disableTokens: bool, a: Port, b: Port)
    requires a != b && StayReady(r, ops, disableTokens, a, b) && Before(r.active, a, b)
    requires Trace(r, ops, disableTokens, a, b) == []
    ensures Before(Final(r, ops, disableTokens, a, b).active, a, b)
    decreases |ops|
  {
    if ops != [] {
      StepOrder(r, ops[0], disableTokens, a, b);
      OrderKept(Apply(r, ops[0], disableTokens), ops[1..], disableTokens, a, b);
    }
  }

  /** A port that becomes ready stands behind those that were. */
  lemma JoinsBehind(r: Readers, op: Op, disableTokens: bool, a: Port, b: Port)
    requires WellFormed(r) && Enabled(r, op) && a in r.active && b !in r.active
    requires var next := Apply(r, op, disableTokens); a in next.active && b in next.active
    ensures Before(Apply(r, op, disableTokens).active, a, b)
  {
    var next := Apply(r, op, disableTokens);
    var i :| 0 <= i < |r.active| && r.active[i] == a;
    if op.Set? || op.Return? {
      WithoutKeeps(r.active, op.port);
      assert next.active == r.active + [b];
      assert next.active[i] == a && next.active[|r.active|] == b;
    } else if op.Remove? {
      WithoutKeeps(r.active, op.port);
    } else if op.Notify? {
      assert forall p :: p in r.active <==> p == r.active[0] || p in r.active[1..];
    }
  }

  /**
   Between the time that a port becomes ready and its notification, every port that was ready before is
   notified, unless it stops being ready.
   */
  lemma LatecomerWaits(r: Readers, op: Op, ops: seq<Op>, disableTokens: bool, a: Port, b: Port)
    requires WellFormed(r) && Enabled(r, op) && a in r.active && b !in r.active
    requires StayReady(Apply(r, op, disableTokens), ops, disableTokens, a, b)
    requires [b] <= Final(Apply(r, op, disableTokens), ops, disableTokens, a, b).active
    ensures var t := Trace(Apply(r, op, disableTokens), ops, disableTokens, a, b); t != [] && t[0] == a
  {
    var next := Apply(r, op, disableTokens);
    JoinsBehind(r, op, disableTokens, a, b);
    TurnsFrom(next, ops, disableTokens, a, b);
    if Trace(next, ops, disableTokens, a, b) == [] {
      OrderKept(next, ops, disableTokens, a, b);
      FinalDistinct(next, ops, disableTokens, a, b);
    }
  }

  lemma {:induction false} FinalDistinct(r: Readers, ops: seq<Op>, disableTokens: bool, a: Port, b: Port)
    requires StayReady(r, ops, disableTokens, a, b)
    ensures NoDuplicates(Final(r, ops, disableTokens, a, b).active)
    decreases |ops|
  {
    if ops != [] {
      FinalDistinct(Apply(r, ops[0], disableTokens), ops[1..], disableTokens, a, b);
    }
  }

  /** Where tokens are disabled, no operation changes any. */
  lemma TokensUntouched(r: Readers, op: Op, p: Port)
    requires WellFormed(r) && Enabled(r, op) && p in r.ports && p in Apply(r, op, true).ports
    ensures Apply(r, op, true).ports[p].tokens == r.ports[p].tokens
  {
  }

  // ---------- Dispatching queued connections ----------

  /** The ports that `n` notifications in a row go to, without tokens. */
  ghost function Dispatched(r: Readers, n: nat): seq<Port>
    requires WellFormed(r)
    decreases n
  {
    if n == 0 || r.active == [] then []
    else
      NotifyNextKeeps(r, true);
      [r.active[0]] + Dispatched(NotifyNext(r, true), n - 1)
  }

  /** With a fixed set of readers, the notifications go around. */
  lemma {:induction false} DispatchedAt(r: Readers, n: nat, i: nat)
    requires WellFormed(r) && r.active != [] && i < n
    ensures |Dispatched(r, n)| == n && Dispatched(r, n)[i] == r.active[i % |r.active|]
    decreases n
  {
    hide WellFormed, NotifyNext;
    RotatedAt(r);
    var next, m := NotifyNext(r, true), |r.active|;
    NotifyNextKeeps(r, true);
    if n > 1 {
      DispatchedAt(next, n - 1, if i > 0 then i - 1 else 0);
    }
    if i > 0 {
      NextTurn(i, m);
    } else {
      assert 0 % m == 0;
    }
  }

  lemma RotatedAt(r: Readers)
    requires WellFormed(r) && r.active != []
    ensures r.active[0] in r.ports
    ensures NotifyNext(r, true).active == r.active[1..] + [r.active[0]]
  {
  }

  lemma NextTurn(i: nat, m: nat)
    requires i > 0 && m > 0
    ensures i % m == if (i - 1) % m + 1 == m then 0 else (i - 1) % m + 1
    ensures i / m == if (i - 1) % m + 1 == m then (i - 1) / m + 1 else (i - 1) / m
  {
    var q, x := (i - 1) / m, (i - 1) % m;
    assert i - 1 == q * m + x;
    if x + 1 == m {
      DivModUnique(i, m, q + 1, 0);
    } else {
      DivModUnique(i, m, q, x + 1);
    }
  }

  lemma DivModUnique(i: nat, m: nat, q: nat, x: nat)
    requires m > 0 && x < m && i == q * m + x
    ensures i / m == q && i % m == x
  {
    var y := i / m;
    assert i == y * m + i % m;
    if y > q {
      LargerQuotient(y, q, m);
    } else if y < q {
      LargerQuotient(q, y, m);
    }
  }

  lemma LargerQuotient(y: nat, q: nat, m: nat)
    requires y > q
    ensures y * m >= q * m + m
  {
    var d: nat := y - q - 1;
    assert y * m == q * m + m + d * m;
  }

  function Count(s: seq<Port>, p: Port): nat {
    if s == [] then 0 else Count(s[..|s| - 1], p) + if s[|s| - 1] == p then 1 else 0
  }

  /** `s` goes around `ring`, in which `p` stands once, at `k`. */
  lemma {:induction false} CountAround(s: seq<Port>, ring: seq<Port>, k: nat)
    requires k < |ring| && NoDuplicates(ring)
    requires forall i :: 0 <= i < |s| ==> s[i] == ring[i % |ring|]
    ensures Count(s, ring[k]) == |s| / |ring| + if k < |s| % |ring| then 1 else 0
    decreases |s|
  {
    var n, m := |s|, |ring|;
    if n == 0 {
      assert 0 / m == 0 && 0 % m == 0;
    } else {
      CountAround(s[..n - 1], ring, k);
      NextTurn(n, m);
      assert s[n - 1] == ring[(n - 1) % m];
    }
  }

  /** Of `n` queued connections, each of `m` fixed readers is given `n / m`, or one more. */
  lemma DispatchIsEven(r: Readers, n: nat, k: nat)
    requires WellFormed(r) && k < |r.active|
    ensures Count(Dispatched(r, n), r.active[k]) == n / |r.active| + if k < n % |r.active| then 1 else 0
  {
    var s := Dispatched(r, n);
    forall i | 0 <= i < n ensures |s| == n && s[i] == r.active[i % |r.active|] {
      DispatchedAt(r, n, i);
    }
    assert n == 0 ==> s == [];
    assert n > 0 ==> |s| == n by {
      if n > 0 { DispatchedAt(r, n, 0); }
    }
    CountAround(s, r.active, k);
  }
}
