/** Binary heaps as sequences: what the priority queue does to its array. */
module HeapSpec {

  datatype Item<V> = Item(priority: int, value: V)

  function Parent(i: nat): nat
    requires i > 0
  {
    (i - 1) / 2
  }

  /** An item is no smaller than its parent. */
  ghost predicate Edge<V>(h: seq<Item<V>>, i: nat)
    requires i < |h|
  {
    i > 0 ==> h[Parent(i)].priority <= h[i].priority
  }

  ghost predicate Ordered<V>(h: seq<Item<V>>) {
    forall i :: 0 <= i < |h| ==> Edge(h, i)
  }

  function Swap<V>(h: seq<Item<V>>, i: nat, j: nat): (r: seq<Item<V>>)
    requires i < |h| && j < |h|
    ensures |r| == |h|
  {
    h[i := h[j]][j := h[i]]
  }

  // ---------- The operations ----------

  function Up<V>(h: seq<Item<V>>, i: nat): (r: seq<Item<V>>)
    requires i < |h|
    ensures |r| == |h|
    decreases i
  {
    if i == 0 then h
    else Up(if h[Parent(i)].priority > h[i].priority then Swap(h, Parent(i), i) else h, Parent(i))
  }

  /** The smallest of an item and its children. */
  function Smallest<V>(h: seq<Item<V>>, i: nat): (k: nat)
    requires i < |h|
    ensures i <= k < |h| && (k == i || k == 2 * i + 1 || k == 2 * i + 2)
  {
    var left := 2 * i + 1;
    var k := if left < |h| && h[left].priority < h[i].priority then left else i;
    if left + 1 < |h| && h[left + 1].priority < h[k].priority then left + 1 else k
  }

  function Down<V>(h: seq<Item<V>>, i: nat): (r: seq<Item<V>>)
    requires i < |h|
    ensures |r| == |h|
    decreases |h| - i
  {
    var k := Smallest(h, i);
    if k == i then h else Down(Swap(h, i, k), k)
  }

  function Insert<V>(h: seq<Item<V>>, item: Item<V>): seq<Item<V>> {
    Up(h + [item], |h|)
  }

  function RemoveAt<V>(h: seq<Item<V>>, k: nat): seq<Item<V>>
    requires k < |h|
  {
    var n := |h| - 1;
    if k == n then h[..n] else Down(h[..n][k := h[n]], k)
  }

  function ChangeAt<V>(h: seq<Item<V>>, k: nat, priority: int): seq<Item<V>>
    requires k < |h|
  {
    var g := h[k := h[k].(priority := priority)];
    if k == 0 then Down(g, k)
    else if priority < g[Parent(k)].priority then Up(g, k)
    else if priority > g[Parent(k)].priority then Down(g, k)
    else g
  }

  // ---------- The items that stay ----------

  lemma SwapItems<V>(h: seq<Item<V>>, i: nat, j: nat)
    requires i < |h| && j < |h|
    ensures multiset(Swap(h, i, j)) == multiset(h)
  {
  }

  lemma {:induction false} UpItems<V>(h: seq<Item<V>>, i: nat)
    requires i < |h|
    ensures multiset(Up(h, i)) == multiset(h)
    decreases i
  {
    if i > 0 {
      SwapItems(h, Parent(i), i);
      UpItems(if h[Parent(i)].priority > h[i].priority then Swap(h, Parent(i), i) else h, Parent(i));
    }
  }

  lemma {:induction false} DownItems<V>(h: seq<Item<V>>, i: nat)
    requires i < |h|
    ensures multiset(Down(h, i)) == multiset(h)
    decreases |h| - i
  {
    var k := Smallest(h, i);
    if k != i {
      SwapItems(h, i, k);
      DownItems(Swap(h, i, k), k);
    }
  }

  lemma InsertItems<V>(h: seq<Item<V>>, item: Item<V>)
    ensures multiset(Insert(h, item)) == multiset(h) + multiset{item}
  {
    UpItems(h + [item], |h|);
  }

  lemma RemoveItems<V>(h: seq<Item<V>>, k: nat)
    requires k < |h|
    ensures multiset(RemoveAt(h, k)) == multiset(h) - multiset{h[k]}
  {
    var n := |h| - 1;
    assert h == h[..n] + [h[n]];
    if k < n {
      DownItems(h[..n][k := h[n]], k);
    }
  }

  lemma ChangeItems<V>(h: seq<Item<V>>, k: nat, priority: int)
    requires k < |h|
    ensures multiset(ChangeAt(h, k, priority)) == multiset(h) - multiset{h[k]} + multiset{h[k].(priority := priority)}
  {
    var g := h[k := h[k].(priority := priority)];
    UpItems(g, k);
    DownItems(g, k);
  }

  // ---------- The order ----------

  /** The root is a least item. */
  lemma {:induction false} MinimumIsLeast<V>(h: seq<Item<V>>, i: nat)
    requires Ordered(h) && i < |h|
    ensures h[0].priority <= h[i].priority
  {
    assert Edge(h, i);
    if i > 0 {
      MinimumIsLeast(h, Parent(i));
    }
  }

  /** Ordered but for the item at `i`, which may be smaller than its parent. */
  ghost predicate OrderedButUp<V>(h: seq<Item<V>>, i: nat)
    requires i < |h|
  {
    forall j :: 0 <= j < |h| && j != i ==>
                  Edge(h, j) && (j > 0 && i > 0 && Parent(j) == i ==> h[Parent(i)].priority <= h[j].priority)
  }

  lemma {:induction false} UpOrders<V>(h: seq<Item<V>>, i: nat)
    requires i < |h| && OrderedButUp(h, i)
    ensures Ordered(Up(h, i))
    decreases i
  {
    if i > 0 {
      var g := if h[Parent(i)].priority > h[i].priority then Swap(h, Parent(i), i) else h;
      forall j | 0 <= j < |g| && j != Parent(i)
        ensures Edge(g, j)
        ensures j > 0 && Parent(i) > 0 && Parent(j) == Parent(i) ==> g[Parent(Parent(i))].priority <= g[j].priority
      {
        assert j != i ==> Edge(h, j);
        assert Edge(h, Parent(i));
      }
      UpOrders(g, Parent(i));
    } else {
      assert Edge(h, 0);
    }
  }

  /** Ordered but for the item at `i`, which may be larger than its children. */
  ghost predicate OrderedButDown<V>(h: seq<Item<V>>, i: nat)
    requires i < |h|
  {
    forall j :: 0 <= j < |h| && j != i ==>
                  if j > 0 && Parent(j) == i then i > 0 ==> h[Parent(i)].priority <= h[j].priority else Edge(h, j)
  }

  /** What bubbling down leaves alone: everything outside the subtree of `i`; and the root of it sinks. */
  lemma {:induction false} DownFrame<V>(h: seq<Item<V>>, i: nat)
    requires i < |h|
    ensures forall j :: 0 <= j < i ==> Down(h, i)[j] == h[j]
    ensures Down(h, i)[i].priority <= h[i].priority
    decreases |h| - i
  {
    var k := Smallest(h, i);
    if k != i {
      DownFrame(Swap(h, i, k), k);
    }
  }

  lemma SmallestIsLeast<V>(h: seq<Item<V>>, i: nat)
    requires i < |h|
    ensures var k := Smallest(h, i);
            && h[k].priority <= h[i].priority
            && (k != i ==> Parent(k) == i)
            && (forall j :: 0 < j < |h| && Parent(j) == i ==> h[k].priority <= h[j].priority)
  {
  }

  lemma SinkStep<V>(h: seq<Item<V>>, i: nat, k: nat)
    requires i < k < |h| && OrderedButDown(h, i) && Edge(h, i) && Parent(k) == i
    requires h[k].priority <= h[i].priority
    requires forall j :: 0 < j < |h| && Parent(j) == i ==> h[k].priority <= h[j].priority
    ensures OrderedButDown(Swap(h, i, k), k) && Edge(Swap(h, i, k), k)
  {
    var g := Swap(h, i, k);
    forall j | 0 <= j < |g| && j != k
      ensures if j > 0 && Parent(j) == k then g[Parent(k)].priority <= g[j].priority else Edge(g, j)
    {
      assert j != i ==> (j > 0 && Parent(j) == i) || Edge(h, j);
    }
  }

  lemma {:induction false} DownOrders<V>(h: seq<Item<V>>, i: nat)
    requires i < |h| && OrderedButDown(h, i) && Edge(h, i)
    ensures Ordered(Down(h, i))
    decreases |h| - i
  {
    hide Smallest;
    var k := Smallest(h, i);
    SmallestIsLeast(h, i);
    if k == i {
      forall j | 0 <= j < |h| ensures Edge(h, j) {
      }
    } else {
      hide OrderedButDown, Edge, Swap, Ordered;
      SinkStep(h, i, k);
      DownOrders(Swap(h, i, k), k);
    }
  }

  lemma InsertOrders<V>(h: seq<Item<V>>, item: Item<V>)
    requires Ordered(h)
    ensures Ordered(Insert(h, item))
  {
    var g := h + [item];
    forall j | 0 <= j < |g| && j != |h| ensures Edge(g, j) {
      assert Edge(h, j);
    }
    UpOrders(g, |h|);
  }

  lemma ChangeOrders<V>(h: seq<Item<V>>, k: nat, priority: int)
    requires Ordered(h) && k < |h|
    ensures Ordered(ChangeAt(h, k, priority))
  {
    var g := h[k := h[k].(priority := priority)];
    assert Edge(h, k);
    forall j | 0 <= j < |g| && j != k
      ensures (j > 0 && Parent(j) == k) || Edge(g, j)
      ensures j > 0 && k > 0 && Parent(j) == k ==> g[Parent(k)].priority <= g[j].priority
      ensures priority <= h[k].priority ==> Edge(g, j)
    {
      assert Edge(h, j);
    }
    if k > 0 && priority < g[Parent(k)].priority {
      UpOrders(g, k);
    } else {
      assert Edge(g, k);
      if k == 0 || priority > g[Parent(k)].priority {
        DownOrders(g, k);
      }
    }
  }

  /**
   Removal puts the last item in the hole and only ever moves it down. That keeps the order exactly
   when the last item is no smaller than the parent of the hole.
   */
  predicate RemovalKeepsOrder<V>(h: seq<Item<V>>, k: nat)
    requires k < |h|
  {
    k == 0 || k == |h| - 1 || h[Parent(k)].priority <= h[|h| - 1].priority
  }

  /** With the last item in the hole, only the hole can be out of order. */
  lemma HoleOrdered<V>(h: seq<Item<V>>, k: nat)
    requires Ordered(h) && k < |h| - 1
    ensures OrderedButDown(h[..|h| - 1][k := h[|h| - 1]], k)
  {
    var n := |h| - 1;
    var g := h[..n][k := h[n]];
    assert Edge(h, k);
    forall j | 0 <= j < n && j != k
      ensures if j > 0 && Parent(j) == k then k > 0 ==> g[Parent(k)].priority <= g[j].priority else Edge(g, j)
    {
      assert Edge(h, j);
    }
  }

  lemma RemoveOrders<V>(h: seq<Item<V>>, k: nat)
    requires Ordered(h) && k < |h|
    ensures Ordered(RemoveAt(h, k)) <==> RemovalKeepsOrder(h, k)
  {
    hide OrderedButDown, Down;
    var n := |h| - 1;
    if k == n {
      forall j | 0 <= j < n ensures Edge(h[..n], j) {
        assert Edge(h, j);
      }
    } else {
      var g := h[..n][k := h[n]];
      HoleOrdered(h, k);
      if RemovalKeepsOrder(h, k) {
        assert Edge(g, k);
        DownOrders(g, k);
      } else {
        DownFrame(g, k);
        assert !Edge(Down(g, k), k);
      }
    }
  }

  /** A heap of seven items from which the removal of one leaves a child before its parent. */
  lemma RemovalCanBreakOrder() returns (h: seq<Item<int>>)
    ensures Ordered(h) && |h| == 7 && !Ordered(RemoveAt(h, 3))
  {
    h := [Item(0, 1), Item(10, 2), Item(1, 3), Item(11, 4), Item(12, 5), Item(2, 6), Item(3, 7)];
    forall i | 0 <= i < |h| ensures Edge(h, i) {
    }
    RemoveOrders(h, 3);
  }
}
