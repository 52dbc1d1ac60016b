/** The priority queue of timeouts: an array kept as a heap, and the position of every value in it. */
module PriorityQueues {
  import opened HeapSpec

  const MINIMUM_SIZE := 16

  lemma DownLeaf<V>(h: seq<Item<V>>, i: nat)
    requires i < |h| <= 2 * i + 1
    ensures Down(h, i) == h
  {
  }

  class PriorityQueue<V(0, ==)> {
    var minHeap: array<Item<V>>
    var size: nat
    var positions: map<V, nat>

    /** The map finds exactly the first `n` items. */
    ghost predicate Indexed(n: nat)
      requires n <= minHeap.Length
      reads this`minHeap, this`positions, minHeap
    {
      && (forall v :: v in positions ==> positions[v] < n && minHeap[positions[v]].value == v)
      && (forall i :: 0 <= i < n ==> minHeap[i].value in positions && positions[minHeap[i].value] == i)
    }

    ghost predicate Valid()
      reads this, minHeap
    {
      MINIMUM_SIZE <= minHeap.Length && size <= minHeap.Length && Indexed(size)
    }

    ghost function Items(): seq<Item<V>>
      requires size <= minHeap.Length
      reads this, minHeap
    {
      minHeap[..size]
    }

    constructor ()
      ensures Valid() && Items() == [] && fresh(minHeap)
    {
      minHeap := new Item<V>[MINIMUM_SIZE];
      size := 0;
      positions := map[];
    }

    // ---------- Moving items ----------

    method Swap(i: nat, j: nat, ghost n: nat)
      requires n <= minHeap.Length && i < n && j < n && i != j && Indexed(n)
      modifies this`positions, minHeap
      ensures Indexed(n) && minHeap[..n] == HeapSpec.Swap(old(minHeap[..n]), i, j)
    {
      var temp := minHeap[i];
      minHeap[i] := minHeap[j];
      minHeap[j] := temp;
      positions := positions[minHeap[i].value := i];
      positions := positions[minHeap[j].value := j];
    }

    method BubbleUp(offset: nat, ghost n: nat)
      requires n <= minHeap.Length && offset < n && Indexed(n)
      modifies this`positions, minHeap
      ensures Indexed(n) && minHeap[..n] == Up(old(minHeap[..n]), offset)
    {
      var i: nat := offset;
      while i != 0
        invariant i < n && Indexed(n)
        invariant Up(minHeap[..n], i) == Up(old(minHeap[..n]), offset)
      {
        var parent := Parent(i);
        if minHeap[parent].priority > minHeap[i].priority {
          Swap(parent, i, n);
        }
        i := parent;
      }
    }

    method SmallestChild(i: nat) returns (smallest: nat)
      requires size <= minHeap.Length && 2 * i + 1 < size
      ensures smallest == Smallest(minHeap[..size], i)
    {
      var left := 2 * i + 1;
      smallest := i;
      if minHeap[left].priority < minHeap[i].priority {
        smallest := left;
      }
      if left + 1 < size && minHeap[left + 1].priority < minHeap[smallest].priority {
        smallest := left + 1;
      }
    }

    method BubbleDown(offset: nat)
      requires size <= minHeap.Length && offset < size && Indexed(size)
      modifies this`positions, minHeap
      ensures Indexed(size) && minHeap[..size] == Down(old(minHeap[..size]), offset)
    {
      hide Indexed, Smallest;
      var i: nat := offset;
      while 2 * i + 1 < size
        invariant i < size && Indexed(size)
        invariant Down(minHeap[..size], i) == Down(old(minHeap[..size]), offset)
        decreases size - i
      {
        var smallest := SmallestChild(i);
        if smallest == i {
          return;
        }
        Swap(i, smallest, size);
        i := smallest;
      }
      DownLeaf(minHeap[..size], i);
    }

    method Resize(capacity: nat)
      requires size <= minHeap.Length && size <= capacity && Indexed(size)
      modifies this`minHeap
      ensures fresh(minHeap) && minHeap.Length == capacity && Indexed(size) && minHeap[..size] == old(minHeap[..size])
    {
      var backing := new Item<V>[capacity];
      forall i | 0 <= i < size {
        backing[i] := minHeap[i];
      }
      minHeap := backing;
    }

    // ---------- The operations ----------

    method Grow()
      requires Valid()
      modifies this`minHeap
      ensures Valid() && size < minHeap.Length && minHeap[..size] == old(minHeap[..size])
      ensures minHeap == old(minHeap) || fresh(minHeap)
    {
      if size == minHeap.Length {
        Resize(2 * minHeap.Length);
      }
    }

    method SetLast(item: Item<V>)
      requires size < minHeap.Length && Indexed(size) && item.value !in positions
      modifies this`positions, minHeap
      ensures Indexed(size + 1) && minHeap[..size + 1] == old(minHeap[..size]) + [item]
    {
      minHeap[size] := item;
      positions := positions[item.value := size];
    }

    method Insert(priority: int, value: V)
      requires Valid() && value !in positions
      modifies this, minHeap
      ensures Valid() && Items() == HeapSpec.Insert(old(Items()), Item(priority, value))
      ensures minHeap == old(minHeap) || fresh(minHeap)
    {
      hide Indexed, Up;
      Grow();
      SetLast(Item(priority, value));
      ghost var items := old(Items()) + [Item(priority, value)];
      assert minHeap[..size + 1] == items;
      BubbleUp(size, size + 1);
      size := size + 1;
      assert Items() == Up(items, size - 1);
    }

    method Minimum() returns (item: Item<V>)
      requires Valid() && size > 0
      ensures item == Items()[0]
      ensures Ordered(Items()) ==> forall i :: 0 <= i < size ==> item.priority <= Items()[i].priority
    {
      item := minHeap[0];
      if Ordered(Items()) {
        forall i | 0 <= i < size ensures item.priority <= Items()[i].priority {
          MinimumIsLeast(Items(), i);
        }
      }
    }

    /** The last item fills the hole. */
    method Replace(k: nat)
      requires k < size < minHeap.Length && Indexed(size + 1)
      modifies this`positions, minHeap
      ensures Indexed(size) && minHeap[..size] == old(minHeap[..size][k := minHeap[size]])
    {
      positions := positions - {minHeap[k].value};
      positions := positions[minHeap[size].value := k];
      minHeap[k] := minHeap[size];
    }

    method RemoveAt(k: nat)
      requires Valid() && k < size
      modifies this, minHeap
      ensures Valid() && Items() == HeapSpec.RemoveAt(old(Items()), k)
      ensures minHeap == old(minHeap) || fresh(minHeap)
    {
      hide Indexed, Down;
      size := size - 1;
      assert old(Items())[..size] == minHeap[..size];
      if k == size {
        ForgetLast();
      } else {
        Replace(k);
        BubbleDown(k);
      }
      if size <= minHeap.Length / 4 && MINIMUM_SIZE <= minHeap.Length / 2 {
        Resize(minHeap.Length / 2);
      }
    }

    method ForgetLast()
      requires size < minHeap.Length && Indexed(size + 1)
      modifies this`positions
      ensures Indexed(size)
    {
      positions := positions - {minHeap[size].value};
    }

    method RemoveMinimum()
      requires Valid() && size > 0
      modifies this, minHeap
      ensures Valid() && Items() == HeapSpec.RemoveAt(old(Items()), 0)
      ensures minHeap == old(minHeap) || fresh(minHeap)
      ensures old(Ordered(Items())) ==> Ordered(Items())
    {
      if Ordered(Items()) {
        RemoveOrders(Items(), 0);
      }
      RemoveAt(0);
    }

    /** Keeps the order exactly when the last item belongs below the parent of the removed one. */
    method RemoveByValue(value: V) returns (removed: bool)
      requires Valid()
      modifies this, minHeap
      ensures Valid() && removed == (value in old(positions))
      ensures Items() == if removed then HeapSpec.RemoveAt(old(Items()), old(positions)[value]) else old(Items())
      ensures minHeap == old(minHeap) || fresh(minHeap)
      ensures old(Ordered(Items())) ==>
                (Ordered(Items()) <==> (removed ==> RemovalKeepsOrder(old(Items()), old(positions)[value])))
    {
      removed := value in positions;
      if removed {
        if Ordered(Items()) {
          RemoveOrders(Items(), positions[value]);
        }
        RemoveAt(positions[value]);
      }
    }

    method InsertOrChangePriority(priority: int, value: V) returns (inserted: bool)
      requires Valid()
      modifies this, minHeap
      ensures Valid() && inserted == (value !in old(positions))
      ensures Items() == if inserted then HeapSpec.Insert(old(Items()), Item(priority, value))
                         else ChangeAt(old(Items()), old(positions)[value], priority)
      ensures minHeap == old(minHeap) || fresh(minHeap)
      ensures old(Ordered(Items())) ==> Ordered(Items())
    {
      if Ordered(Items()) {
        InsertOrders(Items(), Item(priority, value));
      }
      inserted := value !in positions;
      if inserted {
        Insert(priority, value);
      } else {
        if Ordered(Items()) {
          ChangeOrders(Items(), positions[value], priority);
        }
        ChangePriority(positions[value], priority);
      }
    }

    method ChangePriority(k: nat, priority: int)
      requires Valid() && k < size
      modifies this`positions, minHeap
      ensures Valid() && Items() == ChangeAt(old(Items()), k, priority)
    {
      minHeap[k] := minHeap[k].(priority := priority);
      assert Items() == old(Items())[k := old(Items())[k].(priority := priority)];
      if k == 0 {
        BubbleDown(k);
      } else {
        var diff := minHeap[k].priority - minHeap[Parent(k)].priority;
        if diff < 0 {
          BubbleUp(k, size);
        } else if diff > 0 {
          BubbleDown(k);
        }
      }
    }
  }
}
