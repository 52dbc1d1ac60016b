/**
 The circular doubly linked list of ready readers: `CircularLinkedList`.
 */
module CircularLists {

  /** `s` without the first `x`. */
  function Without<T(==)>(s: seq<T>, x: T): (r: seq<T>)
    ensures x !in s ==> r == s
  {
    if s == [] then []
    else if s[0] == x then s[1..]
    else [s[0]] + Without(s[1..], x)
  }

  lemma WithoutAt<T>(s: seq<T>, x: T, k: nat)
    requires k < |s| && s[k] == x && x !in s[..k]
    ensures Without(s, x) == Drop(s, k)
  {
    if k > 0 {
      assert s[0] == s[..k][0] != x;
      assert s[1..][..k - 1] == s[..k][1..];
      WithoutAt(s[1..], x, k - 1);
    }
  }

  function Succ(i: nat, n: nat): nat
    requires i < n
  {
    if i + 1 == n then 0 else i + 1
  }

  function Pred(i: nat, n: nat): nat
    requires i < n
  {
    if i == 0 then n - 1 else i - 1
  }

  class Entry<T> {
    const t: T
    var next: Entry?<T>
    var prev: Entry?<T>

    constructor (t: T)
      ensures this.t == t && next == null && prev == null
    {
      this.t, next, prev := t, null, null;
    }
  }

  function Values<T>(nodes: seq<Entry<T>>): (s: seq<T>)
    ensures |s| == |nodes| && forall i :: 0 <= i < |s| ==> s[i] == nodes[i].t
  {
    seq(|nodes|, i requires 0 <= i < |nodes| => nodes[i].t)
  }

  ghost predicate Distinct<T>(nodes: seq<Entry<T>>) {
    forall i, j :: 0 <= i < j < |nodes| ==> nodes[i] != nodes[j]
  }

  ghost predicate Ring<T>(nodes: seq<Entry<T>>)
    reads nodes
  {
    RingNext(nodes) && RingPrev(nodes)
  }

  ghost predicate RingNext<T>(nodes: seq<Entry<T>>)
    reads nodes
  {
    forall i {:trigger nodes[i].next} :: 0 <= i < |nodes| ==> nodes[i].next == nodes[Succ(i, |nodes|)]
  }

  ghost predicate RingPrev<T>(nodes: seq<Entry<T>>)
    reads nodes
  {
    forall i {:trigger nodes[i].prev} :: 0 <= i < |nodes| ==> nodes[i].prev == nodes[Pred(i, |nodes|)]
  }

  /** A new last node: only the links next to it change. */
  lemma RingAdd<T>(was: seq<Entry<T>>, e: Entry<T>)
    requires was != [] && e.next == was[0] && e.prev == was[|was| - 1]
    requires forall i {:trigger was[i].next} :: 0 <= i < |was| ==>
                                                  was[i].next == if i == |was| - 1 then e else was[i + 1]
    requires forall i {:trigger was[i].prev} :: 0 <= i < |was| ==>
                                                  was[i].prev == if i == 0 then e else was[i - 1]
    ensures Ring(was + [e])
  {
    var n, nodes := |was|, was + [e];
    forall i | 0 <= i <= n
      ensures nodes[i].next == nodes[Succ(i, n + 1)] && nodes[i].prev == nodes[Pred(i, n + 1)]
    {
      if i < n {
        assert nodes[i] == was[i];
      }
    }
  }

  /** A node taken out: its neighbours are linked to each other. */
  lemma RingUnlinkNext<T>(was: seq<Entry<T>>, k: nat)
    requires k < |was| && |was| > 1
    requires forall i {:trigger was[i].next} :: 0 <= i < |was| && i != k ==>
                                                  was[i].next == was[if i == Pred(k, |was|) then Succ(k, |was|) else Succ(i, |was|)]
    ensures RingNext(Drop(was, k))
  {
    var n, nodes := |was|, Drop(was, k);
    forall i | 0 <= i < n - 1 ensures nodes[i].next == nodes[Succ(i, n - 1)] {
      var j := if i < k then i else i + 1;
      assert was[j].next == was[if j == Pred(k, n) then Succ(k, n) else Succ(j, n)];
    }
  }

  lemma RingUnlinkPrev<T>(was: seq<Entry<T>>, k: nat)
    requires k < |was| && |was| > 1
    requires forall i {:trigger was[i].prev} :: 0 <= i < |was| && i != k ==>
                                                  was[i].prev == was[if i == Succ(k, |was|) then Pred(k, |was|) else Pred(i, |was|)]
    ensures RingPrev(Drop(was, k))
  {
    var n, nodes := |was|, Drop(was, k);
    forall i | 0 <= i < n - 1 ensures nodes[i].prev == nodes[Pred(i, n - 1)] {
      var j := if i < k then i else i + 1;
      assert was[j].prev == was[if j == Succ(k, n) then Pred(k, n) else Pred(j, n)];
    }
  }

  /** `s` without its element at `k`. */
  function Drop<T>(s: seq<T>, k: nat): (r: seq<T>)
    requires k < |s|
    ensures |r| == |s| - 1
    ensures forall i :: 0 <= i < |r| ==> r[i] == s[if i < k then i else i + 1]
  {
    s[..k] + s[k + 1..]
  }

  lemma DropKeeps<T>(nodes: seq<Entry<T>>, k: nat)
    requires k < |nodes| && Distinct(nodes)
    ensures Distinct(Drop(nodes, k)) && Values(Drop(nodes, k)) == Drop(Values(nodes), k)
  {
  }

  lemma AddKeeps<T>(nodes: seq<Entry<T>>, e: Entry<T>)
    requires Distinct(nodes) && forall i :: 0 <= i < |nodes| ==> nodes[i] != e
    ensures Distinct(nodes + [e]) && Values(nodes + [e]) == Values(nodes) + [e.t]
  {
  }

  class CircularLinkedList<T(==)> {
    var head: Entry?<T>
    /** The nodes, from the head on. */
    ghost var nodes: seq<Entry<T>>
    /** The nodes allocated so far. */
    ghost var repr: set<Entry<T>>

    ghost predicate Valid()
      reads this, repr
    {
      && (forall i :: 0 <= i < |nodes| ==> nodes[i] in repr)
      && head == (if nodes == [] then null else nodes[0])
      && Distinct(nodes)
      && Ring(nodes)
    }

    ghost function Contents(): seq<T>
      reads this
    {
      Values(nodes)
    }

    constructor ()
      ensures Valid() && nodes == [] && repr == {}
    {
      head, nodes, repr := null, [], {};
    }

    /** The ring gets one more node, between the last one and the head; the answer is whether there was none. */
    method Add(t: T) returns (wasEmpty: bool)
      requires Valid()
      modifies this, repr
      ensures Valid() && Contents() == old(Contents()) + [t] && (wasEmpty <==> old(nodes) == [])
      ensures fresh(repr - old(repr))
    {
      var e := new Entry(t);
      if head == null {
        e.next := e;
        e.prev := e;
        head := e;
        nodes, repr := [e], repr + {e};
        return true;
      } else {
        AddLast(e);
        return false;
      }
    }

    method AddLast(e: Entry<T>)
      requires Valid() && nodes != [] && e !in repr
      modifies this, repr, e
      ensures Valid() && Contents() == old(Contents()) + [e.t]
      ensures repr == old(repr) + {e}
    {
      LinkLast(e);
      hide Ring, Values;
      AddKeeps(nodes, e);
      nodes, repr := nodes + [e], repr + {e};
    }

    /** The pointer updates: the list is not changed yet, only its ends are. */
    method LinkLast(e: Entry<T>)
      requires Valid() && nodes != [] && e !in repr
      modifies repr, e
      ensures Ring(nodes + [e]) && forall i :: 0 <= i < |nodes| ==> nodes[i] != e
    {
      ghost var n := |nodes|;
      assert nodes[0].prev == nodes[n - 1];
      e.prev := head.prev;
      e.next := head;
      e.prev.next := e;
      head.prev := e;
      assert forall i :: 0 <= i < n ==> (nodes[i] == head <==> i == 0);
      assert forall i :: 0 <= i < n ==> (nodes[i] == e.prev <==> i == n - 1);
      RingAdd(nodes, e);
    }

    method RemoveHead()
      requires Valid() && nodes != []
      modifies this, repr
      ensures Valid() && nodes == old(nodes)[1..] && Contents() == old(Contents())[1..] && repr == old(repr)
    {
      if head.next == head {
        assert |nodes| == 1;
        head, nodes := null, [];
      } else {
        hide Ring, Values;
        Unlink(head, 0);
        assert nodes == old(nodes)[1..] && Contents() == old(Contents())[1..];
      }
    }

    /** Empties the list; `cleared` are the values handed to the clearing function, in order. */
    method RemoveAll() returns (ghost cleared: seq<T>)
      requires Valid()
      modifies this, repr
      ensures Valid() && nodes == [] && repr == old(repr)
      ensures cleared == old(Contents())
    {
      hide Valid, Values;
      ghost var all, k := Contents(), 0;
      cleared := [];
      HeadKnown();
      while head != null
        invariant Valid() && repr == old(repr) && (head == null <==> nodes == [])
        invariant 0 <= k <= |all| && cleared == all[..k] && Contents() == all[k..]
        decreases |nodes|
      {
        HeadKnown();
        cleared := cleared + [head.t];
        assert all[k..][0] == all[k] == head.t && all[k..][1..] == all[k + 1..];
        k := k + 1;
        RemoveHead();
        HeadKnown();
      }
      HeadKnown();
    }

    lemma HeadKnown()
      requires Valid()
      ensures head == null <==> nodes == []
      ensures |Contents()| == |nodes| && (nodes != [] ==> Contents()[0] == head.t)
    {
    }

    method Rotate()
      requires Valid()
      modifies this
      ensures Valid() && nodes == (if old(nodes) == [] then [] else old(nodes)[1..] + [old(nodes)[0]])
      ensures repr == old(repr)
    {
      if head != null {
        head := head.next;
        nodes := nodes[1..] + [nodes[0]];
      }
    }

    /** Removes the first occurrence of `item`, if there is one. */
    method Remove(item: T)
      requires Valid()
      modifies this, repr
      ensures Valid() && Contents() == Without(old(Contents()), item)
      ensures repr == old(repr)
    {
      if head == null {
        return;
      } else if head == head.next {
        assert |nodes| == 1;
        if head.t == item {
          head := null;
          nodes := [];
        }
      } else {
        var current := head;
        ghost var k := 0;
        while true
          invariant 0 <= k < |nodes| && current == nodes[k] && |nodes| > 1
          invariant item !in Contents()[..k]
          invariant Valid() && nodes == old(nodes) && repr == old(repr)
          decreases |nodes| - k
        {
          if current.t == item {
            WithoutAt(Contents(), item, k);
            Unlink(current, k);
            return;
          }
          assert Contents()[..k + 1] == Contents()[..k] + [current.t];
          current := current.next;
          if current == head {
            assert k + 1 == |nodes|;
            break;
          }
          k := k + 1;
        }
        assert Contents()[..|nodes|] == Contents();
      }
    }

    /** Takes one of several nodes out of the circle. */
    method Unlink(current: Entry<T>, ghost k: nat)
      requires Valid() && |nodes| > 1 && k < |nodes| && current == nodes[k]
      modifies this, repr
      ensures Valid() && nodes == Drop(old(nodes), k) && Contents() == Drop(old(Contents()), k)
      ensures repr == old(repr)
    {
      var next := current.next;
      Bypass(current, k);
      hide Ring, Values, Drop;
      DropKeeps(nodes, k);
      if current == head {
        head := next;
      }
      nodes := Drop(nodes, k);
    }

    /** Links the neighbours of a node to each other. */
    method Bypass(current: Entry<T>, ghost k: nat)
      requires Valid() && |nodes| > 1 && k < |nodes| && current == nodes[k]
      modifies repr
      ensures Ring(Drop(nodes, k)) && nodes[k].next == old(nodes[k].next) == nodes[Succ(k, |nodes|)]
    {
      ghost var n := |nodes|;
      var next := current.next;
      var prev := current.prev;
      assert forall i :: 0 <= i < n ==> (nodes[i] == prev <==> i == Pred(k, n));
      assert forall i :: 0 <= i < n ==> (nodes[i] == next <==> i == Succ(k, n));
      prev.next := next;
      next.prev := prev;
      RingUnlinkNext(nodes, k);
      RingUnlinkPrev(nodes, k);
    }
  }
}
