/**
 * The kernel's intrusive list: a circle of heap nodes through a sentinel. Deleting poisons a node's
 * pointers and freeing marks it; every access demands that its node is not freed.
 */
module Ring {
  import opened Lists
  import opened Options

  class Node<T> {
    var next: Node?<T>
    var prev: Node?<T>
    var item: Option<T>
    ghost var freed: bool

    constructor (item: Option<T>)
      ensures this.item == item && !freed && next == null && prev == null
    {
      this.item, freed := item, false;
      next, prev := null, null;
    }

    /** Follows the forward pointer of a node that has not been freed. */
    method Next() returns (n: Node<T>)
      requires !freed && next != null
      ensures n == next
    {
      n := next;
    }

    method Item() returns (x: T)
      requires !freed && item.Some?
      ensures item == Some(x)
    {
      x := item.value;
    }

    /** kfree: once only. */
    ghost method Free()
      requires !freed
      modifies this`freed
      ensures freed
    {
      freed := true;
    }
  }

  class Ring<T> {
    const head: Node<T>
    ghost var nodes: seq<Node<T>>

    /** The circle, from the sentinel once around to the sentinel. */
    ghost function Circle(): (c: seq<Node<T>>)
      reads this
      ensures |c| == |nodes| + 2
    {
      [head] + nodes + [head]
    }

    ghost function NodeSet(): set<Node<T>>
      reads this
    {
      set n | n in nodes
    }

    ghost predicate Linked(i: nat)
      requires i <= |nodes|
      reads this, head, nodes
    {
      Circle()[i].next == Circle()[i + 1] && Circle()[i + 1].prev == Circle()[i]
    }

    ghost predicate Valid()
      reads this, head, nodes
    {
      && head !in nodes && !head.freed
      && (forall i, j :: 0 <= i < j < |nodes| ==> nodes[i] != nodes[j])
      && (forall i :: 0 <= i < |nodes| ==> nodes[i].item.Some? && !nodes[i].freed)
      && (forall i :: 0 <= i <= |nodes| ==> Linked(i))
    }

    /** The payloads in list order. */
    ghost function Items(): (r: seq<T>)
      requires Valid()
      reads this, head, nodes
      ensures |r| == |nodes|
    {
      seq(|nodes|, i requires 0 <= i < |nodes| && Valid() reads this, head, nodes => nodes[i].item.value)
    }

    /** INIT_LIST_HEAD. */
    constructor ()
      ensures Valid() && nodes == [] && fresh(head)
    {
      head := new Node(None);
      nodes := [];
      new;
      head.next, head.prev := head, head;
    }

    /** list_add_tail. */
    method AddTail(n: Node<T>)
      requires Valid() && n !in nodes && n != head && n.item.Some? && !n.freed
      modifies this`nodes, n`next, n`prev, head`next, head`prev, nodes`next
      ensures Valid() && nodes == old(nodes) + [n]
      ensures Items() == old(Items()) + [n.item.value]
    {
      assert Linked(|nodes|);
      var last := head.prev;
      assert last == Circle()[|nodes|];
      head.prev := n;
      n.next := head;
      n.prev := last;
      last.next := n;
      nodes := nodes + [n];
      forall i | 0 <= i <= |nodes| ensures Linked(i) {
        if i + 1 < |nodes| {
          assert old(Linked(i));
        }
      }
    }

    /** The pointer writes of list_del: the neighbours are joined, the node's own pointers poisoned. */
    method Bridge(n: Node<T>, ghost k: nat)
      requires Valid() && k < |nodes| && nodes[k] == n
      modifies head`next, head`prev, nodes`next, nodes`prev
      ensures n.next == null && n.prev == null
      ensures Circle()[k].next == Circle()[k + 2] && Circle()[k + 2].prev == Circle()[k]
      ensures forall j :: 0 <= j <= |nodes| && j != k && j != k + 1 ==> Linked(j)
    {
      ghost var was := Circle();
      assert Linked(k) && Linked(k + 1);
      var before, after := n.prev, n.next;
      assert before == was[k] && n == was[k + 1] && after == was[k + 2];
      before.next := after;
      after.prev := before;
      n.next, n.prev := null, null;
      forall j | 0 <= j <= |nodes| && j != k && j != k + 1 ensures Linked(j) {
        assert old(Linked(j));
        assert was[j] != before && was[j + 1] != after;
      }
    }

    /** list_del. */
    method Del(n: Node<T>, ghost k: nat)
      requires Valid() && k < |nodes| && nodes[k] == n
      modifies this`nodes, head`next, head`prev, nodes`next, nodes`prev
      ensures Valid() && nodes == old(nodes)[..k] + old(nodes)[k + 1..]
      ensures !n.freed && n.next == null && n.prev == null && n !in nodes
    {
      ghost var was := Circle();
      Bridge(n, k);
      label bridged:
      nodes := nodes[..k] + nodes[k + 1..];
      assert forall i :: 0 <= i < |Circle()| ==> Circle()[i] == was[if i <= k then i else i + 1];
      forall i | 0 <= i <= |nodes| ensures Linked(i) {
        assert i != k ==> old@bridged(Linked(if i < k then i else i + 1));
      }
    }

    /** What a deletion does to the payloads. */
    method DelItem(n: Node<T>, ghost k: nat)
      requires Valid() && k < |nodes| && nodes[k] == n
      modifies this`nodes, head`next, head`prev, nodes`next, nodes`prev
      ensures Valid() && nodes == old(nodes)[..k] + old(nodes)[k + 1..]
      ensures Items() == old(Items())[..k] + old(Items())[k + 1..]
      ensures !n.freed && n !in nodes
    {
      Del(n, k);
    }

    /** Walks the circle to the first match. */
    method Locate(p: T -> bool) returns (n: Node?<T>, ghost k: nat)
      requires Valid()
      ensures n != null ==> IsFirst(Items(), p, k) && nodes[k] == n
      ensures n == null ==> forall j :: 0 <= j < |nodes| ==> !p(Items()[j])
    {
      k := 0;
      assert Linked(0);
      var cur := head.Next();
      while cur != head
        invariant k <= |nodes| && cur == Circle()[k + 1] && !cur.freed
        invariant forall j :: 0 <= j < k ==> !p(Items()[j])
        decreases |nodes| - k
      {
        var x := cur.Item();
        if p(x) {
          return cur, k;
        }
        k := k + 1;
        assert Linked(k);
        cur := cur.Next();
      }
      n := null;
    }

    /** The lookups. */
    method Find(p: T -> bool) returns (r: Option<T>)
      requires Valid()
      ensures r == First(Items(), p)
    {
      var n, k := Locate(p);
      if n == null {
        NoneMatches(Items(), p);
        r := None;
      } else {
        FirstAt(Items(), p, k);
        var x := n.Item();
        r := Some(x);
      }
    }

    /** The removals: exactly the first match goes, and is freed; the rest keep their order. */
    method RemoveFirst(p: T -> bool) returns (found: bool)
      requires Valid()
      modifies this`nodes, head, nodes
      ensures Valid() && found == First(old(Items()), p).Some?
      ensures Items() == WithoutFirst(old(Items()), p)
      ensures forall n :: n in nodes ==> n in old(nodes)
      ensures forall n :: n in old(nodes) ==> (n.freed <==> n !in nodes)
    {
      var n, k := Locate(p);
      if n == null {
        NoneMatches(Items(), p);
        found := false;
      } else {
        FirstAt(Items(), p, k);
        DelItem(n, k);
        FreeUnlisted(n);
        found := true;
      }
    }

    /** kfree of a node that is no longer listed. */
    ghost method FreeUnlisted(n: Node<T>)
      requires Valid() && n !in nodes && n != head && !n.freed
      modifies n`freed
      ensures Valid() && n.freed && Items() == old(Items())
    {
      n.Free();
    }

    /** One turn of the clearing loops: the front goes, and the walk looks one node further. */
    method FreeFront(n: Node<T>, after: Node<T>) returns (next: Node<T>)
      requires Valid() && nodes != [] && n == Circle()[1] && after == Circle()[2]
      modifies this`nodes, head`next, head`prev, nodes`next, nodes`prev, n`freed
      ensures Valid() && nodes == old(nodes)[1..] && n.freed
      ensures after == Circle()[1] && next == Circle()[if |nodes| > 0 then 2 else 1]
    {
      Del(n, 0);
      FreeUnlisted(n);
      assert after == Circle()[1];
      assert if |nodes| > 0 then Linked(1) else Linked(0);
      next := after.Next();
    }

    /**
     * The clearing loop: it ends with an empty circle, every node that was listed freed exactly once
     * and none read after that.
     */
    method Clear()
      requires Valid()
      modifies this`nodes, head, nodes
      ensures Valid() && nodes == [] && Items() == []
      ensures forall n :: n in old(nodes) ==> n.freed
    {
      assert Linked(0);
      var cur: Node<T> := head.Next();
      if |nodes| > 0 { assert Linked(1); }
      var tmp: Node<T> := cur.Next();
      ghost var k := 0;
      while cur != head
        invariant Valid() && k <= |old(nodes)| && nodes == old(nodes)[k..]
        invariant cur == Circle()[1] && tmp == Circle()[if |nodes| > 0 then 2 else 1]
        invariant forall j :: 0 <= j < k ==> old(nodes)[j].freed
        decreases |nodes|
      {
        var next := FreeFront(cur, tmp);
        k := k + 1;
        cur, tmp := tmp, next;
      }
    }

    /** Overwrites the payload of the first match in place. */
    method UpdateFirst(p: T -> bool, f: T -> T) returns (found: bool)
      requires Valid()
      modifies nodes`item
      ensures Valid() && nodes == old(nodes) && found == First(old(Items()), p).Some?
      ensures Items() == MapFirst(old(Items()), p, f)
    {
      var n, k := Locate(p);
      if n == null {
        NoneMatches(Items(), p);
        MapNone(Items(), p, f);
        found := false;
      } else {
        FirstAt(Items(), p, k);
        MapAt(Items(), k, p, f);
        var x := n.Item();
        Overwrite(n, k, f(x));
        found := true;
      }
    }

    method Overwrite(n: Node<T>, ghost k: nat, x: T)
      requires Valid() && k < |nodes| && nodes[k] == n
      modifies n`item
      ensures Valid() && Items() == old(Items())[k := x]
    {
      n.item := Some(x);
      assert forall i :: 0 <= i <= |nodes| ==> old(Linked(i)) ==> Linked(i);
    }
  }
}
