/**
 * The push-front doubly linked list of list.c / list.h.
 *
 * `head` is the last element pushed and `tail` the first, so walking the
 * `next` links from the head visits the elements in reverse push order. The
 * ghost sequence `nodes` lists the nodes in that head-to-tail order.
 *
 * The source stores `void *` data and compares the first sizeof(void *)
 * bytes it points to (cmp_data, list.c:11-17); here the data has a type
 * with equality and the comparison is `==`.
 */
module Lists {

  class Node<T> {
    var data: T
    var next: Node?<T>
    var prev: Node?<T>

    constructor (data: T, next: Node?<T>)
      ensures this.data == data && this.next == next && this.prev == null
    {
      this.data := data;
      this.next := next;
      this.prev := null;
    }
  }

  /** ns are linked forward: each node's `next` is its successor, the last one's is null. */
  ghost predicate Chain<T>(ns: seq<Node<T>>)
    reads ns
  {
    forall i {:trigger ns[i].next} :: 0 <= i < |ns| ==> ns[i].next == (if i + 1 < |ns| then ns[i + 1] else null)
  }

  class DList<T(==)> {
    var length: int
    var head: Node?<T>
    var tail: Node?<T>

    /** The nodes from head to tail. */
    ghost var nodes: seq<Node<T>>
    /** The data from head to tail. */
    ghost var contents: seq<T>
    ghost var Repr: set<object>

    ghost predicate Valid()
      reads this, Repr
    {
      && this in Repr
      && (forall i :: 0 <= i < |nodes| ==> nodes[i] in Repr)
      && (forall i, j :: 0 <= i < j < |nodes| ==> nodes[i] != nodes[j])
      && |contents| == |nodes| == length
      && (forall i :: 0 <= i < |nodes| ==> nodes[i].data == contents[i])
      && (if nodes == [] then head == null && tail == null
          else head == nodes[0] && tail == nodes[|nodes| - 1])
      && (forall i {:trigger nodes[i].next} ::
            0 <= i < |nodes| ==> nodes[i].next == (if i + 1 < |nodes| then nodes[i + 1] else null))
      && (forall i {:trigger nodes[i].prev} ::
            0 <= i < |nodes| ==> nodes[i].prev == (if i > 0 then nodes[i - 1] else null))
    }

    /** new_list: length 0, no head and no tail. */
    constructor ()
      ensures Valid() && fresh(Repr)
      ensures length == 0 && head == null && tail == null && contents == []
    {
      length := 0;
      head := null;
      tail := null;
      nodes := [];
      contents := [];
      Repr := {this};
    }

    /**
     * l_push: the new node becomes the head and the old head's `prev`; the
     * first push also sets the tail; the length grows by one.
     */
    method Push(x: T)
      requires Valid()
      modifies this, Repr
      ensures Valid() && fresh(Repr - old(Repr))
      ensures contents == [x] + old(contents)
      ensures length == old(length) + 1
      ensures nodes[1..] == old(nodes)
    {
      ghost var oldNodes := nodes;
      var n := new Node(x, head);
      if head != null {
        head.prev := n;
      } else {
        tail := n;
      }
      head := n;
      length := length + 1;
      nodes := [n] + nodes;
      contents := [x] + contents;
      Repr := Repr + {n};
      forall i | 1 <= i < |nodes|
        ensures nodes[i].next == (if i + 1 < |nodes| then nodes[i + 1] else null)
        ensures nodes[i].prev == nodes[i - 1]
        ensures nodes[i].data == contents[i]
      {
        assert nodes[i] == oldNodes[i - 1];
        assert i + 1 < |nodes| ==> nodes[i + 1] == oldNodes[i];
      }
    }

    /**
     * l_find: the node nearest the head whose data equals x, or null when
     * there is none. The list is not changed.
     */
    method Find(x: T) returns (found: Node?<T>)
      requires Valid()
      ensures found == null <==> x !in contents
      ensures found != null ==> found in nodes && found.data == x
      ensures found != null ==> exists k :: 0 <= k < |nodes| && nodes[k] == found && x !in contents[..k]
    {
      var current := head;
      ghost var i := 0;
      while current != null
        invariant 0 <= i <= |nodes|
        invariant current == (if i < |nodes| then nodes[i] else null)
        invariant x !in contents[..i]
        decreases |nodes| - i
      {
        if current.data == x {
          return current;
        }
        assert contents[..i + 1] == contents[..i] + [contents[i]];
        current := current.next;
        i := i + 1;
      }
      assert contents[..i] == contents;
      found := null;
    }

    /**
     * l_remove(n), with k the position of n. Only the predecessor's `next`
     * is relinked: the head, the tail, every `prev` link and the length are
     * left as they were. Walking forward from the head therefore skips n
     * when n has a predecessor, and still starts at n when n was the head.
     */
    method Remove(n: Node<T>, ghost k: nat)
      requires Valid() && k < |nodes| && nodes[k] == n
      modifies if n.prev != null then {n.prev} else {}
      ensures unchanged(this)
      ensures forall i :: 0 <= i < |nodes| ==> nodes[i].prev == old(nodes[i].prev)
      ensures forall i :: 0 <= i < |nodes| && i != k - 1 ==> nodes[i].next == old(nodes[i].next)
      ensures k > 0 ==> Chain(nodes[..k] + nodes[k + 1..])
      ensures k == 0 ==> Chain(nodes)
    {
      ghost var before := nodes;
      assert nodes[k].prev == (if k > 0 then nodes[k - 1] else null);
      assert forall i :: 0 <= i < |before| ==> before[i].next == (if i + 1 < |before| then before[i + 1] else null);
      if n.prev != null {
        n.prev.next := n.next;
      }
      assert forall i :: 0 <= i < |nodes| && i != k - 1 ==> nodes[i].next == old(nodes[i].next);
      if k > 0 {
        SkipChain(nodes, k);
      }
    }
  }

  /** Linking the node before k to the one after k leaves a chain without k. */
  lemma SkipChain<T>(ns: seq<Node<T>>, k: nat)
    requires 0 < k < |ns|
    requires forall i :: 0 <= i < |ns| && i != k - 1 ==> ns[i].next == (if i + 1 < |ns| then ns[i + 1] else null)
    requires ns[k - 1].next == (if k + 1 < |ns| then ns[k + 1] else null)
    ensures Chain(ns[..k] + ns[k + 1..])
  {
    var skipped := ns[..k] + ns[k + 1..];
    forall i | 0 <= i < |skipped|
      ensures skipped[i].next == (if i + 1 < |skipped| then skipped[i + 1] else null)
    {
      if i < k - 1 {
        assert skipped[i] == ns[i] && skipped[i + 1] == ns[i + 1];
        assert ns[i].next == ns[i + 1];
      } else if i == k - 1 {
        assert skipped[i] == ns[k - 1];
        assert i + 1 < |skipped| ==> skipped[i + 1] == ns[k + 1];
      } else {
        assert skipped[i] == ns[i + 1];
        assert ns[i + 1].next == (if i + 2 < |ns| then ns[i + 2] else null);
        assert i + 1 < |skipped| ==> skipped[i + 1] == ns[i + 2];
      }
    }
    assert Chain(skipped);
  }

  /**
   * The walk callers make from the tail through the `prev` links: the
   * data in push order.
   */
  method WalkFromTail<T(==)>(list: DList<T>) returns (xs: seq<T>)
    requires list.Valid()
    ensures xs == Reverse(list.contents)
  {
    xs := [];
    var cur := list.tail;
    ghost var i := |list.nodes|;
    while cur != null
      invariant 0 <= i <= |list.nodes|
      invariant cur == (if i > 0 then list.nodes[i - 1] else null)
      invariant xs == Reverse(list.contents[i..])
      decreases i
    {
      assert list.contents[i - 1..][1..] == list.contents[i..];
      xs := xs + [cur.data];
      cur := cur.prev;
      i := i - 1;
    }
    assert list.contents[0..] == list.contents;
  }

  /**
   * The walk callers make from the head through the `next` links: the data
   * from the last pushed to the first.
   */
  method WalkFromHead<T(==)>(list: DList<T>) returns (xs: seq<T>)
    requires list.Valid()
    ensures xs == list.contents
  {
    xs := [];
    var cur := list.head;
    ghost var i := 0;
    while cur != null
      invariant 0 <= i <= |list.nodes|
      invariant cur == (if i < |list.nodes| then list.nodes[i] else null)
      invariant xs == list.contents[..i]
      decreases |list.nodes| - i
    {
      assert list.contents[..i + 1] == list.contents[..i] + [cur.data];
      xs := xs + [cur.data];
      cur := cur.next;
      i := i + 1;
    }
    assert list.contents[..i] == list.contents;
  }

  /** The head-to-tail contents after pushing xs, in order, onto a list holding init. */
  function Pushed<T>(init: seq<T>, xs: seq<T>): seq<T>
    decreases |xs|
  {
    if xs == [] then init else Pushed([xs[0]] + init, xs[1..])
  }

  function Reverse<T>(s: seq<T>): (r: seq<T>)
    ensures |r| == |s|
  {
    if s == [] then [] else Reverse(s[1..]) + [s[0]]
  }

  /** Pushing xs onto a list holding init puts xs, reversed, in front of init. */
  lemma {:induction false} PushedIsReverse<T>(init: seq<T>, xs: seq<T>)
    ensures Pushed(init, xs) == Reverse(xs) + init
    decreases |xs|
  {
    if xs != [] {
      PushedIsReverse([xs[0]] + init, xs[1..]);
      assert Reverse(xs[1..]) + ([xs[0]] + init) == (Reverse(xs[1..]) + [xs[0]]) + init;
    }
  }

  /** The element k steps from the head is the one pushed k pushes before the last. */
  lemma {:induction false} ReverseAt<T>(s: seq<T>, k: nat)
    requires k < |s|
    ensures Reverse(s)[k] == s[|s| - 1 - k]
    decreases |s|
  {
    if k < |s| - 1 {
      ReverseAt(s[1..], k);
    }
  }

  /** Pushing one more element puts it in front. */
  lemma ReverseSnoc<T>(s: seq<T>, x: T)
    ensures Reverse(s + [x]) == [x] + Reverse(s)
  {
    ReverseAppend(s, [x]);
    assert Reverse([x]) == [x] by { assert [x][1..] == []; }
  }

  lemma {:induction false} ReverseReverse<T>(s: seq<T>)
    ensures Reverse(Reverse(s)) == s
    decreases |s|
  {
    if s != [] {
      ReverseReverse(s[1..]);
      ReverseAppend(Reverse(s[1..]), [s[0]]);
      assert s == [s[0]] + s[1..];
    }
  }

  lemma {:induction false} ReverseAppend<T>(a: seq<T>, b: seq<T>)
    ensures Reverse(a + b) == Reverse(b) + Reverse(a)
    decreases |a|
  {
    if a == [] {
      assert a + b == b;
    } else {
      ReverseAppend(a[1..], b);
      assert (a + b)[1..] == a[1..] + b;
    }
  }
}
