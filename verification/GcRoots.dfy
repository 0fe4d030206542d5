/** The registered roots: a doubly linked list between two sentinels (gc_dlinkptr_type). */
module GcRoots {
  import opened Seqs
  import opened GcGraph

  class RootNode {
    var m_ptr: GcObj?
    var next: RootNode?
    var prev: RootNode?

    constructor (p: GcObj?)
      ensures m_ptr == p && next == null && prev == null
    {
      m_ptr, next, prev := p, null, null;
    }
  }

  function NextOf(xs: seq<RootNode>, i: nat): RootNode? {
    if i + 1 < |xs| then xs[i + 1] else null
  }

  function PrevOf(xs: seq<RootNode>, i: nat): RootNode?
    requires i <= |xs|
  {
    if i > 0 then xs[i - 1] else null
  }

  /** xs are linked both ways, ending in null both ways. */
  ghost predicate Linked(xs: seq<RootNode>)
    reads xs`next, xs`prev
  {
    forall i :: 0 <= i < |xs| ==> xs[i].next == NextOf(xs, i) && xs[i].prev == PrevOf(xs, i)
  }

  ghost function PointeesOf(nodes: seq<RootNode>): (r: seq<GcObj?>)
    reads nodes`m_ptr
    ensures |r| == |nodes| && forall i :: 0 <= i < |nodes| ==> r[i] == nodes[i].m_ptr
  {
    if nodes == [] then [] else [nodes[0].m_ptr] + PointeesOf(nodes[1..])
  }

  class RootList {
    const head: RootNode
    const tail: RootNode
    /** The registered nodes, first one first. */
    ghost var nodes: seq<RootNode>

    /** Sentinels included. */
    ghost function All(): seq<RootNode>
      reads this
    {
      [head] + nodes + [tail]
    }

    ghost predicate Valid()
      reads this, All()`next, All()`prev
    {
      NoDup(All()) && Linked(All())
    }

    /** What the registered nodes point to, first node first. */
    ghost function Pointees(): (r: seq<GcObj?>)
      reads this, nodes`m_ptr
      ensures |r| == |nodes| && forall i :: 0 <= i < |nodes| ==> r[i] == nodes[i].m_ptr
    {
      PointeesOf(nodes)
    }

    constructor ()
      ensures Valid() && nodes == [] && fresh(head) && fresh(tail)
    {
      var h := new RootNode(null);
      var t := new RootNode(null);
      head, tail, nodes := h, t, [];
      new;
      head.next, tail.prev := tail, head;
    }

    /** insert: unless the node lies in the object under construction, it becomes the first. */
    method Insert(p: RootNode, inside: bool)
      requires Valid() && p !in All()
      modifies this, p`next, p`prev, All()`next, All()`prev
      ensures Valid()
      ensures nodes == if inside then old(nodes) else [p] + old(nodes)
      ensures inside ==> p.next == null && p.prev == null
    {
      hide Linked, NoDup, NextOf, PrevOf;
      if inside {
        p.next, p.prev := null, null;
        return;
      }
      LinkSecond(p, All());
      nodes := [p] + nodes;
      assert All() == [head, p] + old(All())[1..];
    }

    method LinkSecond(p: RootNode, ghost xs: seq<RootNode>)
      requires |xs| >= 2 && xs[0] == head && NoDup(xs) && Linked(xs) && p !in xs
      modifies p`next, p`prev, xs`next, xs`prev
      ensures NoDup([xs[0], p] + xs[1..]) && Linked([xs[0], p] + xs[1..])
    {
      assert NoDup([xs[0], p] + xs[1..]);
      assert xs[0].next == NextOf(xs, 0);
      var first: RootNode := head.next;
      p.next := first;
      p.prev := head;
      first.prev := p;
      head.next := p;
      assert forall i :: 0 <= i < |xs| ==> xs[i].next == if i == 0 then p else NextOf(xs, i);
      assert forall i :: 0 <= i < |xs| ==> xs[i].prev == if i == 1 then p else PrevOf(xs, i);
      hide NoDup;
      LinkedWith(xs, p);
    }

    /** erase: a registered node is cut out; one that was never registered is left alone. */
    method Erase(p: RootNode)
      requires Valid() && (p in nodes || (p !in All() && p.prev == null))
      modifies this, All()`next, All()`prev
      ensures Valid()
      ensures nodes == if p in old(nodes) then Without(old(nodes), p) else old(nodes)
    {
      ghost var xs := All();
      ghost var k := if p in nodes then Index(nodes, p) + 1 else 0;
      assert p in nodes ==> xs[k] == p && xs[k].prev == PrevOf(xs, k) && xs[k].next == NextOf(xs, k);
      if p.prev == null {
        return;
      }
      CutOut(p, xs, k);
      nodes := Without(nodes, p);
      assert All() == xs[..k] + xs[k + 1..];
    }

    method CutOut(p: RootNode, ghost xs: seq<RootNode>, ghost k: nat)
      requires NoDup(xs) && Linked(xs) && 0 < k < |xs| - 1 && p == xs[k]
      modifies xs`next, xs`prev
      ensures NoDup(xs[..k] + xs[k + 1..]) && Linked(xs[..k] + xs[k + 1..])
    {
      assert p.prev == PrevOf(xs, k) && p.next == NextOf(xs, k);
      assert NoDup(xs[..k] + xs[k + 1..]);
      var p1: RootNode := p.prev;
      var p2: RootNode := p.next;
      p1.next := p2;
      p2.prev := p1;
      assert forall i :: 0 <= i < |xs| ==> xs[i].next == if i == k - 1 then p2 else NextOf(xs, i);
      assert forall i :: 0 <= i < |xs| ==> xs[i].prev == if i == k + 1 then p1 else PrevOf(xs, i);
      hide NoDup;
      LinkedWithout(xs, k);
    }
  }

  lemma LinkedWith(xs: seq<RootNode>, p: RootNode)
    requires |xs| >= 2 && p.next == xs[1] && p.prev == xs[0]
    requires forall i :: 0 <= i < |xs| ==> xs[i].next == if i == 0 then p else NextOf(xs, i)
    requires forall i :: 0 <= i < |xs| ==> xs[i].prev == if i == 1 then p else PrevOf(xs, i)
    ensures Linked([xs[0], p] + xs[1..])
  {
    var ys := [xs[0], p] + xs[1..];
    forall i | 0 <= i < |ys| ensures ys[i].next == NextOf(ys, i) && ys[i].prev == PrevOf(ys, i) {
      if i >= 2 { assert ys[i] == xs[i - 1] && xs[i - 1].next == NextOf(xs, i - 1); }
    }
  }

  lemma LinkedWithout(xs: seq<RootNode>, k: nat)
    requires 0 < k < |xs| - 1
    requires forall i :: 0 <= i < |xs| ==> xs[i].next == if i == k - 1 then xs[k + 1] else NextOf(xs, i)
    requires forall i :: 0 <= i < |xs| ==> xs[i].prev == if i == k + 1 then xs[k - 1] else PrevOf(xs, i)
    ensures Linked(xs[..k] + xs[k + 1..])
  {
    var ys := xs[..k] + xs[k + 1..];
    forall i | 0 <= i < |ys| ensures ys[i].next == NextOf(ys, i) && ys[i].prev == PrevOf(ys, i) {
      var e := if i < k then i else i + 1;
      assert ys[i] == xs[e];
      assert xs[e].next == if e == k - 1 then xs[k + 1] else NextOf(xs, e);
    }
  }
}
