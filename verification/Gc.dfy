/** gc_state: mark breadth first from the registered roots, then sweep the list of all objects. */
module Gc {
  import opened Seqs
  import opened GcGraph
  import opened GcRoots

  function Elems(q: seq<GcObj>): set<GcObj> {
    set o | o in q
  }

  function KidSet(kids: seq<GcObj?>): set<GcObj> {
    set c: GcObj | c in kids
  }

  lemma FirstNode(xs: seq<RootNode>)
    requires |xs| >= 2 && Linked(xs)
    ensures xs[0].next == xs[1]
  {
    assert xs[0].next == NextOf(xs, 0);
  }

  lemma NextNode(h: RootNode, nodes: seq<RootNode>, t: RootNode, i: nat)
    requires Linked([h] + nodes + [t]) && i <= |nodes| && ([h] + nodes + [t])[i + 1] != t
    ensures i < |nodes| && ([h] + nodes + [t])[i + 1] == nodes[i] && nodes[i].next == ([h] + nodes + [t])[i + 2]
  {
    var xs := [h] + nodes + [t];
    assert xs[i + 1].next == NextOf(xs, i + 1);
  }

  lemma LastNode(h: RootNode, nodes: seq<RootNode>, t: RootNode, i: nat)
    requires NoDup([h] + nodes + [t]) && i <= |nodes| && ([h] + nodes + [t])[i + 1] == t
    ensures i == |nodes|
  {
    var xs := [h] + nodes + [t];
    assert xs[|nodes| + 1] == t;
  }

  /** The objects of xs from the i-th on are chained by next, starting at p. */
  ghost predicate Chained(p: GcObj?, xs: seq<GcObj>, i: nat)
    reads xs`next
  {
    && i <= |xs|
    && p == (if i < |xs| then xs[i] else null)
    && forall j :: i <= j < |xs| ==> xs[j].next == After(xs, j)
  }

  function After(xs: seq<GcObj>, j: nat): GcObj? {
    if j + 1 < |xs| then xs[j + 1] else null
  }

  class GcState {
    var pLinkOfAllObject: GcObj?
    const roots: RootList
    var nNumberOfObject: int
    var nNumberOfObjectLast: int
    const nStepingDelta: nat
    /** The linked objects, in list order. */
    ghost var objs: seq<GcObj>
    /** How many collections have been completed. */
    ghost var collections: nat

    /** Every object that a root or a member points to is linked. */
    ghost predicate Valid()
      reads this, objs`next, objs`children, roots, roots.All()`next, roots.All()`prev, roots.nodes`m_ptr
    {
      && roots.Valid()
      && NoDup(objs) && Chained(pLinkOfAllObject, objs, 0)
      && nNumberOfObject == |objs| && 0 <= nNumberOfObjectLast <= nNumberOfObject
      && KidSet(roots.Pointees()) <= Elems(objs)
      && forall o :: o in objs ==> KidSet(o.children) <= Elems(objs)
    }

    /** Member pointers of the linked objects. */
    ghost function Members(): Graph
      reads this, objs`children
    {
      map o | o in objs :: KidSet(o.children)
    }

    ghost function Marked(): set<GcObj>
      reads this, objs`tags
    {
      set o | o in objs && o.tags == TAG_MARK
    }

    ghost predicate Clean()
      reads this, objs`tags
    {
      Marked() == {}
    }

    constructor (delta: nat)
      ensures Valid() && Clean() && objs == [] && roots.nodes == [] && fresh(roots) && fresh(roots.head) && fresh(roots.tail)
      ensures nStepingDelta == delta && nNumberOfObjectLast == 0 && collections == 0
    {
      roots := new RootList();
      pLinkOfAllObject, nNumberOfObject, nNumberOfObjectLast, nStepingDelta, objs := null, 0, 0, delta, [];
      collections := 0;
    }

    /** gc_mark_queue::append. */
    method Append(q: seq<GcObj>, p: GcObj?) returns (r: seq<GcObj>)
      requires p != null ==> p in objs
      modifies objs`tags
      ensures Marked() == old(Marked()) + (if p == null then {} else {p})
      ensures r == if p == null || p in old(Marked()) then q else q + [p]
    {
      if p == null || p.tags == TAG_MARK {
        return q;
      }
      p.tags := TAG_MARK;
      return q + [p];
    }

    /** _gc_mark of object o: its unmarked members are marked and queued. */
    method MarkMembers(o: GcObj, q: seq<GcObj>) returns (r: seq<GcObj>)
      requires o in objs && KidSet(o.children) <= Elems(objs)
      modifies objs`tags
      ensures Marked() == old(Marked()) + KidSet(o.children)
      ensures Elems(r) == Elems(q) + (KidSet(o.children) - old(Marked()))
    {
      r := q;
      for i := 0 to |o.children|
        invariant Marked() == old(Marked()) + KidSet(o.children[..i])
        invariant Elems(r) == Elems(q) + (KidSet(o.children[..i]) - old(Marked()))
      {
        var c := o.children[i];
        assert o.children[..i + 1] == o.children[..i] + [c];
        assert c != null ==> c in KidSet(o.children);
        ghost var before := r;
        r := Append(r, c);
        QueueGrown(before, c, r);
        KidsGrown(o.children[..i], c);
      }
      assert o.children[..|o.children|] == o.children;
    }

    lemma MarkedLinked()
      ensures Marked() <= Elems(objs)
    {
    }

    lemma GraphClosed()
      requires Valid()
      ensures Closed(Members())
      ensures Members().Keys == Elems(objs) && forall o :: o in Members() <==> o in objs
      ensures forall o :: o in objs ==> Members()[o] == KidSet(o.children) && KidSet(o.children) <= Elems(objs)
      ensures KidSet(roots.Pointees()) <= Elems(objs) && forall o: GcObj :: o in roots.Pointees() ==> o in objs
    {
    }

    /** A root's object is marked and its members queued, whether it was marked already or not. */
    method MarkRoot(o: GcObj, q: seq<GcObj>, ghost stale: set<GcObj>, ghost done: set<GcObj>) returns (r: seq<GcObj>)
      requires Valid() && o in KidSet(roots.Pointees())
      requires Progress(Members(), KidSet(roots.Pointees()), stale, Marked(), done, Elems(q))
      modifies objs`tags
      ensures Progress(Members(), KidSet(roots.Pointees()), stale, Marked(), done + {o}, Elems(r))
      ensures o in Members() && Elems(r) <= Elems(q) + Members()[o]
    {
      hide Progress, AllExplored, Chained, NoDup, Elems, Linked, PointeesOf;
      ghost var g, rs, m, pend := Members(), KidSet(roots.Pointees()), Marked(), Elems(q);
      GraphClosed();
      RootExplored(g, rs, stale, o);
      ProgressStep(g, rs, stale, m, done, pend, o, pend);
      o.tags := TAG_MARK;
      assert Marked() == m + {o};
      r := MarkMembers(o, q);
      assert Elems(r) == pend + (g[o] - (m + {o}));
    }

    lemma RootsLinked()
      requires Valid()
      ensures roots.Valid()
    {
    }

    /** The objects the roots point to are marked and their members queued. */
    method MarkRoots(ghost stale: set<GcObj>) returns (q: seq<GcObj>, ghost done: set<GcObj>)
      requires Valid() && Marked() == stale
      modifies objs`tags
      ensures Valid() && Members() == old(Members())
      ensures KidSet(roots.Pointees()) == done && Elems(q) <= KidsOf(Members(), done)
      ensures Progress(Members(), KidSet(roots.Pointees()), stale, Marked(), done, Elems(q))
    {
      hide Valid, Marked, Members, Progress, Chained, NoDup, Elems, Linked, PointeesOf;
      RootsLinked();
      ghost var g, ps := Members(), roots.Pointees();
      q, done := [], {};
      NothingYet(g, KidSet(ps), stale);
      hide KidsOf;
      ghost var i: nat := 0;
      FirstNode(roots.All());
      var p := roots.head.next;
      while p != roots.tail
        invariant i <= |roots.nodes| && p == roots.All()[i + 1]
        invariant Valid() && roots.Valid() && Members() == g && roots.Pointees() == ps
        invariant KidSet(ps[..i]) == done && Elems(q) <= KidsOf(g, done)
        invariant Progress(g, KidSet(ps), stale, Marked(), done, Elems(q))
        decreases |roots.nodes| - i
      {
        NextNode(roots.head, roots.nodes, roots.tail, i);
        var o := p.m_ptr;
        assert ps[..i + 1] == ps[..i] + [ps[i]] && ps[i] == o;
        KidsGrown(ps[..i], o);
        if o != null {
          ghost var before := q;
          q := MarkRoot(o, q, stale, done);
          KidsOfMore(g, done, o, Elems(before), Elems(q));
          done := done + {o};
        }
        p := p.next;
        i := i + 1;
      }
      LastNode(roots.head, roots.nodes, roots.tail, i);
      assert ps[..i] == ps;
    }

    /** The members of pending object o are marked and queued; rest is what else was pending. */
    method MarkPending(o: GcObj, q: seq<GcObj>, ghost stale: set<GcObj>, ghost done: set<GcObj>, ghost rest: set<GcObj>)
        returns (r: seq<GcObj>)
      requires Valid()
      requires Progress(Members(), KidSet(roots.Pointees()), stale, Marked(), done, rest + {o} + Elems(q))
      modifies objs`tags
      ensures Progress(Members(), KidSet(roots.Pointees()), stale, Marked(), done + {o}, rest + Elems(r))
      ensures old(Marked()) <= Marked() && Elems(r) == Elems(q) + (Marked() - old(Marked()))
    {
      hide Progress, AllExplored, Chained, NoDup, Elems, Linked, PointeesOf;
      ghost var g, rs, m, pend := Members(), KidSet(roots.Pointees()), Marked(), rest + {o} + Elems(q);
      GraphClosed();
      PendingIs(g, rs, stale, m, done, pend, o);
      ProgressStep(g, rs, stale, m, done, pend, o, rest + Elems(q));
      r := MarkMembers(o, q);
      assert Marked() == m + {o} + g[o];
      assert rest + Elems(r) == rest + Elems(q) + (g[o] - (m + {o}));
    }

    /** The members of every object of q are marked; the newly marked ones are returned. */
    method MarkLevel(q: seq<GcObj>, ghost stale: set<GcObj>, ghost done0: set<GcObj>) returns (r: seq<GcObj>, ghost done: set<GcObj>)
      requires Valid() && Progress(Members(), KidSet(roots.Pointees()), stale, Marked(), done0, Elems(q))
      modifies objs`tags
      ensures Valid() && Members() == old(Members()) && done0 <= done
      ensures Progress(Members(), KidSet(roots.Pointees()), stale, Marked(), done, Elems(r))
      ensures old(Marked()) <= Marked() && Elems(r) == Marked() - old(Marked())
    {
      hide Progress, Chained, NoDup, Elems, Linked, PointeesOf;
      ghost var g, rs := Members(), KidSet(roots.Pointees());
      r, done := [], done0;
      NoElems();
      assert q[0..] == q && Elems(q) + {} == Elems(q);
      for i := 0 to |q|
        invariant Valid() && Members() == g && KidSet(roots.Pointees()) == rs && done0 <= done
        invariant Progress(g, rs, stale, Marked(), done, Elems(q[i..]) + Elems(r))
        invariant old(Marked()) <= Marked() && Elems(r) == Marked() - old(Marked())
      {
        QueueHead(q, i);
        r := MarkPending(q[i], r, stale, done, Elems(q[i + 1..]));
        done := done + {q[i]};
      }
      assert q[|q|..] == [] && {} + Elems(r) == Elems(r);
    }

    /** The whole mark phase, one level of the breadth-first search after the other. */
    method MarkAll()
      requires Valid()
      modifies objs`tags
      ensures Valid() && Members() == old(Members())
      ensures Marked() == Survivors(Members(), KidSet(roots.Pointees()), old(Marked()))
    {
      hide Progress, AllExplored, Chained, Closed, NoDup, Elems, Linked, PointeesOf;
      ghost var stale := Marked();
      NoElems();
      var q1;
      ghost var done;
      q1, done := MarkRoots(stale);
      while q1 != []
        invariant Valid() && Members() == old(Members())
        invariant KidSet(roots.Pointees()) <= done && Progress(Members(), KidSet(roots.Pointees()), stale, Marked(), done, Elems(q1))
        decreases |objs| - |Marked()|, |q1|
      {
        ghost var m := Marked();
        var q2;
        q2, done := MarkLevel(q1, stale, done);
        MarkedLinked();
        LevelDecreases(objs, m, Marked(), q2);
        q1 := q2;
      }
      ProgressDone(Members(), KidSet(roots.Pointees()), stale, Marked(), done);
    }

    /** Marked objects go back on the list, in reverse order and tagged FLAG; the others are destroyed. */
    method Sweep()
      requires Valid()
      modifies this`pLinkOfAllObject, this`nNumberOfObject, this`objs, objs`tags, objs`next
      ensures objs == SweptOnto(old(objs), old(Marked()), [])
      ensures NoDup(objs) && Chained(pLinkOfAllObject, objs, 0) && nNumberOfObject == |objs|
      ensures forall o :: o in objs ==> o.tags == TAG_FLAG
    {
      hide Valid, Marked, Elems, KidSet, SweptOnto, NoDup, SweepPoint, Chained;
      SweepReady();
      ghost var xs, keep := objs, Marked();
      var p := pLinkOfAllObject;
      var kept: GcObj? := null;
      ghost var i: nat, acc: seq<GcObj> := 0, [];
      pLinkOfAllObject := null;
      SweepStart(xs, keep, p);
      while p != null
        invariant i <= |xs| && SweepPoint(xs, keep, p, i, kept, acc)
        invariant SweptOnto(xs[i..], keep, acc) == SweptOnto(xs, keep, [])
        invariant nNumberOfObject == |xs| - i + |acc|
        decreases |xs| - i
      {
        SweepAt(xs, keep, p, i, kept, acc);
        SweepNext(xs, keep, acc, i);
        if p.tags != TAG_MARK {
          nNumberOfObject := nNumberOfObject - 1;
        }
        p, kept, acc := SweepOne(p, kept, xs, keep, acc, i);
        i := i + 1;
      }
      SweepEnd(xs, keep, i, kept, acc);
      pLinkOfAllObject := kept;
      objs := acc;
      SweptMembers(xs, keep, []);
    }

    lemma SweepReady()
      requires Valid()
      ensures NoDup(objs) && Chained(pLinkOfAllObject, objs, 0) && nNumberOfObject == |objs|
      ensures forall o :: o in objs ==> (o.tags == TAG_MARK <==> o in Marked())
    {
    }

    /** The object at the front of the old list goes to the front of the new one if it is marked. */
    method SweepOne(x: GcObj, kept0: GcObj?, ghost xs: seq<GcObj>, ghost keep: set<GcObj>, ghost acc0: seq<GcObj>, ghost i: nat)
        returns (p: GcObj?, kept: GcObj?, ghost acc: seq<GcObj>)
      requires NoDup(xs) && i < |xs| && xs[i] == x && SweepPoint(xs, keep, x, i, kept0, acc0)
      modifies x`tags, x`next
      ensures SweepPoint(xs, keep, p, i + 1, kept, acc) && acc == if x in keep then [x] + acc0 else acc0
    {
      NewHead(xs, acc0, i);
      hide NoDup;
      p, kept, acc := x.next, kept0, acc0;
      if x.tags == TAG_MARK {
        PutFront(x, kept, acc);
        kept := x;
        acc := [x] + acc;
      }
    }

    method PutFront(x: GcObj, kept: GcObj?, ghost acc: seq<GcObj>)
      requires Chained(kept, acc, 0) && x !in acc
      modifies x`tags, x`next
      ensures x.tags == TAG_FLAG && Chained(x, [x] + acc, 0)
    {
      x.tags := TAG_FLAG;
      x.next := kept;
      ChainFront(x, kept, acc);
    }

    /** force_marking_: forget every mark there is. */
    method ResetTags()
      requires Valid()
      modifies objs`tags
      ensures Marked() == {}
    {
      var p := pLinkOfAllObject;
      ghost var i: nat := 0;
      while p != null
        invariant Chained(p, objs, i)
        invariant forall j :: 0 <= j < i ==> objs[j].tags == TAG_FLAG
        decreases |objs| - i
      {
        p.tags := TAG_FLAG;
        p := p.next;
        i := i + 1;
      }
    }

    /** One collection. Whatever tags it finds, it keeps the objects already marked and those explored from the roots
        without stepping onto marked ones; with no marks to start from, that is exactly the reachable ones. */
    method GcNolock(force: bool)
      requires Valid()
      modifies this`pLinkOfAllObject, this`nNumberOfObject, this`nNumberOfObjectLast, this`collections, this`objs, objs`tags, objs`next
      ensures objs == SweptOnto(old(objs), Survivors(old(Members()), KidSet(roots.Pointees()), if force then {} else old(Marked())), [])
      ensures NoDup(objs) && Chained(pLinkOfAllObject, objs, 0) && nNumberOfObject == nNumberOfObjectLast == |objs|
      ensures collections == old(collections) + 1
      ensures forall o :: o in objs ==> o.tags == TAG_FLAG
      ensures force || old(Clean()) ==> Valid() && Clean() && Elems(objs) == Reachable(old(Members()), KidSet(roots.Pointees()))
    {
      hide Survivors, Reachable, Chained, NoDup, Linked, PointeesOf, SweptOnto, Elems;
      ghost var g, rs, xs := Members(), KidSet(roots.Pointees()), objs;
      MarkPhase(force);
      SweepPhase(g, rs, force || old(Clean()));
    }

    method MarkPhase(force: bool)
      requires Valid()
      modifies objs`tags
      ensures Marked() == Survivors(Members(), KidSet(roots.Pointees()), if force then {} else old(Marked()))
    {
      hide Survivors, Linked, PointeesOf, Chained;
      if force {
        ResetTags();
      }
      MarkAll();
    }

    method SweepPhase(ghost g: Graph, ghost rs: set<GcObj>, ghost exact: bool)
      requires Valid() && g == Members() && rs == KidSet(roots.Pointees())
      requires exact ==> Marked() == Survivors(g, rs, {})
      modifies this`pLinkOfAllObject, this`nNumberOfObject, this`nNumberOfObjectLast, this`collections, this`objs, objs`tags, objs`next
      ensures objs == SweptOnto(old(objs), old(Marked()), [])
      ensures NoDup(objs) && Chained(pLinkOfAllObject, objs, 0) && nNumberOfObject == nNumberOfObjectLast == |objs|
      ensures collections == old(collections) + 1
      ensures forall o :: o in objs ==> o.tags == TAG_FLAG
      ensures exact ==> Valid() && Clean() && Elems(objs) == Reachable(g, rs)
    {
      hide Survivors, Reachable, Chained, Linked, PointeesOf, SweptOnto;
      ghost var xs := objs;
      GraphClosed();
      Sweep();
      nNumberOfObjectLast := nNumberOfObject;
      collections := collections + 1;
      NoMarks();
      if exact {
        ExactWithoutStale(g, rs);
        Kept(xs, g, rs);
        StillClosed(g, rs);
      }
    }

    lemma NoMarks()
      requires forall o :: o in objs ==> o.tags == TAG_FLAG
      ensures Clean()
    {
    }

    /** After an exact collection roots and members point to survivors only. */
    lemma StillClosed(g: Graph, rs: set<GcObj>)
      requires Closed(g) && rs <= g.Keys && rs == KidSet(roots.Pointees()) && Elems(objs) == Reachable(g, rs)
      requires forall o :: o in objs ==> o in g && g[o] == KidSet(o.children)
      ensures KidSet(roots.Pointees()) <= Elems(objs) && forall o :: o in objs ==> KidSet(o.children) <= Elems(objs)
    {
      hide AllExplored;
      forall o | o in rs ensures o in Elems(objs) { RootExplored(g, rs, {}, o); }
      forall o | o in objs ensures KidSet(o.children) <= Elems(objs) {
        forall c | c in g[o] ensures c in Elems(objs) { NoDanglingMember(g, rs, o, c); }
      }
    }

    /** A caller's pointer goes out of scope. */
    method DropRoot(p: RootNode)
      requires Valid() && p in roots.nodes
      modifies roots, roots.All()`next, roots.All()`prev
      ensures Valid() && roots.nodes == Without(old(roots.nodes), p)
    {
      hide Linked, PointeesOf, Elems, KidSet, Chained, NoDup;
      ghost var ps, ns := roots.Pointees(), roots.nodes;
      roots.Erase(p);
      FewerKids(ps, ns, roots.Pointees(), roots.nodes, p);
    }

    // ---------- Collections cut short ----------

    /** A _gc_mark that throws after c members. */
    method MarkSome(o: GcObj, c: nat)
      requires o in objs && KidSet(o.children) <= Elems(objs)
      modifies objs`tags
      ensures old(Marked()) <= Marked() <= old(Marked()) + KidSet(o.children)
      ensures c == 0 ==> Marked() == old(Marked())
    {
      ghost var m := Marked();
      var q := [];
      for i := 0 to |o.children|
        invariant m <= Marked() <= m + KidSet(o.children)
        invariant i <= c && (i == 0 ==> Marked() == m)
      {
        if i >= c {
          return;
        }
        assert o.children[i] != null ==> o.children[i] in KidSet(o.children);
        q := Append(q, o.children[i]);
      }
    }

    /** The first n pending objects are marked, and the next one's _gc_mark throws after c members. */
    method MarkPart(q: seq<GcObj>, n: nat, c: nat, ghost stale: set<GcObj>)
      requires Valid() && n < |q| && Elems(q) <= AllExplored(Members(), KidSet(roots.Pointees()), stale)
      requires Marked() <= Survivors(Members(), KidSet(roots.Pointees()), stale)
      modifies objs`tags
      ensures Valid() && Members() == old(Members())
      ensures old(Marked()) <= Marked() <= Survivors(Members(), KidSet(roots.Pointees()), stale)
      ensures n == c == 0 ==> Marked() == old(Marked())
    {
      hide AllExplored, Chained, NoDup, Linked, PointeesOf, KidSet;
      ghost var g, rs, m := Members(), KidSet(roots.Pointees()), Marked();
      GraphClosed();
      var r := [];
      for i := 0 to n
        invariant Valid() && Members() == g && m <= Marked() <= Survivors(g, rs, stale)
        invariant i == 0 ==> Marked() == m
      {
        assert q[i] in Elems(q);
        KidsExplored(g, rs, stale, q[i]);
        r := MarkMembers(q[i], r);
      }
      assert q[n] in Elems(q);
      KidsExplored(g, rs, stale, q[n]);
      MarkSome(q[n], c);
    }

    /** The mark phase, in which a _gc_mark throws after n others in the loop went through; or it finishes before that. */
    method MarkUntil(n0: nat, c: nat) returns (aborted: bool)
      requires Valid()
      modifies objs`tags
      ensures Valid() && Members() == old(Members())
      ensures var rs := KidSet(roots.Pointees());
        && old(Marked()) + rs <= Marked() <= Survivors(Members(), rs, old(Marked()))
        && (!aborted ==> Marked() == Survivors(Members(), rs, old(Marked())))
        && (aborted && n0 == c == 0 ==> Marked() == old(Marked()) + rs + KidsOf(Members(), rs))
        && (n0 == 0 && !aborted ==> KidsOf(Members(), rs) <= old(Marked()) + rs)
    {
      hide Valid, Marked, Members, Progress, AllExplored, Chained, Closed, NoDup, Elems, Linked, PointeesOf, KidsOf, KidSet;
      ghost var stale := Marked();
      ghost var g, rs := Members(), KidSet(roots.Pointees());
      NoElems();
      var q1;
      ghost var done;
      q1, done := MarkRoots(stale);
      RootsMarked(g, rs, stale, Marked(), Elems(q1));
      ghost var m0, pend0 := Marked(), Elems(q1);
      var n: nat := n0;
      while q1 != []
        invariant Valid() && Members() == g && KidSet(roots.Pointees()) == rs
        invariant rs <= done && Progress(g, rs, stale, Marked(), done, Elems(q1))
        invariant n <= n0 && m0 <= Marked() && (n0 == 0 ==> Marked() == m0 && Elems(q1) == pend0)
        decreases |objs| - |Marked()|, |q1|
      {
        ghost var m := Marked();
        ProgressBounded(g, rs, stale, m, done, Elems(q1));
        if n < |q1| {
          MarkPart(q1, n, c, stale);
          return true;
        }
        n := n - |q1|;
        var q2;
        q2, done := MarkLevel(q1, stale, done);
        MarkedLinked();
        LevelDecreases(objs, m, Marked(), q2);
        q1 := q2;
      }
      ProgressDone(g, rs, stale, Marked(), done);
      return false;
    }

    /** A collection in which a _gc_mark throws in the loop, unless marking finishes before: everything stays linked,
        and the marks made so far stay where they are. */
    method GcThrowing(force: bool, n: nat, c: nat) returns (aborted: bool)
      requires Valid()
      modifies this`pLinkOfAllObject, this`nNumberOfObject, this`nNumberOfObjectLast, this`collections, this`objs, objs`tags, objs`next
      ensures !aborted && (force || old(Clean())) ==> Valid() && Clean() && Elems(objs) == Reachable(old(Members()), KidSet(roots.Pointees()))
      ensures forall o :: o in objs ==> o in old(objs)
      ensures !aborted && (force || old(Clean())) ==> Members() == Only(old(Members()), Elems(objs))
      ensures aborted ==> Valid() && objs == old(objs) && Members() == old(Members())
      ensures aborted ==> nNumberOfObjectLast == old(nNumberOfObjectLast) && collections == old(collections)
      ensures !aborted ==> nNumberOfObject == nNumberOfObjectLast == |objs| && collections == old(collections) + 1
      ensures aborted ==> var rs, stale := KidSet(roots.Pointees()), if force then {} else old(Marked());
        && stale + rs <= Marked() <= Survivors(Members(), rs, stale)
        && (n == c == 0 ==> Marked() == stale + rs + KidsOf(Members(), rs))
      ensures n == 0 && !aborted ==> KidsOf(old(Members()), KidSet(roots.Pointees())) <= (if force then {} else old(Marked())) + KidSet(roots.Pointees())
    {
      hide Survivors, Reachable, Chained, NoDup, Linked, PointeesOf, SweptOnto, Elems, KidsOf, KidSet;
      ghost var g, rs := Members(), KidSet(roots.Pointees());
      if force {
        ResetTags();
      }
      aborted := MarkUntil(n, c);
      if !aborted {
        GraphClosed();
        ghost var xs := objs;
        SweepPhase(g, rs, force || old(Clean()));
        SweptMembers(xs, Survivors(g, rs, if force then {} else old(Marked())), []);
        if force || old(Clean()) { MembersKept(g, Elems(objs)); }
      }
    }

    /** The next collection is exact again if it is forced, or if the one before was not cut short. */
    method CollectTwice(n: nat, c: nat, force: bool) returns (aborted: bool)
      requires Valid() && Clean()
      modifies this`pLinkOfAllObject, this`nNumberOfObject, this`nNumberOfObjectLast, this`collections, this`objs, objs`tags, objs`next
      ensures force || !aborted ==> Valid() && Clean() && Elems(objs) == Reachable(old(Members()), KidSet(roots.Pointees()))
    {
      hide Valid, Survivors, Reachable, Chained, NoDup, Linked, PointeesOf, SweptOnto, Elems, KidsOf, KidSet, Members, Marked, Only;
      ghost var g, rs, xs := Members(), KidSet(roots.Pointees()), objs;
      GraphClosed();
      ReachableAgain(g, rs);
      aborted := GcThrowing(false, n, c);
      assert force || !aborted ==> Reachable(Members(), rs) == Reachable(g, rs);
      CollectAgain(force, xs);
    }

    method CollectAgain(force: bool, ghost xs: seq<GcObj>)
      requires Valid() && forall o :: o in objs ==> o in xs
      modifies this`pLinkOfAllObject, this`nNumberOfObject, this`nNumberOfObjectLast, this`collections, this`objs, xs`tags, xs`next
      ensures force || old(Clean()) ==> Valid() && Clean() && Elems(objs) == Reachable(old(Members()), KidSet(roots.Pointees()))
    {
      hide Valid, Survivors, Reachable, Chained, NoDup, Linked, PointeesOf, SweptOnto, Elems, KidSet, Members, Marked;
      assert forall i :: 0 <= i < |objs| ==> objs[i] in xs;
      GcNolock(force);
    }

    lemma MembersKept(g: Graph, s: set<GcObj>)
      requires Elems(objs) == s && forall o :: o in objs ==> o in g && g[o] == KidSet(o.children)
      ensures Members() == Only(g, s)
    {
    }

    /** A caller stores member pointers in an object. */
    method SetMembers(o: GcObj, kids: seq<GcObj?>)
      requires Valid() && o in objs && KidSet(kids) <= Elems(objs)
      modifies o`children
      ensures Valid() && o.children == kids && Marked() == old(Marked())
    {
      hide Chained, NoDup, Linked, PointeesOf, KidSet, Elems;
      o.children := kids;
    }

    /** gc_new: collect first if enough objects came since the last collection, then link the new object
        and register the pointer that is returned. */
    method GcNew() returns (p: GcObj, root: RootNode)
      requires Valid() && Clean()
      modifies this`pLinkOfAllObject, this`nNumberOfObject, this`nNumberOfObjectLast, this`collections, this`objs, objs`tags, objs`next
      modifies roots, roots.All()`next, roots.All()`prev
      ensures Valid() && Clean() && fresh(p) && fresh(root) && root.m_ptr == p && p.children == []
      ensures roots.nodes == [root] + old(roots.nodes)
      ensures objs != [] && objs[0] == p && p !in objs[1..]
      ensures old(nNumberOfObject <= nNumberOfObjectLast + nStepingDelta) ==>
        objs[1..] == old(objs) && nNumberOfObjectLast == old(nNumberOfObjectLast) && collections == old(collections)
      ensures old(nNumberOfObject > nNumberOfObjectLast + nStepingDelta) ==>
        Elems(objs[1..]) == Reachable(old(Members()), KidSet(old(roots.Pointees())))
        && nNumberOfObjectLast == |objs| - 1 && collections == old(collections) + 1
    {
      hide Reachable, Survivors, SweptOnto, Linked, PointeesOf, Elems, KidSet, Marked, Chained, NoDup;
      if nNumberOfObject > nNumberOfObjectLast + nStepingDelta {
        GcNolock(false);
      }
      p := new GcObj([]);
      root := new RootNode(p);
      RegisterAndLink(p, root);
    }

    method RegisterAndLink(p: GcObj, root: RootNode)
      requires Valid() && Clean() && p !in objs && root !in roots.All() && p.tags != TAG_MARK && p.children == [] && root.m_ptr == p
      modifies this`pLinkOfAllObject, this`nNumberOfObject, this`objs, p`next
      modifies roots, root`next, root`prev, roots.All()`next, roots.All()`prev
      ensures Valid() && Clean() && objs == [p] + old(objs) && roots.nodes == [root] + old(roots.nodes)
    {
      hide Linked, PointeesOf, Elems, KidSet, Chained, NoDup;
      ghost var xs, ps := objs, roots.Pointees();
      roots.Insert(root, false);
      assert roots.Pointees() == [p] + ps;
      KidsInFront(p, ps);
      Link(p);
      ElemsInFront(p, xs);
    }

    /** link: the object becomes the first of the list. */
    method Link(p: GcObj)
      requires NoDup(objs) && Chained(pLinkOfAllObject, objs, 0) && p !in objs && nNumberOfObject == |objs|
      modifies this`pLinkOfAllObject, this`nNumberOfObject, this`objs, p`next
      ensures objs == [p] + old(objs) && NoDup(objs) && Chained(pLinkOfAllObject, objs, 0) && nNumberOfObject == |objs|
    {
      ghost var xs := objs;
      p.next := pLinkOfAllObject;
      ChainFront(p, pLinkOfAllObject, xs);
      pLinkOfAllObject := p;
      nNumberOfObject := nNumberOfObject + 1;
      objs := [p] + xs;
    }
  }

  /** The sweep at the i-th object: p heads the rest of the old list, kept the objects relinked so far. */
  ghost predicate SweepPoint(xs: seq<GcObj>, keep: set<GcObj>, p: GcObj?, i: nat, kept: GcObj?, acc: seq<GcObj>)
    reads xs, acc
  {
    && Chained(p, xs, i) && Chained(kept, acc, 0)
    && (forall o :: o in acc ==> o in xs[..i] && o.tags == TAG_FLAG)
    && forall j :: i <= j < |xs| ==> (xs[j].tags == TAG_MARK <==> xs[j] in keep)
  }

  lemma SweepStart(xs: seq<GcObj>, keep: set<GcObj>, p: GcObj?)
    requires Chained(p, xs, 0) && forall o :: o in xs ==> (o.tags == TAG_MARK <==> o in keep)
    ensures SweepPoint(xs, keep, p, 0, null, []) && xs[0..] == xs
  {
  }

  lemma SweepAt(xs: seq<GcObj>, keep: set<GcObj>, p: GcObj, i: nat, kept: GcObj?, acc: seq<GcObj>)
    requires SweepPoint(xs, keep, p, i, kept, acc)
    ensures i < |xs| && xs[i] == p && (p.tags == TAG_MARK <==> p in keep)
  {
  }

  lemma SweepEnd(xs: seq<GcObj>, keep: set<GcObj>, i: nat, kept: GcObj?, acc: seq<GcObj>)
    requires SweepPoint(xs, keep, null, i, kept, acc)
    ensures i == |xs| && SweptOnto(xs[i..], keep, acc) == acc && Chained(kept, acc, 0) && forall o :: o in acc ==> o.tags == TAG_FLAG
  {
  }

  /** The i-th object is not yet among the kept ones, which come from before it. */
  lemma NewHead(xs: seq<GcObj>, acc: seq<GcObj>, i: nat)
    requires NoDup(xs) && i < |xs| && forall o :: o in acc ==> o in xs[..i]
    ensures xs[i] !in acc && (forall j :: i < j < |xs| ==> xs[j] != xs[i])
    ensures forall o :: o in acc || o == xs[i] ==> o in xs[..i + 1]
  {
    assert xs[..i + 1] == xs[..i] + [xs[i]];
  }

  lemma SweepNext(xs: seq<GcObj>, keep: set<GcObj>, acc: seq<GcObj>, i: nat)
    requires i < |xs|
    ensures SweptOnto(xs[i..], keep, acc) == SweptOnto(xs[i + 1..], keep, if xs[i] in keep then [xs[i]] + acc else acc)
  {
    assert xs[i..][0] == xs[i] && xs[i..][1..] == xs[i + 1..];
  }

  lemma QueueGrown(q: seq<GcObj>, c: GcObj?, r: seq<GcObj>)
    requires r == q || (c != null && r == q + [c])
    ensures Elems(r) == if r == q then Elems(q) else Elems(q) + {c}
  {
  }

  lemma KidsGrown(kids: seq<GcObj?>, c: GcObj?)
    ensures KidSet(kids + [c]) == KidSet(kids) + if c == null then {} else {c}
  {
  }

  lemma NoElems()
    ensures Elems([]) == {} && KidSet([]) == {}
  {
  }

  lemma FewerKids(ps: seq<GcObj?>, ns: seq<RootNode>, qs: seq<GcObj?>, ms: seq<RootNode>, p: RootNode)
    requires p in ns && ms == Without(ns, p) && |ps| == |ns| && |qs| == |ms|
    requires forall i :: 0 <= i < |ns| ==> ps[i] == ns[i].m_ptr
    requires forall i :: 0 <= i < |ms| ==> qs[i] == ms[i].m_ptr
    ensures KidSet(qs) <= KidSet(ps)
  {
    forall c: GcObj | c in KidSet(qs) ensures c in KidSet(ps) {
      var i := Index(qs, c);
      assert ms[i] in ns;
      var j := Index(ns, ms[i]);
      assert ps[j] == c;
    }
  }

  lemma KidsExplored(g: Graph, rs: set<GcObj>, stale: set<GcObj>, o: GcObj)
    requires Closed(g) && o in AllExplored(g, rs, stale)
    ensures o in g && g[o] <= Survivors(g, rs, stale)
  {
    forall c | c in g[o] ensures c in Survivors(g, rs, stale) {
      if c !in stale { ChildExplored(g, rs, stale, o, c); }
    }
  }

  lemma ProgressBounded(g: Graph, rs: set<GcObj>, stale: set<GcObj>, marked: set<GcObj>, done: set<GcObj>, pend: set<GcObj>)
    requires Progress(g, rs, stale, marked, done, pend) && rs <= done
    ensures pend <= AllExplored(g, rs, stale) && stale + rs <= marked <= Survivors(g, rs, stale)
  {
    hide AllExplored;
  }

  lemma RootsMarked(g: Graph, rs: set<GcObj>, stale: set<GcObj>, marked: set<GcObj>, pend: set<GcObj>)
    requires Progress(g, rs, stale, marked, rs, pend) && pend <= KidsOf(g, rs)
    ensures marked == stale + rs + KidsOf(g, rs) == stale + rs + pend
  {
    hide AllExplored;
    forall c | c in KidsOf(g, rs) ensures c in marked {
      var o :| o in rs && o in g && c in g[o];
      assert g[o] <= marked;
    }
  }

  lemma KidsOfMore(g: Graph, s: set<GcObj>, o: GcObj, q: set<GcObj>, r: set<GcObj>)
    requires o in g && q <= KidsOf(g, s) && r <= q + g[o]
    ensures r <= KidsOf(g, s + {o})
  {
  }

  lemma NothingYet(g: Graph, roots: set<GcObj>, stale: set<GcObj>)
    ensures Progress(g, roots, stale, stale, {}, Elems([])) && KidSet([]) == {} && Elems([]) <= KidsOf(g, {})
  {
  }

  lemma PendingIs(g: Graph, roots: set<GcObj>, stale: set<GcObj>, marked: set<GcObj>, done: set<GcObj>, pend: set<GcObj>, o: GcObj)
    requires Progress(g, roots, stale, marked, done, pend) && o in pend
    ensures o in AllExplored(g, roots, stale) && o in g && o in marked
  {
  }

  lemma ChainFront(x: GcObj, p: GcObj?, xs: seq<GcObj>)
    requires Chained(p, xs, 0) && x.next == p
    ensures Chained(x, [x] + xs, 0)
  {
    var ys := [x] + xs;
    forall j | 0 <= j < |ys| ensures ys[j].next == After(ys, j) {
      if j > 0 { assert ys[j] == xs[j - 1] && After(ys, j) == After(xs, j - 1); }
    }
  }

  lemma QueueHead(q: seq<GcObj>, i: nat)
    requires i < |q|
    ensures Elems(q[i..]) == Elems(q[i + 1..]) + {q[i]}
  {
    assert q[i..] == [q[i]] + q[i + 1..];
  }

  lemma ElemsSize(xs: seq<GcObj>, s: set<GcObj>)
    requires s <= Elems(xs)
    ensures |s| <= |xs|
  {
    if s != {} {
      var o :| o in s;
      var i := Index(xs, o);
      ElemsSize(xs[..i] + xs[i + 1..], s - {o});
    }
  }

  lemma LevelDecreases(objs: seq<GcObj>, m: set<GcObj>, m2: set<GcObj>, q2: seq<GcObj>)
    requires m <= m2 <= Elems(objs) && Elems(q2) == m2 - m
    ensures |m2| <= |objs| && (q2 == [] || |m2| > |m|) && (q2 == [] ==> m2 == m)
  {
    ElemsSize(objs, m2);
    assert m2 == m + (m2 - m);
    if q2 != [] { assert q2[0] in m2 - m; }
  }

  lemma Kept(xs: seq<GcObj>, g: Graph, rs: set<GcObj>)
    requires NoDup(xs) && g.Keys == Elems(xs)
    ensures Elems(SweptOnto(xs, Reachable(g, rs), [])) == Reachable(g, rs)
    ensures forall o :: o in SweptOnto(xs, Reachable(g, rs), []) ==> o in xs && o in g
  {
    hide Reachable;
    SweptMembers(xs, Reachable(g, rs), []);
    ReachableLinked(g, rs);
    forall o | o in Reachable(g, rs) ensures o in xs { assert o in Elems(xs); }
    forall o | o in xs ensures o in g { assert o in Elems(xs); }
    var r := SweptOnto(xs, Reachable(g, rs), []);
    forall o ensures o in r <==> o in Reachable(g, rs) {}
    assert Elems(r) <= Reachable(g, rs) && Reachable(g, rs) <= Elems(r);
  }

  lemma KidsInFront(p: GcObj, ps: seq<GcObj?>)
    ensures KidSet([p] + ps) == {p} + KidSet(ps) && KidSet([]) == {}
  {
  }

  lemma ElemsInFront(p: GcObj, xs: seq<GcObj>)
    ensures Elems([p] + xs) == {p} + Elems(xs)
  {
  }

  /** How a mark comes to be left over and what it does: r points to a and a to b, only r is registered, and a
      collection is cut short at its first pending object. The next one destroys b, which is reachable. */
  method LeftoverMark() returns (gc: GcState, r: GcObj, a: GcObj, b: GcObj)
    ensures fresh(gc) && gc.roots.Pointees() == [r] && r.children == [a] && a.children == [b] && b.children == []
    ensures r in gc.objs && a in gc.objs && b !in gc.objs
  {
    hide GcState.Valid, GcState.Members, GcState.Marked, Chained, NoDup, Linked, PointeesOf, Reachable, KidSet, Elems;
    var root;
    gc, r, a, b, root := Three();
    TwoCollections(gc, r, a, b, root);
  }

  /** The first one is cut short at its first pending object, the second one is an ordinary one. */
  method TwoCollections(gc: GcState, r: GcObj, a: GcObj, b: GcObj, root: RootNode)
    requires gc.Valid() && gc.Clean() && gc.objs == [r, a, b] && gc.roots.nodes == [root] && root.m_ptr == r
    requires r != a && a != b && r != b && r.children == [a] && a.children == [b] && b.children == []
    modifies gc`pLinkOfAllObject, gc`nNumberOfObject, gc`nNumberOfObjectLast, gc`collections, gc`objs, gc.objs`tags, gc.objs`next
    ensures gc.roots.Pointees() == [r] && r in gc.objs && a in gc.objs && b !in gc.objs
  {
    hide GcState.Valid, GcState.Members, GcState.Marked, KidSet, KidsOf, Survivors, SweptOnto, Chained, NoDup, Linked, PointeesOf, Reachable;
    ChainGraph(gc, r, a, b, root);
    ghost var g, xs := gc.Members(), gc.objs;
    CutShort(gc, g, r, a);
    StaleLosesMembers(r, a, b, {r, a});
    NextCollection(gc, g, xs, r, a, b);
  }

  method CutShort(gc: GcState, ghost g: Graph, r: GcObj, a: GcObj)
    requires gc.Valid() && gc.Clean() && r != a && g == gc.Members() && KidSet(gc.roots.Pointees()) == {r} && KidsOf(g, {r}) == {a}
    modifies gc`pLinkOfAllObject, gc`nNumberOfObject, gc`nNumberOfObjectLast, gc`collections, gc`objs, gc.objs`tags, gc.objs`next
    ensures gc.Valid() && gc.objs == old(gc.objs) && gc.Members() == g && gc.Marked() == {r, a}
  {
    hide GcState.Valid, GcState.Members, GcState.Marked, KidSet, KidsOf, Survivors, Reachable, Chained, NoDup, Linked, PointeesOf;
    var aborted := gc.GcThrowing(false, 0, 0);
    assert a in KidsOf(g, {r});
    assert aborted;
  }

  method NextCollection(gc: GcState, ghost g: Graph, ghost xs: seq<GcObj>, r: GcObj, a: GcObj, b: GcObj)
    requires gc.Valid() && gc.objs == xs == [r, a, b] && NoDup(xs) && gc.Members() == g && gc.Marked() == {r, a}
    requires KidSet(gc.roots.Pointees()) == {r} && b !in Survivors(g, {r}, {r, a})
    modifies gc`pLinkOfAllObject, gc`nNumberOfObject, gc`nNumberOfObjectLast, gc`collections, gc`objs, gc.objs`tags, gc.objs`next
    ensures r in gc.objs && a in gc.objs && b !in gc.objs
  {
    assert r in Survivors(g, {r}, {r, a}) && a in Survivors(g, {r}, {r, a});
    hide GcState.Valid, GcState.Members, GcState.Marked, KidSet, Survivors, SweptOnto, Reachable, Chained, NoDup, Linked, PointeesOf;
    gc.GcNolock(false);
    SweptMembers(xs, Survivors(g, {r}, {r, a}), []);
  }

  lemma ChainGraph(gc: GcState, r: GcObj, a: GcObj, b: GcObj, root: RootNode)
    requires gc.objs == [r, a, b] && gc.roots.nodes == [root] && root.m_ptr == r && r != a && a != b && r != b
    requires r.children == [a] && a.children == [b] && b.children == []
    ensures gc.Members() == map[r := {a}, a := {b}, b := {}] && gc.roots.Pointees() == [r]
    ensures KidSet(gc.roots.Pointees()) == {r} && KidsOf(gc.Members(), {r}) == {a} && NoDup(gc.objs)
  {
    assert KidSet([a]) == {a} && KidSet([b]) == {b} && KidSet([]) == {} && KidSet([r]) == {r};
    assert gc.roots.Pointees() == [r];
    var g := gc.Members();
    assert g == map[r := {a}, a := {b}, b := {}];
    hide GcState.Members;
    assert r in g && a in g[r] && a in KidsOf(g, {r});
    assert KidsOf(g, {r}) <= {a};
  }

  // ---------- When gc_new collects ----------

  /** The collections there have been after n calls of gc_new on a new collector. */
  function Collections(delta: nat, n: nat): nat {
    if n == 0 then 0 else (n - 1) / (delta + 1)
  }

  /** The first one is in call number delta + 2, and then every (delta + 1)-th call collects. */
  lemma CollectsEvery(delta: nat, n: nat)
    requires n > 0
    ensures Collections(delta, n) == Collections(delta, n - 1) + if n > 1 && (n - 1) % (delta + 1) == 0 then 1 else 0
    ensures n < delta + 2 ==> Collections(delta, n) == 0
    ensures Collections(delta, delta + 2) == 1 && Collections(delta, n + (delta + 1)) == Collections(delta, n) + 1
  {
    var d: nat := delta + 1;
    if n > 1 { DivStep(n - 2, d); }
    if n < delta + 2 { DivIs(n - 1, d, 0, n - 1); }
    DivIs(d, d, 1, 0);
    DivMore(n - 1, d);
  }

  lemma DivMore(x: nat, d: nat)
    requires d > 0
    ensures (x + d) / d == x / d + 1
  {
    assert (x / d + 1) * d == x / d * d + d;
    DivIs(x + d, d, x / d + 1, x % d);
  }

  lemma DivIs(x: nat, d: nat, q: nat, r: nat)
    requires d > 0 && r < d && x == q * d + r
    ensures x / d == q && x % d == r
  {
    var p := x / d;
    assert x == p * d + x % d;
    Times(p, q, d);
    Times(q, p, d);
  }

  lemma {:induction false} Times(p: nat, q: nat, d: nat)
    ensures p < q ==> p * d + d <= q * d
    decreases q
  {
    if p < q {
      assert q * d == (q - 1) * d + d;
      if p + 1 < q { Times(p, q - 1, d); }
    }
  }

  lemma DivStep(x: nat, d: nat)
    requires d > 0
    ensures (x + 1) % d == (if x % d + 1 == d then 0 else x % d + 1)
    ensures (x + 1) / d == x / d + if (x + 1) % d == 0 then 1 else 0
  {
    var q, r := x / d, x % d;
    assert x == q * d + r;
    if r + 1 == d { DivIs(x + 1, d, q + 1, 0); } else { DivIs(x + 1, d, q, r + 1); }
  }

  /** The objects linked since the last collection, after n calls. */
  function Newer(delta: nat, n: nat): nat {
    if n == 0 then 0 else (n - 1) % (delta + 1) + 1
  }

  lemma NoCalls(delta: nat)
    ensures Newer(delta, 0) == 0 && Collections(delta, 0) == 0
  {
  }

  lemma CallCounts(delta: nat, n: nat)
    ensures Newer(delta, n + 1) == if Newer(delta, n) > delta then 1 else Newer(delta, n) + 1
    ensures Collections(delta, n + 1) == Collections(delta, n) + if Newer(delta, n) > delta then 1 else 0
  {
    if n > 0 { DivStep(n - 1, delta + 1); } else { DivIs(0, delta + 1, 0, 0); }
  }

  /** gc_new again and again on a new collector, the caller keeping the pointers it is told to keep: how often it
      collects does not depend on what survives. */
  method CallAfterCall(delta: nat, keep: seq<bool>) returns (gc: GcState)
    ensures fresh(gc) && gc.Valid() && gc.Clean() && gc.nStepingDelta == delta
    ensures gc.collections == Collections(delta, |keep|)
  {
    hide GcState.Valid, GcState.Clean, Chained, NoDup, Linked, PointeesOf, Elems, KidSet, Newer, Collections;
    gc := new GcState(delta);
    assert Newer(delta, 0) == 0 && Collections(delta, 0) == 0 by { NoCalls(delta); }
    assert gc.roots.All() == [gc.roots.head, gc.roots.tail];
    for n := 0 to |keep|
      invariant gc.Valid() && gc.Clean() && gc.nStepingDelta == delta
      invariant fresh(gc.roots) && (forall x :: x in gc.roots.All() ==> fresh(x)) && (forall o :: o in gc.objs ==> fresh(o))
      invariant gc.collections == Collections(delta, n)
      invariant |gc.objs| == gc.nNumberOfObjectLast + Newer(delta, n)
    {
      CallCounts(delta, n);
      CountIs(gc);
      assert forall i :: 0 <= i < |gc.roots.All()| ==> gc.roots.All()[i] in gc.roots.All();
      assert forall i :: 0 <= i < |gc.objs| ==> gc.objs[i] in gc.objs;
      OneCall(gc, keep[n]);
    }
  }

  lemma CountIs(gc: GcState)
    requires gc.Valid()
    ensures gc.nNumberOfObject == |gc.objs|
  {
  }

  lemma OldSurvive(gc: GcState)
    requires gc.Valid()
    ensures Reachable(gc.Members(), KidSet(gc.roots.Pointees())) <= Elems(gc.objs)
  {
    gc.GraphClosed();
    hide GcState.Valid, Reachable;
    ReachableLinked(gc.Members(), KidSet(gc.roots.Pointees()));
  }

  lemma ElemsAmong(xs: seq<GcObj>, ys: seq<GcObj>)
    requires Elems(xs) <= Elems(ys)
    ensures forall o :: o in xs ==> o in ys
  {
    forall o | o in xs ensures o in ys { assert o in Elems(xs); }
  }

  method OneCall(gc: GcState, keep: bool)
    requires gc.Valid() && gc.Clean()
    modifies gc`pLinkOfAllObject, gc`nNumberOfObject, gc`nNumberOfObjectLast, gc`collections, gc`objs, gc.objs`tags, gc.objs`next
    modifies gc.roots, gc.roots.All()`next, gc.roots.All()`prev
    ensures gc.Valid() && gc.Clean()
    ensures forall x :: x in gc.roots.All() ==> fresh(x) || x in old(gc.roots.All())
    ensures forall o :: o in gc.objs ==> fresh(o) || o in old(gc.objs)
    ensures if old(|gc.objs| > gc.nNumberOfObjectLast + gc.nStepingDelta)
      then |gc.objs| == gc.nNumberOfObjectLast + 1 && gc.collections == old(gc.collections) + 1
      else gc.nNumberOfObjectLast == old(gc.nNumberOfObjectLast) && |gc.objs| == old(|gc.objs|) + 1 && gc.collections == old(gc.collections)
  {
    hide GcState.Valid, GcState.Clean, Chained, NoDup, Linked, PointeesOf, Elems, KidSet, Reachable;
    CountIs(gc);
    ghost var ns, os := gc.roots.nodes, gc.objs;
    ghost var live := Reachable(gc.Members(), KidSet(gc.roots.Pointees()));
    OldSurvive(gc);
    var p, root := gc.GcNew();
    CountIs(gc);
    if Elems(gc.objs[1..]) == live { ElemsAmong(gc.objs[1..], os); }
    assert gc.roots.All() == [gc.roots.head, root] + ns + [gc.roots.tail];
    assert forall o :: o in gc.objs ==> o == p || o in gc.objs[1..];
    assert forall i :: 0 <= i < |gc.roots.All()| ==> gc.roots.All()[i] == root || gc.roots.All()[i] in old(gc.roots.All());
    if !keep {
      gc.DropRoot(root);
      CountIs(gc);
    }
  }

  /** A new object on a collector that does not collect yet. */
  method NewObject(gc: GcState) returns (p: GcObj, root: RootNode)
    requires gc.Valid() && gc.Clean() && |gc.objs| <= gc.nStepingDelta
    modifies gc`pLinkOfAllObject, gc`nNumberOfObject, gc`nNumberOfObjectLast, gc`collections, gc`objs, gc.objs`tags, gc.objs`next
    modifies gc.roots, gc.roots.All()`next, gc.roots.All()`prev
    ensures gc.Valid() && gc.Clean() && fresh(p) && fresh(root) && root.m_ptr == p && p.children == []
    ensures gc.objs == [p] + old(gc.objs) && gc.roots.nodes == [root] + old(gc.roots.nodes)
  {
    assert gc.nNumberOfObject <= gc.nNumberOfObjectLast + gc.nStepingDelta;
    hide GcState.Valid, GcState.Members, GcState.Marked, Reachable, Chained, NoDup, Linked, PointeesOf, KidSet;
    p, root := gc.GcNew();
    assert gc.objs == [gc.objs[0]] + gc.objs[1..];
  }

  /** Three objects in a chain, the first one registered. */
  method Three() returns (gc: GcState, r: GcObj, a: GcObj, b: GcObj, root: RootNode)
    ensures fresh(gc) && fresh(gc.roots) && gc.Valid() && gc.Clean()
    ensures gc.objs == [r, a, b] && fresh(r) && fresh(a) && fresh(b) && r != a && a != b && r != b
    ensures gc.roots.nodes == [root] && root.m_ptr == r
    ensures r.children == [a] && a.children == [b] && b.children == []
  {
    hide GcState.Valid, GcState.Members, GcState.Marked, Chained, NoDup, Linked, PointeesOf, Reachable, KidSet, Elems;
    var rb, ra;
    gc, r, a, b, root, ra, rb := NewThree();
    DropTwo(gc, root, ra, rb);
    LinkThree(gc, r, a, b);
  }

  method NewThree() returns (gc: GcState, r: GcObj, a: GcObj, b: GcObj, root: RootNode, ra: RootNode, rb: RootNode)
    ensures fresh(gc) && fresh(gc.roots) && gc.Valid() && gc.Clean()
    ensures gc.objs == [r, a, b] && fresh(r) && fresh(a) && fresh(b) && r != a && a != b && r != b && b.children == []
    ensures gc.roots.nodes == [root, ra, rb] && root != ra && ra != rb && root != rb && root.m_ptr == r
    ensures gc.roots.All() == [gc.roots.head, root, ra, rb, gc.roots.tail]
    ensures fresh(gc.roots.head) && fresh(root) && fresh(ra) && fresh(rb) && fresh(gc.roots.tail)
  {
    hide GcState.Valid, GcState.Members, GcState.Marked, Chained, NoDup, Linked, PointeesOf, Reachable, KidSet, Elems;
    gc := new GcState(3);
    assert gc.roots.All() == [gc.roots.head, gc.roots.tail];
    b, rb := NewObject(gc);
    assert gc.objs == [b] && gc.roots.All() == [gc.roots.head, rb, gc.roots.tail];
    a, ra := NewObject(gc);
    assert gc.objs == [a, b] && gc.roots.All() == [gc.roots.head, ra, rb, gc.roots.tail];
    r, root := NewObject(gc);
    assert gc.objs == [r, a, b] && gc.roots.All() == [gc.roots.head, root, ra, rb, gc.roots.tail];
  }

  method LinkThree(gc: GcState, r: GcObj, a: GcObj, b: GcObj)
    requires gc.Valid() && gc.Clean() && gc.objs == [r, a, b] && r != a && a != b && r != b
    modifies r`children, a`children
    ensures gc.Valid() && gc.Clean() && r.children == [a] && a.children == [b]
  {
    hide GcState.Valid, GcState.Members, GcState.Marked, Chained, NoDup, Linked, PointeesOf, KidSet, Elems;
    Single(a, gc.objs);
    Single(b, gc.objs);
    gc.SetMembers(a, [b]);
    gc.SetMembers(r, [a]);
  }

  method DropTwo(gc: GcState, root: RootNode, ra: RootNode, rb: RootNode)
    requires gc.Valid() && gc.roots.nodes == [root, ra, rb] && root != ra && ra != rb && root != rb
    modifies gc.roots, gc.roots.All()`next, gc.roots.All()`prev
    ensures gc.Valid() && gc.roots.nodes == [root]
  {
    hide GcState.Valid, Chained, NoDup, Linked, PointeesOf, KidSet, Elems;
    gc.DropRoot(rb);
    assert gc.roots.nodes == [root, ra];
    assert forall i :: 0 <= i < |gc.roots.All()| ==> gc.roots.All()[i] in old(gc.roots.All());
    gc.DropRoot(ra);
  }

  lemma Single(p: GcObj, xs: seq<GcObj>)
    requires p in xs
    ensures KidSet([p]) <= Elems(xs)
  {
  }
}
