/** Which objects a collection keeps: reachability in the graph of member pointers. */
module GcGraph {
  import opened Seqs

  /** gc_obj; children are the members its _gc_mark appends. */
  class GcObj {
    var next: GcObj?
    var tags: int
    var children: seq<GcObj?>

    constructor (children: seq<GcObj?>)
      ensures this.children == children && tags == TAG_INIT
    {
      this.children := children;
      tags := TAG_INIT;
      next := null;
    }
  }

  const TAG_INIT := 0
  const TAG_FLAG := 1
  const TAG_MARK := 2

  type Graph = map<GcObj, set<GcObj>>

  ghost predicate Closed(g: Graph) {
    forall o, c :: o in g && c in g[o] ==> c in g
  }

  /** p leads from a root along member pointers, without stepping onto an object of skip. */
  ghost predicate Path(g: Graph, older p: seq<GcObj>, roots: set<GcObj>, skip: set<GcObj>) {
    && p != [] && (forall i :: 0 <= i < |p| ==> p[i] in g)
    && p[0] in roots
    && forall i, j :: 0 <= i < j < |p| && j == i + 1 ==> p[j] in g[p[i]] && p[j] !in skip
  }

  ghost predicate Explored(g: Graph, roots: set<GcObj>, skip: set<GcObj>, o: GcObj) {
    exists p :: Path(g, p, roots, skip) && p[|p| - 1] == o
  }

  ghost function AllExplored(g: Graph, roots: set<GcObj>, skip: set<GcObj>): set<GcObj> {
    set o | o in g && Explored(g, roots, skip, o)
  }

  ghost function Reachable(g: Graph, roots: set<GcObj>): set<GcObj> {
    AllExplored(g, roots, {})
  }

  lemma RootExplored(g: Graph, roots: set<GcObj>, skip: set<GcObj>, o: GcObj)
    requires o in roots && o in g
    ensures o in AllExplored(g, roots, skip)
  {
    assert Path(g, [o], roots, skip) && [o][0] == o;
  }

  lemma ChildExplored(g: Graph, roots: set<GcObj>, skip: set<GcObj>, o: GcObj, c: GcObj)
    requires Closed(g) && o in AllExplored(g, roots, skip) && c in g[o] && c !in skip
    ensures c in AllExplored(g, roots, skip)
  {
    var p :| Path(g, p, roots, skip) && p[|p| - 1] == o;
    var q := p + [c];
    forall i, j | 0 <= i < j < |q| && j == i + 1 ensures q[j] in g[q[i]] && q[j] !in skip {
      if j < |p| { assert q[i] == p[i] && q[j] == p[j]; } else { assert q[i] == o && q[j] == c; }
    }
    assert Path(g, q, roots, skip) && q[|q| - 1] == c;
  }

  /** A set that holds the roots and the unskipped children of its members holds everything explored. */
  lemma ExploredInside(g: Graph, roots: set<GcObj>, skip: set<GcObj>, d: set<GcObj>)
    requires roots <= d && forall o, c :: o in d && o in g && c in g[o] && c !in skip ==> c in d
    ensures AllExplored(g, roots, skip) <= d
  {
    forall o | o in AllExplored(g, roots, skip) ensures o in d {
      var p :| Path(g, p, roots, skip) && p[|p| - 1] == o;
      PathInside(g, roots, skip, d, p, |p| - 1);
    }
  }

  lemma {:induction false} PathInside(g: Graph, roots: set<GcObj>, skip: set<GcObj>, d: set<GcObj>, p: seq<GcObj>, i: nat)
    requires roots <= d && forall o, c :: o in d && o in g && c in g[o] && c !in skip ==> c in d
    requires Path(g, p, roots, skip) && i < |p|
    ensures p[i] in d
  {
    if i > 0 {
      PathInside(g, roots, skip, d, p, i - 1);
      assert p[i] in g[p[i - 1]];
    }
  }

  /** Skipping fewer objects explores no less, and skipping none explores all that is reachable. */
  lemma SkipLess(g: Graph, roots: set<GcObj>, skip: set<GcObj>)
    ensures AllExplored(g, roots, skip) <= Reachable(g, roots)
  {
    forall o | o in AllExplored(g, roots, skip) ensures o in Reachable(g, roots) {
      var p :| Path(g, p, roots, skip) && p[|p| - 1] == o;
      assert Path(g, p, roots, {});
    }
  }

  // ---------- Marking ----------

  /** Half-way through marking: marked are the stale ones, those whose children are dealt with, and those pending. */
  ghost predicate Progress(g: Graph, roots: set<GcObj>, stale: set<GcObj>, marked: set<GcObj>, done: set<GcObj>, pend: set<GcObj>) {
    && marked == stale + done + pend
    && done + pend <= AllExplored(g, roots, stale)
    && forall o :: o in done ==> g[o] <= marked
  }

  lemma ProgressStep(g: Graph, roots: set<GcObj>, stale: set<GcObj>, marked: set<GcObj>, done: set<GcObj>, pend: set<GcObj>,
      o: GcObj, rest: set<GcObj>)
    requires Closed(g) && Progress(g, roots, stale, marked, done, pend) && o in AllExplored(g, roots, stale) && pend <= rest + {o} && rest <= pend
    ensures Progress(g, roots, stale, marked + {o} + g[o], done + {o}, rest + (g[o] - (marked + {o})))
  {
    forall c | c in g[o] - (marked + {o}) ensures c in AllExplored(g, roots, stale) {
      ChildExplored(g, roots, stale, o, c);
    }
  }

  /** When nothing is pending and every root is dealt with, exactly the stale and the explored are marked. */
  lemma ProgressDone(g: Graph, roots: set<GcObj>, stale: set<GcObj>, marked: set<GcObj>, done: set<GcObj>)
    requires Progress(g, roots, stale, marked, done, {}) && roots <= done
    ensures marked == stale + AllExplored(g, roots, stale)
  {
    ExploredInside(g, roots, stale, done);
  }

  // ---------- Sweeping ----------

  /** The objects of xs that are in keep, in reverse order, in front of acc. */
  ghost function SweptOnto(xs: seq<GcObj>, keep: set<GcObj>, acc: seq<GcObj>): seq<GcObj>
  {
    if xs == [] then acc
    else SweptOnto(xs[1..], keep, if xs[0] in keep then [xs[0]] + acc else acc)
  }

  lemma {:induction false} SweptMembers(xs: seq<GcObj>, keep: set<GcObj>, acc: seq<GcObj>)
    requires NoDup(xs) && NoDup(acc) && forall o :: o in xs ==> o !in acc
    ensures NoDup(SweptOnto(xs, keep, acc))
    ensures forall o :: o in SweptOnto(xs, keep, acc) <==> o in acc || (o in xs && o in keep)
  {
    if xs != [] {
      NoDupTail(xs);
      NoDupPrepend(xs[0], acc);
      SweptMembers(xs[1..], keep, if xs[0] in keep then [xs[0]] + acc else acc);
    }
  }

  // ---------- When a collection is exact ----------

  /** What a collection keeps of the linked objects. */
  ghost function Survivors(g: Graph, roots: set<GcObj>, stale: set<GcObj>): set<GcObj> {
    stale + AllExplored(g, roots, stale)
  }

  /** With no object marked beforehand, precisely the reachable objects survive. */
  lemma ExactWithoutStale(g: Graph, roots: set<GcObj>)
    ensures Survivors(g, roots, {}) == Reachable(g, roots)
  {
  }

  /** Over all choices of roots, a collection is exact if and only if no object is marked beforehand. */
  lemma ExactIffNoStale(g: Graph, stale: set<GcObj>)
    requires stale <= g.Keys
    ensures (forall roots: set<GcObj> :: Survivors(g, roots, stale) == Reachable(g, roots)) <==> stale == {}
  {
    if stale == {} {
      forall roots: set<GcObj> ensures Survivors(g, roots, stale) == Reachable(g, roots) { ExactWithoutStale(g, roots); }
    } else {
      ExploredInside(g, {}, {}, {});
      assert Survivors(g, {}, stale) != Reachable(g, {});
    }
  }

  /** Nothing a survivor of an exact collection points to is destroyed. */
  lemma NoDanglingMember(g: Graph, roots: set<GcObj>, o: GcObj, c: GcObj)
    requires Closed(g) && o in Reachable(g, roots) && c in g[o]
    ensures c in Reachable(g, roots)
  {
    ChildExplored(g, roots, {}, o, c);
  }

  lemma ReachableLinked(g: Graph, roots: set<GcObj>)
    ensures Reachable(g, roots) <= g.Keys
  {
  }

  /** The graph of the objects of s alone. */
  ghost function Only(g: Graph, s: set<GcObj>): Graph {
    map o | o in g && o in s :: g[o]
  }

  /** What an exact collection leaves is reachable in what it leaves. */
  lemma ReachableAgain(g: Graph, roots: set<GcObj>)
    requires Closed(g) && roots <= g.Keys
    ensures Reachable(Only(g, Reachable(g, roots)), roots) == Reachable(g, roots)
  {
    var r := Reachable(g, roots);
    OnlyClosed(g, roots);
    OneFurtherInside(g, roots);
    RootsInside(g, roots);
    assert Only(g, r).Keys <= r;
    hide Reachable, Closed, Only, ClosedIn;
    ReachableLinked(Only(g, r), roots);
    InsideReach(g, roots, Reachable(Only(g, r), roots));
  }

  lemma RootsInside(g: Graph, roots: set<GcObj>)
    requires roots <= g.Keys
    ensures roots <= Reachable(Only(g, Reachable(g, roots)), roots)
  {
    hide Reachable;
    forall o | o in roots ensures o in Reachable(Only(g, Reachable(g, roots)), roots) {
      InReach(g, roots, o);
      InReach(Only(g, Reachable(g, roots)), roots, o);
    }
  }

  lemma OneFurtherInside(g: Graph, roots: set<GcObj>)
    requires Closed(Only(g, Reachable(g, roots)))
    ensures ClosedIn(g, Reachable(Only(g, Reachable(g, roots)), roots))
  {
    var h := Only(g, Reachable(g, roots));
    ReachableLinked(h, roots);
    hide Reachable, Closed;
    forall o, c | o in Reachable(h, roots) && o in g && c in g[o] ensures c in Reachable(h, roots) {
      OneFurther(h, roots, o, c);
    }
  }

  ghost predicate ClosedIn(g: Graph, d: set<GcObj>) {
    forall o, c :: o in d && o in g && c in g[o] ==> c in d
  }

  lemma InReach(g: Graph, roots: set<GcObj>, o: GcObj)
    requires o in roots && o in g
    ensures o in Reachable(g, roots)
  {
    RootExplored(g, roots, {}, o);
  }

  lemma OneFurther(g: Graph, roots: set<GcObj>, o: GcObj, c: GcObj)
    requires Closed(g) && o in Reachable(g, roots) && o in g && c in g[o]
    ensures c in Reachable(g, roots)
  {
    ChildExplored(g, roots, {}, o, c);
  }

  lemma InsideReach(g: Graph, roots: set<GcObj>, d: set<GcObj>)
    requires roots <= d && ClosedIn(g, d)
    ensures Reachable(g, roots) <= d
  {
    hide AllExplored;
    ExploredInside(g, roots, {}, d);
  }

  lemma OnlyClosed(g: Graph, roots: set<GcObj>)
    requires Closed(g)
    ensures Closed(Only(g, Reachable(g, roots)))
  {
    hide Reachable;
    var h := Only(g, Reachable(g, roots));
    forall o, c | o in h && c in h[o] ensures c in h { NoDanglingMember(g, roots, o, c); }
  }

  /** All members of the objects of s. */
  ghost function KidsOf(g: Graph, s: set<GcObj>): set<GcObj> {
    set o, c | o in s && o in g && c in g[o] :: c
  }

  /** A mark left over on a reachable object loses what can only be reached through it:
      the object survives, its member is destroyed. */
  lemma StaleLosesMembers(r: GcObj, a: GcObj, b: GcObj, stale: set<GcObj>)
    requires r != a && a != b && r != b && a in stale && b !in stale
    ensures var g := map[r := {a}, a := {b}, b := {}];
      && b in Reachable(g, {r}) && a in Survivors(g, {r}, stale) && b in g[a] && b !in Survivors(g, {r}, stale)
  {
    var g := map[r := {a}, a := {b}, b := {}];
    RootExplored(g, {r}, {}, r);
    ChildExplored(g, {r}, {}, r, a);
    ChildExplored(g, {r}, {}, a, b);
    ExploredInside(g, {r}, stale, {r});
  }
}
