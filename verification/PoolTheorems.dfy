/** What the pool guarantees after any sequence of public operations. */
module PoolTheorems {
  import opened SizeClasses
  import opened Seqs
  import opened PoolSpec
  import opened PoolInv
  import opened PoolOps

  datatype Op =
    | NewThread
    | AllocOp(n: nat, pg: Addr)
    | FreeOp(a: Addr)
    | CachedAllocOp(t: nat, n: nat, pg: Addr)
    | CachedFreeOp(t: nat, a: Addr)
    | ReallocOp(a: Addr, n: nat, pg: Addr)
    | CleanupOp(t: nat)
    | GcOp(t: nat)

  /** Callers free or resize only what they hold, threads use their own cache, page_alloc returns unused pages. */
  ghost predicate Enabled(p: Pool, op: Op) {
    match op
    case NewThread => true
    case AllocOp(n, pg) => Fresh(p, pg, NeedPages(n))
    case FreeOp(a) => a in Handed(p)
    case CachedAllocOp(t, n, pg) => HasThread(p, t) && Fresh(p, pg, NeedPages(n))
    case CachedFreeOp(t, a) => HasThread(p, t) && a in Handed(p)
    case ReallocOp(a, n, pg) => a in Handed(p) && n > 0 && Fresh(p, pg, NeedPages(n))
    case CleanupOp(t) => HasThread(p, t)
    case GcOp(t) => HasThread(p, t)
  }

  ghost function Step(p: Pool, op: Op): (q: Pool)
    requires Good(p) && Enabled(p, op)
    ensures Good(q)
  {
    match op
    case NewThread => AddThread(p)
    case AllocOp(n, pg) => Alloc(p, n, pg).0
    case FreeOp(a) => ReleaseGood(p, a)
    case CachedAllocOp(t, n, pg) => CachedAlloc(p, t, n, pg).0
    case CachedFreeOp(t, a) => CachedFree(p, t, a)
    case ReallocOp(a, n, pg) => Realloc(p, a, n, pg).0
    case CleanupOp(t) => CleanFrom(p, t, 0)
    case GcOp(t) => Gc(p, t)
  }

  ghost function AddThread(p: Pool): (q: Pool)
    requires Good(p)
    ensures Good(q) && Handed(q) == Handed(p)
  {
    var q := p.(cache := p.cache + [seq(CLASSES, _ => [])]);
    NewCacheOk(p, q);
    q
  }

  lemma NewCacheOk(p: Pool, q: Pool)
    requires Good(p) && q == p.(cache := p.cache + [seq(CLASSES, _ => [])])
    ensures Good(q)
  {
    forall b | b in q.owner ensures BlockOk(q, b) { assert BlockOk(p, b); }
    NewCacheLists(p, q);
    SameOrder(p, q);
    forall c | c in q.spans ensures FreeListOk(q, c) {
      assert FreeListOk(p, c);
      forall b ensures IsFree(q, c, b) <==> IsFree(p, c, b) {}
    }
    IdleSameLists(p, q);
  }

  lemma NewCacheLists(p: Pool, q: Pool)
    requires BlocksOk(p) && CachesOk(p) && q == p.(cache := p.cache + [seq(CLASSES, _ => [])])
    ensures CachesOk(q)
  {
    forall t: nat, k: Class | t < |q.cache| ensures CacheListOk(q, t, k) {
      if t < |p.cache| {
        assert CacheListOk(p, t, k);
        forall b ensures IsCached(q, t, k, b) <==> IsCached(p, t, k, b) {}
      } else {
        forall b ensures !IsCached(q, t, k, b) { if b in p.owner { assert BlockOk(p, b); } }
      }
    }
  }

  /** ops can be carried out one after the other from p, ending in q. */
  ghost predicate Runs(p: Pool, ops: seq<Op>, q: Pool)
    requires Good(p)
    decreases |ops|
  {
    if ops == [] then p == q else Enabled(p, ops[0]) && Runs(Step(p, ops[0]), ops[1..], q)
  }

  lemma EmptyGood()
    ensures Good(Empty())
  {
  }

  /** The invariant holds after every run from the empty pool. */
  lemma {:induction false} RunsStayGood(p: Pool, ops: seq<Op>, q: Pool)
    requires Good(p) && Runs(p, ops, q)
    ensures Good(q)
    decreases |ops|
  {
    if ops != [] { RunsStayGood(Step(p, ops[0]), ops[1..], q); }
  }

  predicate InCacheOf(p: Pool, t: nat, k: Class, a: Addr) {
    t < |p.cache| && k < |p.cache[t]| && a in p.cache[t][k]
  }

  /** Conservation: every block of every mapped span is in exactly one of its span's free list,
      one thread's cache list for its class, or a caller's hands, and in that list only once. */
  lemma ExactlyOnePlace(p: Pool, s: Addr, i: nat)
    requires Good(p) && s in p.spans && i < Count(p.spans[s])
    ensures var a := At(p.spans[s], i);
      && (a in p.spans[s].free ==> a !in Handed(p) && forall t: nat, k: Class :: !InCacheOf(p, t, k, a))
      && (a in Handed(p) ==> forall t: nat, k: Class :: !InCacheOf(p, t, k, a))
      && (a in p.spans[s].free || a in Handed(p)
          || exists t: nat, k: Class :: InCacheOf(p, t, k, a) && p.spans[s].kind == Small(k))
    ensures forall t: nat, u: nat, k: Class, c: Class ::
      InCacheOf(p, t, k, At(p.spans[s], i)) && InCacheOf(p, u, c, At(p.spans[s], i)) ==> t == u && k == c
    ensures forall r :: r in p.spans && r != s ==> At(p.spans[s], i) !in p.spans[r].free
    ensures NoDup(p.spans[s].free) && forall t: nat, k: Class :: t < |p.cache| ==> NoDup(p.cache[t][k])
  {
    var a := At(p.spans[s], i);
    assert a in p.owner && p.owner[a].span == s;
    HomeOf(p, a);
    assert FreeListOk(p, s);
    forall t: nat, k: Class ensures InCacheOf(p, t, k, a) <==> t < |p.cache| && IsCached(p, t, k, a) {
      if t < |p.cache| { assert CacheListOk(p, t, k); }
    }
    forall t: nat, k: Class | t < |p.cache| ensures NoDup(p.cache[t][k]) { assert CacheListOk(p, t, k); }
    forall r | r in p.spans && r != s ensures a !in p.spans[r].free { assert FreeListOk(p, r); }
    if p.owner[a].place.InCache? {
      assert BlockOk(p, a);
      assert InCacheOf(p, p.owner[a].place.t, p.spans[s].kind.k, a);
    }
  }

  /** A block in a caller's hands is at least as big as asked for, inside its span,
      and clear of the descriptor at the span's end. */
  lemma HandedInside(p: Pool, a: Addr)
    requires Good(p) && a in Handed(p)
    ensures var sp := p.spans[p.owner[a].span];
      && sp.base <= a && a + Handed(p)[a] <= a + UnitOf(sp) <= sp.base + sp.size <= End(sp)
      && (sp.kind.Small? && !sp.fly ==> a + Handed(p)[a] + DESC_SIZE <= sp.base + sp.size)
  {
    HomeOf(p, a);
    hide SpansOk;
    var x := p.owner[a];
    SpanIsOk(p, x.span);
    BlockInside(p.spans[x.span], x.idx);
    RoundPageBounds(p.spans[x.span].size);
  }

  lemma SpanIsOk(p: Pool, s: Addr)
    requires SpansOk(p) && s in p.spans
    ensures SpanOk(p.spans[s]) && p.spans[s].base == s
    ensures forall r :: r in p.spans && r != s ==> Disjoint(p.spans[r], p.spans[s])
  {
  }

  lemma DistinctBlocks(s: Span, i: nat, j: nat)
    requires i != j
    ensures At(s, i) + UnitOf(s) <= At(s, j) || At(s, j) + UnitOf(s) <= At(s, i)
  {
    AtStep(s, i);
    AtStep(s, j);
    if i < j { AtMono(s, i + 1, j); } else { AtMono(s, j + 1, i); }
  }

  /** Two blocks in callers' hands never overlap. */
  lemma HandedOutDisjoint(p: Pool, a: Addr, b: Addr)
    requires Good(p) && a in Handed(p) && b in Handed(p) && a != b
    ensures a + Handed(p)[a] <= b || b + Handed(p)[b] <= a
  {
    HandedInside(p, a);
    HandedInside(p, b);
    HomeOf(p, a);
    HomeOf(p, b);
    hide Good;
    if p.owner[a].span == p.owner[b].span {
      DistinctBlocks(p.spans[p.owner[a].span], p.owner[a].idx, p.owner[b].idx);
    } else {
      SpanIsOk(p, p.owner[a].span);
    }
  }

  /** The blocks of span s that are not on its free list. */
  ghost function InUse(p: Pool, s: Addr): set<Addr> {
    set a | a in p.owner && p.owner[a].span == s && !p.owner[a].place.InSpan?
  }

  /** nd_nnum: the counter the pool keeps equals the number of blocks handed out or cached. */
  lemma CountsAgree(p: Pool, s: Addr)
    requires Good(p) && s in p.spans
    ensures |InUse(p, s)| + |p.spans[s].free| == Count(p.spans[s])
  {
    var sp := p.spans[s];
    assert FreeListOk(p, s);
    SetSize(sp.free);
    BlockSetSize(p, s, Count(sp));
    AllBlocksOf(p, s);
    assert InUse(p, s) !! (set a | a in sp.free);
    assert Blocks(p, s, Count(sp)) == InUse(p, s) + (set a | a in sp.free);
  }

  lemma AllBlocksOf(p: Pool, s: Addr)
    requires BlocksOk(p) && s in p.spans
    ensures Blocks(p, s, Count(p.spans[s])) == set a | a in p.owner && p.owner[a].span == s
  {
    forall a | a in p.owner && p.owner[a].span == s ensures a in Blocks(p, s, Count(p.spans[s])) { HomeOf(p, a); }
  }

  ghost function Blocks(p: Pool, s: Addr, n: nat): set<Addr>
    requires s in p.spans
  {
    set i: nat | i in Below(n) :: At(p.spans[s], i)
  }

  lemma {:induction false} BlockSetSize(p: Pool, s: Addr, n: nat)
    requires SpansOk(p) && s in p.spans
    ensures |Blocks(p, s, n)| == n
  {
    if n == 0 {
      hide SpansOk, At;
      assert Blocks(p, s, 0) == {};
    } else {
      hide SpansOk, Blocks, At;
      BlockSetSize(p, s, n - 1);
      OneMoreBlock(p, s, n - 1);
    }
  }

  lemma OneMoreBlock(p: Pool, s: Addr, n: nat)
    requires SpansOk(p) && s in p.spans
    ensures Blocks(p, s, n + 1) == Blocks(p, s, n) + {At(p.spans[s], n)} && At(p.spans[s], n) !in Blocks(p, s, n)
  {
    assert SpanOk(p.spans[s]);
    hide SpansOk, SpanOk, At;
    forall i: nat | i < n ensures At(p.spans[s], i) != At(p.spans[s], n) {
      if At(p.spans[s], i) == At(p.spans[s], n) { AtInjective(p.spans[s], i, n); }
    }
  }

  /** At most one span of each class is mapped without a block in use. */
  lemma AtMostOneIdleSpan(p: Pool, s: Addr, r: Addr)
    requires Good(p) && Idle(p, s) && Idle(p, r) && p.spans[s].kind == p.spans[r].kind
    ensures s == r
  {
    var k := p.spans[s].kind.k;
    LayoutFits(k);
    assert Listed(p, k, s) && Listed(p, k, r);
    assert s in p.order[k] && r in p.order[k];
  }

  /** A span that a free unmaps had every block on its own free list, whoever frees. */
  lemma UnmappedOnlyWhenIdle(p: Pool, a: Addr, s: Addr)
    requires Good(p) && a in Handed(p) && s in p.spans && s !in Release(p, a).spans
    ensures forall b :: b in p.owner && p.owner[b].span == s && b != a ==> p.owner[b].place.InSpan?
    ensures p.owner[a].span == s
  {
    hide SpansOk, BlocksOk, FreeListsOk, CachesOk, OnlyLastIdle;
    if OutSmall(p, a) {
      PushFreeKeepsInv(p, a);
      var q := PushFree(p, a);
      assert s == p.owner[a].span && Idle(q, s);
      IdleIsAllFree(q, s);
      forall b | b in p.owner && p.owner[b].span == s && b != a ensures p.owner[b].place.InSpan? {
        assert q.owner[b].place.InSpan?;
      }
    } else {
      LargeBlock(p, a);
    }
  }

  // ---------- What realloc does to the caller's bytes ----------

  lemma CapacityFits(p: Pool, s: Addr)
    requires SpansOk(p) && s in p.spans
    ensures 0 < Capacity(p.spans[s]) <= UnitOf(p.spans[s])
  {
    assert SpanOk(p.spans[s]);
  }

  /** Only a large block with its descriptor outside its pages can be asked for more than that size,
      and one fresh from alloc_large always is. */
  lemma WhoLosesBytes(p: Pool, a: Addr)
    requires Good(p) && a in Handed(p)
    ensures p.owner[a].span in p.spans
    ensures var s := p.spans[p.owner[a].span]; Handed(p)[a] > Capacity(s) ==> s.kind.Large? && s.fly
  {
    HomeOf(p, a);
  }

  lemma FreshFlyBlockLosesBytes(n: nat, pg: Addr)
    requires n > SPAN_SIZE
    ensures LargeSpan(pg, n).fly <==> n > Capacity(LargeSpan(pg, n))
  {
    RoundPageBounds(n);
  }

  // ---------- No waste ----------

  lemma UnitsApart(c: Class, k: Class)
    requires Unit(c) == Unit(k)
    ensures c == k
  {
    if c < k { UnitsGrow(c); SortedUnits(c + 1, k); }
    if k < c { UnitsGrow(k); SortedUnits(k + 1, c); }
  }

  lemma UnitsGrow(k: Class)
    requires k + 1 < CLASSES
    ensures UNITS[k] < UNITS[k + 1]
  {
  }

  /** Pages are asked for only when no span of blocks of the least size has a free one. */
  lemma AllocReuses(p: Pool, n: nat, pg: Addr, s: Addr)
    requires Good(p) && Fresh(p, pg, NeedPages(n)) && s in p.spans && p.spans[s].kind.Small? && p.spans[s].free != []
    requires n <= UnitOf(p.spans[s]) && forall c: Class :: n <= Unit(c) ==> UnitOf(p.spans[s]) <= Unit(c)
    ensures Alloc(p, n, pg).0.spans.Keys == p.spans.Keys
    ensures exists t :: t in p.spans && Alloc(p, n, pg).1 in p.spans[t].free
  {
    hide SpansOk, BlocksOk, FreeListsOk, CachesOk, OrderOk, OnlyLastIdle, LeastFit, IsFree, Listed, Alloc, CacheBounded;
    var k := p.spans[s].kind.k;
    LeastClass(n, k);
    ListedSpan(p, s);
    OrderGivesHead(p, k);
    AllocHead(p, n, k, pg);
    assert HeadBlock(p, k) in p.spans[p.order[k][0]].free;
  }

  lemma LeastClass(n: nat, k: Class)
    requires n <= Unit(k) && forall c: Class :: n <= Unit(c) ==> Unit(k) <= Unit(c)
    ensures LeastFit(n) == k && n <= SPAN_SIZE
  {
    ClassFor(n);
    LeastFitIsLeast(n, k);
    SortedUnits(LeastFit(n), k);
    UnitsApart(LeastFit(n), k);
  }

  lemma ListedSpan(p: Pool, s: Addr)
    requires OrderOk(p) && s in p.spans && p.spans[s].kind.Small? && p.spans[s].free != []
    ensures |p.order| == CLASSES && p.order[p.spans[s].kind.k] != []
  {
    assert Listed(p, p.spans[s].kind.k, s);
  }

  lemma AllocHead(p: Pool, n: nat, k: Class, pg: Addr)
    requires Good(p) && Fresh(p, pg, NeedPages(n)) && LeastFit(n) == k && p.order[k] != [] && HasHead(p, k) && n <= SPAN_SIZE
    ensures Alloc(p, n, pg) == (TakeOne(p, k, n), HeadBlock(p, k))
  {
    hide SpansOk, BlocksOk, FreeListsOk, CachesOk, OrderOk, OnlyLastIdle, LeastFit, IsFree, Listed, CacheBounded, HeadBlock, TakeOne;
    ClassFor(n);
  }
}
