/** The public operations of the pool, each one atomic step, and what holds after any run of them. */
module PoolOps {
  import opened SizeClasses
  import opened Seqs
  import opened PoolSpec
  import opened PoolInv

  /** What holds between public operations. */
  ghost predicate Good(p: Pool) {
    Inv(p) && OnlyLastIdle(p) && CacheBounded(p)
  }

  // ---------- Which spans may be idle ----------

  lemma IdleListsShrink(p: Pool, q: Pool)
    requires OnlyLastIdle(p) && |p.order| == |q.order| == CLASSES
    requires forall s :: Idle(q, s) && s in p.spans ==> Idle(p, s)
    requires forall k: Class :: q.order[k] == p.order[k] || (p.order[k] != [] && q.order[k] == p.order[k][1..])
    requires forall k: Class, s :: s in p.order[k] ==> s in p.spans
    ensures OnlyLastIdle(q)
  {
    forall k: Class, s | s in q.order[k] && Idle(q, s) ensures s == Last(q.order[k]) {
      assert s in p.order[k];
    }
  }

  lemma OrderInSpans(p: Pool)
    requires OrderOk(p)
    ensures forall k: Class, s :: s in p.order[k] ==> s in p.spans && p.spans[s].kind == Small(k)
  {
    forall k: Class, s | s in p.order[k] ensures s in p.spans && p.spans[s].kind == Small(k) {
      assert Listed(p, k, s);
    }
  }

  lemma CreateIdle(p: Pool, k: Class, pg: Addr)
    requires Inv(p) && OnlyLastIdle(p) && p.order[k] == [] && Fresh(p, pg, SPAN_SIZE)
    ensures OnlyLastIdle(CreateSpan(p, k, pg))
  {
    var q := CreateSpan(p, k, pg);
    NewBlocksFresh(p, k, pg);
    OrderInSpans(p);
    forall c: Class, s | s in q.order[c] && Idle(q, s) ensures s == Last(q.order[c]) {
      if c != k { assert s in p.order[c] && Idle(p, s); }
    }
  }

  lemma TakeOneIdle(p: Pool, k: Class, n: nat)
    requires Inv(p) && OnlyLastIdle(p) && HasHead(p, k) && p.spans[p.order[k][0]].kind == Small(k)
    ensures OnlyLastIdle(TakeOne(p, k, n))
  {
    OrderInSpans(p);
    IdleIsAllFree(p, p.order[k][0]);
    IdleListsShrink(p, TakeOne(p, k, n));
  }

  lemma TakeAllIdle(p: Pool, t: nat, k: Class)
    requires Inv(p) && OnlyLastIdle(p) && HasHead(p, k) && p.spans[p.order[k][0]].kind == Small(k) && t < |p.cache|
    ensures OnlyLastIdle(TakeAll(p, t, k))
  {
    OrderInSpans(p);
    LayoutFits(k);
    IdleListsShrink(p, TakeAll(p, t, k));
  }

  lemma GiveBackIdle(p: Pool, a: Addr)
    requires Inv(p) && OnlyLastIdle(p) && OutSmall(p, a)
    ensures OnlyLastIdle(GiveBack(p, a))
  {
    hide SpansOk, BlocksOk, FreeListsOk, CachesOk;
    PushFreeKeepsInv(p, a);
    PushFreeIdle(p, a);
    var q := PushFree(p, a);
    var s := p.owner[a].span;
    hide OrderOk, OnlyLastIdle;
    if Idle(q, s) && Last(q.order[ClassOf(p, a)]) != s {
      UnmapIdle(q, s);
    }
  }

  /** After a block is freed only its own span can newly be idle away from the end of its list. */
  lemma PushFreeIdle(p: Pool, a: Addr)
    requires OrderOk(p) && OutSmall(p, a) && OrderOk(PushFree(p, a)) && OnlyLastIdle(p)
    ensures p.owner[a].span in PushFree(p, a).order[ClassOf(p, a)]
    ensures forall c: Class, b :: b in PushFree(p, a).order[c] && Idle(PushFree(p, a), b) && b != p.owner[a].span
              ==> b == Last(PushFree(p, a).order[c])
    ensures Last(PushFree(p, a).order[ClassOf(p, a)]) == p.owner[a].span ==> OnlyLastIdle(PushFree(p, a))
    ensures !Idle(PushFree(p, a), p.owner[a].span) ==> OnlyLastIdle(PushFree(p, a))
  {
    var q := PushFree(p, a);
    var s, k := p.owner[a].span, ClassOf(p, a);
    OrderInSpans(p);
    OrderInSpans(q);
    assert Listed(q, k, s) && (s in p.order[k] <==> Listed(p, k, s));
    hide OrderOk;
    forall c: Class, b | b in q.order[c] && Idle(q, b) && b != s ensures b == Last(q.order[c]) {
      assert b in p.order[c] && Idle(p, b);
    }
  }

  /** Taking an idle span other than the last off its list keeps the last one last. */
  lemma UnmapIdle(q: Pool, s: Addr)
    requires Inv(q) && Idle(q, s) && s in q.order[q.spans[s].kind.k] && Last(q.order[q.spans[s].kind.k]) != s
    requires forall c: Class, b :: b in q.order[c] && Idle(q, b) && b != s ==> b == Last(q.order[c])
    ensures OnlyLastIdle(Unmap(q, s))
  {
    hide SpansOk, BlocksOk, FreeListsOk, CachesOk;
    var k := q.spans[s].kind.k;
    var r := Unmap(q, s);
    assert NoDup(q.order[k]);
    WithoutMembers(q.order[k], s);
    hide OrderOk;
    forall c: Class, b | b in r.order[c] && Idle(r, b) ensures b == Last(r.order[c]) {
      assert b in q.order[c] && Idle(q, b) && b != s;
    }
  }

  // ---------- Global allocation and release ----------

  lemma LargeSpanOk(pg: Addr, n: nat)
    requires 0 < pg && pg % PAGE_SIZE == 0 && n > SPAN_SIZE
    ensures SpanOk(LargeSpan(pg, n)) && n <= LargeSpan(pg, n).size
    ensures End(LargeSpan(pg, n)) == pg + RoundPage(n)
  {
    hide RoundPage;
    RoundPageBounds(n);
    RoundPageBounds(LargeSpan(pg, n).size);
    PageAligned(RoundPage(n));
    SamePage(RoundPage(n), RoundPage(LargeSpan(pg, n).size));
  }

  lemma PageAligned(size: nat)
    requires size % PAGE_SIZE == 0
    ensures size % 8 == 0 && (size - DESC_SIZE) % 8 == 0
  {
  }

  lemma SamePage(a: int, b: int)
    requires a % PAGE_SIZE == 0 && b % PAGE_SIZE == 0
    ensures a < b + PAGE_SIZE && b < a + PAGE_SIZE ==> a == b
  {
  }

  lemma LargeIsFresh(p: Pool, n: nat, pg: Addr)
    requires Inv(p) && n > SPAN_SIZE && Fresh(p, pg, n)
    ensures pg !in p.owner && pg !in p.spans
  {
    RoundPageBounds(n);
    if pg in p.spans { RoundPageBounds(p.spans[pg].size); }
    if pg in p.owner {
      HomeOf(p, pg);
      BlockInside(p.spans[p.owner[pg].span], p.owner[pg].idx);
      RoundPageBounds(p.spans[p.owner[pg].span].size);
    }
  }

  lemma TakeLargeBlocks(p: Pool, n: nat, pg: Addr)
    requires Inv(p) && n > SPAN_SIZE && Fresh(p, pg, n) && pg !in p.owner && pg !in p.spans
    ensures BlocksOk(TakeLarge(p, n, pg))
  {
    LargeSpanOk(pg, n);
    var q := TakeLarge(p, n, pg);
    assert At(q.spans[pg], 0) == pg;
    forall b | b in q.owner ensures BlockOk(q, b) { if b != pg { assert BlockOk(p, b); } }
  }

  lemma TakeLargeSpans(p: Pool, n: nat, pg: Addr)
    requires Inv(p) && n > SPAN_SIZE && Fresh(p, pg, n) && pg !in p.spans
    ensures SpansOk(TakeLarge(p, n, pg))
  {
    LargeSpanOk(pg, n);
  }

  lemma TakeLargeKeepsInv(p: Pool, n: nat, pg: Addr)
    requires Inv(p) && n > SPAN_SIZE && Fresh(p, pg, n)
    ensures Inv(TakeLarge(p, n, pg)) && pg !in p.owner && pg !in p.spans
  {
    hide SpansOk, BlocksOk, OrderOk, FreeListsOk, CachesOk;
    LargeIsFresh(p, n, pg);
    TakeLargeBlocks(p, n, pg);
    TakeLargeSpans(p, n, pg);
    SameLists(p, TakeLarge(p, n, pg));
  }

  /** Adding or dropping a large block touches no list. */
  lemma SameLists(p: Pool, q: Pool)
    requires BlocksOk(p) && OrderOk(p) && FreeListsOk(p) && CachesOk(p) && q.order == p.order && q.cache == p.cache
    requires forall s :: s in p.spans && p.spans[s].kind.Small? ==> s in q.spans && q.spans[s] == p.spans[s]
    requires forall s :: s in q.spans && !(s in p.spans && q.spans[s] == p.spans[s]) ==> q.spans[s].kind.Large? && q.spans[s].free == []
    requires forall b :: b in p.owner && !p.owner[b].place.Out? ==> b in q.owner && q.owner[b] == p.owner[b]
    requires forall b :: b in q.owner && !(b in p.owner && q.owner[b] == p.owner[b]) ==> q.owner[b].place.Out?
    ensures OrderOk(q) && FreeListsOk(q) && CachesOk(q)
  {
    forall c: Class ensures NoDup(q.order[c]) && forall b :: b in q.order[c] <==> Listed(q, c, b) {
      forall b ensures b in q.order[c] <==> Listed(q, c, b) { assert b in p.order[c] <==> Listed(p, c, b); }
    }
    forall b | b in p.owner ensures p.owner[b].span in p.spans && (!p.owner[b].place.Out? ==> p.spans[p.owner[b].span].kind.Small?) {
      HomeOf(p, b);
    }
    forall c | c in q.spans ensures FreeListOk(q, c) {
      if c in p.spans && q.spans[c] == p.spans[c] {
        assert FreeListOk(p, c);
        forall b ensures IsFree(q, c, b) <==> IsFree(p, c, b) {}
      } else {
        forall b ensures !IsFree(q, c, b) {}
      }
    }
    SameCaches(p, q);
  }

  lemma LargeBlock(p: Pool, a: Addr)
    requires Inv(p) && a in p.owner && p.owner[a].place.Out? && !OutSmall(p, a)
    ensures p.owner[a].span == a && a in p.spans && p.spans[a].kind.Large?
    ensures forall b :: b in p.owner && p.owner[b].span == a ==> b == a
  {
    HomeOf(p, a);
    assert At(p.spans[p.owner[a].span], 0) == a;
    forall b | b in p.owner && p.owner[b].span == a ensures b == a {
      HomeOf(p, b);
      assert At(p.spans[a], 0) == b;
    }
  }

  lemma FreeLargeBlocks(p: Pool, a: Addr)
    requires BlocksOk(p) && a in p.spans && p.spans[a].kind.Large? && a in p.owner && p.owner[a].span == a
    requires forall b :: b in p.owner && p.owner[b].span == a ==> b == a
    ensures BlocksOk(FreeLarge(p, a))
  {
    var q := FreeLarge(p, a);
    forall b | b in q.owner ensures BlockOk(q, b) { assert BlockOk(p, b); }
  }

  lemma FreeLargeKeepsInv(p: Pool, a: Addr)
    requires Inv(p) && a in p.owner && p.owner[a].place.Out? && !OutSmall(p, a)
    ensures p.owner[a].span == a && a in p.spans && p.spans[a].kind.Large?
    ensures Inv(FreeLarge(p, a))
  {
    LargeBlock(p, a);
    hide BlocksOk, OrderOk, FreeListsOk, CachesOk;
    FreeLargeBlocks(p, a);
    assert SpansOk(FreeLarge(p, a));
    hide SpansOk;
    SameLists(p, FreeLarge(p, a));
  }

  /** How much page_alloc is asked for when a request of n bytes needs new pages. */
  function NeedPages(n: nat): nat {
    if n > SPAN_SIZE then n else SPAN_SIZE
  }

  lemma ClassFor(n: nat)
    ensures LeastFit(n) <= CLASSES && (LeastFit(n) == CLASSES <==> n > SPAN_SIZE)
    ensures LeastFit(n) < CLASSES ==> n <= Unit(LeastFit(n))
  {
    LeastFitIsLeast(n, CLASSES - 1);
  }

  /** Block a wastes no more than it must on n bytes: no class has smaller blocks that hold them, and a request
      above every class gets pages of its own, less than a page too many. */
  ghost predicate LeastWaste(p: Pool, a: Addr, n: nat) {
    && a in p.owner && p.owner[a].span in p.spans
    && var u := UnitOf(p.spans[p.owner[a].span]);
    && n <= u
    && (n <= SPAN_SIZE ==> forall c: Class :: n <= Unit(c) ==> u <= Unit(c))
    && (n > SPAN_SIZE ==> p.owner[a].span == a && u < n + PAGE_SIZE)
  }

  lemma ClassLeastWaste(p: Pool, a: Addr, n: nat)
    requires a in p.owner && p.owner[a].span in p.spans
    requires LeastFit(n) < CLASSES && p.spans[p.owner[a].span].kind == Small(LeastFit(n))
    ensures LeastWaste(p, a, n)
  {
    ClassFor(n);
    forall c: Class | n <= Unit(c) ensures Unit(LeastFit(n)) <= Unit(c) {
      LeastFitIsLeast(n, c);
      SortedUnits(LeastFit(n), c);
    }
  }

  lemma LargeLeastWaste(p: Pool, n: nat, pg: Addr)
    requires n > SPAN_SIZE && 0 < pg && pg % PAGE_SIZE == 0
    ensures LeastWaste(TakeLarge(p, n, pg), pg, n)
  {
    LargeSpanOk(pg, n);
    RoundPageBounds(n);
  }

  /** The state in which class k has a span to allocate from. */
  ghost function Refilled(p: Pool, k: Class, pg: Addr): (q: Pool)
    requires Inv(p) && OnlyLastIdle(p) && Fresh(p, pg, SPAN_SIZE)
    ensures Inv(q) && OnlyLastIdle(q) && q.order[k] != [] && HasHead(q, k) && q.cache == p.cache && Handed(q) == Handed(p)
    ensures q == if p.order[k] == [] then CreateSpan(p, k, pg) else p
  {
    if p.order[k] == [] then
      hide SpansOk, BlocksOk, FreeListsOk, CachesOk;
      CreateKeepsInv(p, k, pg);
      CreateIdle(p, k, pg);
      CreateHanded(p, k, pg);
      CreateSpan(p, k, pg)
    else
      OrderGivesHead(p, k);
      p
  }

  lemma CreateHanded(p: Pool, k: Class, pg: Addr)
    requires Inv(p) && Fresh(p, pg, SPAN_SIZE)
    ensures Handed(CreateSpan(p, k, pg)) == Handed(p)
  {
    NewBlocksFresh(p, k, pg);
    hide Inv;
  }

  lemma TakeOneHanded(p: Pool, k: Class, n: nat)
    requires HasHead(p, k) && IsFree(p, p.order[k][0], HeadBlock(p, k))
    ensures HeadBlock(p, k) !in Handed(p)
    ensures Handed(TakeOne(p, k, n)) == Handed(p)[HeadBlock(p, k) := n]
  {
  }

  lemma TakeOneClass(p: Pool, k: Class, n: nat)
    requires HasHead(p, k) && p.spans[p.order[k][0]].kind == Small(k) && IsFree(p, p.order[k][0], HeadBlock(p, k))
    ensures var q, a := TakeOne(p, k, n), HeadBlock(p, k);
      a in q.owner && q.owner[a].span in q.spans && q.spans[q.owner[a].span].kind == Small(k)
  {
  }

  /** MpAllocGlobal::alloc on n bytes; pg is what page_alloc would return. */
  ghost function Alloc(p: Pool, n: nat, pg: Addr): (r: (Pool, Addr))
    requires Good(p) && Fresh(p, pg, NeedPages(n))
    ensures Good(r.0)
    ensures r.1 !in Handed(p) && Handed(r.0) == Handed(p)[r.1 := n]
    ensures LeastWaste(r.0, r.1, n)
    ensures r.0.cache == p.cache
  {
    hide SpansOk, BlocksOk, FreeListsOk, CachesOk, OnlyLastIdle, LeastFit, HasHead, IsFree, Listed, LeastWaste;
    ClassFor(n);
    var k := LeastFit(n);
    if k == CLASSES then
      TakeLargeKeepsInv(p, n, pg);
      TakeLargeIdle(p, n, pg);
      LargeLeastWaste(p, n, pg);
      (TakeLarge(p, n, pg), pg)
    else
      var p1 := Refilled(p, k, pg);
      TakeOneKeepsInv(p1, k, n);
      OrderGivesHead(p1, k);
      TakeOneIdle(p1, k, n);
      TakeOneHanded(p1, k, n);
      TakeOneClass(p1, k, n);
      ClassLeastWaste(TakeOne(p1, k, n), HeadBlock(p1, k), n);
      (TakeOne(p1, k, n), HeadBlock(p1, k))
  }

  lemma IdleSameLists(p: Pool, q: Pool)
    requires OnlyLastIdle(p) && OrderOk(p) && q.order == p.order
    requires forall s :: s in p.spans && Idle(q, s) ==> Idle(p, s)
    ensures OnlyLastIdle(q)
  {
    OrderInSpans(p);
  }

  lemma TakeLargeIdle(p: Pool, n: nat, pg: Addr)
    requires OrderOk(p) && OnlyLastIdle(p) && pg !in p.owner && pg !in p.spans
    ensures OnlyLastIdle(TakeLarge(p, n, pg))
    ensures Handed(TakeLarge(p, n, pg)) == Handed(p)[pg := n]
  {
    IdleSameLists(p, TakeLarge(p, n, pg));
  }

  lemma UnmapHanded(p: Pool, s: Addr)
    requires s in p.spans && p.spans[s].kind.Small? && |p.order| == CLASSES && s in p.order[p.spans[s].kind.k]
    requires forall a :: a in p.owner && p.owner[a].span == s ==> p.owner[a].place.InSpan?
    ensures Handed(Unmap(p, s)) == Handed(p)
  {
  }

  lemma FreeLargeIdle(p: Pool, a: Addr)
    requires OrderOk(p) && OnlyLastIdle(p) && a in p.owner && p.owner[a].span == a && a in p.spans && p.spans[a].kind.Large?
    ensures OnlyLastIdle(FreeLarge(p, a))
    ensures Handed(FreeLarge(p, a)) == Handed(p) - {a}
  {
    IdleSameLists(p, FreeLarge(p, a));
  }

  lemma PushFreeHanded(p: Pool, a: Addr)
    requires OutSmall(p, a) && |p.order| == CLASSES
    ensures Handed(PushFree(p, a)) == Handed(p) - {a}
  {
  }

  lemma GiveBackHanded(p: Pool, a: Addr)
    requires Inv(p) && OutSmall(p, a)
    ensures Handed(GiveBack(p, a)) == Handed(p) - {a}
    ensures GiveBack(p, a).cache == p.cache
  {
    hide SpansOk, BlocksOk, FreeListsOk, CachesOk, Handed;
    PushFreeKeepsInv(p, a);
    PushFreeHanded(p, a);
    var q := PushFree(p, a);
    var s := p.owner[a].span;
    if Idle(q, s) {
      IdleIsAllFree(q, s);
      UnmapKeepsInv(q, s);
      UnmapHanded(q, s);
    }
  }

  /** MpAllocGlobal::dealloc of a block that is handed out. */
  ghost function Release(p: Pool, a: Addr): (q: Pool)
    requires Inv(p) && OnlyLastIdle(p) && a in Handed(p)
    ensures Inv(q) && OnlyLastIdle(q)
    ensures Handed(q) == Handed(p) - {a} && q.cache == p.cache
  {
    hide SpansOk, BlocksOk, FreeListsOk, CachesOk, OnlyLastIdle;
    if OutSmall(p, a) then
      GiveBackKeepsInv(p, a);
      GiveBackIdle(p, a);
      GiveBackHanded(p, a);
      GiveBack(p, a)
    else
      FreeLargeKeepsInv(p, a);
      FreeLargeIdle(p, a);
      FreeLarge(p, a)
  }

  // ---------- Thread caches ----------

  ghost predicate HasThread(p: Pool, t: nat) {
    t < |p.cache| && |p.cache[t]| == CLASSES
  }

  /** Only the cache list (t, k) differs, and it is xs. */
  ghost predicate OnlyCache(p: Pool, q: Pool, t: nat, k: Class, xs: seq<Addr>)
    requires HasThread(p, t)
  {
    q.cache == SetCache(p, t, k, xs)
  }

  /** dealloc_batch_nolock: the first n blocks of a cache list, or all of them, go back to their spans. */
  ghost function ReturnBatch(p: Pool, t: nat, k: Class, n: nat): (q: Pool)
    requires Inv(p) && OnlyLastIdle(p) && HasThread(p, t)
    ensures Inv(q) && OnlyLastIdle(q) && Handed(q) == Handed(p)
    ensures OnlyCache(p, q, t, k, Drop(p.cache[t][k], n))
    decreases n
  {
    hide SpansOk, BlocksOk, FreeListsOk, CachesOk, OrderOk, OnlyLastIdle, Handed;
    if n == 0 || p.cache[t][k] == [] then
      assert p.cache[t][k := p.cache[t][k]] == p.cache[t];
      p
    else
      var q := ReturnOne(p, t, k);
      OnlyCacheStep(p, q, t, k, n);
      ReturnBatch(q, t, k, n - 1)
  }

  lemma OnlyCacheStep(p: Pool, q: Pool, t: nat, k: Class, n: nat)
    requires HasThread(p, t) && n > 0 && p.cache[t][k] != [] && OnlyCache(p, q, t, k, p.cache[t][k][1..])
    ensures HasThread(q, t) && Drop(q.cache[t][k], n - 1) == Drop(p.cache[t][k], n)
    ensures forall r: Pool, xs :: OnlyCache(q, r, t, k, xs) ==> OnlyCache(p, r, t, k, xs)
  {
    forall xs ensures SetCache(q, t, k, xs) == SetCache(p, t, k, xs) {
      assert q.cache[t][k := xs] == p.cache[t][k := xs];
    }
  }

  /** xs without its first n elements (all of them if there are fewer). */
  function Drop(xs: seq<Addr>, n: nat): seq<Addr> {
    if n <= |xs| then xs[n..] else []
  }

  ghost function ReturnOne(p: Pool, t: nat, k: Class): (q: Pool)
    requires Inv(p) && OnlyLastIdle(p) && HasThread(p, t) && p.cache[t][k] != []
    ensures Inv(q) && OnlyLastIdle(q) && Handed(q) == Handed(p)
    ensures OnlyCache(p, q, t, k, p.cache[t][k][1..])
  {
    hide SpansOk, BlocksOk, FreeListsOk, CachesOk, OnlyLastIdle, Handed;
    PopKeepsInv(p, t, k, 0);
    PopIdle(p, t, k, 0);
    var a := p.cache[t][k][0];
    var q := PopCache(p, t, k, 0);
    assert |q.order| == CLASSES;
    hide OrderOk, GiveBack;
    PutTake(Handed(p), a);
    GiveBackKeepsInv(q, a);
    GiveBackIdle(q, a);
    GiveBackHanded(q, a);
    GiveBack(q, a)
  }

  lemma PutTake(h: map<Addr, nat>, a: Addr)
    requires a !in h
    ensures h[a := 0] - {a} == h
  {
  }

  lemma PopIdle(p: Pool, t: nat, k: Class, n: nat)
    requires Inv(p) && OnlyLastIdle(p) && CacheHas(p, t, k)
    ensures OnlyLastIdle(PopCache(p, t, k, n))
    ensures p.cache[t][k][0] !in Handed(p) && Handed(PopCache(p, t, k, n)) == Handed(p)[p.cache[t][k][0] := n]
  {
    hide SpansOk, BlocksOk, FreeListsOk;
    CachedBlock(p, t, k);
    hide CachesOk;
    IdleSameLists(p, PopCache(p, t, k, n));
  }

  lemma TakeAllHanded(p: Pool, t: nat, k: Class)
    requires HasHead(p, k) && HasThread(p, t)
    ensures Handed(TakeAll(p, t, k)) == Handed(p)
  {
  }

  /** A non-empty cache list (t, k), refilled in one batch from the first span when it was empty. */
  ghost function RefilledCache(p: Pool, t: nat, k: Class, pg: Addr): (q: Pool)
    requires Good(p) && HasThread(p, t) && Fresh(p, pg, SPAN_SIZE)
    ensures Inv(q) && OnlyLastIdle(q) && CacheBounded(q) && HasThread(q, t)
    ensures q.cache[t][k] != [] && Handed(q) == Handed(p)
    ensures q == if p.cache[t][k] == [] then TakeAll(Refilled(p, k, pg), t, k) else p
  {
    if p.cache[t][k] == [] then
      var p1 := Refilled(p, k, pg);
      assert HasThread(p1, t);
      hide SpansOk, BlocksOk, FreeListsOk, CachesOk, OnlyLastIdle, IsFree, Listed;
      TakeAllKeepsInv(p1, t, k);
      OrderGivesHead(p1, k);
      TakeAllIdle(p1, t, k);
      TakeAllHanded(p1, t, k);
      TakeAllBounded(p1, t, k);
      TakeAll(p1, t, k)
    else p
  }

  lemma TakeAllBounded(p: Pool, t: nat, k: Class)
    requires Inv(p) && CacheBounded(p) && HasHead(p, k) && p.spans[p.order[k][0]].kind == Small(k) && HasThread(p, t)
    ensures CacheBounded(TakeAll(p, t, k))
  {
    IdleIsAllFree(p, p.order[k][0]);
    hide Inv, BlocksOk;
  }

  lemma PopClass(p: Pool, t: nat, k: Class, n: nat)
    requires Inv(p) && CacheHas(p, t, k)
    ensures var q, a := PopCache(p, t, k, n), p.cache[t][k][0];
      a in q.owner && q.owner[a].span in q.spans && q.spans[q.owner[a].span].kind == Small(k)
  {
    hide SpansOk, BlocksOk, FreeListsOk, OrderOk;
    CachedBlock(p, t, k);
  }

  /** MpAllocCachedNoLock::alloc on thread t. */
  ghost function CachedAlloc(p: Pool, t: nat, n: nat, pg: Addr): (r: (Pool, Addr))
    requires Good(p) && HasThread(p, t) && Fresh(p, pg, NeedPages(n))
    ensures Good(r.0) && |r.0.cache| == |p.cache|
    ensures r.1 !in Handed(p) && Handed(r.0) == Handed(p)[r.1 := n]
    ensures LeastWaste(r.0, r.1, n)
  {
    hide SpansOk, BlocksOk, FreeListsOk, CachesOk, OrderOk, OnlyLastIdle, LeastFit, Handed, LeastWaste;
    ClassFor(n);
    var k := LeastFit(n);
    if k == CLASSES then Alloc(p, n, pg)
    else
      var q := RefilledCache(p, t, k, pg);
      PopKeepsInv(q, t, k, n);
      PopIdle(q, t, k, n);
      assert CacheBounded(PopCache(q, t, k, n));
      PopClass(q, t, k, n);
      ClassLeastWaste(PopCache(q, t, k, n), q.cache[t][k][0], n);
      (PopCache(q, t, k, n), q.cache[t][k][0])
  }

  lemma PushCacheHanded(p: Pool, t: nat, a: Addr)
    requires OutSmall(p, a) && HasThread(p, t) && OrderOk(p) && OnlyLastIdle(p)
    ensures Handed(PushCache(p, t, ClassOf(p, a), a)) == Handed(p) - {a}
    ensures OnlyLastIdle(PushCache(p, t, ClassOf(p, a), a))
  {
    IdleSameLists(p, PushCache(p, t, ClassOf(p, a), a));
  }

  /** What stays of a cache list after a push: its front half goes back if the list has grown too long. */
  function Halved(xs: seq<Addr>, k: Class): seq<Addr> {
    if |xs| <= CacheMax(k) then xs else xs[|xs| / 2..]
  }

  lemma PushedCache(p: Pool, t: nat, a: Addr)
    requires OutSmall(p, a) && HasThread(p, t)
    ensures var k := ClassOf(p, a); var q, xs := PushCache(p, t, k, a), [a] + p.cache[t][k];
      && HasThread(q, t) && q.cache == SetCache(p, t, k, xs) && q.cache[t][k] == xs && |xs| == |p.cache[t][k]| + 1
      && Drop(xs, |xs| / 2) == xs[|xs| / 2..]
      && (forall r: Pool, ys :: OnlyCache(q, r, t, k, ys) ==> r.cache == SetCache(p, t, k, ys))
  {
    var k := ClassOf(p, a);
    forall ys ensures SetCache(PushCache(p, t, k, a), t, k, ys) == SetCache(p, t, k, ys) {
      assert PushCache(p, t, k, a).cache[t][k := ys] == p.cache[t][k := ys];
    }
  }

  /** What becomes of the pool when a small block goes to the cache. */
  lemma Cached(p: Pool, t: nat, a: Addr)
    requires Good(p) && HasThread(p, t) && OutSmall(p, a)
    ensures var k := ClassOf(p, a); var q, full := PushCache(p, t, k, a), |p.cache[t][k]| >= CacheMax(k);
      && Inv(q) && OnlyLastIdle(q) && HasThread(q, t)
      && var r := if full then ReturnBatch(q, t, k, |q.cache[t][k]| / 2) else q;
      && Good(r) && |r.cache| == |p.cache| && Handed(r) == Handed(p) - {a} && HasThread(r, t) && r.cache[t][k] != []
      && r.cache == SetCache(p, t, k, Halved([a] + p.cache[t][k], k))
  {
    var k := ClassOf(p, a);
    PushCacheKeepsInv(p, t, a);
    PushCacheHanded(p, t, a);
    TrimKeepsBound(p, PushCache(p, t, k, a), t, k);
    PushedCache(p, t, a);
  }

  /** MpAllocCachedNoLock::dealloc on thread t: a full cache list gives half of itself back. */
  ghost function CachedFree(p: Pool, t: nat, a: Addr): (q: Pool)
    requires Good(p) && HasThread(p, t) && a in Handed(p)
    ensures Good(q) && |q.cache| == |p.cache|
    ensures Handed(q) == Handed(p) - {a}
    ensures OutSmall(p, a) ==> HasThread(q, t) && q.cache[t][ClassOf(p, a)] != []
    ensures OutSmall(p, a) ==> q.cache == SetCache(p, t, ClassOf(p, a), Halved([a] + p.cache[t][ClassOf(p, a)], ClassOf(p, a)))
  {
    if OutSmall(p, a) then
      var k := ClassOf(p, a);
      Cached(p, t, a);
      var q := PushCache(p, t, k, a);
      if |p.cache[t][k]| >= CacheMax(k) then ReturnBatch(q, t, k, |q.cache[t][k]| / 2) else q
    else
      Release(p, a)
  }

  lemma TrimKeepsBound(p: Pool, q: Pool, t: nat, k: Class)
    requires HasThread(p, t) && CacheBounded(p) && HasThread(q, t)
    requires |q.cache[t][k]| == |p.cache[t][k]| + 1 && OnlyCache(p, q, t, k, q.cache[t][k])
    ensures |p.cache[t][k]| < CacheMax(k) ==> CacheBounded(q)
    ensures |p.cache[t][k]| >= CacheMax(k) ==> Drop(q.cache[t][k], |q.cache[t][k]| / 2) != []
    ensures forall r: Pool :: OnlyCache(q, r, t, k, Drop(q.cache[t][k], |q.cache[t][k]| / 2)) ==> CacheBounded(r) && HasThread(r, t)
  {
  }

  /** MpAllocCachedNoLock::cleanup from class k on: every cached block goes back. */
  ghost function CleanFrom(p: Pool, t: nat, k: nat): (q: Pool)
    requires Good(p) && HasThread(p, t) && k <= CLASSES
    ensures Good(q) && Handed(q) == Handed(p) && |q.cache| == |p.cache| && HasThread(q, t)
    ensures forall u :: 0 <= u < |p.cache| && u != t ==> q.cache[u] == p.cache[u]
    ensures forall c: Class :: q.cache[t][c] == if c < k then p.cache[t][c] else []
    decreases CLASSES - k
  {
    if k == CLASSES then p
    else
      hide SpansOk, BlocksOk, FreeListsOk, CachesOk, OrderOk, OnlyLastIdle, Handed;
      CleanFrom(ReturnBatch(p, t, k, |p.cache[t][k]|), t, k + 1)
  }

  // ---------- Garbage collection ----------

  /** The walk of MpAllocGlobal::gc along the spans todo of one class list. */
  ghost function Sweep(p: Pool, k: Class, todo: seq<Addr>): (q: Pool)
    requires Inv(p) && OnlyLastIdle(p) && NoDup(todo) && forall s :: s in todo ==> s in p.order[k]
    ensures Inv(q) && OnlyLastIdle(q) && Handed(q) == Handed(p) && q.cache == p.cache
    ensures q.spans == p.spans - IdleIn(p, todo)
    ensures forall c: Class :: c != k ==> q.order[c] == p.order[c]
    decreases |todo|
  {
    hide SpansOk, BlocksOk, FreeListsOk, CachesOk, OrderOk, OnlyLastIdle, Handed, IdleIn, Idle;
    if todo == [] then
      NoneIdle(p);
      p
    else
      SweepStep(p, k, todo);
      if Idle(p, todo[0]) then Sweep(Unmap(p, todo[0]), k, todo[1..]) else Sweep(p, k, todo[1..])
  }

  ghost function IdleIn(p: Pool, todo: seq<Addr>): set<Addr> {
    set s | s in todo && Idle(p, s)
  }

  lemma NoneIdle(p: Pool)
    ensures p.spans - IdleIn(p, []) == p.spans
  {
  }

  lemma SweepStep(p: Pool, k: Class, todo: seq<Addr>)
    requires Inv(p) && OnlyLastIdle(p) && NoDup(todo) && todo != [] && forall s :: s in todo ==> s in p.order[k]
    ensures NoDup(todo[1..])
    ensures !Idle(p, todo[0]) ==> IdleIn(p, todo) == IdleIn(p, todo[1..])
    ensures Idle(p, todo[0]) ==> p.spans[todo[0]].kind == Small(k) && todo[0] in p.order[k]
    ensures Idle(p, todo[0]) ==>
      var q := Unmap(p, todo[0]);
      && Inv(q) && OnlyLastIdle(q) && Handed(q) == Handed(p) && q.cache == p.cache
      && (forall s :: s in todo[1..] ==> s in q.order[k])
      && q.spans - IdleIn(q, todo[1..]) == p.spans - IdleIn(p, todo)
      && (forall c: Class :: c != k ==> q.order[c] == p.order[c])
  {
    assert |p.order| == CLASSES;
    hide SpansOk, BlocksOk, FreeListsOk, CachesOk, OrderOk, OnlyLastIdle, Handed;
    NoDupTail(todo);
    if Idle(p, todo[0]) {
      DropIdle(p, k, todo[0]);
      hide Idle;
      var q := Unmap(p, todo[0]);
      assert IdleIn(p, todo) == {todo[0]} + IdleIn(q, todo[1..]);
    }
  }

  lemma DropIdle(p: Pool, k: Class, s: Addr)
    requires Inv(p) && OnlyLastIdle(p) && s in p.order[k] && Idle(p, s)
    ensures p.spans[s].kind == Small(k)
    ensures var q := Unmap(p, s);
      && Inv(q) && OnlyLastIdle(q) && Handed(q) == Handed(p)
      && forall b :: b != s ==> (b in q.order[k] <==> b in p.order[k]) && (Idle(q, b) <==> Idle(p, b))
  {
    hide SpansOk, BlocksOk, FreeListsOk, CachesOk;
    OrderInSpans(p);
    UnmapKeepsInv(p, s);
    IdleIsAllFree(p, s);
    UnmapHanded(p, s);
    assert NoDup(p.order[k]);
    WithoutMembers(p.order[k], s);
    hide OrderOk, Handed;
    if s == Last(p.order[k]) {
      forall c: Class, b | b in Unmap(p, s).order[c] && Idle(Unmap(p, s), b) ensures b == Last(Unmap(p, s).order[c]) {
        assert b in p.order[c] && Idle(p, b);
      }
    } else {
      UnmapIdle(p, s);
    }
  }

  /** The small spans of class k or above with no block in use. */
  ghost function IdleFrom(p: Pool, k: nat): set<Addr> {
    set s | s in p.spans && Idle(p, s) && k <= p.spans[s].kind.k
  }

  lemma IdleAreListed(p: Pool, k: Class)
    requires Inv(p)
    ensures NoDup(p.order[k])
    ensures IdleFrom(p, k) == IdleIn(p, p.order[k]) + IdleFrom(p, k + 1)
  {
    LayoutFits(k);
    forall s ensures s in p.order[k] <==> Listed(p, k, s) {}
  }

  ghost function SweepFrom(p: Pool, k: nat): (q: Pool)
    requires Inv(p) && OnlyLastIdle(p) && k <= CLASSES
    ensures Inv(q) && OnlyLastIdle(q) && Handed(q) == Handed(p) && q.cache == p.cache
    ensures q.spans == p.spans - IdleFrom(p, k)
    decreases CLASSES - k
  {
    if k == CLASSES then
      assert IdleFrom(p, k) == {};
      p
    else
      IdleAreListed(p, k);
      hide SpansOk, BlocksOk, FreeListsOk, CachesOk, OrderOk, OnlyLastIdle, Handed;
      var q := Sweep(p, k, p.order[k]);
      assert IdleFrom(q, k + 1) == IdleFrom(p, k + 1);
      SweepFrom(q, k + 1)
  }

  /** MpAllocGlobal::gc called on thread t: the thread's cache is emptied first. */
  ghost function Gc(p: Pool, t: nat): (q: Pool)
    requires Good(p) && HasThread(p, t)
    ensures Good(q) && Handed(q) == Handed(p) && |q.cache| == |p.cache|
    ensures q.spans == CleanFrom(p, t, 0).spans - IdleFrom(CleanFrom(p, t, 0), 0)
  {
    SweepFrom(CleanFrom(p, t, 0), 0)
  }

  /** gc removes precisely the idle spans: none is left, and a span that is gone was idle. */
  lemma GcLeavesNoIdleSpan(p: Pool, t: nat)
    requires Good(p) && HasThread(p, t)
    ensures forall s :: !Idle(Gc(p, t), s)
    ensures forall s :: s in CleanFrom(p, t, 0).spans && s !in Gc(p, t).spans ==> Idle(CleanFrom(p, t, 0), s)
    ensures forall s :: s in CleanFrom(p, t, 0).spans && !Idle(CleanFrom(p, t, 0), s)
              ==> s in Gc(p, t).spans && Gc(p, t).spans[s] == CleanFrom(p, t, 0).spans[s]
  {
    SweptSpans(CleanFrom(p, t, 0), Gc(p, t));
  }

  lemma SweptSpans(c: Pool, q: Pool)
    requires q.spans == c.spans - IdleFrom(c, 0)
    ensures forall s :: !Idle(q, s)
    ensures forall s :: s in c.spans && s !in q.spans ==> Idle(c, s)
    ensures forall s :: s in c.spans && !Idle(c, s) ==> s in q.spans && q.spans[s] == c.spans[s]
  {
    forall s ensures !Idle(q, s) {
      if s in q.spans { assert s !in IdleFrom(c, 0) && q.spans[s] == c.spans[s]; }
    }
  }

  // ---------- realloc ----------

  /** The size realloc_real takes the block to have (n0). */
  function Capacity(s: Span): int {
    match s.kind
    case Small(k) => Unit(k)
    case Large => if s.fly then s.size - DESC_SIZE else s.size
  }

  /** MpAllocGlobal::realloc of a handed-out block: in place if it fits, else allocate and release. */
  ghost function Realloc(p: Pool, a: Addr, n: nat, pg: Addr): (r: (Pool, Addr))
    requires Good(p) && a in Handed(p) && n > 0 && Fresh(p, pg, NeedPages(n))
    ensures Good(r.0) && r.0.cache == p.cache
    ensures r.1 == a || (r.1 !in Handed(p) && LeastWaste(r.0, r.1, n))
    ensures p.owner[a].span in p.spans && (r.1 == a <==> n <= Capacity(p.spans[p.owner[a].span]))
    ensures Handed(r.0) == (Handed(p) - {a})[r.1 := n]
  {
    HomeOf(p, a);
    hide SpansOk, BlocksOk, FreeListsOk, CachesOk, OrderOk, OnlyLastIdle, CacheBounded, LeastWaste, Release;
    if n <= Capacity(p.spans[p.owner[a].span]) then
      ResizeInPlace(p, a, n);
      (p.(owner := SetPlace(p, a, Out(n))), a)
    else
      var r := Alloc(p, n, pg);
      SwapKeys(Handed(p), a, r.1, n);
      ReleaseKeepsWaste(r.0, a, r.1, n);
      (ReleaseGood(r.0, a), r.1)
  }

  /** Releasing a block leaves the others where they are. */
  lemma ReleaseKeepsWaste(p: Pool, a: Addr, b: Addr, n: nat)
    requires Inv(p) && OnlyLastIdle(p) && a in Handed(p) && b in Handed(p) && b != a && LeastWaste(p, b, n)
    ensures LeastWaste(Release(p, a), b, n)
  {
    hide SpansOk, BlocksOk, FreeListsOk, CachesOk, OrderOk, OnlyLastIdle, Release;
    var q := Release(p, a);
    assert b in Handed(q);
    HomeOf(q, b);
    ReleaseKinds(p, a, b);
  }

  lemma ReleaseKinds(p: Pool, a: Addr, b: Addr)
    requires Inv(p) && OnlyLastIdle(p) && a in Handed(p) && b in p.owner && b != a && b in Release(p, a).owner
    ensures var q := Release(p, a); q.owner[b].span == p.owner[b].span
    ensures var q := Release(p, a);
      forall s :: s in q.spans ==> s in p.spans && q.spans[s].kind == p.spans[s].kind && q.spans[s].size == p.spans[s].size
  {
    hide SpansOk, BlocksOk, FreeListsOk, CachesOk, OnlyLastIdle;
  }

  ghost function ReleaseGood(p: Pool, a: Addr): (q: Pool)
    requires Good(p) && a in Handed(p)
    ensures Good(q) && q == Release(p, a) && Handed(q) == Handed(p) - {a} && q.cache == p.cache
  {
    Release(p, a)
  }

  lemma SwapKeys(h: map<Addr, nat>, a: Addr, b: Addr, n: nat)
    requires a in h && b !in h
    ensures h[b := n] - {a} == (h - {a})[b := n]
  {
  }

  lemma ResizeInPlace(p: Pool, a: Addr, n: nat)
    requires Good(p) && a in Handed(p) && p.owner[a].span in p.spans && n <= UnitOf(p.spans[p.owner[a].span])
    ensures var q := p.(owner := SetPlace(p, a, Out(n)));
      Good(q) && Handed(q) == (Handed(p) - {a})[a := n]
  {
    hide SpansOk, FreeListsOk, CachesOk, OnlyLastIdle, OrderOk, BlocksOk;
    var q := p.(owner := SetPlace(p, a, Out(n)));
    MoveBlocks(p, q, a, Out(n));
    SameOrder(p, q);
    StillOut(p, q, a, n);
    OneFreeListChanged(p, q, a, Out(n));
    IdleSameLists(p, q);
    SameSpans(p, q);
  }

  lemma SameSpans(p: Pool, q: Pool)
    requires SpansOk(p) && q.spans == p.spans
    ensures SpansOk(q)
  {
  }

  lemma StillOut(p: Pool, q: Pool, a: Addr, n: nat)
    requires a in Handed(p) && p.owner[a].span in p.spans && FreeListsOk(p)
    requires q == p.(owner := SetPlace(p, a, Out(n)))
    ensures FreeListOk(q, p.owner[a].span)
  {
    var s := p.owner[a].span;
    assert FreeListOk(p, s);
    forall b ensures IsFree(q, s, b) <==> IsFree(p, s, b) {}
  }
}
