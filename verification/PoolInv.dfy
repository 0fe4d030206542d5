/** Every step of PoolSpec keeps the ownership invariant. */
module PoolInv {
  import opened SizeClasses
  import opened Seqs
  import opened PoolSpec

  lemma AtMono(s: Span, i: nat, j: nat)
    requires i <= j
    ensures At(s, i) <= At(s, j)
  {
    MulMono(i, j, UnitOf(s));
  }

  lemma AtStep(s: Span, i: nat)
    ensures At(s, i) + UnitOf(s) == At(s, i + 1)
  {
    assert (i + 1) * UnitOf(s) == i * UnitOf(s) + UnitOf(s);
  }

  /** A block lies inside its span, clear of an in-span descriptor. */
  lemma BlockInside(s: Span, i: nat)
    requires SpanOk(s) && i < Count(s)
    ensures s.base <= At(s, i)
    ensures At(s, i) + UnitOf(s) <= s.base + s.size
    ensures s.kind.Small? && !s.fly ==> At(s, i) + UnitOf(s) + DESC_SIZE <= s.base + s.size
  {
    AtMono(s, 0, i);
    AtStep(s, i);
    AtMono(s, i + 1, Count(s));
    if s.kind.Small? { LayoutFits(s.kind.k); }
  }

  lemma RoundPageBounds(n: nat)
    ensures n <= RoundPage(n) < n + PAGE_SIZE && RoundPage(n) % PAGE_SIZE == 0
  {
  }

  lemma AtInjective(s: Span, i: nat, j: nat)
    requires SpanOk(s) && At(s, i) == At(s, j)
    ensures i == j
  {
    if i < j { AtStep(s, i); AtMono(s, i + 1, j); }
    if j < i { AtStep(s, j); AtMono(s, j + 1, i); }
  }

  // ---------- create_span_nolock ----------

  lemma NewSpanOk(pg: Addr, k: Class)
    requires 0 < pg && pg % PAGE_SIZE == 0
    ensures SpanOk(NewSpan(pg, k))
    ensures |NewSpan(pg, k).free| == BlockCount(k) >= 1
    ensures forall i: nat :: i < BlockCount(k) ==> NewSpan(pg, k).free[i] == At(NewSpan(pg, k), i)
    ensures NoDup(NewSpan(pg, k).free)
  {
    LayoutFits(k);
    var s := NewSpan(pg, k);
    forall i, j | 0 <= i < j < |s.free| ensures s.free[i] != s.free[j] {
      if s.free[i] == s.free[j] { AtInjective(s, i, j); }
    }
  }

  lemma NewBlocksAre(pg: Addr, k: Class)
    requires 0 < pg && pg % PAGE_SIZE == 0
    ensures forall a :: a in NewBlocks(pg, k) <==> a in NewSpan(pg, k).free
    ensures forall i: nat :: i < BlockCount(k) ==>
              At(NewSpan(pg, k), i) in NewBlocks(pg, k) && NewBlocks(pg, k)[At(NewSpan(pg, k), i)] == Block(pg, i, InSpan)
  {
    NewSpanOk(pg, k);
    forall i: nat | i < BlockCount(k)
      ensures At(NewSpan(pg, k), i) in NewBlocks(pg, k) && NewBlocks(pg, k)[At(NewSpan(pg, k), i)] == Block(pg, i, InSpan)
    {
      NewBlockIs(pg, k, i);
    }
    forall a | a in NewSpan(pg, k).free ensures a in NewBlocks(pg, k) { assert a == At(NewSpan(pg, k), Index(NewSpan(pg, k).free, a)); }
  }

  lemma NewBlockIs(pg: Addr, k: Class, i: nat)
    requires i < BlockCount(k)
    ensures At(NewSpan(pg, k), i) in NewBlocks(pg, k) && NewBlocks(pg, k)[At(NewSpan(pg, k), i)] == Block(pg, i, InSpan)
  {
    hide Unit, BlockCount;
    var u := Unit(k);
    assert At(NewSpan(pg, k), i) == pg + i * u;
    assert u > 0 by { LayoutFits(k); }
    MulDiv(i, u);
    assert NewSpan(pg, k).free[i] == pg + i * u;
  }

  lemma MulDiv(i: nat, u: nat)
    requires u > 0
    ensures i * u / u == i
  {
    var q := i * u / u;
    DivBounds(i * u, u);
    assert q * u + u == (q + 1) * u;
    if q < i { MulMono(q + 1, i, u); }
    if q > i { MulMono(i, q - 1, u); }
  }

  lemma NewBlocksFresh(p: Pool, k: Class, pg: Addr)
    requires Inv(p) && Fresh(p, pg, SPAN_SIZE)
    ensures pg !in p.spans
    ensures forall a :: a in NewBlocks(pg, k) ==> a !in p.owner
  {
    RoundPageBounds(SPAN_SIZE);
    if pg in p.spans { RoundPageBounds(p.spans[pg].size); }
    NewSpanOk(pg, k);
    NewBlocksAre(pg, k);
    var s := NewSpan(pg, k);
    forall a | a in NewBlocks(pg, k) ensures a !in p.owner {
      var i := Index(s.free, a);
      BlockInside(s, i);
      if a in p.owner {
        assert BlockOk(p, a);
        var o := p.spans[p.owner[a].span];
        BlockInside(o, p.owner[a].idx);
        RoundPageBounds(o.size);
      }
    }
  }

  lemma CreateKeepsSpans(p: Pool, k: Class, pg: Addr)
    requires SpansOk(p) && |p.order| == CLASSES && Fresh(p, pg, SPAN_SIZE) && pg !in p.spans
    ensures SpansOk(CreateSpan(p, k, pg))
  {
    NewSpanOk(pg, k);
    hide SpanOk, NewBlocks;
  }

  lemma CreateKeepsOrder(p: Pool, k: Class, pg: Addr)
    requires OrderOk(p) && p.order[k] == [] && Fresh(p, pg, SPAN_SIZE) && pg !in p.spans
    ensures OrderOk(CreateSpan(p, k, pg))
  {
    var q := CreateSpan(p, k, pg);
    NewSpanOk(pg, k);
    hide NewBlocks, SpanOk;
    forall b ensures b in q.order[k] <==> Listed(q, k, b) {
      assert b in p.order[k] <==> Listed(p, k, b);
    }
    OneListChanged(p, q, k);
  }

  lemma CreateKeepsBlocks(p: Pool, k: Class, pg: Addr)
    requires BlocksOk(p) && |p.order| == CLASSES && Fresh(p, pg, SPAN_SIZE) && pg !in p.spans
    requires forall a :: a in NewBlocks(pg, k) ==> a !in p.owner
    ensures BlocksOk(CreateSpan(p, k, pg))
  {
    var q := CreateSpan(p, k, pg);
    var s := NewSpan(pg, k);
    NewSpanOk(pg, k);
    NewBlocksAre(pg, k);
    hide NewBlocks, SpanOk, At, Fresh;
    forall a | a in q.owner ensures BlockOk(q, a) { CreateKeepsBlock(p, k, pg, a); }
    hide NewSpan, BlockOk;
    assert Count(s) == BlockCount(k) && q.spans[pg] == s by { NewSpanCount(pg, k); }
    forall b, i: nat | b in q.spans && i < Count(q.spans[b])
      ensures At(q.spans[b], i) in q.owner && q.owner[At(q.spans[b], i)].span == b && q.owner[At(q.spans[b], i)].idx == i
    {
      if b != pg { assert At(p.spans[b], i) in p.owner; }
    }
  }

  lemma NewSpanCount(pg: Addr, k: Class)
    ensures Count(NewSpan(pg, k)) == BlockCount(k)
  {
  }

  lemma CreateKeepsBlock(p: Pool, k: Class, pg: Addr, a: Addr)
    requires BlocksOk(p) && |p.order| == CLASSES && Fresh(p, pg, SPAN_SIZE) && pg !in p.spans
    requires a in CreateSpan(p, k, pg).owner
    ensures BlockOk(CreateSpan(p, k, pg), a)
  {
    var s := NewSpan(pg, k);
    NewSpanOk(pg, k);
    NewBlocksAre(pg, k);
    hide NewBlocks, SpanOk, At, Fresh;
    if a in NewBlocks(pg, k) {
      assert a == At(s, Index(s.free, a));
    } else {
      assert BlockOk(p, a);
    }
  }

  lemma CreateKeepsFree(p: Pool, k: Class, pg: Addr)
    requires BlocksOk(p) && FreeListsOk(p) && |p.order| == CLASSES && Fresh(p, pg, SPAN_SIZE) && pg !in p.spans
    requires forall a :: a in NewBlocks(pg, k) ==> a !in p.owner
    ensures FreeListsOk(CreateSpan(p, k, pg))
  {
    var q := CreateSpan(p, k, pg);
    NewSpanOk(pg, k);
    NewBlocksAre(pg, k);
    forall a | a in NewBlocks(pg, k) ensures NewBlocks(pg, k)[a].span == pg && NewBlocks(pg, k)[a].place == InSpan {}
    forall a | a in p.owner ensures p.owner[a].span in p.spans { assert BlockOk(p, a); }
    hide BlocksOk, NewBlocks, NewSpan, SpanOk, At;
    forall c | c in q.spans ensures FreeListOk(q, c) {
      if c != pg {
        assert FreeListOk(p, c);
        forall a ensures IsFree(q, c, a) <==> IsFree(p, c, a) {}
      }
    }
  }

  lemma CreateKeepsCaches(p: Pool, k: Class, pg: Addr)
    requires BlocksOk(p) && CachesOk(p) && |p.order| == CLASSES && pg !in p.spans
    requires forall a :: a in NewBlocks(pg, k) ==> a !in p.owner
    ensures CachesOk(CreateSpan(p, k, pg))
  {
    var q := CreateSpan(p, k, pg);
    forall a | a in NewBlocks(pg, k) ensures NewBlocks(pg, k)[a].place == InSpan {}
    forall a | a in p.owner ensures p.owner[a].span in p.spans { assert BlockOk(p, a); }
    hide BlocksOk, CachesOk, NewBlocks, NewSpan;
    SameCaches(p, q);
  }

  /** A step that leaves the cache lists and the set of cached blocks alone keeps the caches. */
  lemma SameCaches(p: Pool, q: Pool)
    requires CachesOk(p) && q.cache == p.cache
    requires forall t: nat, k: Class, a :: IsCached(q, t, k, a) <==> IsCached(p, t, k, a)
    ensures CachesOk(q)
  {
    forall t: nat, k: Class | t < |q.cache| ensures CacheListOk(q, t, k) {
      assert CacheListOk(p, t, k);
    }
  }

  lemma CreateKeepsInv(p: Pool, k: Class, pg: Addr)
    requires Inv(p) && p.order[k] == [] && Fresh(p, pg, SPAN_SIZE)
    ensures Inv(CreateSpan(p, k, pg)) && HasHead(CreateSpan(p, k, pg), k)
  {
    hide SpansOk, BlocksOk, FreeListsOk, CachesOk;
    NewBlocksFresh(p, k, pg);
    CreateKeepsSpans(p, k, pg);
    CreateKeepsOrder(p, k, pg);
    CreateKeepsBlocks(p, k, pg);
    CreateKeepsFree(p, k, pg);
    CreateKeepsCaches(p, k, pg);
    OrderGivesHead(CreateSpan(p, k, pg), k);
  }

  lemma OrderGivesHead(p: Pool, k: Class)
    requires Inv(p) && p.order[k] != []
    ensures HasHead(p, k)
    ensures IsFree(p, p.order[k][0], HeadBlock(p, k)) && p.spans[p.order[k][0]].kind == Small(k)
  {
    var s := p.order[k][0];
    assert s in p.order[k];
    assert Listed(p, k, s) && FreeListOk(p, s);
    assert p.spans[s].free[0] in p.spans[s].free;
  }

  // ---------- Moving one block ----------

  /** q differs from p in where block a is, and possibly in the free lists of small spans and in cached lists. */
  ghost predicate Moved(p: Pool, q: Pool, a: Addr, w: Place) {
    && a in p.owner && q.owner == SetPlace(p, a, w) && |q.cache| == |p.cache|
    && q.spans.Keys == p.spans.Keys
    && (forall s :: s in p.spans ==> q.spans[s] == p.spans[s].(free := q.spans[s].free))
    && (forall s :: s in p.spans && p.spans[s].kind.Large? ==> q.spans[s] == p.spans[s])
    && p.owner[a].span in p.spans
    && match w
       case InSpan => p.spans[p.owner[a].span].kind.Small?
       case InCache(t) => p.spans[p.owner[a].span].kind.Small? && t < |p.cache|
       case Out(n) => n <= UnitOf(p.spans[p.owner[a].span])
  }

  /** Moving one block keeps every block in its span. */
  lemma MoveBlocks(p: Pool, q: Pool, a: Addr, w: Place)
    requires BlocksOk(p) && Moved(p, q, a, w)
    ensures BlocksOk(q)
  {
    forall s | s in p.spans ensures Count(q.spans[s]) == Count(p.spans[s]) && UnitOf(q.spans[s]) == UnitOf(p.spans[s]) {}
    forall s, i: nat | s in p.spans ensures At(q.spans[s], i) == At(p.spans[s], i) {}
    forall b | b in q.owner ensures BlockOk(q, b) { assert BlockOk(p, b); }
  }

  lemma SpansKept(p: Pool, q: Pool, a: Addr, w: Place)
    requires SpansOk(p) && Moved(p, q, a, w)
    ensures SpansOk(q)
  {
    SameShapes(p, q);
  }

  /** Changing free lists only keeps the spans apart. */
  lemma SameShapes(p: Pool, q: Pool)
    requires SpansOk(p) && q.spans.Keys == p.spans.Keys
    requires forall s :: s in p.spans ==> q.spans[s] == p.spans[s].(free := q.spans[s].free)
    requires forall s :: s in p.spans && p.spans[s].kind.Large? ==> q.spans[s] == p.spans[s]
    ensures SpansOk(q)
  {
    forall s | s in q.spans ensures q.spans[s].base == s && SpanOk(q.spans[s]) { assert SpanOk(p.spans[s]); }
    forall a, b | a in q.spans && b in q.spans && a != b ensures Disjoint(q.spans[a], q.spans[b]) {
      assert Disjoint(p.spans[a], p.spans[b]);
    }
  }

  lemma HomeOf(p: Pool, a: Addr)
    requires BlocksOk(p) && a in p.owner
    ensures p.owner[a].span in p.spans && p.owner[a].idx < Count(p.spans[p.owner[a].span])
    ensures a == At(p.spans[p.owner[a].span], p.owner[a].idx)
    ensures p.owner[a].place.Out? ==> p.owner[a].place.n <= UnitOf(p.spans[p.owner[a].span])
    ensures !p.owner[a].place.Out? ==> p.spans[p.owner[a].span].kind.Small?
  {
    assert BlockOk(p, a);
  }

  lemma OneListChanged(p: Pool, q: Pool, k: Class)
    requires OrderOk(p) && |q.order| == CLASSES && NoDup(q.order[k])
    requires forall c: Class :: c != k ==> q.order[c] == p.order[c]
    requires forall c: Class, b :: c != k ==> (Listed(q, c, b) <==> Listed(p, c, b))
    requires forall b :: b in q.order[k] <==> Listed(q, k, b)
    ensures OrderOk(q)
  {
    forall c: Class ensures NoDup(q.order[c]) && forall b :: b in q.order[c] <==> Listed(q, c, b) {
      if c != k {
        forall b ensures b in q.order[c] <==> Listed(q, c, b) {
          assert b in p.order[c] <==> Listed(p, c, b);
        }
      }
    }
  }

  lemma TakeOneOrder(p: Pool, k: Class, n: nat)
    requires OrderOk(p) && HasHead(p, k)
    ensures OrderOk(TakeOne(p, k, n))
  {
    var q := TakeOne(p, k, n);
    NoDupTail(p.order[k]);
    assert Listed(p, k, p.order[k][0]) by { assert p.order[k][0] in p.order[k]; }
    forall b ensures b in q.order[k] <==> Listed(q, k, b) {
      assert b in p.order[k] <==> Listed(p, k, b);
    }
    OneListChanged(p, q, k);
  }

  lemma PushFreeOrder(p: Pool, a: Addr)
    requires OrderOk(p) && OutSmall(p, a)
    ensures OrderOk(PushFree(p, a))
  {
    var q := PushFree(p, a);
    var s, k := p.owner[a].span, ClassOf(p, a);
    assert s in p.order[k] <==> Listed(p, k, s);
    if p.spans[s].free == [] { NoDupPrepend(s, p.order[k]); }
    forall b ensures b in q.order[k] <==> Listed(q, k, b) {
      assert b in p.order[k] <==> Listed(p, k, b);
    }
    OneListChanged(p, q, k);
  }

  /** Moving block a between its span's free list and its caller touches no other list. */
  lemma OneFreeListChanged(p: Pool, q: Pool, a: Addr, w: Place)
    requires FreeListsOk(p) && CachesOk(p) && Moved(p, q, a, w)
    requires q.cache == p.cache && !w.InCache? && !p.owner[a].place.InCache?
    requires forall c :: c in p.spans && c != p.owner[a].span ==> q.spans[c] == p.spans[c]
    requires p.owner[a].span in q.spans && FreeListOk(q, p.owner[a].span)
    ensures FreeListsOk(q) && CachesOk(q)
  {
    forall c | c in q.spans ensures FreeListOk(q, c) {
      assert FreeListOk(p, c);
      forall b ensures c != p.owner[a].span ==> (IsFree(q, c, b) <==> IsFree(p, c, b)) {}
    }
    SameCaches(p, q);
  }

  lemma TakeOneKeepsInv(p: Pool, k: Class, n: nat)
    requires Inv(p) && p.order[k] != [] && n <= Unit(k)
    ensures HasHead(p, k) && Inv(TakeOne(p, k, n))
    ensures OutSmall(TakeOne(p, k, n), HeadBlock(p, k))
  {
    OrderGivesHead(p, k);
    hide SpansOk, OrderOk, BlocksOk, FreeListsOk, CachesOk, FreeListOk, Moved, Unit, BlockCount;
    TakeOneOrder(p, k, n);
    var q := TakeOne(p, k, n);
    var a := HeadBlock(p, k);
    TakeOneMoves(p, k, n);
    MoveBlocks(p, q, a, Out(n));
    SpansKept(p, q, a, Out(n));
    TakeOneFree(p, k, n);
    OneFreeListChanged(p, q, a, Out(n));
  }

  lemma TakeOneMoves(p: Pool, k: Class, n: nat)
    requires HasHead(p, k) && n <= Unit(k)
    requires IsFree(p, p.order[k][0], HeadBlock(p, k)) && p.spans[p.order[k][0]].kind == Small(k)
    ensures Moved(p, TakeOne(p, k, n), HeadBlock(p, k), Out(n))
  {
    hide Unit, BlockCount;
  }

  lemma TakeOneFree(p: Pool, k: Class, n: nat)
    requires FreeListsOk(p) && HasHead(p, k)
    ensures FreeListOk(TakeOne(p, k, n), p.order[k][0])
  {
    var q := TakeOne(p, k, n);
    var s := p.order[k][0];
    assert FreeListOk(p, s);
    NoDupTail(p.spans[s].free);
    forall b ensures b in q.spans[s].free <==> IsFree(q, s, b) { assert b in p.spans[s].free <==> IsFree(p, s, b); }
  }

  lemma CachedBlock(p: Pool, t: nat, k: Class)
    requires CachesOk(p) && t < |p.cache| && p.cache[t][k] != []
    ensures CacheHas(p, t, k) && IsCached(p, t, k, p.cache[t][k][0])
  {
    assert CacheListOk(p, t, k) && p.cache[t][k][0] in p.cache[t][k];
  }

  lemma PopKeepsInv(p: Pool, t: nat, k: Class, n: nat)
    requires Inv(p) && t < |p.cache| && p.cache[t][k] != [] && n <= Unit(k)
    ensures CacheHas(p, t, k) && Inv(PopCache(p, t, k, n))
    ensures OutSmall(PopCache(p, t, k, n), p.cache[t][k][0]) && ClassOf(PopCache(p, t, k, n), p.cache[t][k][0]) == k
  {
    CachedBlock(p, t, k);
    hide SpansOk, OrderOk, BlocksOk, FreeListsOk, CachesOk;
    var a := p.cache[t][k][0];
    var q := PopCache(p, t, k, n);
    assert Moved(p, q, a, Out(n));
    hide Moved;
    MoveBlocks(p, q, a, Out(n));
    SpansKept(p, q, a, Out(n));
    SameOrder(p, q);
    FreeListsUntouched(p, q, a);
    MovedFromCache(p, q, t, k, a);
  }

  /** A block that is on no free list before or after leaves them all alone. */
  lemma FreeListsUntouched(p: Pool, q: Pool, a: Addr)
    requires FreeListsOk(p) && q.spans == p.spans && q.owner.Keys == p.owner.Keys && a in p.owner
    requires forall b :: b in p.owner && b != a ==> q.owner[b] == p.owner[b]
    requires !p.owner[a].place.InSpan? && !q.owner[a].place.InSpan?
    ensures FreeListsOk(q)
  {
    forall c | c in q.spans ensures FreeListOk(q, c) {
      assert FreeListOk(p, c);
      forall b ensures IsFree(q, c, b) <==> IsFree(p, c, b) {}
    }
  }

  lemma MovedFromCache(p: Pool, q: Pool, t: nat, k: Class, a: Addr)
    requires CachesOk(p) && CacheHas(p, t, k) && a == p.cache[t][k][0] && IsCached(p, t, k, a)
    requires q.spans == p.spans && q.owner.Keys == p.owner.Keys
    requires q.cache == SetCache(p, t, k, p.cache[t][k][1..])
    requires forall b :: b in p.owner && b != a ==> q.owner[b] == p.owner[b]
    requires q.owner[a].place.Out? && q.owner[a].span == p.owner[a].span
    ensures CachesOk(q)
  {
    assert CacheListOk(p, t, k);
    NoDupTail(p.cache[t][k]);
    forall u: nat, c: Class | u < |q.cache| ensures CacheListOk(q, u, c) {
      assert CacheListOk(p, u, c);
      forall b ensures b != a ==> (IsCached(q, u, c, b) <==> IsCached(p, u, c, b)) {}
    }
  }

  lemma SameOrder(p: Pool, q: Pool)
    requires OrderOk(p) && q.order == p.order && q.spans == p.spans
    ensures OrderOk(q)
  {
    forall c: Class ensures NoDup(q.order[c]) && forall b :: b in q.order[c] <==> Listed(q, c, b) {
      forall b ensures b in q.order[c] <==> Listed(q, c, b) {
        assert b in p.order[c] <==> Listed(p, c, b);
      }
    }
  }

  lemma PushCacheKeepsInv(p: Pool, t: nat, a: Addr)
    requires Inv(p) && t < |p.cache| && OutSmall(p, a)
    ensures Inv(PushCache(p, t, ClassOf(p, a), a))
  {
    assert |p.cache[t]| == CLASSES;
    hide SpansOk, OrderOk, BlocksOk, FreeListsOk, CachesOk;
    var q := PushCache(p, t, ClassOf(p, a), a);
    assert Moved(p, q, a, InCache(t));
    hide Moved;
    MoveBlocks(p, q, a, InCache(t));
    SpansKept(p, q, a, InCache(t));
    SameOrder(p, q);
    FreeListsUntouched(p, q, a);
    PushCacheLists(p, t, a);
  }

  lemma PushCacheLists(p: Pool, t: nat, a: Addr)
    requires CachesOk(p) && t < |p.cache| && OutSmall(p, a)
    ensures CachesOk(PushCache(p, t, ClassOf(p, a), a))
  {
    var k := ClassOf(p, a);
    var q := PushCache(p, t, k, a);
    forall u: nat, c: Class | u < |q.cache| ensures CacheListOk(q, u, c) {
      assert CacheListOk(p, u, c);
      forall b ensures b != a ==> (IsCached(q, u, c, b) <==> IsCached(p, u, c, b)) {}
      assert !IsCached(p, u, c, a);
    }
  }

  lemma PushFreeKeepsInv(p: Pool, a: Addr)
    requires Inv(p) && OutSmall(p, a)
    ensures Inv(PushFree(p, a))
  {
    PushFreeOrder(p, a);
    assert |p.order| == CLASSES;
    hide SpansOk, BlocksOk, FreeListsOk, CachesOk, FreeListOk, OrderOk;
    var q := PushFree(p, a);
    assert Moved(p, q, a, InSpan);
    hide Moved;
    MoveBlocks(p, q, a, InSpan);
    SpansKept(p, q, a, InSpan);
    PushFreeFree(p, a);
    OneFreeListChanged(p, q, a, InSpan);
  }

  lemma PushFreeFree(p: Pool, a: Addr)
    requires FreeListsOk(p) && OutSmall(p, a) && |p.order| == CLASSES
    ensures FreeListOk(PushFree(p, a), p.owner[a].span)
  {
    var q := PushFree(p, a);
    var s := p.owner[a].span;
    assert FreeListOk(p, s) && !IsFree(p, s, a);
    forall b ensures b in q.spans[s].free <==> IsFree(q, s, b) { assert b in p.spans[s].free <==> IsFree(p, s, b); }
  }

  // ---------- Whole lists ----------

  lemma TakeAllKeepsInv(p: Pool, t: nat, k: Class)
    requires Inv(p) && p.order[k] != [] && t < |p.cache| && p.cache[t][k] == []
    ensures HasHead(p, k) && Inv(TakeAll(p, t, k))
    ensures TakeAll(p, t, k).cache[t][k] != []
  {
    OrderGivesHead(p, k);
    assert |p.cache[t]| == CLASSES;
    hide SpansOk, OrderOk, BlocksOk, FreeListsOk, CachesOk, IsFree;
    SameShapes(p, TakeAll(p, t, k));
    TakeAllOrder(p, t, k);
    TakeAllBlocks(p, t, k);
    TakeAllFree(p, t, k);
    TakeAllCaches(p, t, k);
  }

  lemma TakeAllOrder(p: Pool, t: nat, k: Class)
    requires OrderOk(p) && HasHead(p, k) && t < |p.cache| && |p.cache[t]| == CLASSES
    ensures OrderOk(TakeAll(p, t, k))
  {
    hide IsFree;
    var q := TakeAll(p, t, k);
    NoDupTail(p.order[k]);
    assert Listed(p, k, p.order[k][0]) by { assert p.order[k][0] in p.order[k]; }
    forall b ensures b in q.order[k] <==> Listed(q, k, b) {
      assert b in p.order[k] <==> Listed(p, k, b);
    }
    OneListChanged(p, q, k);
  }

  lemma TakeAllBlocks(p: Pool, t: nat, k: Class)
    requires BlocksOk(p) && HasHead(p, k) && p.spans[p.order[k][0]].kind == Small(k) && t < |p.cache| && |p.cache[t]| == CLASSES
    ensures BlocksOk(TakeAll(p, t, k))
  {
    var q := TakeAll(p, t, k);
    forall s, i: nat | s in p.spans
      ensures At(q.spans[s], i) == At(p.spans[s], i) && Count(q.spans[s]) == Count(p.spans[s]) {}
    hide At;
    forall b | b in q.owner ensures BlockOk(q, b) { assert BlockOk(p, b); }
  }

  lemma TakeAllFree(p: Pool, t: nat, k: Class)
    requires FreeListsOk(p) && HasHead(p, k) && t < |p.cache| && |p.cache[t]| == CLASSES
    ensures FreeListsOk(TakeAll(p, t, k))
  {
    var q := TakeAll(p, t, k);
    var s := p.order[k][0];
    forall c | c in q.spans ensures FreeListOk(q, c) {
      assert FreeListOk(p, c);
      forall b ensures IsFree(q, c, b) <==> c != s && IsFree(p, c, b) {}
    }
  }

  lemma TakeAllCaches(p: Pool, t: nat, k: Class)
    requires FreeListsOk(p) && CachesOk(p) && HasHead(p, k) && p.spans[p.order[k][0]].kind == Small(k)
    requires t < |p.cache| && p.cache[t][k] == []
    ensures CachesOk(TakeAll(p, t, k))
  {
    var q := TakeAll(p, t, k);
    var s := p.order[k][0];
    assert FreeListOk(p, s) && CacheListOk(p, t, k);
    forall u: nat, c: Class | u < |q.cache| ensures CacheListOk(q, u, c) {
      assert CacheListOk(p, u, c);
      forall b ensures IsCached(q, u, c, b) <==> IsCached(p, u, c, b) || (u == t && c == k && IsFree(p, s, b)) {}
    }
  }

  // ---------- Unmapping ----------

  /** A span with as many free blocks as blocks has all of them free. */
  lemma IdleIsAllFree(p: Pool, s: Addr)
    requires Inv(p) && s in p.spans
    ensures |p.spans[s].free| <= Count(p.spans[s])
    ensures Idle(p, s) ==> forall a :: a in p.owner && p.owner[a].span == s ==> p.owner[a].place.InSpan?
  {
    var sp := p.spans[s];
    assert FreeListOk(p, s);
    forall i | 0 <= i < |sp.free| ensures IsFree(p, s, sp.free[i]) { assert sp.free[i] in sp.free; }
    var ids: seq<nat> := seq(|sp.free|, i requires 0 <= i < |sp.free| && sp.free[i] in p.owner => p.owner[sp.free[i]].idx);
    forall i | 0 <= i < |ids| ensures ids[i] < Count(sp) && sp.free[i] == At(sp, ids[i]) { HomeOf(p, sp.free[i]); }
    Pigeonhole(ids, Count(sp));
    if Idle(p, s) {
      forall a | a in p.owner && p.owner[a].span == s ensures p.owner[a].place.InSpan? {
        HomeOf(p, a);
        var j := Index(ids, p.owner[a].idx);
        assert a == sp.free[j];
      }
    }
  }

  lemma UnmapKeepsInv(p: Pool, s: Addr)
    requires Inv(p) && Idle(p, s)
    ensures s in p.order[p.spans[s].kind.k] && Inv(Unmap(p, s))
  {
    IdleIsAllFree(p, s);
    hide SpansOk, BlocksOk, FreeListsOk, CachesOk, OrderOk;
    UnmapOrder(p, s);
    UnmapSpans(p, s);
    UnmapBlocks(p, s);
    UnmapLists(p, s);
  }

  lemma UnmapOrder(p: Pool, s: Addr)
    requires OrderOk(p) && Idle(p, s)
    ensures s in p.order[p.spans[s].kind.k] && OrderOk(Unmap(p, s))
  {
    var k := p.spans[s].kind.k;
    LayoutFits(k);
    assert Listed(p, k, s);
    var q := Unmap(p, s);
    WithoutMembers(p.order[k], s);
    forall b ensures b in q.order[k] <==> Listed(q, k, b) {
      assert b in p.order[k] <==> Listed(p, k, b);
    }
    OneListChanged(p, q, k);
  }

  lemma UnmapSpans(p: Pool, s: Addr)
    requires SpansOk(p) && |p.order| == CLASSES
    requires s in p.spans && p.spans[s].kind.Small? && s in p.order[p.spans[s].kind.k]
    ensures SpansOk(Unmap(p, s))
  {
    hide SpanOk, Disjoint;
  }

  lemma UnmapBlocks(p: Pool, s: Addr)
    requires BlocksOk(p) && |p.order| == CLASSES
    requires s in p.spans && p.spans[s].kind.Small? && s in p.order[p.spans[s].kind.k]
    ensures BlocksOk(Unmap(p, s))
  {
    var q := Unmap(p, s);
    hide At, Without;
    forall b | b in q.owner ensures BlockOk(q, b) { assert BlockOk(p, b); }
  }

  lemma UnmapLists(p: Pool, s: Addr)
    requires FreeListsOk(p) && CachesOk(p) && |p.order| == CLASSES
    requires s in p.spans && p.spans[s].kind.Small? && s in p.order[p.spans[s].kind.k]
    requires forall a :: a in p.owner && p.owner[a].span == s ==> p.owner[a].place.InSpan?
    ensures FreeListsOk(Unmap(p, s)) && CachesOk(Unmap(p, s))
  {
    var q := Unmap(p, s);
    forall c | c in q.spans ensures FreeListOk(q, c) {
      assert FreeListOk(p, c);
      forall b ensures IsFree(q, c, b) <==> IsFree(p, c, b) {}
    }
    forall t: nat, c: Class, b ensures IsCached(q, t, c, b) <==> IsCached(p, t, c, b) {
      if IsCached(p, t, c, b) { assert p.owner[b].place.InCache?; }
    }
    SameCaches(p, q);
  }

  lemma GiveBackKeepsInv(p: Pool, a: Addr)
    requires Inv(p) && OutSmall(p, a)
    ensures Inv(GiveBack(p, a))
  {
    hide SpansOk, BlocksOk, FreeListsOk, CachesOk;
    PushFreeKeepsInv(p, a);
    if Idle(PushFree(p, a), p.owner[a].span) { UnmapKeepsInv(PushFree(p, a), p.owner[a].span); }
  }
}
