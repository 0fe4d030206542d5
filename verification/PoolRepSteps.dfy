/** Each pointer-level step of the pool carries the representation along with the step of PoolSpec it performs. */
module PoolRepSteps {
  import opened SizeClasses
  import opened Seqs
  import opened PoolSpec
  import opened PoolInv
  import opened PoolOps
  import opened PageMap
  import opened PoolRep

  ghost predicate Rep(desc: Descs, next: Words, bucket: map<nat, Addr>, sp_head: seq<Addr>, p: Pool) {
    DescsRep(desc, p) && ListsRep(desc, sp_head, p) && WordsRep(next, p) && BucketsRep(bucket, p)
  }

  lemma SpansNotNull(p: Pool)
    requires SpansOk(p)
    ensures NULL !in p.spans
  {
  }

  lemma FreeNotNull(p: Pool, s: Addr, a: Addr)
    requires SpansOk(p) && BlocksOk(p) && FreeListsOk(p) && s in p.spans && a in p.spans[s].free
    ensures a != NULL && a in p.owner
  {
    assert FreeListOk(p, s) && IsFree(p, s, a);
    HomeOf(p, a);
    BlockInside(p.spans[s], p.owner[a].idx);
  }

  /** Class lists are disjoint. */
  lemma ListsApart(p: Pool, k: Class, c: Class)
    requires OrderOk(p) && k != c
    ensures forall s :: s in p.order[k] ==> s !in p.order[c]
  {
    forall s | s in p.order[k] ensures s !in p.order[c] {
      assert Listed(p, k, s);
      assert s in p.order[c] <==> Listed(p, c, s);
    }
  }

  /** Descriptors off the list of class k keep their links. */
  lemma OtherLists(desc: Descs, desc': Descs, sp_head: seq<Addr>, p: Pool, k: Class, c: Class)
    requires OrderOk(p) && ListsRep(desc, sp_head, p) && c != k
    requires forall s :: s in desc && s !in p.order[k] && s in p.order[c] ==>
               s in desc' && desc'[s].sl_next == desc[s].sl_next && desc'[s].sl_prev == desc[s].sl_prev
    ensures Linked(desc', p.order[c])
  {
    ListsApart(p, k, c);
    LinkedKept(desc, desc', p.order[c]);
  }

  // ---------- Creating a span ----------

  function NewDesc(pg: Addr, k: Class): SpanDesc {
    SpanDesc(pg, SPAN_SIZE, Fly(k), Some(k), NULL, NULL, pg, 0)
  }

  lemma CreateDescs(desc: Descs, p: Pool, k: Class, pg: Addr)
    requires |p.order| == CLASSES && DescsRep(desc, p) && pg !in p.spans && pg > 0 && pg % PAGE_SIZE == 0
    ensures DescsRep(desc[pg := NewDesc(pg, k)], CreateSpan(p, k, pg))
  {
    NewSpanOk(pg, k);
    assert At(NewSpan(pg, k), 0) == pg;
    hide NewBlocks, NewSpan, At;
  }

  lemma CreateLists(desc: Descs, sp_head: seq<Addr>, p: Pool, k: Class, pg: Addr)
    requires OrderOk(p) && ListsRep(desc, sp_head, p) && p.order[k] == [] && pg !in p.spans
    ensures ListsRep(desc[pg := NewDesc(pg, k)], sp_head[k := pg], CreateSpan(p, k, pg))
  {
    hide NewBlocks, NewSpan;
    OrderInSpans(p);
    hide OrderOk;
    var d := desc[pg := NewDesc(pg, k)];
    forall c: Class | c != k ensures Linked(d, p.order[c]) {
      LinkedKept(desc, d, p.order[c]);
    }
  }

  lemma CreateWords(next: Words, next': Words, p: Pool, k: Class, pg: Addr)
    requires Inv(p) && WordsRep(next, p) && Fresh(p, pg, SPAN_SIZE)
    requires Chain(next', NewSpan(pg, k).free)
    requires forall a :: a in next && a !in NewSpan(pg, k).free ==> a in next' && next'[a] == next[a]
    ensures WordsRep(next', CreateSpan(p, k, pg))
  {
    NewBlocksFresh(p, k, pg);
    NewBlocksAre(pg, k);
    forall s | s in p.spans ensures Chain(next', p.spans[s].free) {
      assert FreeListOk(p, s) && Chain(next, p.spans[s].free);
      forall a | a in p.spans[s].free ensures a !in NewSpan(pg, k).free { assert IsFree(p, s, a); }
    }
    forall t: nat, c: Class | t < |p.cache| ensures Chain(next', p.cache[t][c]) {
      assert CacheListOk(p, t, c) && Chain(next, p.cache[t][c]);
      forall a | a in p.cache[t][c] ensures a !in NewSpan(pg, k).free { assert IsCached(p, t, c, a); }
    }
  }

  lemma CreateRep(desc: Descs, next: Words, next': Words, bucket: map<nat, Addr>, sp_head: seq<Addr>, p: Pool, k: Class, pg: Addr)
    requires Inv(p) && Rep(desc, next, bucket, sp_head, p) && p.order[k] == [] && Fresh(p, pg, SPAN_SIZE)
    requires Chain(next', NewSpan(pg, k).free)
    requires forall a :: a in next && a !in NewSpan(pg, k).free ==> a in next' && next'[a] == next[a]
    ensures BucketOf(pg) !in bucket
    ensures Rep(desc[pg := NewDesc(pg, k)], next', bucket[BucketOf(pg) := pg], sp_head[k := pg], CreateSpan(p, k, pg))
  {
    hide SpansOk, BlocksOk, FreeListsOk, CachesOk, Chain, DescsRep, ListsRep, WordsRep, Fresh;
    assert pg > 0 && pg % PAGE_SIZE == 0 by { FreshPage(p, pg); }
    NewBlocksFresh(p, k, pg);
    CreateDescs(desc, p, k, pg);
    CreateLists(desc, sp_head, p, k, pg);
    CreateWords(next, next', p, k, pg);
    FreshBucket(desc, bucket, p, pg, SPAN_SIZE);
  }

  lemma FreshPage(p: Pool, pg: Addr)
    requires Fresh(p, pg, SPAN_SIZE)
    ensures pg > 0 && pg % PAGE_SIZE == 0
  {
  }

  // ---------- Taking blocks ----------

  /** The descriptors after the first span of class k gave up blocks: it now holds free list xs and leaves the list if xs is empty. */
  function TakenDescs(desc: Descs, s: Addr, nd_free: Addr, nd_nnum: nat): Descs
    requires s in desc
  {
    var d := desc[s := desc[s].(nd_free := nd_free, nd_nnum := nd_nnum)];
    if nd_free == NULL then SetPrev(d, desc[s].sl_next, NULL) else d
  }

  lemma TakenList(desc: Descs, sp_head: seq<Addr>, p: Pool, q: Pool, k: Class, nd_free: Addr, nd_nnum: nat)
    requires OrderOk(p) && ListsRep(desc, sp_head, p) && p.order[k] != [] && NULL !in desc
    requires q.order == if nd_free == NULL then p.order[k := p.order[k][1..]] else p.order
    ensures var s := p.order[k][0];
      && s in desc && sp_head[k] == s
      && ListsRep(TakenDescs(desc, s, nd_free, nd_nnum), if nd_free == NULL then sp_head[k := desc[s].sl_next] else sp_head, q)
  {
    var xs := p.order[k];
    var s := xs[0];
    assert Linked(desc, xs);
    var d := TakenDescs(desc, s, nd_free, nd_nnum);
    if nd_free == NULL {
      TakenTail(desc, xs, nd_nnum);
    } else {
      LinkedKept(desc, d, xs);
    }
    forall c: Class | c != k ensures Linked(d, p.order[c]) {
      TakenOthers(desc, xs, nd_free, nd_nnum);
      OtherLists(desc, d, sp_head, p, k, c);
    }
  }

  lemma TakenOthers(desc: Descs, xs: seq<Addr>, nd_free: Addr, nd_nnum: nat)
    requires Linked(desc, xs) && xs != [] && NULL !in desc
    ensures var d := TakenDescs(desc, xs[0], nd_free, nd_nnum);
      forall s :: s in desc && s !in xs ==> s in d && d[s] == desc[s]
  {
    assert xs[0] in xs;
    assert desc[xs[0]].sl_next == Succ(xs, 0);
    if |xs| > 1 { assert xs[1] in xs; }
  }

  lemma TakenTail(desc: Descs, xs: seq<Addr>, nd_nnum: nat)
    requires Linked(desc, xs) && xs != [] && NoDup(xs) && NULL !in desc
    ensures xs[0] in desc && desc[xs[0]].sl_next == Head(xs[1..])
    ensures Linked(TakenDescs(desc, xs[0], NULL, nd_nnum), xs[1..])
  {
    var ys := xs[1..];
    var d := TakenDescs(desc, xs[0], NULL, nd_nnum);
    forall i: nat | i < |ys| ensures ys[i] in d && d[ys[i]].sl_next == Succ(ys, i) && d[ys[i]].sl_prev == Pred(ys, i) {
      LinkedAt(desc, xs, i + 1);
      LinkedAt(desc, xs, 0);
    }
  }

  lemma TakenDescsRep(desc: Descs, p: Pool, q: Pool, s: Addr, nd_free: Addr, nd_nnum: nat)
    requires DescsRep(desc, p) && s in p.spans && q.spans.Keys == p.spans.Keys
    requires forall c :: c in p.spans && c != s ==> q.spans[c] == p.spans[c]
    requires DescOk(desc[s].(nd_free := nd_free, nd_nnum := nd_nnum), q.spans[s])
    ensures DescsRep(TakenDescs(desc, s, nd_free, nd_nnum), q)
  {
  }

  /** What memory shows of the first span of class k. */
  lemma HeadInMemory(desc: Descs, next: Words, sp_head: seq<Addr>, p: Pool, k: Class)
    requires Inv(p) && DescsRep(desc, p) && ListsRep(desc, sp_head, p) && WordsRep(next, p) && HasHead(p, k)
    ensures NULL !in desc
    ensures var s, a := p.order[k][0], HeadBlock(p, k);
      && s in desc && sp_head[k] == s && DescOk(desc[s], p.spans[s]) && p.spans[s].kind == Small(k)
      && desc[s].nd_free == a && a in next
      && next[a] == Head(p.spans[s].free[1..]) && (next[a] == NULL <==> |p.spans[s].free| == 1)
      && Chain(next, p.spans[s].free[1..])
  {
    OrderGivesHead(p, k);
    SpansNotNull(p);
    var s := p.order[k][0];
    var xs := p.spans[s].free;
    assert Chain(next, xs);
    ChainTail(next, xs);
    if |xs| > 1 { FreeNotNull(p, s, xs[1]); }
  }

  lemma TakeOneWords(next: Words, p: Pool, k: Class, n: nat)
    requires WordsRep(next, p) && HasHead(p, k) && Chain(next, p.spans[p.order[k][0]].free[1..])
    ensures WordsRep(next, TakeOne(p, k, n))
  {
  }

  lemma SameSpanKeys(bucket: map<nat, Addr>, p: Pool, q: Pool)
    requires BucketsRep(bucket, p) && q.spans.Keys == p.spans.Keys
    ensures BucketsRep(bucket, q)
  {
    forall s ensures s in q.spans <==> s in p.spans { assert s in q.spans.Keys <==> s in p.spans.Keys; }
  }

  lemma TakeOneDescs(desc: Descs, next: Words, p: Pool, k: Class, n: nat)
    requires DescsRep(desc, p) && HasHead(p, k) && p.spans[p.order[k][0]].kind == Small(k)
    requires HeadBlock(p, k) in next && next[HeadBlock(p, k)] == Head(p.spans[p.order[k][0]].free[1..])
    ensures var s := p.order[k][0];
      s in desc && DescsRep(TakenDescs(desc, s, next[HeadBlock(p, k)], desc[s].nd_nnum + 1), TakeOne(p, k, n))
  {
    var s, a := p.order[k][0], HeadBlock(p, k);
    assert DescOk(desc[s], p.spans[s]);
    TakenDescsRep(desc, p, TakeOne(p, k, n), s, next[a], desc[s].nd_nnum + 1);
  }

  lemma TakeOneLists(desc: Descs, next: Words, sp_head: seq<Addr>, p: Pool, k: Class, n: nat)
    requires OrderOk(p) && ListsRep(desc, sp_head, p) && HasHead(p, k) && NULL !in desc && p.order[k][0] in desc
    requires HeadBlock(p, k) in next && (next[HeadBlock(p, k)] == NULL <==> |p.spans[p.order[k][0]].free| == 1)
    ensures var s, a := p.order[k][0], HeadBlock(p, k);
      ListsRep(TakenDescs(desc, s, next[a], desc[s].nd_nnum + 1),
               if next[a] == NULL then sp_head[k := desc[s].sl_next] else sp_head, TakeOne(p, k, n))
  {
    hide OrderOk, ListsRep, TakenDescs;
    var s, a := p.order[k][0], HeadBlock(p, k);
    TakenList(desc, sp_head, p, TakeOne(p, k, n), k, next[a], desc[s].nd_nnum + 1);
  }

  lemma TakeOneRep(desc: Descs, next: Words, bucket: map<nat, Addr>, sp_head: seq<Addr>, p: Pool, k: Class, n: nat)
    requires Inv(p) && Rep(desc, next, bucket, sp_head, p) && HasHead(p, k)
    ensures var s, a := p.order[k][0], HeadBlock(p, k);
      && s in desc && sp_head[k] == s && desc[s].nd_free == a && a in next
      && Rep(TakenDescs(desc, s, next[a], desc[s].nd_nnum + 1), next, bucket,
             if next[a] == NULL then sp_head[k := desc[s].sl_next] else sp_head, TakeOne(p, k, n))
  {
    hide SpansOk, BlocksOk, FreeListsOk, CachesOk, IsFree, Chain, Linked, DescsRep, WordsRep, BucketsRep, OrderOk, ListsRep, TakenDescs;
    HeadInMemory(desc, next, sp_head, p, k);
    TakeOneLists(desc, next, sp_head, p, k, n);
    TakeOneDescs(desc, next, p, k, n);
    TakeOneWords(next, p, k, n);
    SameSpanKeys(bucket, p, TakeOne(p, k, n));
  }

  lemma TakeAllWords(next: Words, p: Pool, t: nat, k: Class)
    requires WordsRep(next, p) && HasHead(p, k) && HasThread(p, t)
    ensures WordsRep(next, TakeAll(p, t, k))
  {
    assert Chain(next, p.spans[p.order[k][0]].free);
  }

  lemma TakeAllRep(desc: Descs, next: Words, bucket: map<nat, Addr>, sp_head: seq<Addr>, p: Pool, t: nat, k: Class)
    requires Inv(p) && Rep(desc, next, bucket, sp_head, p) && HasHead(p, k) && HasThread(p, t)
    ensures var s := p.order[k][0];
      && s in desc && sp_head[k] == s && desc[s].nd_free == Head(p.spans[s].free)
      && desc[s].nd_nnum + |p.spans[s].free| == BlockCount(k)
      && Rep(TakenDescs(desc, s, NULL, BlockCount(k)), next, bucket, sp_head[k := desc[s].sl_next], TakeAll(p, t, k))
  {
    hide SpansOk, BlocksOk, FreeListsOk, CachesOk, IsFree, Chain, Linked, DescsRep, WordsRep, BucketsRep, ListsRep, OrderOk;
    HeadInMemory(desc, next, sp_head, p, k);
    var s := p.order[k][0];
    var q := TakeAll(p, t, k);
    TakeAllParts(p, t, k);
    hide TakeAll, TakenDescs;
    TakenList(desc, sp_head, p, q, k, NULL, BlockCount(k));
    TakenDescsRep(desc, p, q, s, NULL, BlockCount(k));
    TakeAllWords(next, p, t, k);
    SameSpanKeys(bucket, p, q);
  }

  lemma TakeAllParts(p: Pool, t: nat, k: Class)
    requires HasHead(p, k) && HasThread(p, t)
    ensures var s, q := p.order[k][0], TakeAll(p, t, k);
      && q.spans == p.spans[s := p.spans[s].(free := [])] && q.order == p.order[k := p.order[k][1..]]
      && q.spans.Keys == p.spans.Keys
  {
  }

  // ---------- Giving blocks back ----------

  /** A block in a caller's hands is on no list, so its word is free to change. */
  lemma WordOfOut(next: Words, p: Pool, a: Addr, v: Addr)
    requires FreeListsOk(p) && CachesOk(p) && WordsRep(next, p) && a in p.owner && p.owner[a].place.Out?
    ensures WordsRep(next[a := v], p)
    ensures forall s :: s in p.spans ==> a !in p.spans[s].free
    ensures forall t: nat, k: Class :: t < |p.cache| && |p.cache[t]| == CLASSES ==> a !in p.cache[t][k]
  {
    forall s | s in p.spans ensures a !in p.spans[s].free && Chain(next[a := v], p.spans[s].free) {
      assert FreeListOk(p, s) && !IsFree(p, s, a);
      ChainKept(next, next[a := v], p.spans[s].free);
    }
    forall t: nat, k: Class | t < |p.cache| && |p.cache[t]| == CLASSES
      ensures a !in p.cache[t][k] && Chain(next[a := v], p.cache[t][k])
    {
      assert CacheListOk(p, t, k) && !IsCached(p, t, k, a);
      ChainKept(next, next[a := v], p.cache[t][k]);
    }
  }

  function PushedDescs(desc: Descs, s: Addr, a: Addr, head: Addr): Descs
    requires s in desc && desc[s].nd_nnum > 0
  {
    var d := desc[s := desc[s].(nd_free := a, nd_nnum := desc[s].nd_nnum - 1)];
    if desc[s].nd_free == NULL then LinkFront(d, s, head) else d
  }

  function PushedHeads(desc: Descs, sp_head: seq<Addr>, s: Addr, k: Class): seq<Addr>
    requires s in desc && |sp_head| == CLASSES
  {
    if desc[s].nd_free == NULL then sp_head[k := s] else sp_head
  }

  lemma PushFreeWords(next: Words, p: Pool, a: Addr)
    requires FreeListsOk(p) && CachesOk(p) && WordsRep(next, p) && OutSmall(p, a) && |p.order| == CLASSES
    ensures WordsRep(next[a := Head(p.spans[p.owner[a].span].free)], PushFree(p, a))
  {
    var s := p.owner[a].span;
    var v := Head(p.spans[s].free);
    WordOfOut(next, p, a, v);
    assert Chain(next, p.spans[s].free);
    ChainPushed(next, a, p.spans[s].free);
  }

  lemma PushFreeDescs(desc: Descs, p: Pool, a: Addr, head: Addr)
    requires DescsRep(desc, p) && OutSmall(p, a) && |p.order| == CLASSES && |p.spans[p.owner[a].span].free| < BlockCount(ClassOf(p, a))
    ensures var s := p.owner[a].span;
      s in desc && desc[s].nd_nnum > 0 && DescsRep(PushedDescs(desc, s, a, head), PushFree(p, a))
  {
    var s := p.owner[a].span;
    assert DescOk(desc[s], p.spans[s]);
  }

  lemma PushFreeFacts(desc: Descs, p: Pool, a: Addr)
    requires Inv(p) && DescsRep(desc, p) && OutSmall(p, a)
    ensures var s := p.owner[a].span;
      && NULL !in desc && s in desc
      && (desc[s].nd_free == NULL <==> p.spans[s].free == [])
      && (s in p.order[ClassOf(p, a)] <==> p.spans[s].free != [])
  {
    var s, k := p.owner[a].span, ClassOf(p, a);
    SpansNotNull(p);
    assert DescOk(desc[s], p.spans[s]) && (s in p.order[k] <==> Listed(p, k, s));
    if p.spans[s].free != [] { FreeNotNull(p, s, p.spans[s].free[0]); }
  }

  lemma PushFreeLists(desc: Descs, sp_head: seq<Addr>, p: Pool, a: Addr)
    requires Inv(p) && DescsRep(desc, p) && ListsRep(desc, sp_head, p) && OutSmall(p, a)
    requires p.owner[a].span in desc && desc[p.owner[a].span].nd_nnum > 0
    ensures var s, k := p.owner[a].span, ClassOf(p, a);
      ListsRep(PushedDescs(desc, s, a, sp_head[k]), PushedHeads(desc, sp_head, s, k), PushFree(p, a))
  {
    hide SpansOk, BlocksOk, FreeListsOk, CachesOk, DescsRep, OrderOk, Linked, LinkFront;
    PushFreeFacts(desc, p, a);
    var s, k := p.owner[a].span, ClassOf(p, a);
    var d1 := desc[s := desc[s].(nd_free := a, nd_nnum := desc[s].nd_nnum - 1)];
    PushedOwn(desc, d1, sp_head, p, s, k);
    forall c: Class | c != k ensures Linked(PushedDescs(desc, s, a, sp_head[k]), p.order[c]) {
      PushedOther(desc, d1, sp_head, p, s, k, c);
    }
  }

  lemma PushedOwn(desc: Descs, d1: Descs, sp_head: seq<Addr>, p: Pool, s: Addr, k: Class)
    requires OrderOk(p) && ListsRep(desc, sp_head, p) && s in desc && NULL !in desc
    requires d1.Keys == desc.Keys && forall x :: x in desc ==> d1[x].sl_next == desc[x].sl_next && d1[x].sl_prev == desc[x].sl_prev
    ensures Linked(d1, p.order[k])
    ensures s !in p.order[k] ==> Linked(LinkFront(d1, s, sp_head[k]), [s] + p.order[k])
  {
    assert Linked(desc, p.order[k]) && NoDup(p.order[k]);
    LinkedKept(desc, d1, p.order[k]);
    if s !in p.order[k] { LinkedFront(d1, s, p.order[k]); }
  }

  lemma PushedOther(desc: Descs, d1: Descs, sp_head: seq<Addr>, p: Pool, s: Addr, k: Class, c: Class)
    requires OrderOk(p) && ListsRep(desc, sp_head, p) && s in p.spans && p.spans[s].kind == Small(k) && s in desc && c != k
    requires d1.Keys == desc.Keys && forall x :: x in desc ==> d1[x].sl_next == desc[x].sl_next && d1[x].sl_prev == desc[x].sl_prev
    ensures Linked(d1, p.order[c])
    ensures NULL !in desc ==> Linked(LinkFront(d1, s, sp_head[k]), p.order[c])
  {
    assert s !in p.order[c] by { assert s in p.order[c] <==> Listed(p, c, s); }
    assert Linked(desc, p.order[c]) && Linked(desc, p.order[k]) && sp_head[k] == Head(p.order[k]);
    LinkedKept(desc, d1, p.order[c]);
    ListsApart(p, k, c);
    if NULL !in desc { LinkedKept(d1, LinkFront(d1, s, sp_head[k]), p.order[c]); }
  }

  lemma OutMeansRoom(p: Pool, a: Addr)
    requires Inv(p) && OutSmall(p, a)
    ensures |p.spans[p.owner[a].span].free| < BlockCount(ClassOf(p, a))
  {
    IdleIsAllFree(p, p.owner[a].span);
  }

  lemma PushFreeRep(desc: Descs, next: Words, bucket: map<nat, Addr>, sp_head: seq<Addr>, p: Pool, a: Addr)
    requires Inv(p) && Rep(desc, next, bucket, sp_head, p) && OutSmall(p, a)
    ensures var s, k := p.owner[a].span, ClassOf(p, a);
      && s in desc && desc[s].nd_nnum > 0 && desc[s].nd_free == Head(p.spans[s].free)
      && Rep(PushedDescs(desc, s, a, sp_head[k]), next[a := desc[s].nd_free], bucket,
             PushedHeads(desc, sp_head, s, k), PushFree(p, a))
  {
    var s, k := p.owner[a].span, ClassOf(p, a);
    assert s in desc && DescOk(desc[s], p.spans[s]);
    hide SpansOk, BlocksOk, FreeListsOk, CachesOk, DescsRep, WordsRep, BucketsRep, OrderOk, ListsRep, PushedDescs, PushedHeads;
    OutMeansRoom(p, a);
    PushFreeDescs(desc, p, a, sp_head[k]);
    PushFreeLists(desc, sp_head, p, a);
    PushFreeWords(next, p, a);
    SameSpanKeys(bucket, p, PushFree(p, a));
  }

  // ---------- Unmapping ----------

  /** page_free: the words on the freed pages are gone. */
  function Unmapped(next: Words, base: Addr, size: nat): Words {
    map a | a in next && !(base <= a < base + RoundPage(size)) :: next[a]
  }

  lemma OtherPages(p: Pool, a: Addr, s: Addr)
    requires SpansOk(p) && BlocksOk(p) && s in p.spans && a in p.owner && p.owner[a].span != s
    ensures !(s <= a < s + RoundPage(p.spans[s].size))
  {
    HomeOf(p, a);
    var r := p.owner[a].span;
    BlockInside(p.spans[r], p.owner[a].idx);
    RoundPageBounds(p.spans[r].size);
    assert Disjoint(p.spans[r], p.spans[s]);
  }

  lemma UnmapWords(next: Words, p: Pool, q: Pool, s: Addr)
    requires Inv(p) && WordsRep(next, p) && s in p.spans
    requires q.spans == p.spans - {s} && q.cache == p.cache
    requires forall a :: a in p.owner && p.owner[a].span == s ==> !p.owner[a].place.InCache?
    ensures WordsRep(Unmapped(next, s, p.spans[s].size), q)
  {
    var n := Unmapped(next, s, p.spans[s].size);
    forall c | c in q.spans ensures Chain(n, q.spans[c].free) {
      assert FreeListOk(p, c) && Chain(next, p.spans[c].free);
      forall a | a in p.spans[c].free ensures a in n {
        assert IsFree(p, c, a);
        OtherPages(p, a, s);
        ChainHas(next, p.spans[c].free, a);
      }
      ChainKept(next, n, p.spans[c].free);
    }
    forall t: nat, k: Class | t < |p.cache| ensures Chain(n, p.cache[t][k]) {
      assert CacheListOk(p, t, k) && Chain(next, p.cache[t][k]);
      forall a | a in p.cache[t][k] ensures a in n {
        assert IsCached(p, t, k, a);
        OtherPages(p, a, s);
        ChainHas(next, p.cache[t][k], a);
      }
      ChainKept(next, n, p.cache[t][k]);
    }
  }

  lemma ChainHas(next: Words, xs: seq<Addr>, a: Addr)
    requires Chain(next, xs) && a in xs
    ensures a in next
  {
    var i := Index(xs, a);
    assert xs[i] in next;
  }

  function CutHeads(desc: Descs, sp_head: seq<Addr>, s: Addr, k: Class): seq<Addr>
    requires s in desc && |sp_head| == CLASSES
  {
    if desc[s].sl_prev == NULL then sp_head[k := desc[s].sl_next] else sp_head
  }

  lemma CutOutOthers(desc: Descs, xs: seq<Addr>, s: Addr)
    requires Linked(desc, xs) && NoDup(xs) && s in xs && s in desc && NULL !in desc
    ensures forall x :: x in desc && x !in xs ==> x in CutOut(desc, s) && CutOut(desc, s)[x] == desc[x]
    ensures CutOut(desc, s).Keys == desc.Keys
    ensures forall x :: x in desc ==> SameButLinks(CutOut(desc, s)[x], desc[x])
  {
    LinkedCut(desc, s, xs);
    hide CutOut, Linked;
    forall x | x in desc ensures x in CutOut(desc, s) && SameButLinks(CutOut(desc, s)[x], desc[x]) {
      CutFields(desc, s, x);
    }
    forall x | x in desc && x !in xs ensures CutOut(desc, s)[x] == desc[x] {
      CutFields(desc, s, x);
    }
    CutKeys(desc, s);
  }

  lemma CutKeys(desc: Descs, s: Addr)
    requires s in desc
    ensures CutOut(desc, s).Keys == desc.Keys
  {
  }

  predicate SameButLinks(d: SpanDesc, e: SpanDesc) {
    d == e.(sl_next := d.sl_next, sl_prev := d.sl_prev)
  }

  lemma CutLists(desc: Descs, sp_head: seq<Addr>, p: Pool, s: Addr, k: Class)
    requires OrderOk(p) && ListsRep(desc, sp_head, p) && NULL !in desc && s in desc && s in p.order[k]
    ensures var d := CutOut(desc, s) - {s}; var h := CutHeads(desc, sp_head, s, k);
      && |h| == CLASSES
      && h[k] == Head(Without(p.order[k], s)) && Linked(d, Without(p.order[k], s))
      && forall c: Class :: c != k ==> h[c] == Head(p.order[c]) && Linked(d, p.order[c])
  {
    var xs := p.order[k];
    assert Linked(desc, xs) && NoDup(xs);
    LinkedCut(desc, s, xs);
    WithoutMembers(xs, s);
    var d := CutOut(desc, s) - {s};
    LinkedKept(CutOut(desc, s), d, Without(xs, s));
    CutOutOthers(desc, xs, s);
    hide CutOut, Linked;
    forall c: Class | c != k ensures Linked(d, p.order[c]) {
      OtherLists(desc, d, sp_head, p, k, c);
    }
  }

  lemma UnmapLists(desc: Descs, sp_head: seq<Addr>, p: Pool, s: Addr)
    requires OrderOk(p) && ListsRep(desc, sp_head, p) && NULL !in desc && s in desc
    requires s in p.spans && p.spans[s].kind.Small? && s in p.order[p.spans[s].kind.k]
    ensures ListsRep(CutOut(desc, s) - {s}, CutHeads(desc, sp_head, s, p.spans[s].kind.k), Unmap(p, s))
  {
    hide OrderOk, CutOut, CutHeads, Linked;
    CutLists(desc, sp_head, p, s, p.spans[s].kind.k);
  }

  lemma UnmapDescs(desc: Descs, p: Pool, q: Pool, xs: seq<Addr>, s: Addr)
    requires DescsRep(desc, p) && Linked(desc, xs) && NoDup(xs) && s in xs && s in desc && NULL !in desc
    requires q.spans == p.spans - {s}
    ensures DescsRep(CutOut(desc, s) - {s}, q)
  {
    CutOutOthers(desc, xs, s);
    hide CutOut;
    var d := CutOut(desc, s) - {s};
    forall c | c in q.spans ensures DescOk(d[c], q.spans[c]) {
      assert DescOk(desc[c], p.spans[c]);
      assert SameButLinks(d[c], desc[c]);
    }
  }

  lemma UnmapBuckets(bucket: map<nat, Addr>, p: Pool, q: Pool, s: Addr)
    requires BucketsRep(bucket, p) && s in p.spans && q.spans == p.spans - {s}
    ensures BucketsRep(bucket - {BucketOf(s)}, q)
  {
  }

  lemma UnmapFacts(desc: Descs, sp_head: seq<Addr>, p: Pool, s: Addr)
    requires Inv(p) && DescsRep(desc, p) && ListsRep(desc, sp_head, p) && Idle(p, s)
    ensures NULL !in desc && s in desc && s in p.order[p.spans[s].kind.k]
    ensures desc[s].sp_base == s && desc[s].sp_size == p.spans[s].size
    ensures Linked(desc, p.order[p.spans[s].kind.k]) && NoDup(p.order[p.spans[s].kind.k])
    ensures forall a :: a in p.owner && p.owner[a].span == s ==> !p.owner[a].place.InCache?
    ensures desc[s].sl_next == NULL <==> s == Last(p.order[p.spans[s].kind.k])
    ensures sp_head[p.spans[s].kind.k] == s <==> desc[s].sl_prev == NULL
  {
    var k := p.spans[s].kind.k;
    SpansNotNull(p);
    LayoutFits(k);
    assert Listed(p, k, s);
    IdleIsAllFree(p, s);
    assert DescOk(desc[s], p.spans[s]);
    LinkedCut(desc, s, p.order[k]);
  }

  lemma UnmapRep(desc: Descs, next: Words, bucket: map<nat, Addr>, sp_head: seq<Addr>, p: Pool, s: Addr)
    requires Inv(p) && Rep(desc, next, bucket, sp_head, p) && Idle(p, s)
    ensures s in desc && s in p.order[p.spans[s].kind.k]
    ensures Rep(CutOut(desc, s) - {s}, Unmapped(next, s, p.spans[s].size), bucket - {BucketOf(s)},
                CutHeads(desc, sp_head, s, p.spans[s].kind.k), Unmap(p, s))
  {
    assert |p.order| == CLASSES;
    hide SpansOk, BlocksOk, FreeListsOk, CachesOk, DescsRep, WordsRep, BucketsRep, ListsRep, OrderOk, CutOut, CutHeads, Unmapped, Linked;
    UnmapFacts(desc, sp_head, p, s);
    UnmapLists(desc, sp_head, p, s);
    UnmapDescs(desc, p, Unmap(p, s), p.order[p.spans[s].kind.k], s);
    UnmapWords(next, p, Unmap(p, s), s);
    UnmapBuckets(bucket, p, Unmap(p, s), s);
  }

  // ---------- Large blocks ----------

  function LargeDesc(pg: Addr, n: nat): SpanDesc {
    var s := LargeSpan(pg, n);
    SpanDesc(pg, s.size, s.fly, None, NULL, NULL, NULL, 0)
  }

  lemma SameListsRep(desc: Descs, d: Descs, sp_head: seq<Addr>, p: Pool, q: Pool)
    requires OrderOk(p) && ListsRep(desc, sp_head, p) && q.order == p.order
    requires forall s :: s in desc && s in p.spans && p.spans[s].kind.Small? ==> s in d && d[s] == desc[s]
    ensures ListsRep(d, sp_head, q)
  {
    OrderInSpans(p);
    forall k: Class ensures Linked(d, p.order[k]) { LinkedKept(desc, d, p.order[k]); }
  }

  lemma LargeDescs(desc: Descs, p: Pool, n: nat, pg: Addr)
    requires DescsRep(desc, p) && pg !in p.spans
    ensures DescsRep(desc[pg := LargeDesc(pg, n)], TakeLarge(p, n, pg))
  {
  }

  lemma LargeWords(next: Words, p: Pool, n: nat, pg: Addr)
    requires WordsRep(next, p) && pg !in p.spans
    ensures WordsRep(next, TakeLarge(p, n, pg))
  {
  }

  lemma LargeBuckets(bucket: map<nat, Addr>, p: Pool, n: nat, pg: Addr)
    requires BucketsRep(bucket, p) && BucketOf(pg) !in bucket
    ensures BucketsRep(bucket[BucketOf(pg) := pg], TakeLarge(p, n, pg))
  {
  }

  lemma TakeLargeRep(desc: Descs, next: Words, bucket: map<nat, Addr>, sp_head: seq<Addr>, p: Pool, n: nat, pg: Addr)
    requires Inv(p) && Rep(desc, next, bucket, sp_head, p) && n > SPAN_SIZE && Fresh(p, pg, n)
    ensures BucketOf(pg) !in bucket
    ensures Rep(desc[pg := LargeDesc(pg, n)], next, bucket[BucketOf(pg) := pg], sp_head, TakeLarge(p, n, pg))
  {
    hide SpansOk, BlocksOk, FreeListsOk, CachesOk, OrderOk, Fresh, ListsRep, BucketsRep, WordsRep, DescsRep;
    LargeIsFresh(p, n, pg);
    FreshBucket(desc, bucket, p, pg, n);
    LargeDescs(desc, p, n, pg);
    LargeWords(next, p, n, pg);
    LargeBuckets(bucket, p, n, pg);
    SameListsRep(desc, desc[pg := LargeDesc(pg, n)], sp_head, p, TakeLarge(p, n, pg));
  }

  lemma FreeLargeRep(desc: Descs, next: Words, bucket: map<nat, Addr>, sp_head: seq<Addr>, p: Pool, a: Addr)
    requires Inv(p) && Rep(desc, next, bucket, sp_head, p) && a in p.owner && p.owner[a].place.Out? && !OutSmall(p, a)
    ensures a in p.spans
    ensures Rep(desc - {a}, Unmapped(next, a, p.spans[a].size), bucket - {BucketOf(a)}, sp_head, FreeLarge(p, a))
  {
    hide SpansOk, BlocksOk, FreeListsOk, CachesOk, OrderOk, ListsRep, WordsRep, BucketsRep;
    LargeBlock(p, a);
    UnmapWords(next, p, FreeLarge(p, a), a);
    UnmapBuckets(bucket, p, FreeLarge(p, a), a);
    SameListsRep(desc, desc - {a}, sp_head, p, FreeLarge(p, a));
  }

  // ---------- Thread caches ----------

  function SetLink(links: seq<seq<Link>>, t: nat, k: Class, l: Link): seq<seq<Link>>
    requires t < |links| && |links[t]| == CLASSES
  {
    links[t := links[t][k := l]]
  }

  lemma SetLinkRep(links: seq<seq<Link>>, p: Pool, q: Pool, t: nat, k: Class, l: Link)
    requires LinksRep(links, p) && HasThread(p, t) && HasThread(q, t) && OnlyCache(p, q, t, k, q.cache[t][k])
    requires LinkRep(l, k, q.cache[t][k])
    ensures LinksRep(SetLink(links, t, k, l), q)
  {
    forall u: nat, c: Class | u < |links| ensures LinkRep(SetLink(links, t, k, l)[u][c], c, q.cache[u][c]) {
      assert LinkRep(links[u][c], c, p.cache[u][c]);
    }
  }

  lemma PopRep(desc: Descs, next: Words, bucket: map<nat, Addr>, sp_head: seq<Addr>, p: Pool, t: nat, k: Class, n: nat)
    requires Rep(desc, next, bucket, sp_head, p) && CacheHas(p, t, k)
    ensures p.cache[t][k][0] in next && next[p.cache[t][k][0]] == Head(p.cache[t][k][1..])
    ensures Rep(desc, next, bucket, sp_head, PopCache(p, t, k, n))
  {
    assert Chain(next, p.cache[t][k]);
    ChainTail(next, p.cache[t][k]);
  }

  lemma PushCacheRep(desc: Descs, next: Words, bucket: map<nat, Addr>, sp_head: seq<Addr>, p: Pool, t: nat, a: Addr)
    requires Inv(p) && Rep(desc, next, bucket, sp_head, p) && OutSmall(p, a) && HasThread(p, t)
    ensures Rep(desc, next[a := Head(p.cache[t][ClassOf(p, a)])], bucket, sp_head, PushCache(p, t, ClassOf(p, a), a))
  {
    hide SpansOk, BlocksOk, FreeListsOk, CachesOk, OrderOk, DescsRep, ListsRep, BucketsRep;
    var k := ClassOf(p, a);
    WordOfOut(next, p, a, Head(p.cache[t][k]));
    assert Chain(next, p.cache[t][k]);
    ChainPushed(next, a, p.cache[t][k]);
    PushCacheRest(desc, bucket, sp_head, p, PushCache(p, t, k, a));
  }

  lemma PushCacheRest(desc: Descs, bucket: map<nat, Addr>, sp_head: seq<Addr>, p: Pool, q: Pool)
    requires DescsRep(desc, p) && ListsRep(desc, sp_head, p) && BucketsRep(bucket, p) && q.spans == p.spans && q.order == p.order
    ensures DescsRep(desc, q) && ListsRep(desc, sp_head, q) && BucketsRep(bucket, q)
  {
  }

  lemma SamePoolRep(desc: Descs, next: Words, bucket: map<nat, Addr>, sp_head: seq<Addr>, p: Pool, q: Pool)
    requires Rep(desc, next, bucket, sp_head, p) && q.spans == p.spans && q.order == p.order && q.cache == p.cache
    ensures Rep(desc, next, bucket, sp_head, q)
  {
  }
}
