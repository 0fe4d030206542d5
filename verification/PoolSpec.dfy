/**
  The paging pool on values: who owns each block of each mapped span.
  Every public operation of the pool is a function on this state; the class in
  MemPool.dfy carries the operations out on pointers and is proved equal to these functions.
 */
module PoolSpec {
  import opened SizeClasses
  import opened Seqs

  datatype Kind = Small(k: Class) | Large

  /** A mapped span; free is its free list, first element first. */
  datatype Span = Span(base: Addr, size: nat, fly: bool, kind: Kind, free: seq<Addr>)

  /** Where a block currently is; Out(n) was handed to a caller who asked for n bytes. */
  datatype Place = InSpan | InCache(t: nat) | Out(n: nat)

  datatype Block = Block(span: Addr, idx: nat, place: Place)

  /** spans by base address; order[k]: the list of non-full spans of class k;
      cache[t][k]: the blocks of class k cached by thread t; owner: every block of every span. */
  datatype Pool = Pool(
    spans: map<Addr, Span>,
    order: seq<seq<Addr>>,
    cache: seq<seq<seq<Addr>>>,
    owner: map<Addr, Block>)

  function Count(s: Span): nat {
    match s.kind case Small(k) => BlockCount(k) case Large => 1
  }

  function UnitOf(s: Span): nat {
    match s.kind case Small(k) => Unit(k) case Large => s.size
  }

  function At(s: Span, i: nat): Addr {
    s.base + i * UnitOf(s)
  }

  function RoundPage(n: nat): nat {
    (n + (PAGE_SIZE - 1)) / PAGE_SIZE * PAGE_SIZE
  }

  /** The span's pages reach up to here; sp_size of a large span may stop short of the last descriptor-sized tail. */
  function End(s: Span): Addr {
    s.base + RoundPage(s.size)
  }

  predicate Disjoint(a: Span, b: Span) {
    End(a) <= b.base || End(b) <= a.base
  }

  function Empty(): Pool {
    Pool(map[], seq(CLASSES, _ => []), [], map[])
  }

  // ---------- Invariant ----------

  ghost predicate SpanOk(s: Span) {
    && 0 < s.base && s.base % PAGE_SIZE == 0
    && match s.kind
       case Small(k) => s.size == SPAN_SIZE && s.fly == Fly(k)
       case Large => s.size > SPAN_SIZE && s.size % 8 == 0 && (s.fly ==> s.size % PAGE_SIZE == 0) && s.free == []
  }

  ghost predicate SpansOk(p: Pool) {
    && (forall a :: a in p.spans ==> p.spans[a].base == a && SpanOk(p.spans[a]))
    && (forall a, b :: a in p.spans && b in p.spans && a != b ==> Disjoint(p.spans[a], p.spans[b]))
  }

  ghost predicate BlockOk(p: Pool, a: Addr)
    requires a in p.owner
  {
    var b := p.owner[a];
    && b.span in p.spans
    && b.idx < Count(p.spans[b.span])
    && a == At(p.spans[b.span], b.idx)
    && match b.place
       case InSpan => p.spans[b.span].kind.Small?
       case InCache(t) => p.spans[b.span].kind.Small? && t < |p.cache|
       case Out(n) => n <= UnitOf(p.spans[b.span])
  }

  ghost predicate BlocksOk(p: Pool) {
    && (forall a :: a in p.owner ==> BlockOk(p, a))
    && (forall s, i: nat :: s in p.spans && i < Count(p.spans[s]) ==>
          At(p.spans[s], i) in p.owner && p.owner[At(p.spans[s], i)].span == s && p.owner[At(p.spans[s], i)].idx == i)
  }

  predicate IsFree(p: Pool, s: Addr, a: Addr) {
    a in p.owner && p.owner[a].span == s && p.owner[a].place.InSpan?
  }

  ghost predicate FreeListOk(p: Pool, s: Addr)
    requires s in p.spans
  {
    && NoDup(p.spans[s].free)
    && forall a :: a in p.spans[s].free <==> IsFree(p, s, a)
  }

  ghost predicate FreeListsOk(p: Pool) {
    forall s :: s in p.spans ==> FreeListOk(p, s)
  }

  predicate IsCached(p: Pool, t: nat, k: Class, a: Addr) {
    && a in p.owner && p.owner[a].place == InCache(t)
    && p.owner[a].span in p.spans && p.spans[p.owner[a].span].kind == Small(k)
  }

  ghost predicate CacheListOk(p: Pool, t: nat, k: Class)
    requires t < |p.cache| && |p.cache[t]| == CLASSES
  {
    && NoDup(p.cache[t][k])
    && forall a :: a in p.cache[t][k] <==> IsCached(p, t, k, a)
  }

  ghost predicate CachesOk(p: Pool) {
    && (forall t: nat :: t < |p.cache| ==> |p.cache[t]| == CLASSES)
    && (forall t: nat, k: Class :: t < |p.cache| ==> CacheListOk(p, t, k))
  }

  /** s belongs on the span list of class k. */
  predicate Listed(p: Pool, k: Class, s: Addr) {
    s in p.spans && p.spans[s].kind == Small(k) && p.spans[s].free != []
  }

  ghost predicate OrderOk(p: Pool) {
    && |p.order| == CLASSES
    && forall k: Class :: NoDup(p.order[k]) && forall s :: s in p.order[k] <==> Listed(p, k, s)
  }

  /** Ownership: what every step keeps, including the intermediate states of a batch. */
  ghost predicate Inv(p: Pool) {
    SpansOk(p) && OrderOk(p) && BlocksOk(p) && FreeListsOk(p) && CachesOk(p)
  }

  /** No block of span s is in use. */
  predicate Idle(p: Pool, s: Addr) {
    s in p.spans && p.spans[s].kind.Small? && |p.spans[s].free| == Count(p.spans[s])
  }

  /** Every span but the last of a class list has a block in use. */
  ghost predicate OnlyLastIdle(p: Pool) {
    forall k: Class, s :: k < |p.order| && s in p.order[k] && Idle(p, s) ==> s == Last(p.order[k])
  }

  function Last(xs: seq<Addr>): Addr
    requires xs != []
  {
    xs[|xs| - 1]
  }

  function CacheMax(k: Class): nat {
    if BlockCount(k) * 2 < 4 then 4 else BlockCount(k) * 2
  }

  ghost predicate CacheBounded(p: Pool) {
    forall t: nat, k: Class :: t < |p.cache| && |p.cache[t]| == CLASSES ==> |p.cache[t][k]| <= CacheMax(k)
  }

  // ---------- Steps ----------

  predicate Fresh(p: Pool, pg: Addr, size: nat) {
    && 0 < pg && pg % PAGE_SIZE == 0
    && forall a :: a in p.spans ==> pg + RoundPage(size) <= p.spans[a].base || End(p.spans[a]) <= pg
  }

  function NewSpan(pg: Addr, k: Class): Span {
    Span(pg, SPAN_SIZE, Fly(k), Small(k), seq(BlockCount(k), i requires 0 <= i => pg + i * Unit(k)))
  }

  function NewBlocks(pg: Addr, k: Class): map<Addr, Block> {
    map a | a in NewSpan(pg, k).free && pg <= a :: Block(pg, (a - pg) / Unit(k), InSpan)
  }

  /** create_span_nolock: only called for an empty class list. */
  function CreateSpan(p: Pool, k: Class, pg: Addr): Pool
    requires |p.order| == CLASSES
  {
    p.(spans := p.spans[pg := NewSpan(pg, k)], order := p.order[k := [pg]], owner := p.owner + NewBlocks(pg, k))
  }

  function SetPlace(p: Pool, a: Addr, w: Place): map<Addr, Block>
    requires a in p.owner
  {
    p.owner[a := p.owner[a].(place := w)]
  }

  predicate HasHead(p: Pool, k: Class) {
    && |p.order| == CLASSES && p.order[k] != []
    && p.order[k][0] in p.spans && p.spans[p.order[k][0]].free != []
    && p.spans[p.order[k][0]].free[0] in p.owner
  }

  function HeadBlock(p: Pool, k: Class): Addr
    requires HasHead(p, k)
  {
    p.spans[p.order[k][0]].free[0]
  }

  /** alloc_small: the first free block of the first span; a span that becomes full leaves the list. */
  function TakeOne(p: Pool, k: Class, n: nat): Pool
    requires HasHead(p, k)
  {
    var s := p.order[k][0];
    var sp := p.spans[s];
    p.(spans := p.spans[s := sp.(free := sp.free[1..])],
       order := if |sp.free| == 1 then p.order[k := p.order[k][1..]] else p.order,
       owner := SetPlace(p, sp.free[0], Out(n)))
  }

  /** alloc_small_batch: the whole free list of the first span becomes the (empty) cache list of t. */
  function TakeAll(p: Pool, t: nat, k: Class): Pool
    requires HasHead(p, k) && t < |p.cache| && |p.cache[t]| == CLASSES
  {
    var s := p.order[k][0];
    var sp := p.spans[s];
    p.(spans := p.spans[s := sp.(free := [])],
       order := p.order[k := p.order[k][1..]],
       cache := SetCache(p, t, k, sp.free),
       owner := map a | a in p.owner :: if IsFree(p, s, a) then p.owner[a].(place := InCache(t)) else p.owner[a])
  }

  function SetCache(p: Pool, t: nat, k: Class, xs: seq<Addr>): seq<seq<seq<Addr>>>
    requires t < |p.cache| && |p.cache[t]| == CLASSES
  {
    p.cache[t := p.cache[t][k := xs]]
  }

  predicate CacheHas(p: Pool, t: nat, k: Class) {
    t < |p.cache| && |p.cache[t]| == CLASSES && p.cache[t][k] != [] && p.cache[t][k][0] in p.owner
  }

  /** The first cached block leaves the cache, handed out for n bytes. */
  function PopCache(p: Pool, t: nat, k: Class, n: nat): Pool
    requires CacheHas(p, t, k)
  {
    p.(cache := SetCache(p, t, k, p.cache[t][k][1..]), owner := SetPlace(p, p.cache[t][k][0], Out(n)))
  }

  function PushCache(p: Pool, t: nat, k: Class, a: Addr): Pool
    requires a in p.owner && t < |p.cache| && |p.cache[t]| == CLASSES
  {
    p.(cache := SetCache(p, t, k, [a] + p.cache[t][k]), owner := SetPlace(p, a, InCache(t)))
  }

  /** a is handed out and belongs to a span of some small class. */
  predicate OutSmall(p: Pool, a: Addr) {
    && a in p.owner && p.owner[a].place.Out?
    && p.owner[a].span in p.spans && p.spans[p.owner[a].span].kind.Small?
  }

  function ClassOf(p: Pool, a: Addr): Class
    requires OutSmall(p, a)
  {
    p.spans[p.owner[a].span].kind.k
  }

  /** The block returns to the front of its span's free list; a span that was full returns to the front of its class list. */
  function PushFree(p: Pool, a: Addr): Pool
    requires OutSmall(p, a) && |p.order| == CLASSES
  {
    var s := p.owner[a].span;
    var sp := p.spans[s];
    var k := sp.kind.k;
    p.(spans := p.spans[s := sp.(free := [a] + sp.free)],
       order := if sp.free == [] then p.order[k := [s] + p.order[k]] else p.order,
       owner := SetPlace(p, a, InSpan))
  }

  /** The span leaves its list and the page map, and its pages go back to the system. */
  function Unmap(p: Pool, s: Addr): Pool
    requires |p.order| == CLASSES && s in p.spans && p.spans[s].kind.Small? && s in p.order[p.spans[s].kind.k]
  {
    var k := p.spans[s].kind.k;
    p.(spans := p.spans - {s},
       order := p.order[k := Without(p.order[k], s)],
       owner := map a | a in p.owner && p.owner[a].span != s :: p.owner[a])
  }

  /** One block handed back to the global pool: what dealloc_real and each turn of dealloc_batch_nolock do. */
  function GiveBack(p: Pool, a: Addr): Pool
    requires OutSmall(p, a) && |p.order| == CLASSES
  {
    var q := PushFree(p, a);
    var s := p.owner[a].span;
    var k := p.spans[s].kind.k;
    if Idle(q, s) && s in q.order[k] && Last(q.order[k]) != s then Unmap(q, s) else q
  }

  // ---------- Large blocks ----------

  /** alloc_large: the descriptor sits in the slack of the last page if it fits there. */
  function LargeSpan(pg: Addr, n: nat): Span {
    var sz := RoundPage(n);
    if sz - n >= DESC_SIZE then Span(pg, sz - DESC_SIZE, false, Large, []) else Span(pg, sz, true, Large, [])
  }

  function TakeLarge(p: Pool, n: nat, pg: Addr): Pool {
    p.(spans := p.spans[pg := LargeSpan(pg, n)], owner := p.owner[pg := Block(pg, 0, Out(n))])
  }

  function FreeLarge(p: Pool, a: Addr): Pool
    requires a in p.owner
  {
    p.(spans := p.spans - {p.owner[a].span}, owner := p.owner - {a})
  }

  /** What callers hold: address to requested size. */
  function Handed(p: Pool): map<Addr, nat> {
    map a | a in p.owner && p.owner[a].place.Out? :: p.owner[a].place.n
  }
}
