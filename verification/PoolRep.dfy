/** How descriptors, free-list words, list heads and buckets in memory represent the pool state of PoolSpec. */
module PoolRep {
  import opened SizeClasses
  import opened Seqs
  import opened PoolSpec
  import opened PoolInv
  import opened PageMap

  /** MpAllocSpan; a descriptor is named by its sp_base. sl_slot is None for a large block. */
  datatype SpanDesc = SpanDesc(
    sp_base: Addr, sp_size: nat, fly: bool, sl_slot: Option<Class>,
    sl_next: Addr, sl_prev: Addr, nd_free: Addr, nd_nnum: nat)

  /** MpAllocNodeLink: one per-class list of a thread cache. */
  datatype Link = Link(nd_head: Addr, nd_nnum: nat, nd_nmax: nat)

  type Descs = map<Addr, SpanDesc>

  /** The nd_next word of every free or cached block. */
  type Words = map<Addr, Addr>

  function Head(xs: seq<Addr>): Addr {
    if xs == [] then NULL else xs[0]
  }

  function Succ(xs: seq<Addr>, i: nat): Addr {
    if i + 1 < |xs| then xs[i + 1] else NULL
  }

  function Pred(xs: seq<Addr>, i: nat): Addr
    requires i < |xs|
  {
    if i > 0 then xs[i - 1] else NULL
  }

  /** The words thread the blocks xs into one list. */
  ghost predicate Chain(next: Words, xs: seq<Addr>) {
    forall i: nat :: i < |xs| ==> xs[i] in next && next[xs[i]] == Succ(xs, i)
  }

  /** The descriptors link the spans xs into one doubly linked list. */
  ghost predicate Linked(desc: Descs, xs: seq<Addr>) {
    forall i: nat :: i < |xs| ==>
      xs[i] in desc && desc[xs[i]].sl_next == Succ(xs, i) && desc[xs[i]].sl_prev == Pred(xs, i)
  }

  predicate DescOk(d: SpanDesc, s: Span) {
    && d.sp_base == s.base && d.sp_size == s.size && d.fly == s.fly
    && match s.kind
       case Small(k) => d.sl_slot == Some(k) && d.nd_nnum + |s.free| == BlockCount(k) && d.nd_free == Head(s.free)
       case Large => d.sl_slot == None
  }

  ghost predicate DescsRep(desc: Descs, p: Pool) {
    desc.Keys == p.spans.Keys && forall s :: s in p.spans ==> DescOk(desc[s], p.spans[s])
  }

  ghost predicate ListsRep(desc: Descs, sp_head: seq<Addr>, p: Pool) {
    && |sp_head| == |p.order| == CLASSES
    && forall k: Class :: sp_head[k] == Head(p.order[k]) && Linked(desc, p.order[k])
  }

  ghost predicate WordsRep(next: Words, p: Pool) {
    && (forall s :: s in p.spans ==> Chain(next, p.spans[s].free))
    && (forall t: nat, k: Class :: t < |p.cache| && |p.cache[t]| == CLASSES ==> Chain(next, p.cache[t][k]))
  }

  ghost predicate BucketsRep(bucket: map<nat, Addr>, p: Pool) {
    && (forall s :: s in p.spans ==> BucketOf(s) in bucket && bucket[BucketOf(s)] == s)
    && (forall i :: i in bucket ==> bucket[i] in p.spans && BucketOf(bucket[i]) == i)
  }

  ghost predicate LinkRep(l: Link, k: Class, xs: seq<Addr>) {
    l.nd_head == Head(xs) && l.nd_nnum == |xs| && l.nd_nmax == CacheMax(k)
  }

  ghost predicate LinksRep(links: seq<seq<Link>>, p: Pool) {
    && |links| == |p.cache|
    && (forall t: nat :: t < |links| ==> |links[t]| == CLASSES && |p.cache[t]| == CLASSES)
    && (forall t: nat, k: Class :: t < |links| ==> LinkRep(links[t][k], k, p.cache[t][k]))
  }

  // ---------- Page map ----------

  function Ranges(desc: Descs, bucket: map<nat, Addr>): Buckets {
    map i | i in bucket && bucket[i] in desc :: Range(desc[bucket[i]].sp_base, desc[bucket[i]].sp_size)
  }

  lemma RangesFiled(desc: Descs, bucket: map<nat, Addr>, p: Pool)
    requires SpansOk(p) && DescsRep(desc, p) && BucketsRep(bucket, p)
    ensures Filed(Ranges(desc, bucket))
    ensures Ranges(desc, bucket).Keys == bucket.Keys
  {
    forall s | s in p.spans ensures desc[s].sp_base == s && desc[s].sp_size == p.spans[s].size >= SPAN_SIZE {}
    var r := Ranges(desc, bucket);
    forall i, j | i in r && j in r && i != j ensures Apart(r[i], r[j]) {
      RoundPageBounds(p.spans[bucket[i]].size);
      RoundPageBounds(p.spans[bucket[j]].size);
      assert Disjoint(p.spans[bucket[i]], p.spans[bucket[j]]);
    }
  }

  /** Looking up any block of a mapped span finds that span. */
  lemma BlockFindsSpan(desc: Descs, bucket: map<nat, Addr>, p: Pool, a: Addr)
    requires SpansOk(p) && BlocksOk(p) && DescsRep(desc, p) && BucketsRep(bucket, p) && a in p.owner
    ensures p.owner[a].span in p.spans
    ensures FindBucket(Ranges(desc, bucket), a) == Some(BucketOf(p.owner[a].span))
    ensures BucketOf(p.owner[a].span) in bucket && bucket[BucketOf(p.owner[a].span)] == p.owner[a].span
  {
    HomeOf(p, a);
    var s := p.owner[a].span;
    BlockInside(p.spans[s], p.owner[a].idx);
    RangesFiled(desc, bucket, p);
    SmallSpanOrStart(p.spans[s], p.owner[a].idx);
    BucketBounds(s);
    BucketBounds(a);
    FindsTheSpan(Ranges(desc, bucket), a, BucketOf(s));
  }

  /** With the two-level map every block is found as with the flat one exactly if no block lies in a level-2 table
      that was never allocated. */
  lemma TwoLevelsFindBlocks(desc: Descs, bucket: map<nat, Addr>, p: Pool, present: set<nat>)
    requires SpansOk(p) && BlocksOk(p) && DescsRep(desc, p) && BucketsRep(bucket, p)
    ensures (forall a :: a in p.owner ==> TwoLevelFind(present, Ranges(desc, bucket), a) == Some(BucketOf(p.owner[a].span)))
       <==> (forall a :: a in p.owner ==> BucketOf(a) / TABLE in present)
  {
    forall a | a in p.owner
      ensures TwoLevelFind(present, Ranges(desc, bucket), a) == Some(BucketOf(p.owner[a].span)) <==> BucketOf(a) / TABLE in present
    {
      BlockFindsSpan(desc, bucket, p, a);
    }
  }

  lemma SmallSpanOrStart(s: Span, i: nat)
    requires SpanOk(s) && i < Count(s)
    ensures At(s, i) < s.base + SPAN_SIZE
  {
    BlockInside(s, i);
    if s.kind.Large? { assert At(s, 0) == s.base; }
  }

  /** A new span finds its bucket empty. */
  lemma FreshBucket(desc: Descs, bucket: map<nat, Addr>, p: Pool, pg: Addr, size: nat)
    requires SpansOk(p) && DescsRep(desc, p) && BucketsRep(bucket, p) && size >= SPAN_SIZE && Fresh(p, pg, size)
    ensures BucketOf(pg) !in bucket
  {
    RangesFiled(desc, bucket, p);
    FreshApart(desc, bucket, p, pg, size);
    hide SpansOk, DescsRep, BucketsRep, Fresh;
    InsertNeverCollides(Ranges(desc, bucket), Range(pg, size));
  }

  lemma FreshApart(desc: Descs, bucket: map<nat, Addr>, p: Pool, pg: Addr, size: nat)
    requires SpansOk(p) && DescsRep(desc, p) && BucketsRep(bucket, p) && Fresh(p, pg, size)
    ensures forall i :: i in Ranges(desc, bucket) ==> Apart(Ranges(desc, bucket)[i], Range(pg, size))
  {
    RoundPageBounds(size);
    forall i | i in Ranges(desc, bucket) ensures Apart(Ranges(desc, bucket)[i], Range(pg, size)) {
      var s := bucket[i];
      assert DescOk(desc[s], p.spans[s]);
      RoundPageBounds(p.spans[s].size);
    }
  }

  // ---------- Chains ----------

  lemma ChainKept(next: Words, next': Words, xs: seq<Addr>)
    requires Chain(next, xs) && forall a :: a in xs ==> a in next' && (a in next ==> next'[a] == next[a])
    ensures Chain(next', xs)
  {
  }

  lemma ChainPushed(next: Words, a: Addr, xs: seq<Addr>)
    requires Chain(next, xs) && a !in xs
    ensures Chain(next[a := Head(xs)], [a] + xs)
  {
    var ys := [a] + xs;
    var n := next[a := Head(xs)];
    forall i: nat | i < |ys| ensures ys[i] in n && n[ys[i]] == Succ(ys, i) {
      if i > 0 { assert xs[i - 1] in xs; }
    }
  }

  lemma ChainTail(next: Words, xs: seq<Addr>)
    requires Chain(next, xs) && xs != []
    ensures xs[0] in next && next[xs[0]] == Head(xs[1..])
    ensures Chain(next, xs[1..])
  {
    forall i: nat | i < |xs| - 1 ensures xs[1..][i] in next && next[xs[1..][i]] == Succ(xs[1..], i) {
      assert xs[1..][i] == xs[i + 1];
    }
  }

  // ---------- Doubly linked lists ----------

  function SetPrev(desc: Descs, s: Addr, q: Addr): Descs {
    if s in desc then desc[s := desc[s].(sl_prev := q)] else desc
  }

  function SetNext(desc: Descs, s: Addr, q: Addr): Descs {
    if s in desc then desc[s := desc[s].(sl_next := q)] else desc
  }

  /** Span s becomes the first of the list that starts at head. */
  function LinkFront(desc: Descs, s: Addr, head: Addr): Descs {
    SetPrev(SetPrev(SetNext(desc, s, head), s, NULL), head, s)
  }

  lemma LinkedFront(desc: Descs, s: Addr, xs: seq<Addr>)
    requires Linked(desc, xs) && NoDup(xs) && s !in xs && s in desc && NULL !in desc
    ensures Linked(LinkFront(desc, s, Head(xs)), [s] + xs)
  {
    var ys := [s] + xs;
    var d := LinkFront(desc, s, Head(xs));
    forall i: nat | i < |ys| ensures ys[i] in d && d[ys[i]].sl_next == Succ(ys, i) && d[ys[i]].sl_prev == Pred(ys, i) {
      if i > 0 { assert xs[i - 1] in xs; }
    }
  }

  lemma LinkedKept(desc: Descs, desc': Descs, xs: seq<Addr>)
    requires Linked(desc, xs)
    requires forall s :: s in xs && s in desc ==> s in desc' && desc'[s].sl_next == desc[s].sl_next && desc'[s].sl_prev == desc[s].sl_prev
    ensures Linked(desc', xs)
  {
    forall i: nat | i < |xs|
      ensures xs[i] in desc' && desc'[xs[i]].sl_next == Succ(xs, i) && desc'[xs[i]].sl_prev == Pred(xs, i)
    {
      assert xs[i] in xs;
    }
  }

  /** Span s, somewhere on a list, is cut out of it. */
  function CutOut(desc: Descs, s: Addr): Descs
    requires s in desc
  {
    SetNext(SetPrev(desc, desc[s].sl_next, desc[s].sl_prev), desc[s].sl_prev, desc[s].sl_next)
  }

  lemma LinkedCut(desc: Descs, s: Addr, xs: seq<Addr>)
    requires Linked(desc, xs) && NoDup(xs) && s in xs && s in desc && NULL !in desc
    ensures Linked(CutOut(desc, s), Without(xs, s))
    ensures Head(Without(xs, s)) == if desc[s].sl_prev == NULL then desc[s].sl_next else Head(xs)
    ensures desc[s].sl_next == NULL <==> s == xs[|xs| - 1]
    ensures desc[s].sl_prev == NULL <==> s == xs[0]
    ensures desc[s].sl_next != NULL ==> desc[s].sl_next in xs
    ensures desc[s].sl_prev != NULL ==> desc[s].sl_prev in xs
  {
    var j := Index(xs, s);
    var ys := Without(xs, s);
    var d := CutOut(desc, s);
    assert j > 0 ==> xs[j - 1] in desc;
    assert j + 1 < |xs| ==> xs[j + 1] in desc;
    forall i: nat | i < |ys| ensures ys[i] in d && d[ys[i]].sl_next == Succ(ys, i) && d[ys[i]].sl_prev == Pred(ys, i) {
      CutAt(desc, s, xs, i);
    }
  }

  lemma CutFields(desc: Descs, s: Addr, x: Addr)
    requires s in desc && x in desc
    ensures x in CutOut(desc, s)
    ensures CutOut(desc, s)[x] == desc[x].(
      sl_next := if x == desc[s].sl_prev then desc[s].sl_next else desc[x].sl_next,
      sl_prev := if x == desc[s].sl_next then desc[s].sl_prev else desc[x].sl_prev)
  {
  }

  lemma CutAt(desc: Descs, s: Addr, xs: seq<Addr>, i: nat)
    requires Linked(desc, xs) && NoDup(xs) && s in xs && s in desc && NULL !in desc && i < |xs| - 1
    ensures var ys := Without(xs, s); var d := CutOut(desc, s);
      i < |ys| && ys[i] in d && d[ys[i]].sl_next == Succ(ys, i) && d[ys[i]].sl_prev == Pred(ys, i)
  {
    hide CutOut, Linked, Without, NoDup, Succ, Pred;
    var j := Index(xs, s);
    var e := if i < j then i else i + 1;
    WithoutLinks(xs, s, i);
    LinkedAt(desc, xs, e);
    LinkedAt(desc, xs, j);
    CutFields(desc, s, xs[e]);
    Neighbours(xs, e, j);
  }

  lemma Neighbours(xs: seq<Addr>, e: nat, j: nat)
    requires NoDup(xs) && e < |xs| && j < |xs| && xs[e] != NULL
    ensures xs[e] == Pred(xs, j) <==> e + 1 == j
    ensures xs[e] == Succ(xs, j) <==> e == j + 1
  {
  }

  lemma WithoutLinks(xs: seq<Addr>, s: Addr, i: nat)
    requires s in xs && i < |xs| - 1
    ensures var j, ys := Index(xs, s), Without(xs, s); var e := if i < j then i else i + 1;
      && i < |ys| && ys[i] == xs[e]
      && Succ(ys, i) == (if e + 1 == j then Succ(xs, j) else Succ(xs, e))
      && Pred(ys, i) == if e == j + 1 then Pred(xs, j) else Pred(xs, e)
  {
  }

  lemma LinkedAt(desc: Descs, xs: seq<Addr>, i: nat)
    requires Linked(desc, xs) && i < |xs|
    ensures xs[i] in desc && desc[xs[i]].sl_next == Succ(xs, i) && desc[xs[i]].sl_prev == Pred(xs, i)
    ensures NULL !in desc ==> xs[i] != NULL
  {
  }
}
