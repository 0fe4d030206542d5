/**
  The contents of the pages the pool has mapped: one 64-bit word at each multiple of 8. The pool keeps its nd_next
  words there, in blocks nobody holds, and callers their data, in blocks they hold.
 */
module PoolBytes {
  import opened SizeClasses
  import opened Seqs
  import opened PoolSpec
  import opened PoolInv
  import opened PoolOps
  import opened PageMap
  import opened PoolRep
  import opened PoolRepSteps

  const WORD: nat := 8

  predicate OnSpan(s: Span, x: Addr) {
    s.base <= x < s.base + s.size && x % WORD == 0
  }

  predicate Mapped(p: Pool, s: Addr, x: Addr) {
    s in p.spans && OnSpan(p.spans[s], x)
  }

  /** Memory holds exactly the words of the mapped spans. */
  ghost predicate Backed(p: Pool, m: Words) {
    && (forall s, x :: Mapped(p, s, x) ==> x in m)
    && (forall x :: x in m ==> exists s :: Mapped(p, s, x))
  }

  predicate InBlock(a: Addr, n: nat, x: Addr) {
    a <= x < a + n && x % WORD == 0
  }

  /** The words of the blocks h, given by address and length, are mapped and have not changed. */
  ghost predicate Undisturbed(h: map<Addr, nat>, m: Words, m2: Words) {
    forall a, x :: a in h && InBlock(a, h[a], x) ==> x in m && x in m2 && m2[x] == m[x]
  }

  /** The byte at address x, on a little-endian machine; 0 where nothing is mapped. */
  function Byte(m: Words, x: Addr): nat {
    if x - x % WORD in m then m[x - x % WORD] / Pow256(x % WORD) % 256 else 0
  }

  function Pow256(j: nat): (r: nat)
    ensures r > 0
  {
    if j == 0 then 1 else 256 * Pow256(j - 1)
  }

  /** n bytes from a on can be read. */
  ghost predicate Readable(m: Words, a: Addr, n: nat) {
    a % WORD == 0 && forall x :: InBlock(a, n, x) ==> x in m
  }

  predicate KeepsByte(m: Words, a: Addr, m2: Words, r: Addr, i: nat) {
    Byte(m2, r + i) == Byte(m, a + i)
  }

  predicate ZeroByte(m: Words, a: Addr, i: nat) {
    Byte(m, a + i) == 0
  }

  /** The n bytes at r in m2 are those at a in m. */
  ghost predicate KeepsBytes(m: Words, a: Addr, m2: Words, r: Addr, n: nat) {
    forall i: nat :: i < n ==> KeepsByte(m, a, m2, r, i)
  }

  ghost predicate ZeroBytes(m: Words, a: Addr, from: nat, to: nat) {
    forall i: nat :: from <= i < to ==> ZeroByte(m, a, i)
  }

  predicate CutByte(m: Words, a: Addr, m2: Words, r: Addr, n0: nat, i: nat) {
    Byte(m2, r + i) == if i < n0 then Byte(m, a + i) else 0
  }

  /** Of the n bytes at a in m the first n0 stand at r in m2, and zeros behind them. */
  ghost predicate CutBytes(m: Words, a: Addr, m2: Words, r: Addr, n0: nat, n: nat) {
    forall i: nat :: i < n ==> CutByte(m, a, m2, r, n0, i)
  }

  /** The bytes are kept exactly if none behind the first n0 was other than zero. */
  lemma KeptIff(m: Words, a: Addr, m2: Words, r: Addr, n0: nat, n: nat)
    requires CutBytes(m, a, m2, r, n0, n)
    ensures KeepsBytes(m, a, m2, r, n) <==> ZeroBytes(m, a, n0, n)
  {
    hide Byte;
    forall i: nat | i < n ensures KeepsByte(m, a, m2, r, i) <==> i < n0 || ZeroByte(m, a, i) { assert CutByte(m, a, m2, r, n0, i); }
  }

  lemma SameBytes(m: Words, a: Addr, n0: nat, n: nat)
    requires n <= n0
    ensures CutBytes(m, a, m, a, n0, n)
  {
  }

  function Least(i: nat, j: nat): nat {
    if i <= j then i else j
  }

  // ---------- Where blocks lie ----------

  lemma UnitAligned(k: Class)
    ensures Unit(k) % WORD == 0
  {
  }

  lemma TimesAligned(i: nat, u: nat)
    requires u % WORD == 0
    ensures (i * u) % WORD == 0
  {
    var v := u / WORD;
    assert i * u == WORD * (i * v) by { assert u == WORD * v; assert i * (WORD * v) == WORD * (i * v); }
  }

  lemma AtAligned(s: Span, i: nat)
    requires SpanOk(s)
    ensures At(s, i) % WORD == 0 && UnitOf(s) % WORD == 0
  {
    if s.kind.Small? { UnitAligned(s.kind.k); }
    hide Unit;
    TimesAligned(i, UnitOf(s));
  }

  lemma CapacityAligned(s: Span)
    requires SpanOk(s)
    ensures Capacity(s) % WORD == 0
  {
    hide Unit, Fly;
    match s.kind {
      case Small(k) => UnitAligned(k);
      case Large => LessDesc(s.size);
    }
  }

  lemma LessDesc(size: nat)
    requires size % 8 == 0
    ensures (size - DESC_SIZE) % WORD == 0 && size % WORD == 0
  {
  }

  /** Blocks start at multiples of 8, and so do the lengths realloc goes by. */
  lemma BlockAligned(p: Pool, a: Addr)
    requires SpansOk(p) && BlocksOk(p) && a in p.owner
    ensures a % WORD == 0
    ensures p.owner[a].span in p.spans && Capacity(p.spans[p.owner[a].span]) % WORD == 0
  {
    HomeOf(p, a);
    assert SpanOk(p.spans[p.owner[a].span]);
    hide SpansOk, BlocksOk, SpanOk, At, Capacity;
    AtAligned(p.spans[p.owner[a].span], p.owner[a].idx);
    CapacityAligned(p.spans[p.owner[a].span]);
  }

  /** A block's words are words of its span. */
  lemma BlockMapped(p: Pool, a: Addr, x: Addr)
    requires SpansOk(p) && BlocksOk(p) && a in p.owner
    ensures p.owner[a].span in p.spans
    ensures InBlock(a, UnitOf(p.spans[p.owner[a].span]), x) ==> Mapped(p, p.owner[a].span, x)
  {
    HomeOf(p, a);
    assert SpanOk(p.spans[p.owner[a].span]);
    BlockInside(p.spans[p.owner[a].span], p.owner[a].idx);
  }

  lemma HandedMapped(p: Pool, a: Addr, x: Addr)
    requires SpansOk(p) && BlocksOk(p) && a in Handed(p) && InBlock(a, Handed(p)[a], x)
    ensures Mapped(p, p.owner[a].span, x)
  {
    HomeOf(p, a);
    BlockMapped(p, a, x);
  }

  lemma HandedInMemory(p: Pool, m: Words, a: Addr, x: Addr)
    requires SpansOk(p) && BlocksOk(p) && Backed(p, m) && a in Handed(p) && InBlock(a, Handed(p)[a], x)
    ensures a in p.owner && p.owner[a].span in p.spans && Mapped(p, p.owner[a].span, x) && x in m
  {
    HandedMapped(p, a, x);
  }

  /** No two blocks share a word. */
  lemma BlocksApart(p: Pool, a: Addr, b: Addr, x: Addr)
    requires SpansOk(p) && BlocksOk(p) && a in p.owner && b in p.owner && a != b
    requires p.owner[a].span in p.spans && p.owner[b].span in p.spans
    requires InBlock(a, UnitOf(p.spans[p.owner[a].span]), x)
    ensures !InBlock(b, UnitOf(p.spans[p.owner[b].span]), x)
  {
    HomeOf(p, a);
    HomeOf(p, b);
    BlockMapped(p, a, x);
    BlockMapped(p, b, x);
    var s, t := p.owner[a].span, p.owner[b].span;
    if s == t {
      UnitsApart(p.spans[s], p.owner[a].idx, p.owner[b].idx);
    } else {
      SpansApart(p, s, t, x);
    }
  }

  lemma UnitsApart(s: Span, i: nat, j: nat)
    requires i != j
    ensures At(s, i) + UnitOf(s) <= At(s, j) || At(s, j) + UnitOf(s) <= At(s, i)
  {
    AtStep(s, i);
    AtStep(s, j);
    if i < j { AtMono(s, i + 1, j); } else { AtMono(s, j + 1, i); }
  }

  lemma SpansApart(p: Pool, s: Addr, t: Addr, x: Addr)
    requires SpansOk(p) && s in p.spans && t in p.spans && s != t && Mapped(p, s, x)
    ensures !(t <= x < t + RoundPage(p.spans[t].size)) && !Mapped(p, t, x)
  {
    RoundPageBounds(p.spans[s].size);
    RoundPageBounds(p.spans[t].size);
    assert Disjoint(p.spans[s], p.spans[t]);
  }

  // ---------- Composing ----------

  lemma Untouched(h: map<Addr, nat>, p: Pool, m: Words)
    requires SpansOk(p) && BlocksOk(p) && Backed(p, m) && Within(h, Handed(p))
    ensures Undisturbed(h, m, m)
  {
    forall a, x | a in h && InBlock(a, h[a], x) ensures x in m { HandedMapped(p, a, x); }
  }

  predicate Within(h: map<Addr, nat>, g: map<Addr, nat>) {
    forall a :: a in h ==> a in g && g[a] == h[a]
  }

  lemma UndisturbedTwice(h: map<Addr, nat>, g: map<Addr, nat>, m: Words, m2: Words, m3: Words)
    requires Undisturbed(h, m, m2) && Undisturbed(g, m2, m3) && Within(h, g)
    ensures Undisturbed(h, m, m3)
  {
  }

  lemma UndisturbedWithin(h: map<Addr, nat>, g: map<Addr, nat>, m: Words, m2: Words)
    requires Undisturbed(g, m, m2) && Within(h, g)
    ensures Undisturbed(h, m, m2)
  {
  }

  // ---------- What the pool does to memory ----------

  ghost predicate SameRanges(p: Pool, q: Pool) {
    && q.spans.Keys == p.spans.Keys
    && forall s :: s in p.spans ==> q.spans[s].base == p.spans[s].base && q.spans[s].size == p.spans[s].size
  }

  lemma BackedSame(p: Pool, q: Pool, m: Words)
    requires Backed(p, m) && SameRanges(p, q)
    ensures Backed(q, m)
  {
    forall s, x ensures Mapped(p, s, x) <==> Mapped(q, s, x) { assert s in p.spans <==> s in q.spans; }
  }

  /** page_alloc gives pages of zeros. */
  function Zeros(pg: Addr, size: nat): Words {
    map x: Addr | pg <= x < pg + size && x % WORD == 0 :: 0
  }

  lemma PagesAdded(p: Pool, q: Pool, m: Words, pg: Addr, size: nat)
    requires SpansOk(p) && BlocksOk(p) && Backed(p, m) && Fresh(p, pg, size) && size > 0
    requires q.spans.Keys == p.spans.Keys + {pg} && q.spans[pg].base == pg && q.spans[pg].size == size
    requires forall s :: s in p.spans && s != pg ==> q.spans[s] == p.spans[s]
    ensures Backed(q, m + Zeros(pg, size))
    ensures Undisturbed(Handed(p), m, m + Zeros(pg, size))
    ensures forall x :: x in m ==> !(pg <= x < pg + size)
  {
    hide SpansOk, BlocksOk, Backed, InBlock, RoundPage, OnSpan, Mapped, Handed, Fresh;
    NotOnPages(p, pg, size);
    NotInMemory(p, m, pg, size);
    BackedAdded(p, q, m, pg, size);
    var m2 := m + Zeros(pg, size);
    forall a, x | a in Handed(p) && InBlock(a, Handed(p)[a], x) ensures x in m && x in m2 && m2[x] == m[x] {
      HandedInMemory(p, m, a, x);
    }
  }

  lemma NotOnPages(p: Pool, pg: Addr, size: nat)
    requires SpansOk(p) && Fresh(p, pg, size) && size > 0
    ensures pg !in p.spans && forall s: Addr, x: Addr :: Mapped(p, s, x) ==> !(pg <= x < pg + size)
  {
    RoundPageBounds(size);
    forall s: Addr, x: Addr | Mapped(p, s, x) ensures !(pg <= x < pg + size) { RoundPageBounds(p.spans[s].size); }
    if pg in p.spans { RoundPageBounds(p.spans[pg].size); }
  }

  lemma NotInMemory(p: Pool, m: Words, pg: Addr, size: nat)
    requires Backed(p, m) && forall s: Addr, x: Addr :: Mapped(p, s, x) ==> !(pg <= x < pg + size)
    ensures forall x :: x in m ==> !(pg <= x < pg + size)
  {
  }

  lemma MappedInMemory(p: Pool, m: Words, s: Addr, x: Addr)
    requires Backed(p, m) && Mapped(p, s, x)
    ensures x in m
  {
  }

  lemma HandedInUnit(p: Pool, a: Addr, x: Addr)
    requires BlocksOk(p) && a in Handed(p) && InBlock(a, Handed(p)[a], x)
    ensures a in p.owner && p.owner[a].span in p.spans && InBlock(a, UnitOf(p.spans[p.owner[a].span]), x)
  {
    HomeOf(p, a);
  }

  lemma BackedAdded(p: Pool, q: Pool, m: Words, pg: Addr, size: nat)
    requires Backed(p, m) && pg !in p.spans
    requires q.spans.Keys == p.spans.Keys + {pg} && q.spans[pg].base == pg && q.spans[pg].size == size
    requires forall s :: s in p.spans ==> q.spans[s] == p.spans[s]
    ensures Backed(q, m + Zeros(pg, size))
  {
    var m2 := m + Zeros(pg, size);
    forall s: Addr, x: Addr | Mapped(q, s, x) ensures x in m2 {
      assert s in q.spans.Keys;
      if s != pg { assert Mapped(p, s, x); }
    }
    forall x | x in m2 ensures exists s :: Mapped(q, s, x) {
      if x in m {
        var s :| Mapped(p, s, x);
        assert s in p.spans.Keys;
        assert Mapped(q, s, x);
      } else {
        assert Mapped(q, pg, x);
      }
    }
  }

  /** A block's first word is mapped. */
  lemma FirstMapped(p: Pool, a: Addr)
    requires SpansOk(p) && BlocksOk(p) && a in p.owner
    ensures p.owner[a].span in p.spans && InBlock(a, UnitOf(p.spans[p.owner[a].span]), a) && Mapped(p, p.owner[a].span, a)
  {
    BlockAligned(p, a);
    HomeOf(p, a);
    assert SpanOk(p.spans[p.owner[a].span]);
    BlockMapped(p, a, a);
  }

  /** Writing the first word of a block that is in nobody's hands. */
  lemma WordWritten(p: Pool, m: Words, h: map<Addr, nat>, a: Addr, v: Addr)
    requires SpansOk(p) && BlocksOk(p) && Backed(p, m) && a in p.owner && Within(h, Handed(p)) && a !in h
    ensures a in m && Backed(p, m[a := v]) && Undisturbed(h, m, m[a := v])
  {
    hide SpansOk, BlocksOk, Backed, InBlock, RoundPage, OnSpan, Mapped, Handed;
    FirstMapped(p, a);
    MappedInMemory(p, m, p.owner[a].span, a);
    BackedKeys(p, m, m[a := v]);
    forall b, x | b in h && InBlock(b, h[b], x) ensures x in m && x != a {
      HandedInMemory(p, m, b, x);
      if x == a { HandedInUnit(p, b, x); BlocksApart(p, a, b, a); }
    }
  }

  lemma BackedKeys(p: Pool, m: Words, m2: Words)
    requires Backed(p, m) && m2.Keys == m.Keys
    ensures Backed(p, m2)
  {
  }

  /** Pages of a span none of whose blocks is handed out are given back. */
  lemma PagesFreed(p: Pool, q: Pool, m: Words, h: map<Addr, nat>, s: Addr)
    requires SpansOk(p) && BlocksOk(p) && Backed(p, m) && Within(h, Handed(p)) && s in p.spans && q.spans == p.spans - {s}
    requires forall a :: a in h ==> p.owner[a].span != s
    ensures Backed(q, Unmapped(m, s, p.spans[s].size)) && Undisturbed(h, m, Unmapped(m, s, p.spans[s].size))
  {
    hide SpansOk, BlocksOk, Backed, InBlock, RoundPage, OnSpan, Mapped, Handed;
    BackedFreed(p, q, m, s);
    var m2 := Unmapped(m, s, p.spans[s].size);
    forall a, x | a in h && InBlock(a, h[a], x) ensures x in m && x in m2 && m2[x] == m[x] {
      HandedInMemory(p, m, a, x);
      SpansApart(p, p.owner[a].span, s, x);
    }
  }

  lemma BackedFreed(p: Pool, q: Pool, m: Words, s: Addr)
    requires SpansOk(p) && Backed(p, m) && s in p.spans && q.spans == p.spans - {s}
    ensures Backed(q, Unmapped(m, s, p.spans[s].size))
  {
    hide SpansOk, RoundPage, OnSpan, Unmapped;
    var m2 := Unmapped(m, s, p.spans[s].size);
    forall r: Addr, x: Addr | Mapped(q, r, x) ensures x in m2 { OtherPagesStay(p, q, m, s, r, x); }
    forall x | x in m2 ensures exists r :: Mapped(q, r, x) {
      UnmappedGone(m, p, s, x);
      var r :| Mapped(p, r, x);
      assert Mapped(q, r, x);
    }
  }

  lemma OtherPagesStay(p: Pool, q: Pool, m: Words, s: Addr, r: Addr, x: Addr)
    requires SpansOk(p) && Backed(p, m) && s in p.spans && q.spans == p.spans - {s} && Mapped(q, r, x)
    ensures x in Unmapped(m, s, p.spans[s].size)
  {
    assert Mapped(p, r, x);
    hide SpansOk, RoundPage, Backed, OnSpan;
    MappedInMemory(p, m, r, x);
    SpansApart(p, r, s, x);
  }

  lemma UnmappedGone(m: Words, p: Pool, s: Addr, x: Addr)
    requires SpansOk(p) && s in p.spans && x in Unmapped(m, s, p.spans[s].size)
    ensures x in m && !Mapped(p, s, x)
  {
    SpanCovered(p, s);
  }

  lemma SpanCovered(p: Pool, s: Addr)
    requires SpansOk(p) && s in p.spans
    ensures forall x: Addr :: Mapped(p, s, x) ==> s <= x < s + RoundPage(p.spans[s].size)
  {
    RoundPageBounds(p.spans[s].size);
  }

  // ---------- The steps of the pool ----------

  /** create_span_nolock: zeroed pages, and then words written in the new blocks only. */
  lemma CreatedMemory(p: Pool, k: Class, pg: Addr, m0: Words, m1: Words)
    requires Inv(p) && Backed(p, m0) && Fresh(p, pg, SPAN_SIZE)
    requires m1.Keys == (m0 + Zeros(pg, SPAN_SIZE)).Keys && forall x :: x in m0 ==> m1[x] == m0[x]
    ensures Backed(CreateSpan(p, k, pg), m1) && Undisturbed(Handed(p), m0, m1)
  {
    hide SpansOk, BlocksOk, FreeListsOk, CachesOk, Backed, InBlock, Fresh, Handed, NewBlocks;
    var q := CreateSpan(p, k, pg);
    PagesAdded(p, q, m0, pg, SPAN_SIZE);
    BackedKeys(q, m0 + Zeros(pg, SPAN_SIZE), m1);
    forall a, x | a in Handed(p) && InBlock(a, Handed(p)[a], x) ensures x in m0 && x in m1 && m1[x] == m0[x] {
      HandedInMemory(p, m0, a, x);
    }
  }

  lemma NodesOnPages(pg: Addr, k: Class)
    requires 0 < pg && pg % PAGE_SIZE == 0
    ensures forall a :: a in NewSpan(pg, k).free ==> a in Zeros(pg, SPAN_SIZE)
  {
    NewSpanOk(pg, k);
    var s := NewSpan(pg, k);
    forall a | a in s.free ensures a in Zeros(pg, SPAN_SIZE) {
      var i := Index(s.free, a);
      BlockInside(s, i);
      AtAligned(s, i);
      assert UnitOf(s) > 0;
    }
  }

  lemma LargeMemory(p: Pool, n: nat, pg: Addr, m: Words)
    requires Inv(p) && Backed(p, m) && n > SPAN_SIZE && Fresh(p, pg, n)
    ensures var m2 := m + Zeros(pg, LargeSpan(pg, n).size);
      Backed(TakeLarge(p, n, pg), m2) && Undisturbed(Handed(p), m, m2) && forall x :: InBlock(pg, n, x) ==> x in m2 && m2[x] == 0
    ensures forall x :: x in m ==> !(pg <= x < pg + LargeSpan(pg, n).size)
  {
    var s := LargeSpan(pg, n);
    RoundPageBounds(n);
    RoundPageBounds(s.size);
    assert n <= s.size && RoundPage(s.size) == RoundPage(n);
    hide SpansOk, BlocksOk, OrderOk, FreeListsOk, CachesOk, Backed, Handed, RoundPage;
    PagesAdded(p, TakeLarge(p, n, pg), m, pg, s.size);
  }

  lemma ReturnedMemory(p: Pool, m: Words, a: Addr, v: Addr)
    requires Inv(p) && Backed(p, m) && OutSmall(p, a)
    ensures a in m && Backed(PushFree(p, a), m[a := v]) && Undisturbed(Handed(p) - {a}, m, m[a := v])
  {
    hide SpansOk, BlocksOk, FreeListsOk, CachesOk, Backed, Undisturbed;
    WordWritten(p, m, Handed(p) - {a}, a, v);
    BackedSame(p, PushFree(p, a), m[a := v]);
  }

  lemma CachedMemory(p: Pool, m: Words, t: nat, k: Class, a: Addr, v: Addr)
    requires Inv(p) && Backed(p, m) && OutSmall(p, a) && t < |p.cache| && |p.cache[t]| == CLASSES
    ensures a in m && Backed(PushCache(p, t, k, a), m[a := v]) && Undisturbed(Handed(p) - {a}, m, m[a := v])
  {
    hide SpansOk, BlocksOk, FreeListsOk, CachesOk, OrderOk, Backed, Undisturbed;
    WordWritten(p, m, Handed(p) - {a}, a, v);
    BackedSame(p, PushCache(p, t, k, a), m[a := v]);
  }

  /** Unmapping a span without blocks in use. */
  lemma UnmappedMemory(p: Pool, m: Words, s: Addr)
    requires Inv(p) && Backed(p, m) && Idle(p, s) && s in p.order[p.spans[s].kind.k]
    ensures Backed(Unmap(p, s), Unmapped(m, s, p.spans[s].size)) && Undisturbed(Handed(p), m, Unmapped(m, s, p.spans[s].size))
  {
    IdleIsAllFree(p, s);
    hide SpansOk, BlocksOk, FreeListsOk, CachesOk, OrderOk, Backed, Undisturbed, Idle;
    PagesFreed(p, Unmap(p, s), m, Handed(p), s);
  }

  lemma FreedMemory(p: Pool, m: Words, a: Addr)
    requires Inv(p) && Backed(p, m) && a in Handed(p) && !OutSmall(p, a)
    ensures p.owner[a].span == a && a in p.spans
    ensures var m2 := Unmapped(m, a, p.spans[a].size);
      Backed(FreeLarge(p, a), m2) && Undisturbed(Handed(p) - {a}, m, m2)
  {
    LargeBlock(p, a);
    OnlyBlock(p, a);
    hide SpansOk, BlocksOk, FreeListsOk, CachesOk, OrderOk, Backed, Undisturbed;
    PagesFreed(p, FreeLarge(p, a), m, Handed(p) - {a}, a);
  }

  lemma OnlyBlock(p: Pool, a: Addr)
    requires BlocksOk(p) && a in p.owner && a in p.spans && p.owner[a].span == a && p.spans[a].kind.Large? && p.spans[a].base == a
    ensures forall b :: b in p.owner && p.owner[b].span == a ==> b == a
  {
    forall b | b in p.owner && p.owner[b].span == a ensures b == a { HomeOf(p, b); }
  }

  /** The pool's words lie in blocks nobody holds: whatever happens to other words, memory still represents the pool. */
  lemma RepSameWords(desc: Descs, m: Words, m2: Words, bucket: map<nat, Addr>, sp_head: seq<Addr>, p: Pool)
    requires FreeListsOk(p) && CachesOk(p) && Rep(desc, m, bucket, sp_head, p)
    requires forall a :: a in p.owner && !p.owner[a].place.Out? && a in m ==> a in m2 && m2[a] == m[a]
    ensures Rep(desc, m2, bucket, sp_head, p)
  {
    forall s | s in p.spans ensures Chain(m2, p.spans[s].free) {
      assert FreeListOk(p, s) && Chain(m, p.spans[s].free);
      forall a | a in p.spans[s].free ensures a in m2 && m2[a] == m[a] {
        assert IsFree(p, s, a);
        ChainHas(m, p.spans[s].free, a);
      }
    }
    forall t: nat, k: Class | t < |p.cache| ensures Chain(m2, p.cache[t][k]) {
      assert CacheListOk(p, t, k) && Chain(m, p.cache[t][k]);
      forall a | a in p.cache[t][k] ensures a in m2 && m2[a] == m[a] {
        assert IsCached(p, t, k, a);
        ChainHas(m, p.cache[t][k], a);
      }
    }
  }

  /** Writing inside a block its holder owns disturbs neither the pool nor anybody else. */
  lemma OwnWords(desc: Descs, m: Words, m2: Words, bucket: map<nat, Addr>, sp_head: seq<Addr>, p: Pool, r: Addr)
    requires Inv(p) && Backed(p, m) && Rep(desc, m, bucket, sp_head, p) && r in Handed(p) && p.owner[r].span in p.spans
    requires m2.Keys == m.Keys
    requires forall x :: x in m && !InBlock(r, UnitOf(p.spans[p.owner[r].span]), x) ==> m2[x] == m[x]
    ensures Backed(p, m2) && Rep(desc, m2, bucket, sp_head, p) && Undisturbed(Handed(p) - {r}, m, m2)
  {
    hide SpansOk, BlocksOk, OrderOk, InBlock, Backed, Mapped, Rep, OnSpan, UnitOf;
    BackedKeys(p, m, m2);
    NotHeldKept(p, m, m2, r);
    RepSameWords(desc, m, m2, bucket, sp_head, p);
    OthersKept(p, m, m2, r);
  }

  lemma NotHeldKept(p: Pool, m: Words, m2: Words, r: Addr)
    requires SpansOk(p) && BlocksOk(p) && r in Handed(p) && p.owner[r].span in p.spans && m2.Keys == m.Keys
    requires forall x :: x in m && !InBlock(r, UnitOf(p.spans[p.owner[r].span]), x) ==> m2[x] == m[x]
    ensures forall a :: a in p.owner && !p.owner[a].place.Out? && a in m ==> a in m2 && m2[a] == m[a]
  {
    hide SpansOk, BlocksOk, InBlock, Mapped, UnitOf;
    forall a | a in p.owner && !p.owner[a].place.Out? && a in m ensures a in m2 && m2[a] == m[a] {
      FirstMapped(p, a);
      BlocksApart(p, a, r, a);
    }
  }

  lemma OthersKept(p: Pool, m: Words, m2: Words, r: Addr)
    requires SpansOk(p) && BlocksOk(p) && Backed(p, m) && r in Handed(p) && p.owner[r].span in p.spans && m2.Keys == m.Keys
    requires forall x :: x in m && !InBlock(r, UnitOf(p.spans[p.owner[r].span]), x) ==> m2[x] == m[x]
    ensures Undisturbed(Handed(p) - {r}, m, m2)
  {
    hide SpansOk, BlocksOk, Backed, InBlock, Mapped, UnitOf;
    forall b, x | b in Handed(p) - {r} && InBlock(b, (Handed(p) - {r})[b], x) ensures x in m && x in m2 && m2[x] == m[x] {
      HandedInMemory(p, m, b, x);
      HandedInUnit(p, b, x);
      BlocksApart(p, b, r, x);
    }
  }

  lemma LargeRep(desc: Descs, m: Words, bucket: map<nat, Addr>, sp_head: seq<Addr>, p: Pool, n: nat, pg: Addr)
    requires Inv(p) && Rep(desc, m, bucket, sp_head, p) && n > SPAN_SIZE && Fresh(p, pg, n)
    requires forall x :: x in m ==> !(pg <= x < pg + LargeSpan(pg, n).size)
    ensures BucketOf(pg) !in bucket
    ensures Rep(desc[pg := LargeDesc(pg, n)], m + Zeros(pg, LargeSpan(pg, n).size), bucket[BucketOf(pg) := pg], sp_head, TakeLarge(p, n, pg))
  {
    hide LargeDesc, SpansOk, BlocksOk, OrderOk, Rep, Fresh, Linked, Chain;
    TakeLargeRep(desc, m, bucket, sp_head, p, n, pg);
    TakeLargeKeepsInv(p, n, pg);
    RepSameWords(desc[pg := LargeDesc(pg, n)], m, m + Zeros(pg, LargeSpan(pg, n).size), bucket[BucketOf(pg) := pg], sp_head, TakeLarge(p, n, pg));
  }

  lemma TakeOneMemory(p: Pool, k: Class, n: nat, m: Words)
    requires HasHead(p, k) && Backed(p, m)
    ensures Backed(TakeOne(p, k, n), m)
  {
    BackedSame(p, TakeOne(p, k, n), m);
  }

  lemma TakeAllMemory(p: Pool, t: nat, k: Class, m: Words)
    requires HasHead(p, k) && t < |p.cache| && |p.cache[t]| == CLASSES && Backed(p, m)
    ensures Backed(TakeAll(p, t, k), m)
  {
    BackedSame(p, TakeAll(p, t, k), m);
  }

  lemma PopMemory(p: Pool, t: nat, k: Class, n: nat, m: Words)
    requires CacheHas(p, t, k) && Backed(p, m)
    ensures Backed(PopCache(p, t, k, n), m)
  {
    BackedSame(p, PopCache(p, t, k, n), m);
  }

  lemma PushFreeOut(p: Pool, a: Addr)
    requires OutSmall(p, a) && |p.order| == CLASSES
    ensures Within(Handed(p) - {a}, Handed(PushFree(p, a)))
  {
  }

  lemma PushCacheOut(p: Pool, t: nat, k: Class, a: Addr)
    requires OutSmall(p, a) && t < |p.cache| && |p.cache[t]| == CLASSES
    ensures Within(Handed(p) - {a}, Handed(PushCache(p, t, k, a)))
  {
  }

  /** A popped block was nobody's. */
  lemma PoppedOut(p: Pool, t: nat, k: Class)
    requires Inv(p) && CacheHas(p, t, k)
    ensures Within(Handed(p), Handed(PopCache(p, t, k, 0)) - {p.cache[t][k][0]})
  {
    assert CacheListOk(p, t, k) && p.cache[t][k][0] in p.cache[t][k];
    assert IsCached(p, t, k, p.cache[t][k][0]);
  }

  lemma SweptMemory(p: Pool, m: Words, s: Addr)
    requires Inv(p) && Backed(p, m) && Idle(p, s) && s in p.order[p.spans[s].kind.k]
    ensures Backed(Unmap(p, s), Unmapped(m, s, p.spans[s].size)) && Undisturbed(Handed(p), m, Unmapped(m, s, p.spans[s].size))
    ensures Handed(Unmap(p, s)) == Handed(p)
  {
    UnmappedMemory(p, m, s);
    IdleIsAllFree(p, s);
    UnmapHanded(p, s);
  }

  // ---------- realloc ----------

  /** A caller can read what it asked for. */
  lemma BlockReadable(p: Pool, m: Words, a: Addr)
    requires Inv(p) && Backed(p, m) && a in Handed(p)
    ensures Readable(m, a, Handed(p)[a])
  {
    BlockAligned(p, a);
    hide SpansOk, BlocksOk, OrderOk, FreeListsOk, CachesOk, Backed, InBlock;
    forall x | InBlock(a, Handed(p)[a], x) ensures x in m { HandedInMemory(p, m, a, x); }
  }

  /** The part memcpy copies can be read, and written in any block of more than that size. */
  lemma UnitReadable(p: Pool, m: Words, a: Addr)
    requires Inv(p) && Backed(p, m) && a in p.owner
    ensures p.owner[a].span in p.spans && Readable(m, a, UnitOf(p.spans[p.owner[a].span]))
  {
    BlockAligned(p, a);
    hide OrderOk, FreeListsOk, CachesOk, Backed, SpansOk, BlocksOk;
    forall x | InBlock(a, UnitOf(p.spans[p.owner[a].span]), x) ensures x in m {
      BlockMapped(p, a, x);
      MappedInMemory(p, m, p.owner[a].span, x);
    }
  }

  lemma CapacityBig(s: Span)
    requires SpanOk(s)
    ensures UnitOf(s) > Capacity(s) ==> Capacity(s) > SPAN_SIZE
  {
  }

  /** Only a large block is asked for more than realloc takes it to hold, and then that is more than 1 MB. */
  lemma LongIsLarge(p: Pool, a: Addr)
    requires SpansOk(p) && BlocksOk(p) && a in Handed(p)
    ensures p.owner[a].span in p.spans
    ensures Handed(p)[a] > Capacity(p.spans[p.owner[a].span]) ==> Capacity(p.spans[p.owner[a].span]) > SPAN_SIZE
  {
    HomeOf(p, a);
    assert SpanOk(p.spans[p.owner[a].span]);
    CapacityBig(p.spans[p.owner[a].span]);
    hide SpansOk, BlocksOk, SpanOk, Capacity, UnitOf;
  }

  /** A byte is a byte of its word. */
  lemma ByteInWord(m: Words, m2: Words, a: Addr, r: Addr, i: nat)
    requires a % WORD == 0 && r % WORD == 0
    ensures var j := i - i % WORD;
      && (a + j in m && r + j in m2 && m2[r + j] == m[a + j] ==> Byte(m2, r + i) == Byte(m, a + i))
      && (r + j in m2 && m2[r + j] == 0 ==> Byte(m2, r + i) == 0)
  {
    ByteOf(m, a, i);
    ByteOf(m2, r, i);
    hide Byte;
    NoByte(i % WORD);
  }

  lemma ByteOf(m: Words, a: Addr, i: nat)
    requires a % WORD == 0
    ensures a + (i - i % WORD) in m ==> Byte(m, a + i) == m[a + (i - i % WORD)] / Pow256(i % WORD) % 256
  {
    assert (a + i) % WORD == i % WORD;
  }

  lemma NoByte(j: nat)
    ensures 0 / Pow256(j) % 256 == 0
  {
  }

  lemma WordInBlock(a: Addr, n: nat, i: nat)
    requires a % WORD == 0 && i < n
    ensures InBlock(a, n, a + (i - i % WORD))
  {
    assert (a + (i - i % WORD)) % WORD == 0;
  }

  /** What the moves of realloc leave at r: the first n0 bytes of a, and zeros behind them. */
  ghost predicate MovedWords(m: Words, a: Addr, m2: Words, r: Addr, n0: nat, n: nat) {
    && a % WORD == 0 && r % WORD == 0 && n0 % WORD == 0
    && forall x: Addr :: InBlock(r, n, x) ==>
         x in m2 && if x < r + n0 then a + (x - r) in m && m2[x] == m[a + (x - r)] else m2[x] == 0
  }

  lemma OneMovedByte(m: Words, a: Addr, m2: Words, r: Addr, n0: nat, n: nat, i: nat)
    requires MovedWords(m, a, m2, r, n0, n) && i < n
    ensures Byte(m2, r + i) == if i < n0 then Byte(m, a + i) else 0
  {
    var j := i - i % WORD;
    WordInBlock(r, n, i);
    ByteInWord(m, m2, a, r, i);
    assert j < n0 <==> i < n0;
    assert r + j < r + n0 <==> i < n0;
  }

  lemma MovedBytes(m: Words, a: Addr, m2: Words, r: Addr, n0: nat, n: nat)
    requires MovedWords(m, a, m2, r, n0, n)
    ensures CutBytes(m, a, m2, r, n0, n)
  {
    hide MovedWords, Byte;
    forall i: nat | i < n ensures CutByte(m, a, m2, r, n0, i) { OneMovedByte(m, a, m2, r, n0, n, i); }
  }
}
