/**
  The paging pool on pointers: MpAllocGlobal with its span lists, free lists and page map,
  together with the per-thread caches (field links). Each method carries out the pointer
  operations and is proved equal to the function of PoolOps it stands for.
 */
module MemPool {
  import opened SizeClasses
  import opened Seqs
  import opened PoolSpec
  import opened PoolInv
  import opened PoolOps
  import opened PageMap
  import opened PoolRep
  import opened PoolRepSteps
  import opened PoolBytes
  import opened PoolTheorems

  class MpAllocGlobal {
    const slots: SlotTables
    /** Span descriptors by address of the span. */
    var desc: Descs
    /** The words on mapped pages, by address; the nd_next of a free or cached block is its first. */
    var mem: Words
    /** The page map: bucket index to span. */
    var bucket: map<nat, Addr>
    /** MpAllocSlot::sp_head of each class. */
    var sp_head: seq<Addr>
    /** MpAllocCachedNoLock::aLinks of each thread. */
    var links: seq<seq<Link>>
    ghost var A: Pool

    ghost predicate Heap()
      reads this
    {
      Rep(desc, mem, bucket, sp_head, A) && Backed(A, mem)
    }

    /** Holds inside a batch as well as between operations. */
    ghost predicate Core()
      reads this, slots, slots.pSlot1, slots.pSlot2
    {
      slots.Ready() && Inv(A) && OnlyLastIdle(A) && Heap()
    }

    ghost predicate Valid()
      reads this, slots, slots.pSlot1, slots.pSlot2
    {
      Core() && CacheBounded(A) && LinksRep(links, A)
    }

    constructor ()
      ensures Valid() && A == Empty()
    {
      slots := new SlotTables();
      desc, mem, bucket, sp_head, links := map[], map[], map[], seq(CLASSES, _ => NULL), [];
      A := Empty();
      new;
      EmptyGood();
    }

    /** tc_init: a thread gets a cache with empty lists. */
    method NewThread()
      requires Valid()
      modifies this`links, this`A
      ensures Valid() && A == AddThread(old(A))
    {
      NewLinks(desc, mem, bucket, sp_head, links, A);
      links := links + [EmptyLinks()];
      BackedSame(A, AddThread(A), mem);
      A := AddThread(A);
    }

    /** MpAllocNode::link: thread the nodes xs, which follow one another at distance size from p1 to n2, into one list. */
    method LinkNodes(p1: Addr, n2: Addr, size: nat, ghost xs: seq<Addr>)
      requires xs != [] && xs[0] == p1 && xs[|xs| - 1] + size == n2 && size > 0
      requires forall i, k :: 0 <= i < |xs| && k == i + 1 && k < |xs| ==> xs[k] == xs[i] + size
      requires forall i, j :: 0 <= i < j < |xs| ==> xs[i] < xs[j]
      requires forall a :: a in xs ==> a in mem
      modifies this`mem
      ensures Chain(mem, xs) && mem.Keys == old(mem).Keys
      ensures forall a :: a in old(mem) && a !in xs ==> a in mem && mem[a] == old(mem)[a]
    {
      hide Chain, LinkedUpTo;
      ghost var m0 := mem;
      NoneLinked(m0, xs);
      var n1 := p1;
      ghost var j: nat := 0;
      while n1 + size < n2
        invariant j < |xs| && n1 == xs[j] && LinkedUpTo(m0, mem, xs, j)
        decreases n2 - n1
      {
        var fn := n1 + size;
        assert fn == xs[j + 1];
        LinkStep(m0, mem, xs, j);
        mem := mem[n1 := fn];
        n1 := fn;
        j := j + 1;
      }
      assert n1 + size == n2;
      LinkStep(m0, mem, xs, j);
      mem := mem[n1 := NULL];
      AllLinked(m0, mem, xs);
    }

    /** RadixPageMapT::find_bucket through the bucket array; NULL if the address is in no span. */
    method FindSpan(p: Addr) returns (s: Addr)
      requires Core()
      ensures p in A.owner ==> s == A.owner[p].span && s in desc
      ensures s != NULL ==> s in A.spans && A.spans[s].base <= p < A.spans[s].base + A.spans[s].size
      ensures s == NULL ==> p !in A.owner
    {
      hide Inv, OnlyLastIdle, Rep;
      FindFacts(desc, mem, bucket, sp_head, A, p);
      var bp := p / SPAN_SIZE;
      if bp in bucket && p >= desc[bucket[bp]].sp_base {
        return bucket[bp];
      }
      if bp == 0 {
        return NULL;
      }
      if bp - 1 in bucket && p - desc[bucket[bp - 1]].sp_base < desc[bucket[bp - 1]].sp_size {
        return bucket[bp - 1];
      }
      return NULL;
    }

    /** create_span_nolock for a class with an empty list; pg is what page_alloc returned. */
    method CreateSpanNolock(k: Class, pg: Addr)
      requires Core() && A.order[k] == [] && Fresh(A, pg, SPAN_SIZE)
      modifies this`desc, this`mem, this`bucket, this`sp_head, this`A
      ensures Core() && A == CreateSpan(old(A), k, pg) && A.order[k] == [pg]
      ensures Undisturbed(Handed(old(A)), old(mem), mem)
    {
      hide Inv, OnlyLastIdle, Rep, Fresh, NewSpan, NewDesc, CreateSpan, Chain, BlockCount, Unit, Backed, Undisturbed, Zeros, Handed;
      ghost var p, xs, m0 := A, NewSpan(pg, k).free, mem;
      CreateFacts(desc, mem, bucket, sp_head, p, k, pg);
      MapPages(k, pg);
      LinkNodes(pg, pg + BlockCount(k) * Unit(k), Unit(k), xs);
      CreatedMemory(p, k, pg, m0, mem);
      CreateRep(desc, m0, mem, bucket, sp_head, p, k, pg);
      desc := desc[pg := NewDesc(pg, k)];
      bucket := bucket[BucketOf(pg) := pg];
      sp_head := sp_head[k := pg];
      A := CreateSpan(p, k, pg);
    }

    /** page_alloc for a new span: zeroed pages where nothing was mapped. */
    method MapPages(k: Class, pg: Addr)
      requires Core() && Fresh(A, pg, SPAN_SIZE) && |A.order| == CLASSES
      modifies this`mem
      ensures mem.Keys == (old(mem) + Zeros(pg, SPAN_SIZE)).Keys
      ensures forall a :: a in NewSpan(pg, k).free ==> a in mem
      ensures forall x :: x in old(mem) ==> x in mem && mem[x] == old(mem)[x] && x !in NewSpan(pg, k).free
    {
      hide Inv, OnlyLastIdle, Rep, Backed, NewSpan, Zeros, Fresh;
      PagesMapped(A, mem, k, pg);
      mem := mem + Zeros(pg, SPAN_SIZE);
    }

    /** alloc_small. */
    method AllocSmall(k: Class, n: nat, pg: Addr) returns (nd: Addr)
      requires Core() && n <= Unit(k) && Fresh(A, pg, SPAN_SIZE)
      modifies this`desc, this`mem, this`bucket, this`sp_head, this`A
      ensures Core() && HasHead(Refilled(old(A), k, pg), k)
      ensures nd == HeadBlock(Refilled(old(A), k, pg), k) && A == TakeOne(Refilled(old(A), k, pg), k, n)
      ensures Undisturbed(Handed(old(A)), old(mem), mem)
    {
      hide Inv, OnlyLastIdle, Rep, Fresh, HasHead, TakeOne, Backed, Undisturbed, Handed;
      HeadNull(k);
      NoChange();
      if sp_head[k] == NULL {
        CreateSpanNolock(k, pg);
      }
      ghost var p := A;
      TakeOneFacts(desc, mem, bucket, sp_head, p, k, n);
      var s := sp_head[k];
      nd := desc[s].nd_free;
      var sl_next := desc[s].sl_next;
      desc := desc[s := desc[s].(nd_free := mem[nd], nd_nnum := desc[s].nd_nnum + 1)];
      if desc[s].nd_free == NULL {
        sp_head := sp_head[k := sl_next];
        desc := SetPrev(desc, sl_next, NULL);
      }
      TakeOneMemory(p, k, n, mem);
      A := TakeOne(p, k, n);
    }

    /** alloc_large. */
    method AllocLarge(n: nat, pg: Addr) returns (p1: Addr)
      requires Core() && n > SPAN_SIZE && Fresh(A, pg, n)
      modifies this`desc, this`mem, this`bucket, this`A
      ensures Core() && A == TakeLarge(old(A), n, pg) && p1 == pg
      ensures Undisturbed(Handed(old(A)), old(mem), mem) && forall x :: InBlock(pg, n, x) ==> x in mem && mem[x] == 0
    {
      hide Inv, OnlyLastIdle, Rep, Fresh, LargeDesc, Backed, Undisturbed, Zeros, Handed, InBlock;
      ghost var p := A;
      LargeMemory(p, n, pg, mem);
      LargeRep(desc, mem, bucket, sp_head, p, n, pg);
      TakeLargeKeepsInv(p, n, pg);
      TakeLargeStaysIdle(p, n, pg);
      LargeDescIs(pg, n);
      var sz := RoundPage(n);
      if sz - n >= DESC_SIZE {
        mem := mem + Zeros(pg, sz - DESC_SIZE);
        desc := desc[pg := SpanDesc(pg, sz - DESC_SIZE, false, None, NULL, NULL, NULL, 0)];
      } else {
        mem := mem + Zeros(pg, sz);
        desc := desc[pg := SpanDesc(pg, sz, true, None, NULL, NULL, NULL, 0)];
      }
      assert BucketOf(pg) !in bucket;
      bucket := bucket[BucketOf(pg) := pg];
      A := TakeLarge(p, n, pg);
      return pg;
    }

    lemma NoChange()
      requires Inv(A) && Backed(A, mem)
      ensures Undisturbed(Handed(A), mem, mem)
    {
      Untouched(Handed(A), A, mem);
    }

    /** MpAllocGlobal::alloc. */
    method Alloc(n: nat, pg: Addr) returns (r: Addr)
      requires Valid() && Fresh(A, pg, NeedPages(n))
      modifies this`desc, this`mem, this`bucket, this`sp_head, this`A
      ensures Valid() && (A, r) == PoolOps.Alloc(old(A), n, pg) && LeastWaste(A, r, n)
      ensures Undisturbed(Handed(old(A)), old(mem), mem)
      ensures n > SPAN_SIZE ==> forall x :: InBlock(r, n, x) ==> x in mem && mem[x] == 0
    {
      hide Inv, OnlyLastIdle, Rep, Fresh, CacheBounded, LinksRep, LeastFit, TakeOne, Refilled, HasHead, Backed, Undisturbed, Handed, InBlock, LeastWaste;
      ghost var p := A;
      ClassFor(n);
      var k := slots.GetSlot(n);
      if k == CLASSES {
        r := AllocLarge(n, pg);
      } else {
        r := AllocSmall(k, n, pg);
      }
      assert (A, r) == PoolOps.Alloc(p, n, pg);
      SameCacheLinks(links, p, A);
    }

    /** The part dealloc_real and dealloc_batch_nolock share: node fn goes back to its span sp of class k,
        and a span left without blocks in use is unmapped unless it ends its list. */
    method ReturnNode(fn: Addr, sp: Addr, k: Class)
      requires Core() && OutSmall(A, fn) && sp == A.owner[fn].span && k == ClassOf(A, fn)
      modifies this`desc, this`mem, this`bucket, this`sp_head, this`A
      ensures Core() && OutSmall(old(A), fn) && A == GiveBack(old(A), fn)
      ensures Undisturbed(Handed(old(A)) - {fn}, old(mem), mem)
    {
      hide Inv, OnlyLastIdle, Rep, PushFree, OutSmall, GiveBack, Unmap, ClassOf, Idle, Backed, Undisturbed, Handed;
      ghost var p, m := A, mem;
      GiveBackKeeps(p, fn);
      PushNode(fn, sp, k);
      ghost var m2 := mem;
      UnmapNeeded(desc, mem, bucket, sp_head, p, fn, sp, k);
      if desc[sp].nd_nnum != 0 || desc[sp].sl_next == NULL {
        return;
      }
      UnmapHere(sp, k);
      PushFreeOut(p, fn);
      UndisturbedTwice(Handed(p) - {fn}, Handed(PushFree(p, fn)), m, m2, mem);
      A := GiveBack(p, fn);
    }

    /** The node becomes the first of its span's free list, and the span the first of its class if it was full. */
    method PushNode(fn: Addr, sp: Addr, k: Class)
      requires Core() && OutSmall(A, fn) && sp == A.owner[fn].span && k == ClassOf(A, fn)
      modifies this`desc, this`mem, this`sp_head, this`A
      ensures OutSmall(old(A), fn) && |old(A).order| == CLASSES && Inv(A) && Heap() && A == PushFree(old(A), fn)
      ensures Undisturbed(Handed(old(A)) - {fn}, old(mem), mem)
    {
      hide Inv, OnlyLastIdle, Rep, PushFree, OutSmall, ClassOf, Backed, Undisturbed, Handed;
      ghost var p := A;
      PushFacts(desc, mem, bucket, sp_head, p, fn, sp, k);
      ReturnedMemory(p, mem, fn, desc[sp].nd_free);
      mem := mem[fn := desc[sp].nd_free];
      desc := desc[sp := desc[sp].(nd_free := fn, nd_nnum := desc[sp].nd_nnum - 1)];
      if mem[fn] == NULL {
        desc := LinkFront(desc, sp, sp_head[k]);
        sp_head := sp_head[k := sp];
      }
      A := PushFree(p, fn);
    }

    /** Unlinking, clearing the bucket, and page_free, for a span that is not the last of its list. */
    method UnmapHere(sp: Addr, k: Class)
      requires Inv(A) && Heap() && Idle(A, sp) && A.spans[sp].kind == Small(k)
      requires sp in desc && desc[sp].sl_next != NULL
      modifies this`desc, this`mem, this`bucket, this`sp_head
      ensures sp in A.order[k] && Rep(desc, mem, bucket, sp_head, Unmap(A, sp)) && Backed(Unmap(A, sp), mem)
      ensures Undisturbed(Handed(A), old(mem), mem)
    {
      hide Inv, Rep, Unmap, Idle, Unmapped, Backed, Undisturbed, Handed;
      UnmapCode(desc, mem, bucket, sp_head, A, sp, k);
      UnmappedMemory(A, mem, sp);
      var d := desc[sp];
      if sp_head[k] == sp {
        sp_head := sp_head[k := d.sl_next];
        desc := SetPrev(desc, d.sl_next, NULL);
      } else {
        desc := SetPrev(desc, d.sl_next, d.sl_prev);
        desc := SetNext(desc, d.sl_prev, d.sl_next);
      }
      bucket := bucket - {BucketOf(sp)};
      mem := Unmapped(mem, d.sp_base, d.sp_size);
      desc := desc - {sp};
    }

    /** dealloc_real, sp being the span found for a. */
    method DeallocReal(a: Addr, sp: Addr)
      requires Core() && a in Handed(A) && sp == A.owner[a].span
      modifies this`desc, this`mem, this`bucket, this`sp_head, this`A
      ensures Core() && a in Handed(old(A)) && A == Release(old(A), a)
      ensures Undisturbed(Handed(old(A)) - {a}, old(mem), mem)
    {
      hide Inv, OnlyLastIdle, Rep, GiveBack, OutSmall, ClassOf, FreeLarge, Unmapped, Backed, Undisturbed;
      ghost var p := A;
      SlotOf(desc, mem, bucket, sp_head, p, a);
      match desc[sp].sl_slot {
        case Some(k) =>
          ReturnNode(a, sp, k);
        case None =>
          FreeLargeFacts(desc, mem, bucket, sp_head, p, a);
          FreedMemory(p, mem, a);
          bucket := bucket - {BucketOf(sp)};
          mem := Unmapped(mem, desc[sp].sp_base, desc[sp].sp_size);
          desc := desc - {sp};
          A := FreeLarge(p, a);
      }
      assert A == Release(p, a);
    }

    /** MpAllocGlobal::dealloc; foreign means the address is in no span and went to ::free. */
    method Dealloc(a: Addr) returns (foreign: bool)
      requires Valid() && (a in Handed(A) || Outside(A, a))
      modifies this`desc, this`mem, this`bucket, this`sp_head, this`A
      ensures Valid() && (foreign <==> a !in Handed(old(A)))
      ensures A == if foreign then old(A) else Release(old(A), a)
      ensures Undisturbed(Handed(old(A)) - {a}, old(mem), mem)
    {
      hide Inv, OnlyLastIdle, Rep, CacheBounded, LinksRep, Release, Backed, Undisturbed;
      ghost var p := A;
      NoChange();
      UndisturbedWithin(Handed(p) - {a}, Handed(p), mem, mem);
      var sp := FindSpan(a);
      if sp == NULL {
        return true;
      }
      DeallocReal(a, sp);
      assert A == ReleaseGood(p, a);
      SameCacheLinks(links, p, A);
      return false;
    }

    /** alloc_small_batch: the first span's whole free list; the count goes straight into the caller's link. */
    method AllocSmallBatch(t: nat, k: Class, pg: Addr) returns (nd: Addr)
      requires Core() && LinksRep(links, A) && HasThread(A, t) && A.cache[t][k] == [] && Fresh(A, pg, SPAN_SIZE)
      modifies this`desc, this`mem, this`bucket, this`sp_head, this`links, this`A
      ensures Core() && HasHead(Refilled(old(A), k, pg), k) && HasThread(Refilled(old(A), k, pg), t)
      ensures A == TakeAll(Refilled(old(A), k, pg), t, k)
      ensures t < |links| && |links[t]| == CLASSES && HasThread(A, t) && A.cache[t][k] != [] && nd == A.cache[t][k][0]
      ensures LinksRep(SetLink(links, t, k, links[t][k].(nd_head := nd)), A)
      ensures Undisturbed(Handed(old(A)), old(mem), mem)
    {
      hide Inv, OnlyLastIdle, Rep, Fresh, HasHead, TakeAll, LinksRep, TakenDescs, Backed, Undisturbed, Handed;
      ghost var p0 := A;
      NoChange();
      HeadNull(k);
      if sp_head[k] == NULL {
        CreateSpanNolock(k, pg);
      }
      ghost var p := A;
      SameCacheLinks(links, p0, p);
      TakeAllFacts(desc, mem, bucket, sp_head, links, p, t, k);
      var s := sp_head[k];
      links := SetLink(links, t, k, links[t][k].(nd_nnum := BlockCount(k) - desc[s].nd_nnum));
      nd := desc[s].nd_free;
      TakenDescsCode(desc, s, BlockCount(k));
      var sl_next := desc[s].sl_next;
      desc := desc[s := desc[s].(nd_free := NULL, nd_nnum := BlockCount(k))];
      sp_head := sp_head[k := sl_next];
      desc := SetPrev(desc, sl_next, NULL);
      TakeAllMemory(p, t, k, mem);
      A := TakeAll(p, t, k);
      SetLinkTwice(old(links), t, k, links[t][k], links[t][k].(nd_head := nd));
    }

    /** MpAllocCachedNoLock::alloc on thread t. */
    method CachedAlloc(t: nat, n: nat, pg: Addr) returns (r: Addr)
      requires Valid() && HasThread(A, t) && Fresh(A, pg, NeedPages(n))
      modifies this`desc, this`mem, this`bucket, this`sp_head, this`links, this`A
      ensures Valid() && (A, r) == PoolOps.CachedAlloc(old(A), t, n, pg) && LeastWaste(A, r, n)
      ensures Undisturbed(Handed(old(A)), old(mem), mem)
    {
      hide Inv, OnlyLastIdle, Rep, Fresh, CacheBounded, LinksRep, LeastFit, Backed, Undisturbed, LeastWaste;
      ClassFor(n);
      ghost var p := A;
      var k := slots.GetSlot(n);
      if k == CLASSES {
        r := AllocLarge(n, pg);
        assert (A, r) == PoolOps.CachedAlloc(p, t, n, pg);
        SameCacheLinks(links, p, A);
      } else {
        r := CachedAllocSmall(t, k, n, pg);
        assert (A, r) == PoolOps.CachedAlloc(p, t, n, pg);
      }
    }

    /** The first cached block, after a batch refill of an empty list. */
    method RefillLink(t: nat, k: Class, pg: Addr) returns (nd: Addr)
      requires Valid() && HasThread(A, t) && Fresh(A, pg, SPAN_SIZE)
      modifies this`desc, this`mem, this`bucket, this`sp_head, this`links, this`A
      ensures Core() && A == RefilledCache(old(A), t, k, pg) && nd == A.cache[t][k][0]
      ensures t < |links| && |links[t]| == CLASSES && LinksRep(SetLink(links, t, k, links[t][k].(nd_head := nd)), A)
      ensures Undisturbed(Handed(old(A)), old(mem), mem)
    {
      hide Inv, OnlyLastIdle, Rep, Fresh, CacheBounded, LinksRep, Refilled, TakeAll, HasHead, Backed, Undisturbed, Handed;
      NoChange();
      LinkAt(links, A, t, k);
      CachedNotNull(A, t, k);
      SetLinkSame(links, t, k);
      nd := links[t][k].nd_head;
      if nd == NULL {
        assert links[t][k].nd_nnum == 0;
        nd := AllocSmallBatch(t, k, pg);
      }
    }

    method CachedAllocSmall(t: nat, k: Class, n: nat, pg: Addr) returns (nd: Addr)
      requires Valid() && HasThread(A, t) && Fresh(A, pg, SPAN_SIZE) && n <= Unit(k)
      modifies this`desc, this`mem, this`bucket, this`sp_head, this`links, this`A
      ensures Valid() && CacheHas(RefilledCache(old(A), t, k, pg), t, k)
      ensures nd == RefilledCache(old(A), t, k, pg).cache[t][k][0] && A == PopCache(RefilledCache(old(A), t, k, pg), t, k, n)
      ensures Undisturbed(Handed(old(A)), old(mem), mem)
    {
      hide Inv, OnlyLastIdle, Rep, Fresh, CacheBounded, LinksRep, PopCache, CacheHas, Backed, Undisturbed, Handed;
      nd := RefillLink(t, k, pg);
      ghost var q := A;
      ghost var l := SetLink(links, t, k, links[t][k].(nd_head := nd));
      PopFacts(desc, mem, bucket, sp_head, l, q, t, k, n);
      SetLinkTwice(links, t, k, links[t][k].(nd_head := nd), Link(mem[nd], links[t][k].nd_nnum - 1, links[t][k].nd_nmax));
      TakeFromLink(t, k, nd);
      PopMemory(q, t, k, n, mem);
      A := PopCache(q, t, k, n);
    }

    /** nd_nnum--, nd_head = p->nd_next. */
    method TakeFromLink(t: nat, k: Class, nd: Addr)
      requires t < |links| && |links[t]| == CLASSES && links[t][k].nd_nnum > 0 && nd in mem
      modifies this`links
      ensures links == SetLink(old(links), t, k, Link(mem[nd], old(links)[t][k].nd_nnum - 1, old(links)[t][k].nd_nmax))
    {
      var l := links[t][k].(nd_nnum := links[t][k].nd_nnum - 1);
      SetLinkTwice(links, t, k, l, l.(nd_head := mem[nd]));
      links := SetLink(links, t, k, l);
      links := SetLink(links, t, k, links[t][k].(nd_head := mem[nd]));
    }

    /** dealloc_batch_nolock: the cached list of thread t starting at fp gives back its first sz blocks. */
    method DeallocBatch(ghost t: nat, k: Class, fp0: Addr, sz0: nat) returns (fp: Addr)
      requires Core() && HasThread(A, t) && fp0 == Head(A.cache[t][k])
      modifies this`desc, this`mem, this`bucket, this`sp_head, this`A
      ensures Core() && A == ReturnBatch(old(A), t, k, sz0) && fp == Head(A.cache[t][k])
      ensures Undisturbed(Handed(old(A)), old(mem), mem)
    {
      hide Inv, OnlyLastIdle, Rep, PopCache, GiveBack, OutSmall, ClassOf, ReturnOne, Backed, Undisturbed, Handed;
      ghost var h, m := Handed(A), mem;
      NoChange();
      fp := fp0;
      var sz := sz0;
      while fp != NULL
        invariant Core() && HasThread(A, t) && fp == Head(A.cache[t][k])
        invariant ReturnBatch(A, t, k, sz) == ReturnBatch(old(A), t, k, sz0)
        invariant Handed(A) == h && Undisturbed(h, m, mem)
        decreases sz, fp
      {
        if sz == 0 {
          return fp;
        }
        sz := sz - 1;
        ghost var p := A;
        BatchFacts(desc, mem, bucket, sp_head, p, t, k);
        var fn := fp;
        fp := mem[fp];
        PopMemory(p, t, k, 0, mem);
        A := PopCache(p, t, k, 0);
        var sp := FindSpan(fn);
        if sp == NULL || desc[sp].sl_slot != Some(k) {
          // "dealloc_batch failed" never happens.
          assert false;
        }
        ghost var m2 := mem;
        ReturnNode(fn, sp, k);
        ReturnOneIs(p, t, k);
        PoppedOut(p, t, k);
        UndisturbedTwice(h, Handed(PopCache(p, t, k, 0)) - {fn}, m, m2, mem);
      }
      CachedNotNull(A, t, k);
    }

    /** MpAllocCachedNoLock::dealloc on thread t; foreign as in Dealloc. */
    method CachedDealloc(t: nat, a: Addr) returns (foreign: bool)
      requires Valid() && HasThread(A, t) && (a in Handed(A) || Outside(A, a))
      modifies this`desc, this`mem, this`bucket, this`sp_head, this`links, this`A
      ensures Valid() && (foreign <==> a !in Handed(old(A)))
      ensures A == if foreign then old(A) else CachedFree(old(A), t, a)
      ensures Undisturbed(Handed(old(A)) - {a}, old(mem), mem)
    {
      hide Inv, OnlyLastIdle, Rep, CacheBounded, LinksRep, Release, OutSmall, ClassOf, Backed, Undisturbed;
      ghost var p := A;
      NoChange();
      UndisturbedWithin(Handed(p) - {a}, Handed(p), mem, mem);
      var sp := FindSpan(a);
      if sp == NULL {
        return true;
      }
      SlotOf(desc, mem, bucket, sp_head, p, a);
      match desc[sp].sl_slot {
        case None =>
          DeallocReal(a, sp);
          assert A == ReleaseGood(p, a);
          SameCacheLinks(links, p, A);
        case Some(k) =>
          CachedDeallocSmall(t, k, a);
      }
      assert A == CachedFree(p, t, a);
      return false;
    }

    method CachedDeallocSmall(t: nat, k: Class, a: Addr)
      requires Valid() && HasThread(A, t) && OutSmall(A, a) && k == ClassOf(A, a)
      modifies this`desc, this`mem, this`bucket, this`sp_head, this`links, this`A
      ensures Valid()
      ensures OutSmall(old(A), a) && HasThread(PushCache(old(A), t, k, a), t)
      ensures var q := PushCache(old(A), t, k, a);
        && Inv(q) && OnlyLastIdle(q)
        && A == if |old(A).cache[t][k]| >= CacheMax(k) then ReturnBatch(q, t, k, |q.cache[t][k]| / 2) else q
      ensures Undisturbed(Handed(old(A)) - {a}, old(mem), mem)
    {
      hide Inv, OnlyLastIdle, Rep, CacheBounded, LinksRep, ClassOf, OutSmall, PushCache, OnlyCache, Drop, CacheMax, ReturnBatch, Backed, Undisturbed, Handed;
      ghost var p, m := A, mem;
      var count := PushLink(t, k, a);
      ghost var q, m2 := A, mem;
      TrimFacts(p, t, k, a);
      if count > links[t][k].nd_nmax {
        var head := ReturnSome(t, k, count / 2);
        assert head != NULL;
        PushCacheOut(p, t, k, a);
        UndisturbedTwice(Handed(p) - {a}, Handed(q), m, m2, mem);
        assert OnlyCache(q, A, t, k, Drop(q.cache[t][k], count / 2));
      }
    }

    /** The block becomes the first of its cached list; count is the list's new length. */
    method PushLink(t: nat, k: Class, a: Addr) returns (count: nat)
      requires Valid() && HasThread(A, t) && OutSmall(A, a) && k == ClassOf(A, a)
      modifies this`mem, this`links, this`A
      ensures Core() && LinksRep(links, A) && t < |links| && |links[t]| == CLASSES && links[t][k].nd_nmax == CacheMax(k)
      ensures OutSmall(old(A), a) && A == PushCache(old(A), t, k, a) && HasThread(A, t) && count == |A.cache[t][k]|
      ensures Undisturbed(Handed(old(A)) - {a}, old(mem), mem)
    {
      hide Inv, OnlyLastIdle, Rep, CacheBounded, LinksRep, ClassOf, OutSmall, PushCache, SetLink, Backed, Undisturbed, Handed;
      ghost var p := A;
      PushLinkFacts(desc, mem, bucket, sp_head, links, p, t, k, a);
      CachedMemory(p, mem, t, k, a, links[t][k].nd_head);
      mem := mem[a := links[t][k].nd_head];
      var l := Link(a, links[t][k].nd_nnum + 1, links[t][k].nd_nmax);
      SetLinkTwice(links, t, k, l, l);
      links := SetLink(links, t, k, l);
      A := PushCache(p, t, k, a);
      count := l.nd_nnum;
    }

    /** The first sz cached blocks go back and the link is brought up to date. */
    method ReturnSome(t: nat, k: Class, sz: nat) returns (head: Addr)
      requires Core() && LinksRep(links, A) && HasThread(A, t) && sz <= |A.cache[t][k]|
      modifies this`desc, this`mem, this`bucket, this`sp_head, this`links, this`A
      ensures Core() && LinksRep(links, A) && HasThread(A, t)
      ensures A == ReturnBatch(old(A), t, k, sz)
      ensures head == NULL <==> Drop(old(A).cache[t][k], sz) == []
      ensures Undisturbed(Handed(old(A)), old(mem), mem)
    {
      hide Inv, OnlyLastIdle, Rep, LinksRep, SetLink, Backed, Undisturbed, Handed;
      ghost var q := A;
      LinkAt(links, q, t, k);
      head := DeallocBatch(t, k, links[t][k].nd_head, sz);
      CachedNotNull(A, t, k);
      TrimmedLinks(links, q, A, t, k, sz, head);
      links := SetLink(links, t, k, Link(head, links[t][k].nd_nnum - sz, links[t][k].nd_nmax));
    }

    /** MpAllocCachedNoLock::cleanup. */
    method Cleanup(t: nat)
      requires Valid() && HasThread(A, t)
      modifies this`desc, this`mem, this`bucket, this`sp_head, this`links, this`A
      ensures Valid() && A == CleanFrom(old(A), t, 0)
      ensures Undisturbed(Handed(old(A)), old(mem), mem)
    {
      hide Inv, OnlyLastIdle, Rep, CacheBounded, LinksRep, Backed, Undisturbed, Handed, CleanFrom, ReturnBatch;
      ghost var h, m := Handed(A), mem;
      NoChange();
      for i := 0 to CLASSES
        invariant Valid() && HasThread(A, t)
        invariant Handed(A) == h && Undisturbed(h, m, mem)
        invariant CleanFrom(A, t, i) == CleanFrom(old(A), t, 0)
      {
        ghost var p := A;
        LinkAt(links, p, t, i);
        CleanStep(p, t, i);
        ghost var m2 := mem;
        var head := ReturnSome(t, i, links[t][i].nd_nnum);
        assert head == NULL;
        UndisturbedTwice(h, h, m, m2, mem);
      }
      CleanEnd(A, t);
    }

    /** MpAllocGlobal::gc on thread t: the thread's cache is emptied, then every class list is walked. */
    method Gc(t: nat)
      requires Valid() && HasThread(A, t)
      modifies this`desc, this`mem, this`bucket, this`sp_head, this`links, this`A
      ensures Valid() && A == PoolOps.Gc(old(A), t)
      ensures Undisturbed(Handed(old(A)), old(mem), mem)
    {
      hide Inv, OnlyLastIdle, Rep, CacheBounded, LinksRep, CleanFrom, SweepFrom, Backed, Undisturbed, Handed;
      ghost var p, m := A, mem;
      Cleanup(t);
      ghost var c, m2 := A, mem;
      SweepAll();
      UndisturbedTwice(Handed(p), Handed(c), m, m2, mem);
      SameCacheLinks(links, c, A);
      assert A == PoolOps.Gc(p, t);
    }

    method SweepAll()
      requires Core()
      modifies this`desc, this`mem, this`bucket, this`sp_head, this`A
      ensures Core() && A == SweepFrom(old(A), 0) && A.cache == old(A).cache
      ensures Undisturbed(Handed(old(A)), old(mem), mem)
    {
      hide Inv, OnlyLastIdle, Rep, SweepFrom, Sweep, Backed, Undisturbed, Handed;
      ghost var h, m := Handed(A), mem;
      NoChange();
      for i := 0 to CLASSES
        invariant Core() && A.cache == old(A).cache
        invariant Handed(A) == h && Undisturbed(h, m, mem)
        invariant SweepFrom(A, i) == SweepFrom(old(A), 0)
      {
        SweepFromStep(A, i);
        ghost var m2 := mem;
        SweepClass(i);
        UndisturbedTwice(h, h, m, m2, mem);
      }
      SweepFromEnd(A);
    }

    /** Unlink and unmap the spans of class k that have no block in use. */
    method SweepClass(k: Class)
      requires Core()
      modifies this`desc, this`mem, this`bucket, this`sp_head, this`A
      ensures Core() && NoDup(old(A).order[k]) && A == Sweep(old(A), k, old(A).order[k])
      ensures Undisturbed(Handed(old(A)), old(mem), mem)
    {
      hide Inv, OnlyLastIdle, Rep, Idle, Linked, Backed, Undisturbed, Handed, Unmapped, CutOut, CutHeads;
      ghost var h, m := Handed(A), mem;
      NoChange();
      HeadNull(k);
      SweepStart(desc, sp_head, A, k);
      var sp := sp_head[k];
      ghost var kept, todo := [], A.order[k];
      while sp != NULL
        invariant Core() && SweepPoint(A, k, kept, todo) && sp == Head(todo)
        invariant Sweep(A, k, todo) == Sweep(old(A), k, old(A).order[k])
        invariant Handed(A) == h && Undisturbed(h, m, mem)
        decreases |todo|
      {
        ghost var p := A;
        SweepFacts(desc, mem, bucket, sp_head, p, k, kept, todo);
        var kk := sp;
        sp := desc[kk].sl_next;
        if desc[kk].nd_nnum != 0 {
          kept := kept + [kk];
        } else {
          var found := FindSpan(desc[kk].sp_base);
          assert found == kk;
          ghost var m2 := mem;
          SweptMemory(p, m2, kk);
          sp_head := CutHeads(desc, sp_head, kk, k);
          mem := Unmapped(mem, desc[kk].sp_base, desc[kk].sp_size);
          desc := CutOut(desc, kk) - {kk};
          bucket := bucket - {BucketOf(kk)};
          A := Unmap(p, kk);
          UndisturbedTwice(h, h, m, m2, mem);
        }
        todo := todo[1..];
      }
    }

    /** MpAllocGlobal::realloc of a handed-out block, n0 being what realloc_real takes its size to be: the caller's
        first n0 bytes are kept, and zeros follow; so all are kept exactly if no other byte was anything but zero. */
    method Realloc(a: Addr, n: nat, pg: Addr) returns (r: Addr)
      requires Valid() && a in Handed(A) && n > 0 && Fresh(A, pg, NeedPages(n))
      modifies this`desc, this`mem, this`bucket, this`sp_head, this`A
      ensures Valid() && (A, r) == PoolOps.Realloc(old(A), a, n, pg)
      ensures Undisturbed(Handed(old(A)) - {a}, old(mem), mem)
      ensures old(A.owner)[a].span in old(A).spans && Capacity(old(A).spans[old(A.owner)[a].span]) >= 0
      ensures var n0, k := Capacity(old(A).spans[old(A.owner)[a].span]), Least(Handed(old(A))[a], n);
        && CutBytes(old(mem), a, mem, r, n0, k)
        && (KeepsBytes(old(mem), a, mem, r, k) <==> ZeroBytes(old(mem), a, n0, k))
      ensures Readable(old(mem), a, Handed(old(A))[a]) && Readable(mem, r, n)
    {
      hide Inv, OnlyLastIdle, Rep, CacheBounded, LinksRep, Fresh, Capacity, Release, Backed, Undisturbed, Readable, KeepsBytes, ZeroBytes, CutBytes;
      ghost var p, m := A, mem;
      var sp := FindSpan(a);
      CapacityFacts(desc, mem, bucket, sp_head, p, a);
      BlockReadable(p, mem, a);
      var n0 := CapacityOf(desc[sp]);
      if n <= n0 {
        NoChange();
        UndisturbedWithin(Handed(p) - {a}, Handed(p), mem, mem);
        InPlaceFacts(desc, mem, bucket, sp_head, links, p, a, n);
        A := p.(owner := SetPlace(p, a, Out(n)));
        r := a;
        BackedSame(p, A, mem);
        BlockReadable(A, mem, a);
        SameBytes(mem, a, n0, Least(Handed(p)[a], n));
      } else {
        r := Move(a, n, pg, n0);
      }
      KeptIff(m, a, mem, r, n0, Least(Handed(p)[a], n));
      assert (A, r) == PoolOps.Realloc(p, a, n, pg);
    }

    /** The block does not fit: allocate, memcpy, dealloc_real. */
    method Move(a: Addr, n: nat, pg: Addr, n0: nat) returns (r: Addr)
      requires Valid() && a in Handed(A) && Fresh(A, pg, NeedPages(n))
      requires A.owner[a].span in A.spans && n0 == Capacity(A.spans[A.owner[a].span]) && n > n0
      modifies this`desc, this`mem, this`bucket, this`sp_head, this`A
      ensures Valid() && a in Handed(PoolOps.Alloc(old(A), n, pg).0) && r == PoolOps.Alloc(old(A), n, pg).1
      ensures A == ReleaseGood(PoolOps.Alloc(old(A), n, pg).0, a)
      ensures Undisturbed(Handed(old(A)) - {a}, old(mem), mem) && Readable(mem, r, n)
      ensures CutBytes(old(mem), a, mem, r, n0, Least(Handed(old(A))[a], n))
    {
      hide Inv, OnlyLastIdle, Rep, CacheBounded, LinksRep, Fresh, Capacity, Release, Backed, Undisturbed, Readable, CutBytes, Handed, PoolOps.Alloc, InBlock;
      ghost var p, m := A, mem;
      r := Alloc(n, pg);
      ghost var q, m2 := A, mem;
      MoveReady(p, q, a, r, n, pg);
      CopyInto(r, a, n0);
      ghost var m3 := mem;
      var foreign := Dealloc(a);
      assert A == ReleaseGood(q, a);
      BlockReadable(A, mem, r);
      MoveKeeps(p, a, n, r, m, m2, m3, mem);
      MoveBytes(p, a, n, r, n0, m, m2, m3, mem);
    }

    /** memcpy of n bytes between two blocks in callers' hands. */
    method CopyInto(r: Addr, a: Addr, n: nat)
      requires Valid() && a in Handed(A) && r in Handed(A) && a != r && Handed(A)[r] > n
      requires a in A.owner && A.owner[a].span in A.spans && n == Capacity(A.spans[A.owner[a].span])
      modifies this`mem
      ensures Valid() && Undisturbed(Handed(A) - {r}, old(mem), mem)
      ensures n % WORD == 0 && a % WORD == 0 && r % WORD == 0 && Copied(old(mem), a, mem, r, n)
    {
      hide Inv, OnlyLastIdle, Rep, CacheBounded, LinksRep, Backed, Undisturbed, Capacity, Handed, Copied;
      ghost var m := mem;
      CopyFacts(A, mem, r, a, n);
      Memcpy(r, a, n);
      CopiedInside(A, m, mem, a, r, n);
      OwnWords(desc, m, mem, bucket, sp_head, A, r);
    }

    /** memcpy, a word at a time. */
    method Memcpy(dst: Addr, src: Addr, n: nat)
      requires n % WORD == 0 && dst % WORD == 0 && src % WORD == 0
      requires forall x :: InBlock(dst, n, x) || InBlock(src, n, x) ==> x in mem
      requires forall x :: InBlock(dst, n, x) ==> !InBlock(src, n, x)
      modifies this`mem
      ensures Copied(old(mem), src, mem, dst, n)
    {
      hide Copied, InBlock;
      ghost var m := mem;
      NoneCopied(m, src, dst);
      var i := 0;
      while i < n
        invariant i <= n && i % WORD == 0 && Copied(m, src, mem, dst, i)
      {
        OneMoreCopied(m, src, mem, dst, i, n);
        mem := mem[dst + i := mem[src + i]];
        i := i + WORD;
      }
    }

    /** A caller stores a word in its own block: neither the pool nor another caller notices. */
    method WriteWord(a: Addr, i: nat, w: nat)
      requires Valid() && a in Handed(A) && i < Handed(A)[a] && i % WORD == 0
      modifies this`mem
      ensures Valid() && Undisturbed(Handed(A) - {a}, old(mem), mem)
      ensures a + i in old(mem) && mem == old(mem)[a + i := w]
    {
      hide Inv, OnlyLastIdle, Rep, CacheBounded, LinksRep, Backed, Undisturbed, Handed;
      WriteFacts(A, mem, a, i);
      ghost var m := mem;
      mem := mem[a + i := w];
      OwnWords(desc, m, mem, bucket, sp_head, A, a);
    }

    lemma HeadNull(k: Class)
      requires Core()
      ensures |sp_head| == |A.order| == CLASSES && sp_head[k] == Head(A.order[k]) && (sp_head[k] == NULL <==> A.order[k] == [])
    {
      assert sp_head[k] == Head(A.order[k]);
      if A.order[k] != [] {
        OrderGivesHead(A, k);
        SpansNotNull(A);
      }
    }
  }

  // ---------- Threading nodes ----------

  /** The first j nodes have their words, and no word outside the nodes has changed. */
  ghost predicate LinkedUpTo(m0: Words, m: Words, xs: seq<Addr>, j: nat) {
    && m.Keys == m0.Keys
    && (forall i :: 0 <= i < j && i < |xs| ==> xs[i] in m && m[xs[i]] == Succ(xs, i))
    && forall a :: a in m0 && a !in xs ==> m[a] == m0[a]
  }

  lemma NoneLinked(m: Words, xs: seq<Addr>)
    ensures LinkedUpTo(m, m, xs, 0)
  {
  }

  lemma LinkStep(m0: Words, m: Words, xs: seq<Addr>, j: nat)
    requires LinkedUpTo(m0, m, xs, j) && j < |xs| && (forall a :: a in xs ==> a in m0)
    requires forall i, k :: 0 <= i < k < |xs| ==> xs[i] < xs[k]
    ensures LinkedUpTo(m0, m[xs[j] := Succ(xs, j)], xs, j + 1)
  {
    hide Succ;
    var m2 := m[xs[j] := Succ(xs, j)];
    assert xs[j] in xs && m2.Keys == m0.Keys;
    forall i | 0 <= i < j + 1 && i < |xs| ensures xs[i] in m2 && m2[xs[i]] == Succ(xs, i) {
      if i < j { assert xs[i] < xs[j]; }
    }
  }

  lemma AllLinked(m0: Words, m: Words, xs: seq<Addr>)
    requires LinkedUpTo(m0, m, xs, |xs|)
    ensures Chain(m, xs) && m.Keys == m0.Keys && forall a :: a in m0 && a !in xs ==> a in m && m[a] == m0[a]
  {
  }

  // ---------- What realloc does to the caller's bytes ----------

  /** The two ends of it: on a new pool a caller gets exactly 2 MB, stores 1 in their last word and lets them grow by
      a byte. before is the memory then; the stored byte is lost. */
  method TwoMegabytesLoseTheirTail() returns (pool: MpAllocGlobal, a: Addr, r: Addr, ghost before: Words)
    ensures fresh(pool) && pool.Valid() && Handed(pool.A) == map[r := 0x20_0001]
    ensures Byte(before, a + 0x1F_FFF8) == 1 && Byte(pool.mem, r + 0x1F_FFF8) == 0
  {
    hide MpAllocGlobal.Valid, PoolOps.Alloc, PoolOps.Realloc, Undisturbed, Readable, KeepsBytes, ZeroBytes, CutBytes, Byte, Inv;
    EmptyGood();
    pool := new MpAllocGlobal();
    a := pool.Alloc(0x20_0000, 0x10_0000);
    ghost var p := pool.A;
    TwoMegabytes(p, a);
    var m := pool.mem;
    pool.WriteWord(a, 0x1F_FFF8, 1);
    before := pool.mem;
    LowByte(before, a);
    r := pool.Realloc(a, 0x20_0001, 0x1000_0000);
    CutAt2MB(before, a, pool.mem, r);
  }

  lemma TwoMegabytes(p: Pool, a: Addr)
    requires Good(Empty()) && Fresh(Empty(), 0x10_0000, 0x20_0000) && (p, a) == PoolOps.Alloc(Empty(), 0x20_0000, 0x10_0000)
    ensures Handed(p) == map[a := 0x20_0000] && a in p.owner && p.owner[a].span in p.spans
    ensures Capacity(p.spans[p.owner[a].span]) == 0x1F_FFC0 && Fresh(p, 0x1000_0000, 0x20_0001) && a % WORD == 0
  {
    ClassFor(0x20_0000);
    hide LeastFit, Good, TakeLarge;
    assert p == TakeLarge(Empty(), 0x20_0000, 0x10_0000) && a == 0x10_0000;
    hide PoolOps.Alloc;
    LargeAlone();
  }

  lemma LargeAlone()
    ensures var p := TakeLarge(Empty(), 0x20_0000, 0x10_0000);
      && Handed(p) == map[0x10_0000 := 0x20_0000] && 0x10_0000 in p.owner && p.owner[0x10_0000].span in p.spans
      && Capacity(p.spans[p.owner[0x10_0000].span]) == 0x1F_FFC0 && Fresh(p, 0x1000_0000, 0x20_0001)
  {
    assert LargeSpan(0x10_0000, 0x20_0000) == Span(0x10_0000, 0x20_0000, true, Large, []);
  }

  lemma LowByte(m: Words, a: Addr)
    requires a % WORD == 0 && a + 0x1F_FFF8 in m && m[a + 0x1F_FFF8] == 1
    ensures Byte(m, a + 0x1F_FFF8) == 1
  {
    SumAligned(a, 0x1F_FFF8);
    assert Pow256(0) == 1;
  }

  lemma CutAt2MB(m: Words, a: Addr, m2: Words, r: Addr)
    requires CutBytes(m, a, m2, r, 0x1F_FFC0, 0x20_0000)
    ensures Byte(m2, r + 0x1F_FFF8) == 0
  {
    hide Byte;
    assert CutByte(m, a, m2, r, 0x1F_FFC0, 0x1F_FFF8);
  }

  /** The n bytes from src on stand at dst, and nothing else has changed. */
  ghost predicate Copied(m: Words, src: Addr, m2: Words, dst: Addr, n: nat) {
    m2.Keys == m.Keys && forall x: Addr :: x in m ==> CopiedWord(m, src, m2, dst, n, x)
  }

  predicate CopiedWord(m: Words, src: Addr, m2: Words, dst: Addr, n: nat, x: Addr) {
    x in m2 && if InBlock(dst, n, x) then src + (x - dst) in m && m2[x] == m[src + (x - dst)] else x in m ==> m2[x] == m[x]
  }

  lemma NoneCopied(m: Words, src: Addr, dst: Addr)
    ensures Copied(m, src, m, dst, 0)
  {
  }

  lemma OneMoreCopied(m: Words, src: Addr, m2: Words, dst: Addr, i: nat, n: nat)
    requires Copied(m, src, m2, dst, i) && i < n && i % WORD == n % WORD == dst % WORD == src % WORD == 0
    requires forall x :: InBlock(dst, n, x) || InBlock(src, n, x) ==> x in m
    requires forall x :: InBlock(dst, n, x) ==> !InBlock(src, n, x)
    ensures i + WORD <= n && src + i in m2 && Copied(m, src, m2[dst + i := m2[src + i]], dst, i + WORD)
  {
    StepInside(i, n);
    SumAligned(dst, i);
    SumAligned(src, i);
    assert InBlock(dst, n, dst + i) && InBlock(src, n, src + i);
    assert !InBlock(dst, i, src + i) && src + i in m;
    OneWordMore(dst, i);
    AddWord(m, src, m2, dst, i);
  }

  lemma StepInside(i: nat, n: nat)
    requires i < n && i % WORD == 0 && n % WORD == 0
    ensures i + WORD <= n
  {
  }

  lemma AddWord(m: Words, src: Addr, m2: Words, dst: Addr, i: nat)
    requires Copied(m, src, m2, dst, i) && dst + i in m && src + i in m && !InBlock(dst, i, src + i) && !InBlock(dst, i, dst + i)
    requires forall x: Addr :: InBlock(dst, i + WORD, x) <==> InBlock(dst, i, x) || x == dst + i
    ensures src + i in m2 && Copied(m, src, m2[dst + i := m2[src + i]], dst, i + WORD)
  {
    assert CopiedWord(m, src, m2, dst, i, src + i);
    var m3 := m2[dst + i := m2[src + i]];
    assert m3.Keys == m.Keys;
    forall x: Addr | x in m ensures CopiedWord(m, src, m3, dst, i + WORD, x) {
      assert CopiedWord(m, src, m2, dst, i, x);
      assert InBlock(dst, i + WORD, x) <==> InBlock(dst, i, x) || x == dst + i;
    }
  }

  lemma OneWordMore(dst: Addr, i: nat)
    requires dst % WORD == 0 && i % WORD == 0
    ensures forall x: Addr :: InBlock(dst, i + WORD, x) <==> InBlock(dst, i, x) || x == dst + i
    ensures !InBlock(dst, i, dst + i)
  {
    SumAligned(dst, i);
    forall x: Addr ensures InBlock(dst, i + WORD, x) <==> InBlock(dst, i, x) || x == dst + i {
      if dst + i <= x < dst + i + WORD && x % WORD == 0 { OnlyMultiple(dst + i, x); }
    }
  }

  lemma OnlyMultiple(a: nat, x: nat)
    requires a % WORD == 0 && x % WORD == 0 && a <= x < a + WORD
    ensures x == a
  {
  }

  lemma CopyFacts(p: Pool, m: Words, r: Addr, a: Addr, n: nat)
    requires Inv(p) && Backed(p, m) && a in Handed(p) && r in Handed(p) && a != r && Handed(p)[r] > n
    requires p.owner[a].span in p.spans && n == Capacity(p.spans[p.owner[a].span])
    ensures r in p.owner && p.owner[r].span in p.spans && n <= UnitOf(p.spans[p.owner[r].span])
    ensures n % WORD == 0 && r % WORD == 0 && a % WORD == 0
    ensures forall x :: InBlock(r, n, x) || InBlock(a, n, x) ==> x in m
    ensures forall x :: InBlock(r, n, x) ==> !InBlock(a, n, x)
  {
    BlockAligned(p, a);
    BlockAligned(p, r);
    HomeOf(p, r);
    CapacityFits(p, p.owner[a].span);
    UnitReadable(p, m, a);
    UnitReadable(p, m, r);
    hide SpansOk, BlocksOk, OrderOk, FreeListsOk, CachesOk, Backed, UnitOf, Capacity;
    forall x | InBlock(r, n, x) ensures !InBlock(a, n, x) { BlocksApart(p, r, a, x); }
  }

  lemma CopiedInside(p: Pool, m: Words, m2: Words, a: Addr, r: Addr, n: nat)
    requires Copied(m, a, m2, r, n)
    requires r in p.owner && p.owner[r].span in p.spans && n <= UnitOf(p.spans[p.owner[r].span])
    ensures m2.Keys == m.Keys && forall x :: x in m && !InBlock(r, UnitOf(p.spans[p.owner[r].span]), x) ==> m2[x] == m[x]
  {
  }

  lemma SumAligned(a: nat, i: nat)
    requires a % WORD == 0 && i % WORD == 0
    ensures (a + i) % WORD == 0
  {
  }

  lemma WriteFacts(p: Pool, m: Words, a: Addr, i: nat)
    requires Inv(p) && Backed(p, m) && a in Handed(p) && i < Handed(p)[a] && i % WORD == 0
    ensures a in p.owner && p.owner[a].span in p.spans && a + i in m && InBlock(a, UnitOf(p.spans[p.owner[a].span]), a + i)
  {
    hide SpansOk, BlocksOk, OrderOk, FreeListsOk, CachesOk, Backed, UnitOf, Mapped;
    BlockAligned(p, a);
    HomeOf(p, a);
    UnitReadable(p, m, a);
    SumAligned(a, i);
  }

  /** The block that is moved stays where it is while the new one is allocated. */
  lemma MoveReady(p: Pool, q: Pool, a: Addr, r: Addr, n: nat, pg: Addr)
    requires Good(p) && a in Handed(p) && p.owner[a].span in p.spans && Fresh(p, pg, NeedPages(n)) && (q, r) == PoolOps.Alloc(p, n, pg)
    ensures a in Handed(q) && a in q.owner && q.owner[a].span in q.spans
    ensures Capacity(q.spans[q.owner[a].span]) == Capacity(p.spans[p.owner[a].span])
    ensures r in Handed(q) && Handed(q)[r] == n && r !in Handed(p) && r != a && Handed(q) == Handed(p)[r := n]
  {
    hide SpansOk, BlocksOk, FreeListsOk, CachesOk, OrderOk, OnlyLastIdle, CacheBounded, LeastFit, Fresh, Refilled, TakeOne, TakeLarge, HasHead;
    ClassFor(n);
    var k := LeastFit(n);
    if k == CLASSES {
      LargeAside(p, n, pg, a);
    } else {
      var p1 := Refilled(p, k, pg);
      RefillAside(p, k, pg, a);
      TakeOneAside(p1, k, n, a);
    }
  }

  lemma LargeAside(p: Pool, n: nat, pg: Addr, a: Addr)
    requires Inv(p) && n > SPAN_SIZE && Fresh(p, pg, n) && a in p.owner && p.owner[a].span in p.spans
    ensures SameHome(p, TakeLarge(p, n, pg), a)
  {
    LargeIsFresh(p, n, pg);
  }

  lemma RefillAside(p: Pool, k: Class, pg: Addr, a: Addr)
    requires Inv(p) && OnlyLastIdle(p) && Fresh(p, pg, SPAN_SIZE) && a in p.owner && p.owner[a].span in p.spans
    ensures SameHome(p, Refilled(p, k, pg), a)
  {
    NewBlocksFresh(p, k, pg);
    hide Inv, NewBlocks, OnlyLastIdle, Fresh;
  }

  lemma TakeOneAside(p: Pool, k: Class, n: nat, a: Addr)
    requires HasHead(p, k) && a in p.owner && p.owner[a].span in p.spans
    ensures SameHome(p, TakeOne(p, k, n), a)
  {
  }

  /** Block a has the same span, as long as before, in p and q. */
  predicate SameHome(p: Pool, q: Pool, a: Addr) {
    && a in p.owner && a in q.owner && q.owner[a].span == p.owner[a].span
    && p.owner[a].span in p.spans && p.owner[a].span in q.spans
    && var s, t := p.spans[p.owner[a].span], q.spans[p.owner[a].span]; t.kind == s.kind && t.size == s.size && t.fly == s.fly
  }

  /** Nobody else's bytes change when a block is moved. */
  lemma MoveKeeps(p: Pool, a: Addr, n: nat, r: Addr, m: Words, m2: Words, m3: Words, m4: Words)
    requires a in Handed(p) && r !in Handed(p)
    requires Undisturbed(Handed(p), m, m2) && Undisturbed(Handed(p)[r := n] - {r}, m2, m3) && Undisturbed(Handed(p)[r := n] - {a}, m3, m4)
    ensures Undisturbed(Handed(p) - {a}, m, m4)
  {
    hide Undisturbed, Handed;
    UndisturbedWithin(Handed(p) - {a}, Handed(p), m, m2);
    UndisturbedTwice(Handed(p) - {a}, Handed(p)[r := n] - {r}, m, m2, m3);
    UndisturbedTwice(Handed(p) - {a}, Handed(p)[r := n] - {a}, m, m3, m4);
  }

  lemma MoveBytes(p: Pool, a: Addr, n: nat, r: Addr, n0: nat, m: Words, m2: Words, m3: Words, m4: Words)
    requires Inv(p) && a in Handed(p) && r !in Handed(p) && n > n0 && a % WORD == 0 && r % WORD == 0 && n0 % WORD == 0
    requires p.owner[a].span in p.spans && n0 == Capacity(p.spans[p.owner[a].span])
    requires Undisturbed(Handed(p), m, m2) && Undisturbed(Handed(p)[r := n] - {a}, m3, m4)
    requires n > SPAN_SIZE ==> forall x :: InBlock(r, n, x) ==> x in m2 && m2[x] == 0
    requires Copied(m2, a, m3, r, n0)
    ensures CutBytes(m, a, m4, r, n0, Least(Handed(p)[a], n))
  {
    LongIsLarge(p, a);
    hide Inv, CutBytes, Capacity, MovedWords;
    var l := Handed(p)[a];
    hide Handed;
    AllMoved(Handed(p), a, l, n, r, n0, m, m2, m3, m4);
    MovedBytes(m, a, m4, r, n0, Least(l, n));
  }

  lemma AllMoved(h: map<Addr, nat>, a: Addr, l: nat, n: nat, r: Addr, n0: nat, m: Words, m2: Words, m3: Words, m4: Words)
    requires a in h && h[a] == l && r !in h && n > n0 && a % WORD == 0 && r % WORD == 0 && n0 % WORD == 0
    requires Undisturbed(h, m, m2) && Undisturbed(h[r := n] - {a}, m3, m4) && Copied(m2, a, m3, r, n0)
    requires l > n0 ==> forall x :: InBlock(r, n, x) ==> x in m2 && m2[x] == 0
    ensures MovedWords(m, a, m4, r, n0, Least(l, n))
  {
    var g := h[r := n] - {a};
    assert r in g && g[r] == n;
    forall x: Addr | InBlock(r, Least(l, n), x)
      ensures x in m4 && if x < r + n0 then a + (x - r) in m && m4[x] == m[a + (x - r)] else m4[x] == 0
    {
      assert InBlock(r, g[r], x) && InBlock(r, n, x);
      assert x in m3 && x in m4 && m4[x] == m3[x];
      if x < r + n0 {
        assert InBlock(r, n0, x);
        ShiftedWord(a, r, x);
        assert InBlock(a, h[a], a + (x - r));
      } else {
        assert !InBlock(r, n0, x);
      }
    }
  }

  lemma ShiftedWord(a: Addr, r: Addr, x: Addr)
    requires a % WORD == 0 && r % WORD == 0 && x % WORD == 0 && r <= x
    ensures (a + (x - r)) % WORD == 0
  {
  }

  lemma FindFacts(desc: Descs, next: Words, bucket: map<nat, Addr>, sp_head: seq<Addr>, q: Pool, p: Addr)
    requires Inv(q) && Rep(desc, next, bucket, sp_head, q)
    ensures NULL !in desc && forall i :: i in bucket ==> bucket[i] in desc && bucket[i] in q.spans
    ensures var bp := BucketOf(p);
      var r := if bp in bucket && p >= desc[bucket[bp]].sp_base then bucket[bp]
               else if bp == 0 then NULL
               else if bp - 1 in bucket && p - desc[bucket[bp - 1]].sp_base < desc[bucket[bp - 1]].sp_size then bucket[bp - 1]
               else NULL;
      && (p in q.owner ==> r == q.owner[p].span && r in desc)
      && (r != NULL ==> r in q.spans && q.spans[r].base <= p < q.spans[r].base + q.spans[r].size)
  {
    hide SpansOk, BlocksOk, OrderOk, FreeListsOk, CachesOk, DescsRep, ListsRep, WordsRep, BucketsRep;
    SpansNotNull(q);
    RangesFiled(desc, bucket, q);
    if p in q.owner { BlockFindsSpan(desc, bucket, q, p); }
    BucketsInSpans(bucket, q);
    DescMatches(desc, q);
    hide Inv, Rep, DescsRep, BucketsRep, Filed;
    FindsTheSpan(Ranges(desc, bucket), p, BucketOf(p));
    if BucketOf(p) > 0 { FindsTheSpan(Ranges(desc, bucket), p, BucketOf(p) - 1); }
  }

  lemma BucketsInSpans(bucket: map<nat, Addr>, p: Pool)
    requires BucketsRep(bucket, p)
    ensures forall i :: i in bucket ==> bucket[i] in p.spans
  {
  }

  lemma DescMatches(desc: Descs, p: Pool)
    requires DescsRep(desc, p)
    ensures desc.Keys == p.spans.Keys
    ensures forall s :: s in desc ==> s in p.spans && desc[s].sp_base == p.spans[s].base && desc[s].sp_size == p.spans[s].size
  {
    forall s | s in desc ensures s in p.spans && desc[s].sp_base == p.spans[s].base && desc[s].sp_size == p.spans[s].size {
      assert s in p.spans.Keys;
      assert DescOk(desc[s], p.spans[s]);
    }
  }

  lemma CreateFacts(desc: Descs, next: Words, bucket: map<nat, Addr>, sp_head: seq<Addr>, p: Pool, k: Class, pg: Addr)
    requires Inv(p) && OnlyLastIdle(p) && Rep(desc, next, bucket, sp_head, p) && p.order[k] == [] && Fresh(p, pg, SPAN_SIZE)
    ensures |sp_head| == CLASSES && |p.order| == CLASSES && BucketOf(pg) !in bucket
    ensures |CreateSpan(p, k, pg).order| == CLASSES && CreateSpan(p, k, pg).order[k] == [pg] && Unit(k) > 0
    ensures Inv(CreateSpan(p, k, pg)) && OnlyLastIdle(CreateSpan(p, k, pg))
    ensures var xs := NewSpan(pg, k).free;
      && xs != [] && xs[0] == pg && xs[|xs| - 1] + Unit(k) == pg + BlockCount(k) * Unit(k)
      && (forall i: nat :: i + 1 < |xs| ==> xs[i + 1] == xs[i] + Unit(k))
      && (forall i, j :: 0 <= i < j < |xs| ==> xs[i] < xs[j])
  {
    FreshPage(p, pg);
    hide SpansOk, BlocksOk, OrderOk, FreeListsOk, CachesOk, OnlyLastIdle, WordsRep, Fresh, NewSpan;
    FreshBucket(desc, bucket, p, pg, SPAN_SIZE);
    CreateKeepsInv(p, k, pg);
    CreateIdle(p, k, pg);
    NewSpanNodes(pg, k);
  }

  lemma TakeOneFacts(desc: Descs, next: Words, bucket: map<nat, Addr>, sp_head: seq<Addr>, p: Pool, k: Class, n: nat)
    requires Inv(p) && OnlyLastIdle(p) && Rep(desc, next, bucket, sp_head, p) && p.order[k] != [] && n <= Unit(k)
    ensures HasHead(p, k) && Inv(TakeOne(p, k, n)) && OnlyLastIdle(TakeOne(p, k, n)) && |sp_head| == CLASSES && sp_head[k] == p.order[k][0]
    ensures var s, a := p.order[k][0], HeadBlock(p, k);
      && s in desc && desc[s].nd_free == a && a in next
      && Rep(TakenDescs(desc, s, next[a], desc[s].nd_nnum + 1), next, bucket,
             if next[a] == NULL then sp_head[k := desc[s].sl_next] else sp_head, TakeOne(p, k, n))
  {
    HeadExists(sp_head, desc, p, k);
    hide Inv, OnlyLastIdle, Rep, IsFree, TakeOne, TakenDescs;
    OrderGivesHead(p, k);
    TakeOneKeepsInv(p, k, n);
    TakeOneIdle(p, k, n);
    TakeOneRep(desc, next, bucket, sp_head, p, k, n);
  }

  lemma TakeLargeStaysIdle(p: Pool, n: nat, pg: Addr)
    requires Inv(p) && OnlyLastIdle(p) && n > SPAN_SIZE && Fresh(p, pg, n)
    ensures OnlyLastIdle(TakeLarge(p, n, pg))
  {
    hide SpansOk, BlocksOk, FreeListsOk, CachesOk, OnlyLastIdle, Fresh;
    LargeIsFresh(p, n, pg);
    TakeLargeIdle(p, n, pg);
  }

  lemma LargeDescIs(pg: Addr, n: nat)
    ensures LargeDesc(pg, n) ==
      if RoundPage(n) - n >= DESC_SIZE then SpanDesc(pg, RoundPage(n) - DESC_SIZE, false, None, NULL, NULL, NULL, 0)
      else SpanDesc(pg, RoundPage(n), true, None, NULL, NULL, NULL, 0)
  {
  }

  lemma SameCacheLinks(links: seq<seq<Link>>, p: Pool, q: Pool)
    requires LinksRep(links, p) && q.cache == p.cache
    ensures LinksRep(links, q)
  {
    forall t: nat, k: Class | t < |links| ensures LinkRep(links[t][k], k, q.cache[t][k]) {
      assert LinkRep(links[t][k], k, p.cache[t][k]);
    }
  }

  lemma PushFacts(desc: Descs, next: Words, bucket: map<nat, Addr>, sp_head: seq<Addr>, p: Pool, a: Addr, s: Addr, k: Class)
    requires Inv(p) && Rep(desc, next, bucket, sp_head, p) && OutSmall(p, a) && s == p.owner[a].span && k == ClassOf(p, a)
    ensures s in desc && desc[s].nd_nnum > 0 && |p.order| == |sp_head| == CLASSES
    ensures Rep(PushedDescs(desc, s, a, sp_head[k]), next[a := desc[s].nd_free], bucket,
                PushedHeads(desc, sp_head, s, k), PushFree(p, a))
    ensures Inv(PushFree(p, a))
  {
    HeadExists(sp_head, desc, p, k);
    hide Inv, Rep, PushFree, PushedDescs, PushedHeads;
    PushFreeRep(desc, next, bucket, sp_head, p, a);
    PushFreeKeepsInv(p, a);
  }

  lemma GiveBackKeeps(p: Pool, a: Addr)
    requires Inv(p) && OnlyLastIdle(p) && OutSmall(p, a)
    ensures |p.order| == CLASSES && Inv(GiveBack(p, a)) && OnlyLastIdle(GiveBack(p, a))
  {
    GiveBackKeepsInv(p, a);
    GiveBackIdle(p, a);
  }

  /** The test nd_nnum == 0 && sl_next != NULL is the one GiveBack makes. */
  lemma UnmapNeeded(desc: Descs, next: Words, bucket: map<nat, Addr>, sp_head: seq<Addr>, p: Pool, a: Addr, s: Addr, k: Class)
    requires OutSmall(p, a) && |p.order| == CLASSES && s == p.owner[a].span && k == ClassOf(p, a)
    requires Inv(PushFree(p, a)) && Rep(desc, next, bucket, sp_head, PushFree(p, a))
    ensures s in desc && |sp_head| == CLASSES
    ensures PushFree(p, a).spans[s].kind == Small(k)
    ensures desc[s].nd_nnum != 0 || desc[s].sl_next == NULL ==> GiveBack(p, a) == PushFree(p, a)
    ensures desc[s].nd_nnum == 0 && desc[s].sl_next != NULL ==>
              Idle(PushFree(p, a), s) && s in PushFree(p, a).order[k] && GiveBack(p, a) == Unmap(PushFree(p, a), s)
  {
    var q := PushFree(p, a);
    assert s in q.spans && q.spans[s].kind == Small(k) && q.spans[s].free != [];
    NonIdle(desc, sp_head, q, s, k);
    hide Inv, Rep;
    if Idle(q, s) { UnmapWhere(desc, next, bucket, sp_head, q, s); }
  }

  lemma NonIdle(desc: Descs, sp_head: seq<Addr>, q: Pool, s: Addr, k: Class)
    requires Inv(q) && DescsRep(desc, q) && ListsRep(desc, sp_head, q) && s in q.spans && q.spans[s].kind == Small(k)
    ensures s in desc && |sp_head| == CLASSES && (desc[s].nd_nnum == 0 <==> Idle(q, s))
  {
    assert DescOk(desc[s], q.spans[s]);
  }

  lemma UnmapWhere(desc: Descs, next: Words, bucket: map<nat, Addr>, sp_head: seq<Addr>, q: Pool, s: Addr)
    requires Inv(q) && Rep(desc, next, bucket, sp_head, q) && Idle(q, s)
    ensures s in desc && s in q.order[q.spans[s].kind.k]
    ensures desc[s].sl_next == NULL <==> s == Last(q.order[q.spans[s].kind.k])
  {
    UnmapFacts(desc, sp_head, q, s);
  }

  /** The two unlinking branches cut the span out of its list. */
  lemma UnmapCode(desc: Descs, next: Words, bucket: map<nat, Addr>, sp_head: seq<Addr>, q: Pool, s: Addr, k: Class)
    requires Inv(q) && Rep(desc, next, bucket, sp_head, q) && Idle(q, s) && q.spans[s].kind == Small(k)
    ensures |q.order| == |sp_head| == CLASSES && s in q.order[k]
    ensures s in desc && desc[s].sp_base == s && desc[s].sp_size == q.spans[s].size
    ensures desc[s].sl_next != NULL ==>
      Rep((if sp_head[k] == s then SetPrev(desc, desc[s].sl_next, NULL)
           else SetNext(SetPrev(desc, desc[s].sl_next, desc[s].sl_prev), desc[s].sl_prev, desc[s].sl_next)) - {s},
          Unmapped(next, s, q.spans[s].size), bucket - {BucketOf(s)},
          if sp_head[k] == s then sp_head[k := desc[s].sl_next] else sp_head, Unmap(q, s))
  {
    UnmapFacts(desc, sp_head, q, s);
    HeadExists(sp_head, desc, q, k);
    hide Inv, Rep, Unmap, Linked;
    UnmapRep(desc, next, bucket, sp_head, q, s);
    CutKeys(desc, s);
  }

  /** An address in no span. */
  predicate Outside(p: Pool, a: Addr) {
    forall s :: s in p.spans ==> !(p.spans[s].base <= a < p.spans[s].base + p.spans[s].size)
  }

  lemma SlotOf(desc: Descs, next: Words, bucket: map<nat, Addr>, sp_head: seq<Addr>, p: Pool, a: Addr)
    requires Inv(p) && Rep(desc, next, bucket, sp_head, p) && a in Handed(p)
    ensures var s := p.owner[a].span;
      s in desc && match desc[s].sl_slot
                   case Some(k) => OutSmall(p, a) && k == ClassOf(p, a)
                   case None => !OutSmall(p, a)
  {
    HomeOf(p, a);
    assert DescOk(desc[p.owner[a].span], p.spans[p.owner[a].span]);
  }

  lemma FreeLargeFacts(desc: Descs, next: Words, bucket: map<nat, Addr>, sp_head: seq<Addr>, p: Pool, a: Addr)
    requires Inv(p) && OnlyLastIdle(p) && Rep(desc, next, bucket, sp_head, p) && a in Handed(p) && !OutSmall(p, a)
    ensures p.owner[a].span == a && a in p.spans && a in desc && desc[a].sp_base == a && desc[a].sp_size == p.spans[a].size
    ensures Inv(FreeLarge(p, a)) && OnlyLastIdle(FreeLarge(p, a))
    ensures Rep(desc - {a}, Unmapped(next, a, p.spans[a].size), bucket - {BucketOf(a)}, sp_head, FreeLarge(p, a))
  {
    DescMatches(desc, p);
    hide DescsRep, ListsRep, WordsRep, BucketsRep, SpansOk, BlocksOk, FreeListsOk, CachesOk, OnlyLastIdle;
    LargeBlock(p, a);
    assert p.spans[a].base == a by { SpanIsOk(p, a); }
    FreeLargeKeepsInv(p, a);
    FreeLargeIdle(p, a);
    FreeLargeRep(desc, next, bucket, sp_head, p, a);
  }

  lemma PagesMapped(p: Pool, m: Words, k: Class, pg: Addr)
    requires Inv(p) && Backed(p, m) && Fresh(p, pg, SPAN_SIZE)
    ensures var m2 := m + Zeros(pg, SPAN_SIZE);
      && (forall a :: a in NewSpan(pg, k).free ==> a in m2)
      && forall x :: x in m ==> x in m2 && m2[x] == m[x] && x !in NewSpan(pg, k).free
  {
    hide Backed, NewSpan, Mapped, OrderOk, BlocksOk, SpansOk, FreeListsOk, CachesOk, Fresh;
    FreshPage(p, pg);
    NodesOnPages(pg, k);
    NotOnPages(p, pg, SPAN_SIZE);
    NotInMemory(p, m, pg, SPAN_SIZE);
  }

  lemma TakeAllFacts(desc: Descs, next: Words, bucket: map<nat, Addr>, sp_head: seq<Addr>, links: seq<seq<Link>>, p: Pool, t: nat, k: Class)
    requires Inv(p) && OnlyLastIdle(p) && Rep(desc, next, bucket, sp_head, p) && LinksRep(links, p)
    requires HasThread(p, t) && p.order[k] != [] && p.cache[t][k] == []
    ensures HasHead(p, k) && Inv(TakeAll(p, t, k)) && OnlyLastIdle(TakeAll(p, t, k)) && |sp_head| == CLASSES && sp_head[k] == p.order[k][0]
    ensures t < |links| && |links[t]| == CLASSES && HasThread(TakeAll(p, t, k), t)
    ensures var s := p.order[k][0]; var q := TakeAll(p, t, k);
      && q.cache[t][k] != [] && s in desc && desc[s].nd_nnum + |q.cache[t][k]| == BlockCount(k)
      && desc[s].nd_free == q.cache[t][k][0]
      && Rep(TakenDescs(desc, s, NULL, BlockCount(k)), next, bucket, sp_head[k := desc[s].sl_next], q)
      && LinksRep(SetLink(links, t, k, links[t][k].(nd_nnum := BlockCount(k) - desc[s].nd_nnum, nd_head := desc[s].nd_free)), q)
  {
    hide Inv, OnlyLastIdle, Rep, IsFree, TakenDescs, Linked, Chain, ListsRep;
    assert ListsRep(desc, sp_head, p) by { ListsOf(desc, next, bucket, sp_head, p); }
    HeadExists(sp_head, desc, p, k);
    OrderGivesHead(p, k);
    TakeAllKeepsInv(p, t, k);
    TakeAllIdle(p, t, k);
    TakeAllRep(desc, next, bucket, sp_head, p, t, k);
    var s := p.order[k][0];
    assert LinkRep(links[t][k], k, p.cache[t][k]);
    SetLinkRep(links, p, TakeAll(p, t, k), t, k, links[t][k].(nd_nnum := BlockCount(k) - desc[s].nd_nnum, nd_head := desc[s].nd_free));
  }

  lemma TakenDescsCode(desc: Descs, s: Addr, n: nat)
    requires s in desc
    ensures TakenDescs(desc, s, NULL, n) == SetPrev(desc[s := desc[s].(nd_free := NULL, nd_nnum := n)], desc[s].sl_next, NULL)
  {
  }

  lemma LinkAt(links: seq<seq<Link>>, p: Pool, t: nat, k: Class)
    requires LinksRep(links, p) && HasThread(p, t)
    ensures t < |links| && |links[t]| == CLASSES && LinkRep(links[t][k], k, p.cache[t][k])
  {
  }

  lemma SetLinkTwice(links: seq<seq<Link>>, t: nat, k: Class, l: Link, m: Link)
    requires t < |links| && |links[t]| == CLASSES
    ensures SetLink(links, t, k, l)[t][k] == l && |SetLink(links, t, k, l)| == |links| && |SetLink(links, t, k, l)[t]| == CLASSES
    ensures SetLink(SetLink(links, t, k, l), t, k, m) == SetLink(links, t, k, m)
  {
    assert links[t][k := l][k := m] == links[t][k := m];
  }

  lemma SetLinkSame(links: seq<seq<Link>>, t: nat, k: Class)
    requires t < |links| && |links[t]| == CLASSES
    ensures SetLink(links, t, k, links[t][k]) == links
  {
    assert links[t][k := links[t][k]] == links[t];
  }

  lemma CachedNotNull(p: Pool, t: nat, k: Class)
    requires Inv(p) && HasThread(p, t)
    ensures Head(p.cache[t][k]) == NULL <==> p.cache[t][k] == []
  {
    if p.cache[t][k] != [] {
      var a := p.cache[t][k][0];
      assert CacheListOk(p, t, k) && a in p.cache[t][k];
      assert IsCached(p, t, k, a);
      HomeOf(p, a);
      BlockInside(p.spans[p.owner[a].span], p.owner[a].idx);
    }
  }

  lemma PopFacts(desc: Descs, next: Words, bucket: map<nat, Addr>, sp_head: seq<Addr>, links: seq<seq<Link>>, p: Pool, t: nat, k: Class, n: nat)
    requires Inv(p) && OnlyLastIdle(p) && CacheBounded(p) && Rep(desc, next, bucket, sp_head, p) && LinksRep(links, p)
    requires HasThread(p, t) && p.cache[t][k] != [] && n <= Unit(k)
    ensures CacheHas(p, t, k) && Inv(PopCache(p, t, k, n)) && OnlyLastIdle(PopCache(p, t, k, n)) && CacheBounded(PopCache(p, t, k, n))
    ensures t < |links| && |links[t]| == CLASSES && links[t][k].nd_head == p.cache[t][k][0] && links[t][k].nd_nnum > 0
    ensures p.cache[t][k][0] in next
    ensures Rep(desc, next, bucket, sp_head, PopCache(p, t, k, n))
    ensures LinksRep(SetLink(links, t, k, Link(next[p.cache[t][k][0]], links[t][k].nd_nnum - 1, links[t][k].nd_nmax)), PopCache(p, t, k, n))
  {
    hide Inv, OnlyLastIdle, Rep;
    PopKeepsInv(p, t, k, n);
    PopIdle(p, t, k, n);
    PopRep(desc, next, bucket, sp_head, p, t, k, n);
    LinkAt(links, p, t, k);
    SetLinkRep(links, p, PopCache(p, t, k, n), t, k, Link(next[p.cache[t][k][0]], links[t][k].nd_nnum - 1, links[t][k].nd_nmax));
  }

  /** One turn of a batch: the popped block is looked up and its span is of the batch's class. */
  lemma BatchFacts(desc: Descs, next: Words, bucket: map<nat, Addr>, sp_head: seq<Addr>, p: Pool, t: nat, k: Class)
    requires Inv(p) && OnlyLastIdle(p) && Rep(desc, next, bucket, sp_head, p) && HasThread(p, t) && Head(p.cache[t][k]) != NULL
    ensures CacheHas(p, t, k)
    ensures var a := p.cache[t][k][0]; var q := PopCache(p, t, k, 0);
      && Inv(q) && OnlyLastIdle(q) && Rep(desc, next, bucket, sp_head, q)
      && a in next && next[a] == Head(p.cache[t][k][1..]) && OutSmall(q, a) && ClassOf(q, a) == k
      && q.owner[a].span in desc && desc[q.owner[a].span].sl_slot == Some(k) && a in q.owner
  {
    hide Inv, OnlyLastIdle, PopCache;
    PopKeepsInv(p, t, k, 0);
    var a := p.cache[t][k][0];
    var q := PopCache(p, t, k, 0);
    PopIdle(p, t, k, 0);
    PopRep(desc, next, bucket, sp_head, p, t, k, 0);
    SlotOf(desc, next, bucket, sp_head, q, a);
  }

  lemma ReturnOneIs(p: Pool, t: nat, k: Class)
    requires Inv(p) && OnlyLastIdle(p) && HasThread(p, t) && p.cache[t][k] != []
    ensures CacheHas(p, t, k) && OutSmall(PopCache(p, t, k, 0), p.cache[t][k][0]) && |PopCache(p, t, k, 0).order| == CLASSES
    ensures ReturnOne(p, t, k) == GiveBack(PopCache(p, t, k, 0), p.cache[t][k][0])
  {
    PopKeepsInv(p, t, k, 0);
  }

  lemma PushLinkFacts(desc: Descs, next: Words, bucket: map<nat, Addr>, sp_head: seq<Addr>, links: seq<seq<Link>>, p: Pool, t: nat, k: Class, a: Addr)
    requires Inv(p) && OnlyLastIdle(p) && Rep(desc, next, bucket, sp_head, p) && LinksRep(links, p)
    requires HasThread(p, t) && OutSmall(p, a) && k == ClassOf(p, a)
    ensures t < |links| && |links[t]| == CLASSES && links[t][k].nd_nnum == |p.cache[t][k]| && links[t][k].nd_nmax == CacheMax(k)
    ensures a in p.owner
    ensures var q := PushCache(p, t, k, a);
      && Inv(q) && OnlyLastIdle(q) && HasThread(q, t) && q.cache[t][k] == [a] + p.cache[t][k]
      && Rep(desc, next[a := links[t][k].nd_head], bucket, sp_head, q)
      && LinksRep(SetLink(links, t, k, Link(a, links[t][k].nd_nnum + 1, links[t][k].nd_nmax)), q)
  {
    assert |p.order| == CLASSES;
    hide Inv, OnlyLastIdle, Rep, IsFree, LinksRep, PushCache, SetLink;
    LinkAt(links, p, t, k);
    PushCacheList(p, t, k, a);
    PushCacheKeepsInv(p, t, a);
    PushCacheStaysIdle(p, t, a);
    PushCacheRep(desc, next, bucket, sp_head, p, t, a);
    SetLinkRep(links, p, PushCache(p, t, k, a), t, k, Link(a, links[t][k].nd_nnum + 1, links[t][k].nd_nmax));
  }

  lemma PushCacheList(p: Pool, t: nat, k: Class, a: Addr)
    requires a in p.owner && HasThread(p, t)
    ensures var q := PushCache(p, t, k, a);
      HasThread(q, t) && q.cache[t][k] == [a] + p.cache[t][k] && OnlyCache(p, q, t, k, [a] + p.cache[t][k])
  {
  }

  lemma TrimFacts(p: Pool, t: nat, k: Class, a: Addr)
    requires CacheBounded(p) && HasThread(p, t) && OutSmall(p, a) && k == ClassOf(p, a)
    ensures var q := PushCache(p, t, k, a);
      && |q.cache[t][k]| == |p.cache[t][k]| + 1
      && (|p.cache[t][k]| < CacheMax(k) ==> CacheBounded(q))
      && (|p.cache[t][k]| >= CacheMax(k) ==> Drop(q.cache[t][k], |q.cache[t][k]| / 2) != [])
      && forall r: Pool :: OnlyCache(q, r, t, k, Drop(q.cache[t][k], |q.cache[t][k]| / 2)) ==> CacheBounded(r) && HasThread(r, t)
  {
    TrimKeepsBound(p, PushCache(p, t, k, a), t, k);
  }

  lemma PushCacheStaysIdle(p: Pool, t: nat, a: Addr)
    requires Inv(p) && OnlyLastIdle(p) && OutSmall(p, a) && HasThread(p, t)
    ensures OnlyLastIdle(PushCache(p, t, ClassOf(p, a), a))
  {
    hide SpansOk, BlocksOk, FreeListsOk, CachesOk, OrderOk, OnlyLastIdle;
    PushCacheHanded(p, t, a);
  }

  lemma TrimmedLinks(links: seq<seq<Link>>, q: Pool, r: Pool, t: nat, k: Class, sz: nat, head: Addr)
    requires LinksRep(links, q) && HasThread(q, t) && HasThread(r, t) && sz <= |q.cache[t][k]|
    requires OnlyCache(q, r, t, k, Drop(q.cache[t][k], sz)) && head == Head(r.cache[t][k])
    ensures t < |links| && |links[t]| == CLASSES && sz <= links[t][k].nd_nnum
    ensures LinksRep(SetLink(links, t, k, Link(head, links[t][k].nd_nnum - sz, links[t][k].nd_nmax)), r)
  {
    LinkAt(links, q, t, k);
    SetLinkRep(links, q, r, t, k, Link(head, links[t][k].nd_nnum - sz, links[t][k].nd_nmax));
  }

  lemma CleanStep(p: Pool, t: nat, k: Class)
    requires Good(p) && HasThread(p, t)
    ensures var q := ReturnBatch(p, t, k, |p.cache[t][k]|);
      Good(q) && HasThread(q, t) && CleanFrom(p, t, k) == CleanFrom(q, t, k + 1)
  {
    hide Inv, OnlyLastIdle;
  }

  lemma CleanEnd(p: Pool, t: nat)
    requires Good(p) && HasThread(p, t)
    ensures CleanFrom(p, t, CLASSES) == p
  {
  }

  lemma SweepFromStep(p: Pool, k: Class)
    requires Inv(p) && OnlyLastIdle(p)
    ensures |p.order| == CLASSES && NoDup(p.order[k]) && SweepFrom(p, k) == SweepFrom(Sweep(p, k, p.order[k]), k + 1)
  {
    assert |p.order| == CLASSES && NoDup(p.order[k]);
    hide Inv, OnlyLastIdle;
  }

  lemma SweepFromEnd(p: Pool)
    requires Inv(p) && OnlyLastIdle(p)
    ensures SweepFrom(p, CLASSES) == p
  {
  }

  /** The walk stands between kept and todo, which together are the class list. */
  ghost predicate SweepPoint(p: Pool, k: Class, kept: seq<Addr>, todo: seq<Addr>) {
    && |p.order| == CLASSES && p.order[k] == kept + todo && NoDup(todo) && NULL !in todo
    && forall s :: s in todo ==> s in p.order[k]
  }

  lemma SweepStart(desc: Descs, sp_head: seq<Addr>, p: Pool, k: Class)
    requires Inv(p)
    ensures SweepPoint(p, k, [], p.order[k])
  {
    SpansNotNull(p);
    OrderInSpans(p);
    assert p.order[k] == [] + p.order[k];
  }

  lemma SweepFacts(desc: Descs, next: Words, bucket: map<nat, Addr>, sp_head: seq<Addr>, p: Pool, k: Class, kept: seq<Addr>, todo: seq<Addr>)
    requires Inv(p) && OnlyLastIdle(p) && Rep(desc, next, bucket, sp_head, p) && SweepPoint(p, k, kept, todo) && todo != []
    ensures var s := todo[0];
      && s in desc && |sp_head| == CLASSES && desc[s].sl_next == Head(todo[1..]) && desc[s].sp_base == s && s in p.owner && p.owner[s].span == s
      && SweepPoint(p, k, kept + [s], todo[1..])
      && (desc[s].nd_nnum == 0 <==> Idle(p, s))
      && (Idle(p, s) ==>
            && s in p.spans && p.spans[s].kind == Small(k) && desc[s].sp_size == p.spans[s].size
            && var q := Unmap(p, s);
               Inv(q) && OnlyLastIdle(q) && SweepPoint(q, k, kept, todo[1..])
               && Rep(CutOut(desc, s) - {s}, Unmapped(next, s, p.spans[s].size), bucket - {BucketOf(s)}, CutHeads(desc, sp_head, s, k), q))
  {
    var s := todo[0];
    assert s in p.order[k];
    assert Listed(p, k, s);
    HeadExists(sp_head, desc, p, k);
    DescMatches(desc, p);
    SpanIsOk(p, s);
    NonIdle(desc, sp_head, p, s, k);
    SpanStart(p, s);
    hide Inv, OnlyLastIdle, Idle;
    NextInList(desc, sp_head, p, k, kept, todo);
    hide Rep, SweepPoint;
    SweepOn(p, k, kept, todo);
    if Idle(p, s) {
      DropIdle(p, k, s);
      UnmapRep(desc, next, bucket, sp_head, p, s);
      SweepDrop(p, k, kept, todo);
    }
  }

  lemma SpanStart(p: Pool, s: Addr)
    requires BlocksOk(p) && s in p.spans && p.spans[s].base == s && p.spans[s].kind.Small?
    ensures s in p.owner && p.owner[s].span == s
  {
    LayoutFits(p.spans[s].kind.k);
    assert At(p.spans[s], 0) == s;
  }

  lemma NextInList(desc: Descs, sp_head: seq<Addr>, p: Pool, k: Class, kept: seq<Addr>, todo: seq<Addr>)
    requires ListsRep(desc, sp_head, p) && SweepPoint(p, k, kept, todo) && todo != []
    ensures todo[0] in desc && desc[todo[0]].sl_next == Head(todo[1..])
  {
    LinkedAt(desc, p.order[k], |kept|);
  }

  lemma SweepOn(p: Pool, k: Class, kept: seq<Addr>, todo: seq<Addr>)
    requires SweepPoint(p, k, kept, todo) && todo != []
    ensures SweepPoint(p, k, kept + [todo[0]], todo[1..])
  {
    assert kept + todo == (kept + [todo[0]]) + todo[1..];
  }

  lemma SweepDrop(p: Pool, k: Class, kept: seq<Addr>, todo: seq<Addr>)
    requires Inv(p) && SweepPoint(p, k, kept, todo) && todo != [] && todo[0] in p.spans && p.spans[todo[0]].kind == Small(k)
    ensures todo[0] in p.order[k] && SweepPoint(Unmap(p, todo[0]), k, kept, todo[1..])
  {
    var xs := p.order[k];
    assert NoDup(xs);
    hide Inv;
    var j := Index(xs, todo[0]);
    assert xs[|kept|] == todo[0];
    assert j == |kept|;
    assert Without(xs, todo[0]) == kept + todo[1..];
  }

  function CapacityOf(d: SpanDesc): int {
    match d.sl_slot
    case Some(k) => Unit(k)
    case None => if d.fly then d.sp_size - DESC_SIZE else d.sp_size
  }

  lemma CapacityFacts(desc: Descs, next: Words, bucket: map<nat, Addr>, sp_head: seq<Addr>, p: Pool, a: Addr)
    requires Inv(p) && Rep(desc, next, bucket, sp_head, p) && a in Handed(p)
    ensures var s := p.owner[a].span;
      s in p.spans && s in desc && CapacityOf(desc[s]) == Capacity(p.spans[s]) && 0 <= Capacity(p.spans[s]) <= UnitOf(p.spans[s])
  {
    HomeOf(p, a);
    assert DescOk(desc[p.owner[a].span], p.spans[p.owner[a].span]);
    CapacityFits(p, p.owner[a].span);
  }

  lemma InPlaceFacts(desc: Descs, next: Words, bucket: map<nat, Addr>, sp_head: seq<Addr>, links: seq<seq<Link>>, p: Pool, a: Addr, n: nat)
    requires Good(p) && Rep(desc, next, bucket, sp_head, p) && LinksRep(links, p) && a in Handed(p)
    requires p.owner[a].span in p.spans && n <= UnitOf(p.spans[p.owner[a].span])
    ensures var q := p.(owner := SetPlace(p, a, Out(n)));
      Good(q) && Rep(desc, next, bucket, sp_head, q) && LinksRep(links, q)
  {
    hide Inv, OnlyLastIdle, Rep, CacheBounded, LinksRep;
    var q := p.(owner := SetPlace(p, a, Out(n)));
    ResizeInPlace(p, a, n);
    SamePoolRep(desc, next, bucket, sp_head, p, q);
    SameCacheLinks(links, p, q);
  }

  lemma ListsOf(desc: Descs, next: Words, bucket: map<nat, Addr>, sp_head: seq<Addr>, p: Pool)
    requires Rep(desc, next, bucket, sp_head, p)
    ensures ListsRep(desc, sp_head, p)
  {
  }

  lemma HeadExists(sp_head: seq<Addr>, desc: Descs, p: Pool, k: Class)
    requires ListsRep(desc, sp_head, p)
    ensures |sp_head| == |p.order| == CLASSES && sp_head[k] == Head(p.order[k])
  {
  }

  lemma NewSpanNodes(pg: Addr, k: Class)
    requires pg > 0 && pg % PAGE_SIZE == 0
    ensures var xs := NewSpan(pg, k).free;
      && xs != [] && xs[0] == pg && xs[|xs| - 1] + Unit(k) == pg + BlockCount(k) * Unit(k)
      && (forall i: nat :: i + 1 < |xs| ==> xs[i + 1] == xs[i] + Unit(k))
      && (forall i, j :: 0 <= i < j < |xs| ==> xs[i] < xs[j])
  {
    NewSpanOk(pg, k);
    var s := NewSpan(pg, k);
    var xs := s.free;
    assert At(s, 0) == pg;
    forall i: nat | i < |xs| ensures xs[i] + Unit(k) == At(s, i + 1) { AtStep(s, i); }
    forall i, j | 0 <= i < j < |xs| ensures xs[i] < xs[j] { AtMono(s, i + 1, j); }
  }

  function EmptyLinks(): seq<Link> {
    seq(CLASSES, k requires 0 <= k < CLASSES => Link(NULL, 0, CacheMax(k)))
  }

  lemma NewLinks(desc: Descs, next: Words, bucket: map<nat, Addr>, sp_head: seq<Addr>, links: seq<seq<Link>>, p: Pool)
    requires Good(p) && Rep(desc, next, bucket, sp_head, p) && LinksRep(links, p)
    ensures Rep(desc, next, bucket, sp_head, AddThread(p)) && LinksRep(links + [EmptyLinks()], AddThread(p))
  {
    hide Good;
  }
}
