/**
  The page map from addresses to spans: the flat 32-bit form as a function on its buckets,
  and the two-level 64-bit form as a class proved against it.
 */
module PageMap {
  import opened SizeClasses

  datatype Option<T> = None | Some(value: T)

  /** The part of a span the map looks at. */
  datatype Range = Range(base: Addr, size: nat)

  /** Buckets that hold a span; bucket i covers addresses i * 1 MB up to (i + 1) * 1 MB. */
  type Buckets = map<nat, Range>

  function BucketOf(a: Addr): nat {
    a / SPAN_SIZE
  }

  predicate Covers(r: Range, a: Addr) {
    r.base <= a < r.base + r.size
  }

  predicate Apart(a: Range, b: Range) {
    a.base + a.size <= b.base || b.base + b.size <= a.base
  }

  /** Every span is filed under the bucket of its base, is at least 1 MB, and overlaps no other. */
  ghost predicate Filed(b: Buckets) {
    && (forall i :: i in b ==> BucketOf(b[i].base) == i && b[i].size >= SPAN_SIZE)
    && (forall i, j :: i in b && j in b && i != j ==> Apart(b[i], b[j]))
  }

  /** RadixPageMapT<32>::find_bucket. */
  function FindBucket(b: Buckets, a: Addr): Option<nat> {
    var i := BucketOf(a);
    if i in b && a >= b[i].base then Some(i)
    else if i == 0 then None
    else if i - 1 in b then
      if a - b[i - 1].base < b[i - 1].size then Some(i - 1) else None
    else None
  }

  /** find_bucket answers exactly the span that contains the address, for addresses in the span's
      base bucket or the one after it; in particular it answers NULL for addresses in no span,
      and the size assertion of its first branch never fails. */
  lemma FindsTheSpan(b: Buckets, a: Addr, i: nat)
    requires Filed(b)
    ensures FindBucket(b, a) == Some(i) <==> i in b && Covers(b[i], a) && i <= BucketOf(a) <= i + 1
    ensures BucketOf(a) in b && a >= b[BucketOf(a)].base ==> a - b[BucketOf(a)].base < b[BucketOf(a)].size
  {
    BucketBounds(a);
    if BucketOf(a) in b { BucketBounds(b[BucketOf(a)].base); }
    if i in b { BucketBounds(b[i].base); }
  }

  lemma BucketBounds(a: Addr)
    ensures BucketOf(a) * SPAN_SIZE <= a < BucketOf(a) * SPAN_SIZE + SPAN_SIZE
  {
  }

  /** A span that overlaps no filed span finds its bucket empty, and filing it keeps the map in order. */
  lemma InsertNeverCollides(b: Buckets, r: Range)
    requires Filed(b) && r.size >= SPAN_SIZE
    requires forall i :: i in b ==> Apart(b[i], r)
    ensures BucketOf(r.base) !in b
    ensures Filed(b[BucketOf(r.base) := r])
  {
    BucketBounds(r.base);
    if BucketOf(r.base) in b { BucketBounds(b[BucketOf(r.base)].base); }
  }

  // ---------- Two levels ----------

  /** Buckets per level-2 table: 22 of the 44 bits above the 1 MB offset. */
  const TABLE: nat := 0x40_0000

  /** The flat map a set of level-2 tables stands for. */
  ghost predicate Flattens(tables: map<nat, Buckets>, b: Buckets) {
    forall i: nat :: Same(tables, b, i)
  }

  predicate Stored(tables: map<nat, Buckets>, i: nat) {
    i / TABLE in tables && i % TABLE in tables[i / TABLE]
  }

  predicate Same(tables: map<nat, Buckets>, b: Buckets, i: nat) {
    (i in b <==> Stored(tables, i)) && (i in b ==> b[i] == tables[i / TABLE][i % TABLE])
  }

  lemma SplitIndex(i: nat, j: nat)
    ensures i / TABLE == j / TABLE && i % TABLE == j % TABLE ==> i == j
  {
  }

  class RadixPageMap64 {
    /** Allocated level-2 tables, each a map from level-2 index to the span stored there. */
    var tables: map<nat, Buckets>
    ghost var flat: Buckets

    ghost predicate Valid()
      reads this
    {
      Flattens(tables, flat)
    }

    constructor ()
      ensures Valid() && flat == map[] && tables == map[]
    {
      tables, flat := map[], map[];
    }

    method Insert(r: Range)
      requires Valid() && BucketOf(r.base) !in flat
      modifies this
      ensures Valid() && flat == old(flat)[BucketOf(r.base) := r]
      ensures tables.Keys == old(tables.Keys) + {BucketOf(r.base) / TABLE}
    {
      var bp0 := BucketOf(r.base);
      var bp1, bp2 := bp0 / TABLE, bp0 % TABLE;
      if bp1 !in tables {
        tables := tables[bp1 := map[]];
      }
      tables := tables[bp1 := tables[bp1][bp2 := r]];
      flat := flat[bp0 := r];
      forall i: nat ensures Same(tables, flat, i) {
        assert Same(old(tables), old(flat), i);
        SplitIndex(i, bp0);
      }
    }

    method Remove(r: Range)
      requires Valid() && BucketOf(r.base) in flat
      modifies this
      ensures Valid() && flat == old(flat) - {BucketOf(r.base)}
      ensures tables.Keys == old(tables.Keys)
    {
      var bp0 := BucketOf(r.base);
      var bp1, bp2 := bp0 / TABLE, bp0 % TABLE;
      assert Same(tables, flat, bp0);
      tables := tables[bp1 := tables[bp1] - {bp2}];
      flat := flat - {bp0};
      forall i: nat ensures Same(tables, flat, i) {
        assert Same(old(tables), old(flat), i);
        SplitIndex(i, bp0);
      }
    }

    /** RadixPageMapT<64>::find_bucket; an address whose own level-2 table was never allocated
        is answered NULL before the preceding bucket is looked at. */
    method Find(a: Addr) returns (r: Option<nat>)
      requires Valid()
      ensures r == TwoLevelFind(tables.Keys, flat, a)
    {
      var bp0 := BucketOf(a);
      var bp1, bp2 := bp0 / TABLE, bp0 % TABLE;
      if bp1 !in tables {
        return None;
      }
      assert Same(tables, flat, bp0);
      if bp2 in tables[bp1] && a >= tables[bp1][bp2].base {
        return Some(bp0);
      }
      if bp2 == 0 {
        if bp1 == 0 {
          return None;
        }
        bp1 := bp1 - 1;
        PreviousIndex(bp0);
        assert Same(tables, flat, bp0 - 1);
        if bp1 !in tables {
          return None;
        }
        bp2 := TABLE;
      }
      bp2 := bp2 - 1;
      PreviousIndex(bp0);
      assert Same(tables, flat, bp0 - 1);
      if bp2 in tables[bp1] {
        if a - tables[bp1][bp2].base < tables[bp1][bp2].size {
          return Some(bp0 - 1);
        }
        return None;
      }
      return None;
    }
  }

  lemma PreviousIndex(i: nat)
    requires i > 0
    ensures i % TABLE != 0 ==> (i - 1) / TABLE == i / TABLE && (i - 1) % TABLE == i % TABLE - 1
    ensures i % TABLE == 0 ==> (i - 1) / TABLE == i / TABLE - 1 && (i - 1) % TABLE == TABLE - 1
  {
  }

  function TwoLevelFind(present: set<nat>, b: Buckets, a: Addr): Option<nat> {
    if BucketOf(a) / TABLE in present then FindBucket(b, a) else None
  }

  /** The span in bucket i does not run on into a level-2 table that was never allocated. */
  predicate StaysCovered(present: set<nat>, b: Buckets, i: nat)
    requires i in b
  {
    (i + 1) / TABLE in present || b[i].base + b[i].size <= (i + 1) * SPAN_SIZE
  }

  /** The two forms answer alike for every address exactly when no span runs on into a missing table. */
  lemma TwoLevelsAgree(present: set<nat>, b: Buckets)
    requires Filed(b) && forall i :: i in b ==> i / TABLE in present
    ensures (forall a: Addr :: TwoLevelFind(present, b, a) == FindBucket(b, a))
       <==> (forall i :: i in b ==> StaysCovered(present, b, i))
  {
    if forall i :: i in b ==> StaysCovered(present, b, i) {
      forall a: Addr ensures TwoLevelFind(present, b, a) == FindBucket(b, a) {
        AgreeAt(present, b, a);
      }
    }
    if forall a: Addr :: TwoLevelFind(present, b, a) == FindBucket(b, a) {
      forall i | i in b ensures StaysCovered(present, b, i) {
        BucketBounds(b[i].base);
        var a := (i + 1) * SPAN_SIZE;
        assert BucketOf(a) == i + 1;
        FindsTheSpan(b, a, i);
        assert TwoLevelFind(present, b, a) == FindBucket(b, a);
      }
    }
  }

  lemma AgreeAt(present: set<nat>, b: Buckets, a: Addr)
    requires Filed(b) && forall i :: i in b ==> i / TABLE in present && StaysCovered(present, b, i)
    ensures TwoLevelFind(present, b, a) == FindBucket(b, a)
  {
    BucketBounds(a);
    if FindBucket(b, a).Some? {
      var i := FindBucket(b, a).value;
      FindsTheSpan(b, a, i);
      BucketBounds(b[i].base);
    }
  }

  /** A span in the last bucket of the first table that reaches the second: the 64-bit form loses its tail. */
  lemma StraddlingSpanIsLost()
    ensures var b: Buckets := map[TABLE - 1 := Range((TABLE - 1) * SPAN_SIZE + 4096, SPAN_SIZE)];
      var a := TABLE * SPAN_SIZE;
      && Filed(b) && Covers(b[TABLE - 1], a)
      && FindBucket(b, a) == Some(TABLE - 1) && TwoLevelFind({0}, b, a) == None
  {
  }
}
