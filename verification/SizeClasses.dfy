/**
  The size classes of the paging pool: the fixed table of block sizes, the layout of
  one 1 MB span of each class, and the two lookup tables that turn a request size into a class.
 */
module SizeClasses {

  type Addr = nat

  /** The C++ null pointer. */
  const NULL: Addr := 0

  const SPAN_SIZE: nat := 0x10_0000
  const PAGE_SIZE: nat := 4096

  /** sizeof(MpAllocSpan) with 64-bit pointers: eight words. */
  const DESC_SIZE: nat := 64

  const CLASSES: nat := 26

  const UNITS: seq<nat> := [
    8, 16, 24, 32, 48, 64, 96, 128, 192, 256, 384, 512, 1024, 2048, 4096, 8192,
    16384, 24576, 32768, 65536,
    131072, 172032, 262144, 348160, 524288, 1048576
  ]

  type Class = k: nat | k < CLASSES

  function Unit(k: Class): (u: nat)
    ensures 8 <= u <= SPAN_SIZE && u % 8 == 0
  {
    UNITS[k]
  }

  /** True if the span descriptor lives outside the span (the source's "fly" flag). */
  predicate Fly(k: Class) {
    Unit(k) > 64 && SPAN_SIZE - SPAN_SIZE / Unit(k) * Unit(k) < DESC_SIZE
  }

  /** Number of blocks in one span of class k. */
  function BlockCount(k: Class): nat {
    if Fly(k) then SPAN_SIZE / Unit(k) else (SPAN_SIZE - DESC_SIZE) / Unit(k)
  }

  /** Bytes of the span that blocks must stay out of. */
  function Reserved(k: Class): nat {
    if Fly(k) then 0 else DESC_SIZE
  }

  lemma DivBounds(x: nat, u: nat)
    requires u > 0
    ensures x / u * u <= x < x / u * u + u
  {
    assert x == x / u * u + x % u;
  }

  /** The blocks and the in-span descriptor fit in the span, there is at least one block,
      and no further block would fit. */
  lemma LayoutFits(k: Class)
    ensures 1 <= BlockCount(k)
    ensures BlockCount(k) * Unit(k) + Reserved(k) <= SPAN_SIZE
    ensures SPAN_SIZE < (BlockCount(k) + 1) * Unit(k) + Reserved(k)
  {
    var u := Unit(k);
    DivBounds(SPAN_SIZE, u);
    DivBounds(SPAN_SIZE - DESC_SIZE, u);
    assert BlockCount(k) * u + u == (BlockCount(k) + 1) * u;
  }

  /** The class get_slot must answer: the first one, from k on, whose blocks hold n bytes. */
  function FitFrom(n: nat, k: nat): (r: nat)
    requires k <= CLASSES
    ensures k <= r <= CLASSES
    ensures r < CLASSES ==> n <= UNITS[r]
    ensures forall j :: k <= j < r ==> UNITS[j] < n
    decreases CLASSES - k
  {
    if k == CLASSES || n <= UNITS[k] then k else FitFrom(n, k + 1)
  }

  function LeastFit(n: nat): nat {
    FitFrom(n, 0)
  }

  /** Whatever class holds n bytes is at least LeastFit(n), so that class wastes least. */
  lemma LeastFitIsLeast(n: nat, k: Class)
    ensures LeastFit(n) <= k <==> n <= Unit(k)
  {
    if LeastFit(n) <= k {
      SortedUnits(LeastFit(n), k);
    }
  }

  lemma SortedUnits(i: nat, j: nat)
    requires i <= j < CLASSES
    ensures UNITS[i] <= UNITS[j]
    decreases j - i
  {
    if i < j {
      SortedUnits(i, j - 1);
      assert UNITS[j - 1] <= UNITS[j];
    }
  }

  const SMALL_LIMIT: nat := 4096
  const SMALL_SLOTS: nat := 513
  const PAGE_SLOTS: nat := 257

  /** First class above the 4096-byte limit. */
  const FIRST_PAGE_CLASS: nat := 15

  /** The class stored in slot k of pSlot2: classes of at most 4096 bytes never enter that table. */
  function PageFit(k: nat): nat {
    FitFrom(4096 * k, FIRST_PAGE_CLASS)
  }

  /** The two request-size tables; entries are class numbers where the source stores slot pointers. */
  class SlotTables {
    const pSlot1: array<nat>
    const pSlot2: array<nat>

    ghost predicate Ready()
      reads this, pSlot1, pSlot2
    {
      && pSlot1.Length == SMALL_SLOTS && pSlot2.Length == PAGE_SLOTS
      && (forall k :: 0 <= k < SMALL_SLOTS ==> pSlot1[k] == LeastFit(8 * k))
      && (forall k :: 0 <= k < PAGE_SLOTS ==> pSlot2[k] == PageFit(k))
    }

    constructor ()
      ensures Ready() && fresh(pSlot1) && fresh(pSlot2)
    {
      pSlot1 := new nat[SMALL_SLOTS];
      pSlot2 := new nat[PAGE_SLOTS];
      new;
      var k1, k2 := 0, 0;
      for i := 0 to CLASSES
        invariant fresh(pSlot1) && fresh(pSlot2) && pSlot1 != pSlot2
        invariant pSlot1.Length == SMALL_SLOTS && pSlot2.Length == PAGE_SLOTS
        invariant k1 == SmallMark(i) && k2 == PageMark(i)
        invariant k1 <= SMALL_SLOTS && k2 <= PAGE_SLOTS
        invariant forall k :: 0 <= k < k1 ==> pSlot1[k] == LeastFit(8 * k)
        invariant forall k :: 0 <= k < k2 ==> pSlot2[k] == PageFit(k)
      {
        MarksStep(i);
        var sz := UNITS[i];
        if sz <= SMALL_LIMIT {
          Fill(pSlot1, k1, sz / 8 + 1, i);
          k1 := sz / 8 + 1;
        } else {
          Fill(pSlot2, k2, sz / 4096 + 1, i);
          k2 := sz / 4096 + 1;
        }
      }
    }

    /** The inner loops of MpAllocGlobal::init: slots from..to-1 all answer class i. */
    method Fill(a: array<nat>, from: nat, to: nat, i: nat)
      requires from <= to <= a.Length
      modifies a
      ensures forall k :: 0 <= k < a.Length ==> a[k] == if from <= k < to then i else old(a[k])
    {
      for k := from to to
        invariant forall j :: 0 <= j < a.Length ==> a[j] == if from <= j < k then i else old(a[j])
      {
        a[k] := i;
      }
    }

    /** MpAllocGlobal::get_slot: CLASSES stands for the NULL that sends the request to alloc_large. */
    method GetSlot(n: nat) returns (k: nat)
      requires Ready()
      ensures k == LeastFit(n)
      ensures k == CLASSES <==> n > SPAN_SIZE
    {
      LeastFitIsLeast(n, CLASSES - 1);
      if n <= SMALL_LIMIT {
        RoundSmall(n);
        return pSlot1[(n + 7) / 8];
      }
      if n <= SPAN_SIZE {
        RoundLarge(n);
        return pSlot2[(n + 4095) / 4096];
      }
      return CLASSES;
    }
  }

  /** How far each table is filled once classes below i have been entered. */
  function SmallMark(i: nat): nat
    requires i <= CLASSES
  {
    if i == 0 then 0 else if i <= FIRST_PAGE_CLASS then UNITS[i - 1] / 8 + 1 else SMALL_SLOTS
  }

  function PageMark(i: nat): nat
    requires i <= CLASSES
  {
    if i <= FIRST_PAGE_CLASS then 0 else UNITS[i - 1] / 4096 + 1
  }

  lemma MarksStep(i: Class)
    ensures SmallMark(i) <= SmallMark(i + 1) <= SMALL_SLOTS && PageMark(i) <= PageMark(i + 1) <= PAGE_SLOTS
    ensures UNITS[i] <= SMALL_LIMIT <==> i < FIRST_PAGE_CLASS
    ensures i < FIRST_PAGE_CLASS ==> SmallMark(i + 1) == UNITS[i] / 8 + 1 && PageMark(i + 1) == PageMark(i)
    ensures i >= FIRST_PAGE_CLASS ==> PageMark(i + 1) == UNITS[i] / 4096 + 1 && SmallMark(i + 1) == SmallMark(i)
    ensures i < FIRST_PAGE_CLASS ==> forall k :: SmallMark(i) <= k < SmallMark(i + 1) ==> LeastFit(8 * k) == i
    ensures i >= FIRST_PAGE_CLASS ==> forall k :: PageMark(i) <= k < PageMark(i + 1) ==> PageFit(k) == i
  {
    if i < FIRST_PAGE_CLASS {
      forall k | SmallMark(i) <= k < SmallMark(i + 1) ensures LeastFit(8 * k) == i {
        FitIs(8 * k, 0, i);
      }
    } else {
      PageUnits(i);
      if i > FIRST_PAGE_CLASS { PageUnits(i - 1); }
      forall k | PageMark(i) <= k < PageMark(i + 1) ensures PageFit(k) == i {
        FitIs(4096 * k, FIRST_PAGE_CLASS, i);
      }
    }
  }

  lemma FitIs(n: nat, from: nat, i: nat)
    requires from <= i < CLASSES && n <= UNITS[i]
    requires i == from || UNITS[i - 1] < n
    ensures FitFrom(n, from) == i
    decreases i - from
  {
    if from < i {
      SortedUnits(from, i - 1);
      FitIs(n, from + 1, i);
    }
  }

  lemma RoundUp(n: nat, g: nat, u: nat)
    requires g > 0 && u % g == 0
    ensures g * ((n + g - 1) / g) >= n
    ensures n <= u <==> g * ((n + g - 1) / g) <= u
  {
    var q := (n + g - 1) / g;
    assert n + g - 1 == q * g + (n + g - 1) % g;
    assert u == u / g * g;
    if q > u / g {
      MulMono(u / g + 1, q, g);
    } else {
      MulMono(q, u / g, g);
    }
  }

  lemma MulMono(a: nat, b: nat, c: nat)
    requires a <= b
    ensures a * c <= b * c
  {
    assert b * c == a * c + (b - a) * c;
  }

  lemma RoundSmall(n: nat)
    requires n <= SMALL_LIMIT
    ensures LeastFit(8 * ((n + 7) / 8)) == LeastFit(n)
  {
    SameFit(8 * ((n + 7) / 8), n, 8, 0);
  }

  lemma SameFit(m: nat, n: nat, g: nat, k: nat)
    requires k <= CLASSES && g > 0
    requires m == g * ((n + g - 1) / g)
    requires forall j :: k <= j < CLASSES ==> UNITS[j] % g == 0
    ensures FitFrom(m, k) == FitFrom(n, k)
    decreases CLASSES - k
  {
    if k < CLASSES {
      RoundUp(n, g, UNITS[k]);
      SameFit(m, n, g, k + 1);
    }
  }

  lemma PageUnits(k: nat)
    requires FIRST_PAGE_CLASS <= k < CLASSES
    ensures UNITS[k] % 4096 == 0
  {
  }

  lemma RoundLarge(n: nat)
    requires SMALL_LIMIT < n <= SPAN_SIZE
    ensures PageFit((n + 4095) / 4096) == LeastFit(n)
  {
    forall j | FIRST_PAGE_CLASS <= j < CLASSES ensures UNITS[j] % 4096 == 0 { PageUnits(j); }
    forall j | 0 <= j < FIRST_PAGE_CLASS ensures UNITS[j] < n { SortedUnits(j, FIRST_PAGE_CLASS - 1); }
    SameFit(4096 * ((n + 4095) / 4096), n, 4096, FIRST_PAGE_CLASS);
    SkipFit(n, FIRST_PAGE_CLASS);
  }

  lemma SkipFit(n: nat, k: nat)
    requires k <= CLASSES && forall j :: 0 <= j < k ==> UNITS[j] < n
    ensures LeastFit(n) == FitFrom(n, k)
    decreases k
  {
    if k > 0 { SkipFit(n, k - 1); }
  }
}
