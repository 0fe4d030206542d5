/** A ring of slots whose capacity is a power of two: the elements from head up to rear, one slot always free. */
module Ring {
  import opened Bits

  datatype Ring<T> = Ring(buf: seq<T>, head: int, rear: int)

  predicate Slot<T>(r: Ring<T>, x: int) {
    0 <= x < |r.buf|
  }

  function Mask<T>(r: Ring<T>): int {
    |r.buf| - 1
  }

  /** Position x of the ring. */
  function Pos<T>(r: Ring<T>, x: int): int
    requires r.buf != []
  {
    And(x, |r.buf| - 1)
  }

  /** The j-th slot of a batch of len elements from position p: the second part of the copy starts at slot 0. */
  function CopySlot<T>(r: Ring<T>, p: int, j: nat, len: int): int {
    var kn := p + len - Mask(r) - 1;
    if kn > 0 && j >= len - kn then j - (len - kn) else p + j
  }

  /** Where head or rear is stored after a batch of len elements from position p. */
  function BatchEnd<T>(r: Ring<T>, p: int, len: int): int
    requires r.buf != []
  {
    var kn := p + len - Mask(r) - 1;
    if kn > 0 then kn else Pos(r, kn)
  }

  predicate Bounds<T>(r: Ring<T>) {
    Slot(r, r.head) && Slot(r, r.rear)
  }

  ghost predicate Shape<T>(r: Ring<T>) {
    IsPow2(|r.buf|) && Bounds(r)
  }

  function Used<T>(r: Ring<T>): int {
    if r.head <= r.rear then r.rear - r.head else r.rear - r.head + |r.buf|
  }

  /** The slot j places after head. */
  function At<T>(r: Ring<T>, j: int): int {
    Fold(r.head + j, |r.buf|)
  }

  /** The elements from head to rear. */
  function Contents<T>(r: Ring<T>): seq<T>
    requires Bounds(r)
  {
    seq(Used(r), j requires 0 <= j < Used(r) => r.buf[At(r, j)])
  }

  lemma ContentsAt<T>(r: Ring<T>)
    requires Bounds(r)
    ensures 0 <= Used(r) < |r.buf| && |Contents(r)| == Used(r)
    ensures forall j :: 0 <= j < Used(r) ==> Slot(r, At(r, j)) && Contents(r)[j] == r.buf[At(r, j)]
  {
  }

  /** The tests and sizes the code computes from head and rear. */
  lemma UsedBounds<T>(r: Ring<T>)
    requires Bounds(r)
    ensures 0 <= Used(r) < |r.buf| && |Contents(r)| == Used(r)
    ensures Contents(r) != [] ==> Contents(r)[0] == r.buf[r.head]
    ensures Contents(r) == [] <==> r.head == r.rear
    ensures |Contents(r)| == |r.buf| - 1 <==> Fold(r.rear + 1, |r.buf|) == r.head
    ensures Fold(r.rear - r.head, |r.buf|) == |Contents(r)|
    ensures Fold(r.head - r.rear - 1, |r.buf|) + |Contents(r)| == |r.buf| - 1
  {
  }

  lemma Folds<T>(r: Ring<T>)
    requires Shape(r)
    ensures r.buf != []
    ensures Pos(r, r.head + 1) == Fold(r.head + 1, |r.buf|) && Pos(r, r.rear + 1) == Fold(r.rear + 1, |r.buf|)
    ensures forall x :: Slot(r, x) ==> Pos(r, x - r.head) == Fold(x - r.head, |r.buf|)
    ensures forall x :: Slot(r, x) ==> Pos(r, r.rear - x) == Fold(r.rear - x, |r.buf|)
    ensures forall x :: Slot(r, x) ==> Pos(r, x - r.rear - 1) == Fold(x - r.rear - 1, |r.buf|)
    ensures forall x :: Slot(r, x) ==> Pos(r, r.head - x - 1) == Fold(r.head - x - 1, |r.buf|)
  {
    MaskFoldsAll(|r.buf|);
    hide And, IsPow2;
  }

  // ---------- What stores do to the contents ----------

  lemma FoldTwice(a: int, j: int, n: nat)
    requires 0 <= a < 2 * n && 0 <= j && a + j < 2 * n
    ensures Fold(Fold(a, n) + j, n) == Fold(a + j, n)
  {
  }

  lemma AtMoved<T>(r: Ring<T>, r2: Ring<T>, k: nat, j: nat)
    requires Bounds(r) && k + j < |r.buf| && r2.head == Fold(r.head + k, |r.buf|) && r2.buf == r.buf
    ensures At(r2, j) == At(r, k + j)
  {
    FoldTwice(r.head + k, j, |r.buf|);
  }

  /** Moving head over k elements drops them. */
  lemma AdvanceHead<T>(r: Ring<T>, k: nat, h: int)
    requires Bounds(r) && k <= Used(r) && h == Fold(r.head + k, |r.buf|)
    ensures Bounds(r.(head := h)) && k <= |Contents(r)| && Contents(r.(head := h)) == Contents(r)[k..]
  {
    hide Contents;
    var r2 := r.(head := h);
    ContentsAt(r);
    assert Bounds(r2) && Used(r2) == Used(r) - k;
    ContentsAt(r2);
    forall j | 0 <= j < Used(r) - k ensures Contents(r2)[j] == Contents(r)[k..][j] {
      AtMoved(r, r2, k, j);
    }
  }

  lemma SameAt<T>(r: Ring<T>, r2: Ring<T>, i: int)
    requires r2.head == r.head && |r2.buf| == |r.buf|
    ensures At(r2, i) == At(r, i)
  {
  }

  /** Writing a slot beyond rear changes nothing. */
  lemma WriteFree<T>(r: Ring<T>, j: nat, v: T)
    requires Bounds(r) && Used(r) + j < |r.buf|
    ensures Slot(r, Fold(r.rear + j, |r.buf|))
    ensures var r2 := r.(buf := r.buf[Fold(r.rear + j, |r.buf|) := v]);
      Bounds(r2) && Contents(r2) == Contents(r)
  {
    forall i | 0 <= i < Used(r) ensures At(r, i) != Fold(r.rear + j, |r.buf|) {}
    hide Contents, At;
    var r2 := r.(buf := r.buf[Fold(r.rear + j, |r.buf|) := v]);
    ContentsAt(r);
    ContentsAt(r2);
    forall i | 0 <= i < Used(r) ensures Contents(r2)[i] == Contents(r)[i] { SameAt(r, r2, i); }
  }

  /** v stands j slots from rear. */
  ghost predicate StandsAt<T>(r: Ring<T>, j: nat, v: T) {
    Slot(r, Fold(r.rear + j, |r.buf|)) && r.buf[Fold(r.rear + j, |r.buf|)] == v
  }

  /** The first i elements of vs stand in the slots from rear on. */
  ghost predicate Written<T>(r: Ring<T>, vs: seq<T>, i: nat)
    requires i <= |vs|
  {
    forall j: nat :: j < i ==> StandsAt(r, j, vs[j])
  }

  lemma StillWritten<T>(r: Ring<T>, r2: Ring<T>, vs: seq<T>, i: nat)
    requires i <= |vs| && Written(r, vs, i) && r2.rear == r.rear && r2.buf == r.buf
    ensures Written(r2, vs, i)
  {
    forall j: nat | j < i ensures StandsAt(r2, j, vs[j]) { assert StandsAt(r, j, vs[j]); }
  }

  lemma OneMoreWritten<T>(r: Ring<T>, vs: seq<T>, i: nat)
    requires Bounds(r) && i < |vs| < |r.buf| && Written(r, vs, i)
    ensures Slot(r, Fold(r.rear + i, |r.buf|))
    ensures var r2 := r.(buf := r.buf[Fold(r.rear + i, |r.buf|) := vs[i]]); Bounds(r2) && Written(r2, vs, i + 1)
  {
    var r2 := r.(buf := r.buf[Fold(r.rear + i, |r.buf|) := vs[i]]);
    forall j: nat | j < i + 1 ensures StandsAt(r2, j, vs[j]) {
      if j < i { assert StandsAt(r, j, vs[j]); }
    }
  }

  /** Moving rear over what was written behind it appends it. */
  lemma AdvanceRear<T>(r: Ring<T>, vs: seq<T>, e: int)
    requires Bounds(r) && Used(r) + |vs| < |r.buf| && e == Fold(r.rear + |vs|, |r.buf|) && Written(r, vs, |vs|)
    ensures Bounds(r.(rear := e)) && Contents(r.(rear := e)) == Contents(r) + vs
  {
    hide Contents;
    var r2 := r.(rear := e);
    assert Used(r2) == Used(r) + |vs|;
    ContentsAt(r);
    ContentsAt(r2);
    forall i | 0 <= i < Used(r2) ensures Contents(r2)[i] == (Contents(r) + vs)[i] {
      SameAt(r, r2, i);
      if i >= Used(r) {
        assert StandsAt(r, i - Used(r), vs[i - Used(r)]);
        assert At(r2, i) == Fold(r.rear + (i - Used(r)), |r.buf|);
      }
    }
  }

  /** The two-part copy of a batch visits consecutive slots of the ring. */
  lemma BatchSlots<T>(r: Ring<T>, p: int, len: nat)
    requires IsPow2(|r.buf|) && Slot(r, p) && len < |r.buf|
    ensures forall j: nat :: j < len ==> CopySlot(r, p, j, len) == Fold(p + j, |r.buf|) && Slot(r, CopySlot(r, p, j, len))
    ensures BatchEnd(r, p, len) == Fold(p + len, |r.buf|)
  {
    var kn := p + len - |r.buf|;
    if kn <= 0 { MaskFolds(kn, |r.buf|); }
  }
}
