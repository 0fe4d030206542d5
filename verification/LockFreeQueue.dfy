/**
  LockFreeQueue: a bounded ring shared by any number of threads, guarded by a key for getters and a
  key for putters. Every access to shared memory is one step, and steps of different threads
  interleave freely under sequential consistency. Counters do not wrap and QUEUE_TIMEOUT is clear.
 */
module LockFreeQueue {
  import opened Bits
  import opened Ring

  const TIMEOUT: nat := 1024 * 1024 * 16

  datatype GetOp = One | Many(n: nat)

  datatype PutOp<T> = Single(v: T) | Batch(vs: seq<T>)

  datatype Op<T> = Getq(g: GetOp) | Putq(p: PutOp<T>) | Rewind

  /** Where a thread is, with the values it holds in local variables. */
  datatype Pc<T> =
    | Idle
    // getq: taking kget, waiting for an element
    | GetKey(g: GetOp) | GetSwap(g: GetOp) | GetHead(g: GetOp) | GetRear(g: GetOp, h: int)
    | GetEmpty(g: GetOp) | GetFail | GetAlive(g: GetOp)
    // getq of one element
    | GetRead | GetSlot(h: int) | GetNext(v: T) | GetStore(v: T, h: int)
    // getq of up to n elements
    | GetNHead(n: nat) | GetNRear(n: nat, rd: int) | GetCopy(rd: int, kp: int, out: seq<T>)
    | GetDone(got: seq<T>)
    // putq: taking kput, waiting for room
    | PutKey(p: PutOp<T>) | PutSwap(p: PutOp<T>) | PutRear(p: PutOp<T>) | PutHead(p: PutOp<T>, r: int)
    | PutFull(p: PutOp<T>) | PutFail | PutAlive(p: PutOp<T>)
    // putq of one element
    | PutWrite(v: T) | PutSlot(v: T, r: int) | PutNext(v: T) | PutStore(v: T, r: int)
    // putq of several elements
    | PutNHead(vs: seq<T>) | PutNRear(vs: seq<T>, rd: int) | PutShort(vs: seq<T>, wr: int, kp: int)
    | PutCopy(wr: int, vs: seq<T>, i: nat)
    | PutDone(put: nat)
    // rewind
    | RewPut | RewGet | RewBack | RewHead | RewRear | RewOutPut | RewOutGet

  /** Shared memory. cleared and leaked are bookkeeping that no step reads: rewind is between its
      two stores, and a putq has returned without giving back kput. */
  datatype Mem<T> = Mem(
    buf: seq<T>, head: int, rear: int, kget: nat, kput: nat, nonblock: bool, partial: bool, cleared: bool, leaked: bool)

  function R<T>(m: Mem<T>): Ring<T> {
    Ring(m.buf, m.head, m.rear)
  }

  datatype Queue<T> = Queue(m: Mem<T>, threads: seq<Pc<T>>)

  /** What a step does to the queue seen as a FIFO. */
  datatype Label<T> = Silent | SawEmpty | SawFull | Enq(vs: seq<T>) | Deq(vs: seq<T>) | Clear

  datatype Action<T> = Start(i: nat, op: Op<T>) | Tick(i: nat) | SetFlags(nonblock: bool, partial: bool) | NewThread

  // ---------- Steps ----------

  predicate Getting<T>(pc: Pc<T>) {
    match pc
    case GetKey(_) => true case GetSwap(_) => true case GetHead(_) => true case GetRear(_, _) => true
    case GetEmpty(_) => true case GetFail => true case GetAlive(_) => true
    case GetRead => true case GetSlot(_) => true case GetNext(_) => true case GetStore(_, _) => true
    case GetNHead(_) => true case GetNRear(_, _) => true case GetCopy(_, _, _) => true case GetDone(_) => true
    case _ => false
  }

  predicate Putting<T>(pc: Pc<T>) {
    match pc
    case PutKey(_) => true case PutSwap(_) => true case PutRear(_) => true case PutHead(_, _) => true
    case PutFull(_) => true case PutFail => true case PutAlive(_) => true
    case PutWrite(_) => true case PutSlot(_, _) => true case PutNext(_) => true case PutStore(_, _) => true
    case PutNHead(_) => true case PutNRear(_, _) => true case PutShort(_, _, _) => true case PutCopy(_, _, _) => true
    case PutDone(_) => true
    case _ => false
  }

  predicate Rewinding<T>(pc: Pc<T>) {
    pc != Idle && !Getting(pc) && !Putting(pc)
  }

  /** The memory accesses of a thread stay inside the buffer. */
  predicate Safe<T>(m: Mem<T>, pc: Pc<T>) {
    && m.buf != []
    && match pc
       case GetSlot(h) => Slot(R(m), h)
       case GetCopy(rd, kp, out) => |out| < kp ==> Slot(R(m), CopySlot(R(m), rd, |out|, kp))
       case PutSlot(_, r) => Slot(R(m), r)
       case PutShort(vs, wr, kp) => 0 <= kp <= |vs|
       case PutCopy(wr, vs, i) => i < |vs| ==> Slot(R(m), CopySlot(R(m), wr, i, |vs|))
       case _ => true
  }

  function StepGet<T>(m: Mem<T>, pc: Pc<T>): (r: (Mem<T>, Pc<T>, Label<T>))
    requires Getting(pc) && Safe(m, pc)
  {
    match pc
    case GetKey(g) =>
      (m.(kget := m.kget + 1), if m.kget == 0 then GetHead(g) else if m.kget == TIMEOUT then GetSwap(g) else GetKey(g), Silent)
    case GetSwap(g) => (m.(kget := 1), if m.kget == 0 then GetHead(g) else GetKey(g), Silent)
    case GetHead(g) => (m, GetRear(g, m.head), Silent)
    case GetRear(g, h) =>
      if h == m.rear then (m, GetEmpty(g), SawEmpty)
      else (m, match g case One => GetRead case Many(n) => GetNHead(n), Silent)
    case GetEmpty(g) => (m, if m.nonblock then GetFail else GetAlive(g), Silent)
    case GetFail => (m.(kget := 0), Idle, Silent)
    case GetAlive(g) => (m.(kget := 1), GetHead(g), Silent)
    case GetRead => (m, GetSlot(m.head), Silent)
    case GetSlot(h) => (m, GetNext(m.buf[h]), Silent)
    case GetNext(v) => (m, GetStore(v, Pos(R(m), m.head + 1)), Silent)
    case GetStore(v, h) => (m.(head := h), GetDone([v]), Deq([v]))
    case GetNHead(n) => (m, GetNRear(n, m.head), Silent)
    case GetNRear(n, rd) =>
      var kp := Pos(R(m), m.rear - rd);
      (m, GetCopy(rd, if kp > n then n else kp, []), Silent)
    case GetCopy(rd, kp, out) =>
      if |out| < kp then (m, GetCopy(rd, kp, out + [m.buf[CopySlot(R(m), rd, |out|, kp)]]), Silent)
      else (m.(head := BatchEnd(R(m), rd, kp)), GetDone(out), Deq(out))
    case GetDone(_) => (m.(kget := 0), Idle, Silent)
  }

  function StepPut<T>(m: Mem<T>, pc: Pc<T>): (r: (Mem<T>, Pc<T>, Label<T>))
    requires Putting(pc) && Safe(m, pc)
  {
    match pc
    case PutKey(p) =>
      (m.(kput := m.kput + 1), if m.kput == 0 then PutRear(p) else if m.kput == TIMEOUT then PutSwap(p) else PutKey(p), Silent)
    case PutSwap(p) => (m.(kput := 1), if m.kput == 0 then PutRear(p) else PutKey(p), Silent)
    case PutRear(p) => (m, PutHead(p, m.rear), Silent)
    case PutHead(p, r) =>
      if Pos(R(m), r + 1) == m.head then (m, PutFull(p), SawFull)
      else (m, match p case Single(v) => PutWrite(v) case Batch(vs) => PutNHead(vs), Silent)
    case PutFull(p) => (m, if m.nonblock then PutFail else PutAlive(p), Silent)
    case PutFail => (m.(kput := 0), Idle, Silent)
    case PutAlive(p) => (m.(kput := 1), PutRear(p), Silent)
    case PutWrite(v) => (m, PutSlot(v, m.rear), Silent)
    case PutSlot(v, r) => (m.(buf := m.buf[r := v]), PutNext(v), Silent)
    case PutNext(v) => (m, PutStore(v, Pos(R(m), m.rear + 1)), Silent)
    case PutStore(v, r) => (m.(rear := r), PutDone(1), Enq([v]))
    case PutNHead(vs) => (m, PutNRear(vs, m.head), Silent)
    case PutNRear(vs, rd) =>
      var kp := Pos(R(m), rd - m.rear - 1);
      (m, if kp >= |vs| then PutCopy(m.rear, vs, 0) else PutShort(vs, m.rear, kp), Silent)
    case PutShort(vs, wr, kp) =>
      if m.partial then (m, PutCopy(wr, vs[..kp], 0), Silent) else (m.(leaked := true), Idle, Silent)
    case PutCopy(wr, vs, j) =>
      if j < |vs| then (m.(buf := m.buf[CopySlot(R(m), wr, j, |vs|) := vs[j]]), PutCopy(wr, vs, j + 1), Silent)
      else (m.(rear := BatchEnd(R(m), wr, |vs|)), PutDone(|vs|), Enq(vs))
    case PutDone(_) => (m.(kput := 0), Idle, Silent)
  }

  function StepRewind<T>(m: Mem<T>, pc: Pc<T>): (r: (Mem<T>, Pc<T>, Label<T>))
    requires Rewinding(pc)
  {
    match pc
    case RewPut => (m.(kput := m.kput + 1), if m.kput == 0 then RewGet else RewPut, Silent)
    case RewGet => (m.(kget := m.kget + 1), if m.kget == 0 then RewHead else RewBack, Silent)
    case RewBack => (m.(kput := 0), RewPut, Silent)
    case RewHead => (m.(head := 0, cleared := true), RewRear, Clear)
    case RewRear => (m.(rear := 0, cleared := false), RewOutPut, Silent)
    case RewOutPut => (m.(kput := 0), RewOutGet, Silent)
    case RewOutGet => (m.(kget := 0), Idle, Silent)
  }

  function StepThread<T>(m: Mem<T>, pc: Pc<T>): (r: (Mem<T>, Pc<T>, Label<T>))
    requires pc != Idle && Safe(m, pc)
  {
    if Getting(pc) then StepGet(m, pc) else if Putting(pc) then StepPut(m, pc) else StepRewind(m, pc)
  }

  function First<T>(op: Op<T>): Pc<T> {
    match op case Getq(g) => GetKey(g) case Putq(p) => PutKey(p) case Rewind => RewPut
  }

  predicate Enabled<T>(q: Queue<T>, a: Action<T>) {
    match a
    case Start(i, _) => i < |q.threads| && q.threads[i].Idle?
    case Tick(i) => i < |q.threads| && !q.threads[i].Idle?
    case _ => true
  }

  /** One step of the whole system: a call begins, a thread does its next access, somebody changes the flags. */
  function Step<T>(q: Queue<T>, a: Action<T>): (r: (Queue<T>, Label<T>))
    requires Enabled(q, a) && (a.Tick? ==> Safe(q.m, q.threads[a.i]))
  {
    match a
    case Start(i, op) => (q.(threads := q.threads[i := First(op)]), Silent)
    case Tick(i) => var (m, pc, l) := StepThread(q.m, q.threads[i]); (Queue(m, q.threads[i := pc]), l)
    case SetFlags(nb, pa) => (q.(m := q.m.(nonblock := nb, partial := pa)), Silent)
    case NewThread => (q.(threads := q.threads + [Idle]), Silent)
  }

  /** init with a buffer, before any thread calls. */
  function Init<T>(buf: seq<T>, nonblock: bool, partial: bool): Queue<T> {
    Queue(Mem(buf, 0, 0, 0, 0, nonblock, partial, false, false), [])
  }

  // ---------- The queue as a FIFO ----------

  /** The elements from head to rear; none once rewind has stored head. */
  function Abs<T>(m: Mem<T>): seq<T>
    requires Shape(R(m))
  {
    if m.cleared then [] else Contents(R(m))
  }

  datatype Outcome<T> = Refused | Now(contents: seq<T>)

  /** An atomic FIFO holding a, of at most cap elements, does what label l says, or refuses if it cannot. */
  ghost function Fifo<T>(a: seq<T>, l: Label<T>, cap: int): Outcome<T> {
    match l
    case Silent => Now(a)
    case SawEmpty => if a == [] then Now(a) else Refused
    case SawFull => if |a| == cap then Now(a) else Refused
    case Enq(vs) => if |a + vs| <= cap then Now(a + vs) else Refused
    case Deq(vs) => if vs <= a then Now(a[|vs|..]) else Refused
    case Clear => Now([])
  }

  ghost predicate FifoStep<T>(a: seq<T>, l: Label<T>, b: seq<T>, cap: int) {
    Fifo(a, l, cap) == Now(b)
  }

  // ---------- Keys ----------

  /** The two keys, and rewind's stretch between its two stores, which counts as a third. */
  datatype Key = ForGet | ForPut | ForClear

  predicate Holds<T>(k: Key, pc: Pc<T>) {
    match k
    case ForGet => (Getting(pc) && !pc.GetKey? && !pc.GetSwap?) || pc.RewHead? || pc.RewRear? || pc.RewOutPut? || pc.RewOutGet?
    case ForPut =>
      (Putting(pc) && !pc.PutKey? && !pc.PutSwap?) || pc.RewGet? || pc.RewBack? || pc.RewHead? || pc.RewRear? || pc.RewOutPut?
    case ForClear => pc.RewRear?
  }

  /** The key's value is zero exactly when nobody holds it, at most one thread holds it, and a leaked key has no holder. */
  ghost predicate KeyOk<T>(k: Key, v: nat, leaked: bool, ths: seq<Pc<T>>) {
    && (forall i, j :: 0 <= i < |ths| && 0 <= j < |ths| && Holds(k, ths[i]) && Holds(k, ths[j]) ==> i == j)
    && (v == 0 || leaked ==> forall i :: 0 <= i < |ths| ==> !Holds(k, ths[i]))
    && (leaked ==> v > 0)
    && (v > 0 && !leaked ==> exists i :: 0 <= i < |ths| && Holds(k, ths[i]))
  }

  function Value<T>(k: Key, m: Mem<T>): nat {
    match k case ForGet => m.kget case ForPut => m.kput case ForClear => if m.cleared then 1 else 0
  }

  function Leaked<T>(k: Key, m: Mem<T>): bool {
    k.ForPut? && m.leaked
  }

  ghost predicate KeysOk<T>(q: Queue<T>) {
    forall k: Key :: KeyOk(k, Value(k, q.m), Leaked(k, q.m), q.threads)
  }

  /** A thread's move keeps, takes, gives back or leaks the key. */
  predicate KeyMove<T>(k: Key, m: Mem<T>, pc: Pc<T>, m2: Mem<T>, pc2: Pc<T>) {
    || (Holds(k, pc2) == Holds(k, pc) && (Value(k, m2) == 0 <==> Value(k, m) == 0) && Leaked(k, m2) == Leaked(k, m))
    || (Holds(k, pc2) && Value(k, m) == 0 && Value(k, m2) > 0 && !Leaked(k, m2))
    || (!Holds(k, pc2) && Holds(k, pc) && Value(k, m2) == 0 && !Leaked(k, m2))
    || (!Holds(k, pc2) && Holds(k, pc) && Value(k, m2) > 0 && Leaked(k, m2))
  }

  lemma KeyStep<T>(k: Key, q: Queue<T>, i: nat, m2: Mem<T>, pc2: Pc<T>)
    requires KeyOk(k, Value(k, q.m), Leaked(k, q.m), q.threads) && i < |q.threads|
    requires KeyMove(k, q.m, q.threads[i], m2, pc2)
    ensures KeyOk(k, Value(k, m2), Leaked(k, m2), q.threads[i := pc2])
  {
    hide Holds, Value, Leaked;
    var t := q.threads[i := pc2];
    if Value(k, m2) > 0 && !Leaked(k, m2) {
      if Holds(k, pc2) {
        assert Holds(k, t[i]);
      } else {
        var j :| 0 <= j < |q.threads| && Holds(k, q.threads[j]);
        assert Holds(k, t[j]);
      }
    }
  }

  lemma KeysMove<T>(q: Queue<T>, i: nat, m2: Mem<T>, pc2: Pc<T>)
    requires KeysOk(q) && i < |q.threads| && forall k: Key :: KeyMove(k, q.m, q.threads[i], m2, pc2)
    ensures KeysOk(Queue(m2, q.threads[i := pc2]))
  {
    hide KeyOk, Holds, KeyMove;
    forall k: Key ensures KeyOk(k, Value(k, m2), Leaked(k, m2), q.threads[i := pc2]) {
      assert KeyOk(k, Value(k, q.m), Leaked(k, q.m), q.threads);
      KeyStep(k, q, i, m2, pc2);
    }
  }

  /** The holder of a key is the only one, and only the holder can be between rewind's stores. */
  lemma OnlyHolder<T>(q: Queue<T>, k: Key, i: nat)
    requires KeysOk(q) && i < |q.threads| && Holds(k, q.threads[i])
    ensures forall j :: 0 <= j < |q.threads| && j != i ==> !Holds(k, q.threads[j])
    ensures Value(k, q.m) > 0 && !Leaked(k, q.m)
    ensures q.m.cleared <==> q.threads[i].RewRear?
  {
    assert KeyOk(k, Value(k, q.m), Leaked(k, q.m), q.threads);
    assert KeyOk(ForClear, Value(ForClear, q.m), Leaked(ForClear, q.m), q.threads);
    forall j | 0 <= j < |q.threads| && q.threads[j].RewRear? ensures j == i { assert Holds(k, q.threads[j]); }
  }

  /** What holding keys means for one thread: all that its own step needs to know about the others. */
  ghost predicate Alone<T>(m: Mem<T>, pc: Pc<T>) {
    && (forall k: Key :: Holds(k, pc) ==> Value(k, m) > 0 && !Leaked(k, m))
    && (Holds(ForGet, pc) || Holds(ForPut, pc) ==> (m.cleared <==> pc.RewRear?))
  }

  lemma AloneIs<T>(q: Queue<T>, i: nat)
    requires KeysOk(q) && i < |q.threads|
    ensures Alone(q.m, q.threads[i]) && (q.m.leaked ==> q.m.kput > 0)
  {
    forall k: Key | Holds(k, q.threads[i])
      ensures Value(k, q.m) > 0 && !Leaked(k, q.m) && (q.m.cleared <==> q.threads[i].RewRear?)
    {
      OnlyHolder(q, k, i);
    }
    assert KeyOk(ForPut, Value(ForPut, q.m), Leaked(ForPut, q.m), q.threads);
  }

  // ---------- What a thread knows ----------

  ghost predicate ThreadOk<T>(m: Mem<T>, pc: Pc<T>)
    requires Shape(R(m))
  {
    var n, a := |m.buf|, Abs(m);
    match pc
    case GetRear(_, h) => h == m.head
    case GetRead => a != []
    case GetSlot(h) => a != [] && h == m.head
    case GetNext(v) => a != [] && a[0] == v
    case GetStore(v, h) => a != [] && a[0] == v && h == Fold(m.head + 1, n)
    case GetNRear(_, rd) => rd == m.head
    case GetCopy(rd, kp, out) => rd == m.head && |out| <= kp <= |a| && out == a[..|out|]
    case PutHead(_, r) => r == m.rear
    case PutWrite(_) => |a| < n - 1
    case PutSlot(_, r) => |a| < n - 1 && r == m.rear
    case PutNext(v) => |a| < n - 1 && m.buf[m.rear] == v
    case PutStore(v, r) => |a| < n - 1 && m.buf[m.rear] == v && r == Fold(m.rear + 1, n)
    case PutNHead(_) => |a| < n - 1
    case PutNRear(_, rd) => Slot(R(m), rd) && 1 <= Fold(rd - m.rear - 1, n) && Fold(rd - m.rear - 1, n) + |a| <= n - 1
    case PutShort(vs, wr, kp) => wr == m.rear && 1 <= kp < |vs| && kp + |a| <= n - 1
    case PutCopy(wr, vs, i) => wr == m.rear && i <= |vs| && |vs| + |a| <= n - 1 && Written(R(m), vs, i)
    case RewRear => m.cleared && m.head == 0
    case _ => true
  }

  /** Holds between any two steps of any threads. */
  ghost predicate Inv<T>(q: Queue<T>) {
    Shape(R(q.m)) && KeysOk(q) && forall i :: 0 <= i < |q.threads| ==> ThreadOk(q.m, q.threads[i])
  }

  lemma AbsBounds<T>(m: Mem<T>)
    requires Shape(R(m))
    ensures |Abs(m)| < |m.buf|
    ensures !m.cleared ==> Abs(m) == Contents(R(m)) && |Abs(m)| == Used(R(m))
    ensures !m.cleared && Abs(m) != [] ==> Abs(m)[0] == m.buf[m.head]
    ensures !m.cleared ==> (Abs(m) == [] <==> m.head == m.rear)
    ensures !m.cleared ==> (|Abs(m)| == |m.buf| - 1 <==> Fold(m.rear + 1, |m.buf|) == m.head)
    ensures !m.cleared ==> Fold(m.rear - m.head, |m.buf|) == |Abs(m)| && Fold(m.head - m.rear - 1, |m.buf|) + |Abs(m)| == |m.buf| - 1
  {
    UsedBounds(R(m));
  }

  // ---------- What other threads see ----------

  /** A getter's knowledge survives what putters do, and a putter's what getters do. */
  lemma Kept<T>(m: Mem<T>, m2: Mem<T>, pc: Pc<T>)
    requires Shape(R(m)) && Shape(R(m2)) && ThreadOk(m, pc) && |m2.buf| == |m.buf|
    requires Getting(pc) ==> m2.head == m.head && Abs(m) <= Abs(m2)
    requires Putting(pc) ==> m2.rear == m.rear && m2.buf == m.buf && |Abs(m2)| <= |Abs(m)|
    requires pc.RewRear? ==> m2.cleared == m.cleared && m2.head == m.head
    ensures ThreadOk(m2, pc)
  {
    hide Abs, IsPow2;
    if pc.GetCopy? { assert Abs(m2)[..|pc.out|] == Abs(m)[..|pc.out|]; }
    if Getting(pc) && Abs(m) != [] { assert Abs(m2)[0] == Abs(m)[0]; }
    if pc.PutCopy? { StillWritten(R(m), R(m2), pc.vs, pc.i); }
  }

  /** A thread that holds neither key, or rewinds without clearing, knows nothing that could become wrong. */
  lemma Knows<T>(m: Mem<T>, pc: Pc<T>)
    requires Shape(R(m)) && !pc.RewRear? && (Getting(pc) ==> !Holds(ForGet, pc)) && (Putting(pc) ==> !Holds(ForPut, pc))
    ensures ThreadOk(m, pc)
  {
    hide Abs;
  }

  /** Thread i's step from (m, pc) to (m2, pc2) is fine, given what the step does to the parts others rely on. */
  ghost predicate GoodStep<T>(m: Mem<T>, pc: Pc<T>, m2: Mem<T>, pc2: Pc<T>, l: Label<T>)
    requires Shape(R(m))
  {
    && Shape(R(m2)) && |m2.buf| == |m.buf| && ThreadOk(m2, pc2)
    && (forall k: Key :: KeyMove(k, m, pc, m2, pc2))
    && FifoStep(Abs(m), l, Abs(m2), |m.buf| - 1)
    && (!Holds(ForGet, pc) ==> m2.head == m.head && Abs(m) <= Abs(m2))
    && (!Holds(ForPut, pc) ==> m2.rear == m.rear && m2.buf == m.buf && |Abs(m2)| <= |Abs(m)|)
    && (!Holds(ForGet, pc) || !Holds(ForPut, pc) ==> m2.cleared == m.cleared)
  }

  lemma GoodStepKeepsInv<T>(q: Queue<T>, i: nat, m2: Mem<T>, pc2: Pc<T>, l: Label<T>)
    requires Inv(q) && i < |q.threads| && GoodStep(q.m, q.threads[i], m2, pc2, l)
    ensures Inv(Queue(m2, q.threads[i := pc2]))
  {
    KeysMove(q, i, m2, pc2);
    HolderElsewhere(q, i);
    hide KeysOk, KeyMove, Abs, FifoStep, IsPow2, Shape;
    forall j | 0 <= j < |q.threads| && j != i ensures ThreadOk(m2, q.threads[j]) {
      ElsewhereOk(q.m, m2, q.threads[i], q.threads[j], pc2, l);
    }
  }

  lemma HolderElsewhere<T>(q: Queue<T>, i: nat)
    requires KeysOk(q) && i < |q.threads|
    ensures forall k: Key, j :: 0 <= j < |q.threads| && j != i && Holds(k, q.threads[i]) ==> !Holds(k, q.threads[j])
  {
    forall k: Key, j | 0 <= j < |q.threads| && j != i && Holds(k, q.threads[i]) ensures !Holds(k, q.threads[j]) {
      OnlyHolder(q, k, i);
    }
  }

  lemma ElsewhereOk<T>(m: Mem<T>, m2: Mem<T>, pc: Pc<T>, other: Pc<T>, pc2: Pc<T>, l: Label<T>)
    requires Shape(R(m)) && ThreadOk(m, other) && GoodStep(m, pc, m2, pc2, l)
    requires forall k: Key :: Holds(k, pc) ==> !Holds(k, other)
    ensures ThreadOk(m2, other)
  {
    hide Abs, ThreadOk, FifoStep, KeyMove, IsPow2, Shape;
    if !other.RewRear? && (Getting(other) ==> !Holds(ForGet, other)) && (Putting(other) ==> !Holds(ForPut, other)) {
      Knows(m2, other);
    } else {
      assert other.RewRear? ==> Holds(ForGet, other) && Holds(ForPut, other);
      Kept(m, m2, other);
    }
  }

  // ---------- Getters ----------

  predicate HeadStore<T>(pc: Pc<T>) {
    pc.GetStore? || (pc.GetCopy? && |pc.out| >= pc.kp)
  }

  lemma GetSafe<T>(m: Mem<T>, pc: Pc<T>)
    requires Shape(R(m)) && ThreadOk(m, pc) && Getting(pc)
    ensures Safe(m, pc)
  {
    AbsBounds(m);
    if pc.GetCopy? && |pc.out| < pc.kp { BatchSlots(R(m), pc.rd, pc.kp); }
    hide Abs, CopySlot, IsPow2;
  }

  lemma NotHeld<T>(pc: Pc<T>, k: Key)
    requires pc == Idle || (Getting(pc) && k != ForGet) || (Putting(pc) && k != ForPut)
    ensures !Holds(k, pc)
  {
  }

  lemma AloneHolds<T>(m: Mem<T>, pc: Pc<T>, k: Key)
    requires Alone(m, pc) && Holds(k, pc)
    ensures Value(k, m) > 0 && !Leaked(k, m)
  {
    hide Holds, Value, Leaked;
  }

  lemma GetKeyMoves<T>(m: Mem<T>, pc: Pc<T>, k: Key)
    requires Getting(pc) && Safe(m, pc) && Alone(m, pc)
    ensures KeyMove(k, m, pc, StepGet(m, pc).0, StepGet(m, pc).1)
  {
    hide StepGet, Safe, Alone, Holds, Getting, Putting;
    GetOtherKeys(m, pc);
    if k == ForGet {
      if Holds(ForGet, pc) { AloneHolds(m, pc, ForGet); }
      GetOwnKey(m, pc);
    } else {
      NotHeld(pc, k);
      NotHeld(StepGet(m, pc).1, k);
    }
  }

  lemma GetOtherKeys<T>(m: Mem<T>, pc: Pc<T>)
    requires Getting(pc) && Safe(m, pc)
    ensures var (m2, pc2, l) := StepGet(m, pc);
      && m2.kput == m.kput && m2.cleared == m.cleared && m2.leaked == m.leaked && m2.rear == m.rear
      && (pc2 == Idle || Getting(pc2)) && !l.Enq? && !l.Clear?
  {
    hide CopySlot, BatchEnd, Pos, Safe;
  }

  lemma GetOwnKey<T>(m: Mem<T>, pc: Pc<T>)
    requires Getting(pc) && Safe(m, pc) && (Holds(ForGet, pc) ==> m.kget > 0)
    ensures KeyMove(ForGet, m, pc, StepGet(m, pc).0, StepGet(m, pc).1)
  {
    hide CopySlot, BatchEnd, Pos, Safe, Putting, Rewinding;
  }

  /** A step of a getter that stores nothing in memory but keys. */
  lemma GetLearns<T>(m: Mem<T>, pc: Pc<T>)
    requires Shape(R(m)) && Getting(pc) && Safe(m, pc) && Alone(m, pc) && ThreadOk(m, pc) && !HeadStore(pc)
    ensures var (m2, pc2, l) := StepGet(m, pc);
      && m2.buf == m.buf && m2.head == m.head && m2.rear == m.rear && m2.cleared == m.cleared
      && ThreadOk(m2, pc2) && (l == Silent || (l == SawEmpty && Abs(m) == []))
  {
    hide And, IsPow2, Abs, BatchEnd, CopySlot, Pos, Used;
    var (m2, pc2, l) := StepGet(m, pc);
    Folds(R(m));
    AbsBounds(m);
    SameAbs(m, m2);
    if pc.GetCopy? { CopyLearns(m, pc); }
  }

  lemma SameAbs<T>(m: Mem<T>, m2: Mem<T>)
    requires Shape(R(m)) && m2.buf == m.buf && m2.head == m.head && m2.rear == m.rear && m2.cleared == m.cleared
    ensures Shape(R(m2)) && Abs(m2) == Abs(m)
  {
    hide IsPow2;
  }

  /** The next element a batch copies is the next one of the FIFO. */
  lemma CopyLearns<T>(m: Mem<T>, pc: Pc<T>)
    requires Shape(R(m)) && !m.cleared && pc.GetCopy? && ThreadOk(m, pc) && |pc.out| < pc.kp
    ensures Slot(R(m), CopySlot(R(m), pc.rd, |pc.out|, pc.kp))
    ensures pc.out + [m.buf[CopySlot(R(m), pc.rd, |pc.out|, pc.kp)]] == Abs(m)[..|pc.out| + 1]
  {
    var i := |pc.out|;
    hide Contents, IsPow2, Used;
    ContentsAt(R(m));
    BatchSlots(R(m), pc.rd, pc.kp);
    hide CopySlot, BatchEnd;
    assert CopySlot(R(m), pc.rd, i, pc.kp) == At(R(m), i);
    hide At;
    assert Abs(m)[..i + 1] == Abs(m)[..i] + [Abs(m)[i]];
  }

  /** The store to head is where elements leave the FIFO. */
  lemma HeadStoreTakes<T>(m: Mem<T>, pc: Pc<T>)
    requires Shape(R(m)) && Getting(pc) && Safe(m, pc) && Alone(m, pc) && ThreadOk(m, pc) && HeadStore(pc)
    ensures var (m2, pc2, l) := StepGet(m, pc);
      && l.Deq? && Shape(R(m2)) && ThreadOk(m2, pc2) && m2.buf == m.buf && m2.rear == m.rear && m2.cleared == m.cleared && pc2 == GetDone(l.vs)
      && Abs(m) == l.vs + Abs(m2)
  {
    hide Contents, IsPow2, BatchEnd, CopySlot, Used;
    AbsBounds(m);
    if pc.GetStore? {
      AdvanceHead(R(m), 1, pc.h);
    } else {
      BatchSlots(R(m), pc.rd, pc.kp);
      AdvanceHead(R(m), pc.kp, BatchEnd(R(m), pc.rd, pc.kp));
    }
  }

  lemma GetterStep<T>(m: Mem<T>, pc: Pc<T>)
    requires Shape(R(m)) && ThreadOk(m, pc) && Alone(m, pc) && Getting(pc)
    ensures Safe(m, pc)
    ensures var (m2, pc2, l) := StepGet(m, pc); GoodStep(m, pc, m2, pc2, l)
  {
    hide StepGet, KeyMove, Abs, Alone, Safe, IsPow2, ThreadOk;
    GetSafe(m, pc);
    var (m2, pc2, l) := StepGet(m, pc);
    forall k: Key ensures KeyMove(k, m, pc, m2, pc2) { GetKeyMoves(m, pc, k); }
    if HeadStore(pc) {
      HeadStoreTakes(m, pc);
    } else {
      GetLearns(m, pc);
      SameAbs(m, m2);
    }
  }

  // ---------- Putters ----------

  predicate BufStore<T>(pc: Pc<T>) {
    pc.PutSlot? || (pc.PutCopy? && pc.i < |pc.vs|)
  }

  predicate RearStore<T>(pc: Pc<T>) {
    pc.PutStore? || (pc.PutCopy? && pc.i >= |pc.vs|)
  }

  lemma PutSafe<T>(m: Mem<T>, pc: Pc<T>)
    requires Shape(R(m)) && ThreadOk(m, pc) && Putting(pc)
    ensures Safe(m, pc)
  {
    AbsBounds(m);
    if pc.PutCopy? { BatchSlots(R(m), pc.wr, |pc.vs|); }
    hide Abs, CopySlot, IsPow2;
  }

  lemma PutKeyMoves<T>(m: Mem<T>, pc: Pc<T>, k: Key)
    requires Putting(pc) && Safe(m, pc) && Alone(m, pc) && (m.leaked ==> m.kput > 0)
    ensures KeyMove(k, m, pc, StepPut(m, pc).0, StepPut(m, pc).1)
  {
    hide StepPut, Safe, Alone, Holds, Getting, Putting;
    PutOtherKeys(m, pc);
    if k == ForPut {
      if Holds(ForPut, pc) { AloneHolds(m, pc, ForPut); }
      PutOwnKey(m, pc);
    } else {
      NotHeld(pc, k);
      NotHeld(StepPut(m, pc).1, k);
    }
  }

  lemma PutOtherKeys<T>(m: Mem<T>, pc: Pc<T>)
    requires Putting(pc) && Safe(m, pc)
    ensures var (m2, pc2, l) := StepPut(m, pc); m2.kget == m.kget && m2.cleared == m.cleared && (pc2 == Idle || Putting(pc2))
  {
    hide CopySlot, BatchEnd, Pos, Safe;
  }

  lemma PutOwnKey<T>(m: Mem<T>, pc: Pc<T>)
    requires Putting(pc) && Safe(m, pc) && (m.leaked ==> m.kput > 0) && (Holds(ForPut, pc) ==> m.kput > 0 && !m.leaked)
    ensures KeyMove(ForPut, m, pc, StepPut(m, pc).0, StepPut(m, pc).1)
  {
    hide CopySlot, BatchEnd, Pos, Safe, Getting, Rewinding;
  }

  /** A step of a putter that stores nothing in memory but keys. */
  lemma PutLearns<T>(m: Mem<T>, pc: Pc<T>)
    requires Shape(R(m)) && Putting(pc) && Safe(m, pc) && Alone(m, pc) && ThreadOk(m, pc) && !BufStore(pc) && !RearStore(pc)
    ensures var (m2, pc2, l) := StepPut(m, pc);
      && m2.buf == m.buf && m2.head == m.head && m2.rear == m.rear && m2.cleared == m.cleared
      && ThreadOk(m2, pc2) && (l == Silent || (l == SawFull && |Abs(m)| == |m.buf| - 1))
  {
    hide And, IsPow2, Abs, BatchEnd, CopySlot, Pos, Used;
    var (m2, pc2, l) := StepPut(m, pc);
    Folds(R(m));
    AbsBounds(m);
    SameAbs(m, m2);
  }

  lemma BufStoreHides<T>(m: Mem<T>, pc: Pc<T>)
    requires Shape(R(m)) && Putting(pc) && Safe(m, pc) && Alone(m, pc) && ThreadOk(m, pc) && BufStore(pc)
    ensures var (m2, pc2, l) := StepPut(m, pc);
      && Shape(R(m2)) && |m2.buf| == |m.buf| && m2.head == m.head && m2.rear == m.rear && m2.cleared == m.cleared
      && Abs(m2) == Abs(m) && ThreadOk(m2, pc2) && l == Silent
  {
    hide Contents, IsPow2, CopySlot, BatchEnd, Written, Used;
    AbsBounds(m);
    if pc.PutSlot? {
      WriteFree(R(m), 0, pc.v);
    } else {
      BatchSlots(R(m), pc.wr, |pc.vs|);
      WriteFree(R(m), pc.i, pc.vs[pc.i]);
      OneMoreWritten(R(m), pc.vs, pc.i);
    }
  }

  /** The store to rear is where elements enter the FIFO. */
  lemma RearStorePuts<T>(m: Mem<T>, pc: Pc<T>)
    requires Shape(R(m)) && Putting(pc) && Safe(m, pc) && Alone(m, pc) && ThreadOk(m, pc) && RearStore(pc)
    ensures var (m2, pc2, l) := StepPut(m, pc);
      && l.Enq? && Shape(R(m2)) && ThreadOk(m2, pc2) && m2.buf == m.buf && m2.head == m.head && m2.cleared == m.cleared && pc2 == PutDone(|l.vs|)
      && Abs(m2) == Abs(m) + l.vs
  {
    hide Contents, IsPow2, BatchEnd, CopySlot, Used;
    AbsBounds(m);
    if pc.PutStore? {
      assert StandsAt(R(m), 0, pc.v);
      AdvanceRear(R(m), [pc.v], pc.r);
    } else {
      BatchSlots(R(m), pc.wr, |pc.vs|);
      AdvanceRear(R(m), pc.vs, BatchEnd(R(m), pc.wr, |pc.vs|));
    }
  }

  lemma PutterStep<T>(m: Mem<T>, pc: Pc<T>)
    requires Shape(R(m)) && ThreadOk(m, pc) && Alone(m, pc) && (m.leaked ==> m.kput > 0) && Putting(pc)
    ensures Safe(m, pc)
    ensures var (m2, pc2, l) := StepPut(m, pc); GoodStep(m, pc, m2, pc2, l)
  {
    hide StepPut, KeyMove, Abs, Alone, Safe, IsPow2, ThreadOk;
    PutSafe(m, pc);
    var (m2, pc2, l) := StepPut(m, pc);
    forall k: Key ensures KeyMove(k, m, pc, m2, pc2) { PutKeyMoves(m, pc, k); }
    if BufStore(pc) {
      BufStoreHides(m, pc);
    } else if RearStore(pc) {
      RearStorePuts(m, pc);
      AbsBounds(m2);
    } else {
      PutLearns(m, pc);
      SameAbs(m, m2);
    }
  }

  // ---------- rewind ----------

  lemma RewinderStep<T>(m: Mem<T>, pc: Pc<T>)
    requires Shape(R(m)) && ThreadOk(m, pc) && Alone(m, pc) && Rewinding(pc) && (m.leaked ==> m.kput > 0)
    ensures Safe(m, pc)
    ensures var (m2, pc2, l) := StepRewind(m, pc); GoodStep(m, pc, m2, pc2, l)
  {
    hide IsPow2, Abs, KeyMove, Alone, Used;
    var (m2, pc2, l) := StepRewind(m, pc);
    forall k: Key ensures KeyMove(k, m, pc, m2, pc2) { RewindKeyMoves(m, pc, k); }
    if pc.RewHead? || pc.RewRear? { RewindClears(m, pc); } else { SameAbs(m, m2); }
  }

  lemma RewindKeyMoves<T>(m: Mem<T>, pc: Pc<T>, k: Key)
    requires Rewinding(pc) && Alone(m, pc) && (m.leaked ==> m.kput > 0)
    ensures KeyMove(k, m, pc, StepRewind(m, pc).0, StepRewind(m, pc).1)
  {
  }

  /** The store to head empties the queue, and the store to rear keeps it empty. */
  lemma RewindClears<T>(m: Mem<T>, pc: Pc<T>)
    requires Shape(R(m)) && ThreadOk(m, pc) && (pc.RewHead? || pc.RewRear?)
    ensures var m2 := StepRewind(m, pc).0; Shape(R(m2)) && Abs(m2) == [] && (pc.RewRear? ==> Abs(m) == [])
  {
    hide IsPow2;
  }

  // ---------- The system ----------

  lemma ThreadSteps<T>(m: Mem<T>, pc: Pc<T>)
    requires Shape(R(m)) && ThreadOk(m, pc) && Alone(m, pc) && pc != Idle && (m.leaked ==> m.kput > 0)
    ensures Safe(m, pc)
    ensures var (m2, pc2, l) := StepThread(m, pc); GoodStep(m, pc, m2, pc2, l)
  {
    hide GoodStep, ThreadOk, StepGet, StepPut, StepRewind, Alone, Shape;
    if Getting(pc) { GetterStep(m, pc); } else if Putting(pc) { PutterStep(m, pc); } else { RewinderStep(m, pc); }
  }

  /** Every step of every thread keeps the invariant and does to the FIFO what its label says. */
  lemma StepRefines<T>(q: Queue<T>, a: Action<T>)
    requires Inv(q) && Enabled(q, a)
    ensures a.Tick? ==> Safe(q.m, q.threads[a.i])
    ensures var (q2, l) := Step(q, a);
      Inv(q2) && |q2.m.buf| == |q.m.buf| && FifoStep(Abs(q.m), l, Abs(q2.m), |q.m.buf| - 1)
  {
    hide ThreadOk, GoodStep, StepThread, KeysOk, Alone, Abs, Shape;
    match a
    case Start(i, op) => StartKeeps(q, i, First(op));
    case Tick(i) =>
      AloneIs(q, i);
      ThreadSteps(q.m, q.threads[i]);
      var (m2, pc2, l) := StepThread(q.m, q.threads[i]);
      GoodStepKeepsInv(q, i, m2, pc2, l);
      StepLabel(q.m, q.threads[i], m2, pc2, l);
    case SetFlags(nb, pa) => FlagsKeep(q, nb, pa);
    case NewThread => ThreadKeeps(q);
  }

  lemma StepLabel<T>(m: Mem<T>, pc: Pc<T>, m2: Mem<T>, pc2: Pc<T>, l: Label<T>)
    requires Shape(R(m)) && GoodStep(m, pc, m2, pc2, l)
    ensures Shape(R(m2)) && |m2.buf| == |m.buf| && FifoStep(Abs(m), l, Abs(m2), |m.buf| - 1)
  {
  }

  lemma StartKeeps<T>(q: Queue<T>, i: nat, pc: Pc<T>)
    requires Inv(q) && i < |q.threads| && q.threads[i].Idle? && (pc.GetKey? || pc.PutKey? || pc.RewPut?)
    ensures Inv(Queue(q.m, q.threads[i := pc]))
  {
    Knows(q.m, pc);
    forall k: Key ensures KeyMove(k, q.m, q.threads[i], q.m, pc) {}
    KeysMove(q, i, q.m, pc);
    hide ThreadOk, KeysOk, KeyMove;
  }

  lemma FlagsKeep<T>(q: Queue<T>, nb: bool, pa: bool)
    requires Inv(q)
    ensures var m2 := q.m.(nonblock := nb, partial := pa);
      Inv(Queue(m2, q.threads)) && Abs(m2) == Abs(q.m)
  {
    hide IsPow2;
    var m2 := q.m.(nonblock := nb, partial := pa);
    SameAbs(q.m, m2);
    FlagKeys(q, m2);
    hide Abs, KeysOk, ThreadOk;
    forall j | 0 <= j < |q.threads| ensures ThreadOk(m2, q.threads[j]) { Kept(q.m, m2, q.threads[j]); }
  }

  lemma FlagKeys<T>(q: Queue<T>, m2: Mem<T>)
    requires KeysOk(q) && forall k: Key :: Value(k, m2) == Value(k, q.m) && Leaked(k, m2) == Leaked(k, q.m)
    ensures KeysOk(Queue(m2, q.threads))
  {
    hide KeyOk;
    forall k: Key ensures KeyOk(k, Value(k, m2), Leaked(k, m2), q.threads) {
      assert KeyOk(k, Value(k, q.m), Leaked(k, q.m), q.threads);
    }
  }

  lemma ThreadKeeps<T>(q: Queue<T>)
    requires Inv(q)
    ensures Inv(q.(threads := q.threads + [Idle]))
  {
    hide IsPow2, Abs;
    forall k: Key ensures KeyOk(k, Value(k, q.m), Leaked(k, q.m), q.threads + [Idle]) {
      assert KeyOk(k, Value(k, q.m), Leaked(k, q.m), q.threads);
      IdleKey(k, Value(k, q.m), Leaked(k, q.m), q.threads);
    }
  }

  lemma IdleKey<T>(k: Key, v: nat, leaked: bool, ths: seq<Pc<T>>)
    requires KeyOk(k, v, leaked, ths)
    ensures KeyOk(k, v, leaked, ths + [Idle])
  {
    if v > 0 && !leaked {
      var j :| 0 <= j < |ths| && Holds(k, ths[j]);
      assert Holds(k, (ths + [Idle])[j]);
    }
  }

  lemma InitInv<T>(buf: seq<T>, nonblock: bool, partial: bool)
    requires IsPow2(|buf|)
    ensures Inv(Init(buf, nonblock, partial)) && Abs(Init(buf, nonblock, partial).m) == []
  {
  }

  // ---------- Whole runs ----------

  /** The actions can be carried out one after the other. */
  ghost predicate Possible<T>(q: Queue<T>, run: seq<Action<T>>)
    requires Inv(q)
    decreases |run|
  {
    run == [] || (Enabled(q, run[0]) && Possible(After(q, run[0]), run[1..]))
  }

  ghost function After<T>(q: Queue<T>, a: Action<T>): (q2: Queue<T>)
    requires Inv(q) && Enabled(q, a)
    ensures Inv(q2) && |q2.m.buf| == |q.m.buf|
  {
    StepRefines(q, a);
    Step(q, a).0
  }

  ghost function LabelOf<T>(q: Queue<T>, a: Action<T>): Label<T>
    requires Inv(q) && Enabled(q, a)
  {
    StepRefines(q, a);
    Step(q, a).1
  }

  ghost function End<T>(q: Queue<T>, run: seq<Action<T>>): (q2: Queue<T>)
    requires Inv(q) && Possible(q, run)
    ensures Inv(q2) && |q2.m.buf| == |q.m.buf|
    decreases |run|
  {
    if run == [] then q else End(After(q, run[0]), run[1..])
  }

  ghost function Trace<T>(q: Queue<T>, run: seq<Action<T>>): (ls: seq<Label<T>>)
    requires Inv(q) && Possible(q, run)
    ensures |ls| == |run|
    decreases |run|
  {
    if run == [] then [] else [LabelOf(q, run[0])] + Trace(After(q, run[0]), run[1..])
  }

  /** The same atomic FIFO through a whole sequence of labels. */
  ghost function Replay<T>(a: seq<T>, ls: seq<Label<T>>, cap: int): Outcome<T>
    decreases |ls|
  {
    if ls == [] then Now(a)
    else match Fifo(a, ls[0], cap) case Refused => Refused case Now(b) => Replay(b, ls[1..], cap)
  }

  /** Every run of any number of threads is a run of an atomic bounded FIFO. */
  lemma {:induction false} RunsRefineFifo<T>(q: Queue<T>, run: seq<Action<T>>)
    requires Inv(q) && Possible(q, run)
    ensures Replay(Abs(q.m), Trace(q, run), |q.m.buf| - 1) == Now(Abs(End(q, run).m))
    decreases |run|
  {
    hide KeysOk, ThreadOk, Shape, Abs, Fifo, Enabled, Step;
    if run != [] {
      StepRefines(q, run[0]);
      var q2 := After(q, run[0]);
      RunsRefineFifo(q2, run[1..]);
      assert Trace(q, run)[1..] == Trace(q2, run[1..]);
      assert FifoStep(Abs(q.m), Trace(q, run)[0], Abs(q2.m), |q.m.buf| - 1);
    }
  }

  /** In every reachable state a key is zero exactly when nobody holds it, and has at most one holder;
      the putters' key also stays taken once a putq leaked it. */
  lemma KeysAreLocks<T>(q: Queue<T>)
    requires Inv(q)
    ensures q.m.kget == 0 <==> forall i :: 0 <= i < |q.threads| ==> !Holds(ForGet, q.threads[i])
    ensures q.m.kput == 0 <==> !q.m.leaked && forall i :: 0 <= i < |q.threads| ==> !Holds(ForPut, q.threads[i])
    ensures forall k: Key, i, j :: 0 <= i < |q.threads| && 0 <= j < |q.threads| && Holds(k, q.threads[i]) && Holds(k, q.threads[j]) ==> i == j
  {
    hide Shape, ThreadOk, Holds;
    assert KeyOk(ForGet, Value(ForGet, q.m), Leaked(ForGet, q.m), q.threads);
    assert KeyOk(ForPut, Value(ForPut, q.m), Leaked(ForPut, q.m), q.threads);
    forall k: Key, i, j | 0 <= i < |q.threads| && 0 <= j < |q.threads| && Holds(k, q.threads[i]) && Holds(k, q.threads[j]) ensures i == j {
      assert KeyOk(k, Value(k, q.m), Leaked(k, q.m), q.threads);
    }
  }

  // ---------- The leaked key ----------

  /** A thread's step leaks the key exactly where a batch does not fit and QUEUE_PARTIAL is clear. */
  lemma LeakStep<T>(m: Mem<T>, pc: Pc<T>)
    requires pc != Idle && Safe(m, pc)
    ensures StepThread(m, pc).0.leaked <==> m.leaked || (pc.PutShort? && !m.partial)
  {
    hide StepGet, StepPut, Safe;
    if Getting(pc) { GetOtherKeys(m, pc); } else if Putting(pc) { PutLeaks(m, pc); }
  }

  lemma PutLeaks<T>(m: Mem<T>, pc: Pc<T>)
    requires Putting(pc) && Safe(m, pc)
    ensures StepPut(m, pc).0.leaked <==> m.leaked || (pc.PutShort? && !m.partial)
  {
    hide Safe, CopySlot, BatchEnd, Pos;
  }

  lemma LeakBlocks<T>(m: Mem<T>, pc: Pc<T>)
    requires pc != Idle && Safe(m, pc) && !Holds(ForPut, pc)
    ensures var (m2, _, l) := StepThread(m, pc); m2.rear == m.rear && !l.Enq? && !l.Clear?
  {
    hide StepGet, Safe;
    if Getting(pc) { GetOtherKeys(m, pc); }
  }

  /** Once the key is leaked nothing is ever put again, nor the queue rewound, whatever anybody does. */
  lemma {:induction false} LeakStopsPuts<T>(q: Queue<T>, run: seq<Action<T>>)
    requires Inv(q) && Possible(q, run) && q.m.leaked
    ensures End(q, run).m.leaked && End(q, run).m.rear == q.m.rear
    ensures forall i :: 0 <= i < |run| ==> !Trace(q, run)[i].Enq? && !Trace(q, run)[i].Clear?
    decreases |run|
  {
    if run != [] {
      LeakStays(q, run[0]);
      hide Inv, Step, Enabled;
      LeakStopsPuts(After(q, run[0]), run[1..]);
    }
  }

  lemma LeakStays<T>(q: Queue<T>, a: Action<T>)
    requires Inv(q) && Enabled(q, a) && q.m.leaked
    ensures After(q, a).m.leaked && After(q, a).m.rear == q.m.rear && !LabelOf(q, a).Enq? && !LabelOf(q, a).Clear?
  {
    hide ThreadOk, Shape, StepThread, Safe;
    StepRefines(q, a);
    if a.Tick? {
      AloneIs(q, a.i);
      assert Holds(ForPut, q.threads[a.i]) ==> !Leaked(ForPut, q.m);
      hide KeysOk, Alone, Holds;
      LeakStep(q.m, q.threads[a.i]);
      LeakBlocks(q.m, q.threads[a.i]);
    }
  }

  function OnlyTicks<T>(i: nat, n: nat): seq<Action<T>> {
    seq(n, _ => Tick(i))
  }

  lemma OneTick<T>(q: Queue<T>, i: nat, n: nat, m2: Mem<T>, pc2: Pc<T>)
    requires Inv(q) && i < |q.threads| && q.threads[i] != Idle && n > 0
    requires Safe(q.m, q.threads[i]) && StepThread(q.m, q.threads[i]).0 == m2 && StepThread(q.m, q.threads[i]).1 == pc2
    ensures var q2 := Queue(m2, q.threads[i := pc2]);
      && Inv(q2) && q2.threads[i] == pc2 && |q2.threads| == |q.threads|
      && (Possible(q2, OnlyTicks(i, n - 1)) ==> Possible(q, OnlyTicks(i, n)) && End(q, OnlyTicks(i, n)) == End(q2, OnlyTicks(i, n - 1)))
  {
    hide Inv, StepThread, Safe;
    StepRefines(q, Tick(i));
    assert OnlyTicks<T>(i, n)[1..] == OnlyTicks(i, n - 1);
    assert After(q, Tick(i)) == Queue(m2, q.threads[i := pc2]);
  }

  /** Running thread i alone for n steps from q leaks the key. */
  ghost predicate LeaksIn<T>(q: Queue<T>, i: nat, n: nat) {
    Inv(q) && Possible(q, OnlyTicks(i, n)) && End(q, OnlyTicks(i, n)).m.leaked
  }

  lemma LeaksLater<T>(q: Queue<T>, i: nat, n: nat, m2: Mem<T>, pc2: Pc<T>)
    requires Inv(q) && i < |q.threads| && q.threads[i] != Idle && n > 0
    requires Safe(q.m, q.threads[i]) && StepThread(q.m, q.threads[i]).0 == m2 && StepThread(q.m, q.threads[i]).1 == pc2
    requires LeaksIn(Queue(m2, q.threads[i := pc2]), i, n - 1)
    ensures LeaksIn(q, i, n)
  {
    hide Inv, StepThread, Safe, Possible, End;
    OneTick(q, i, n, m2, pc2);
  }

  lemma ShortLeaks<T>(q: Queue<T>, i: nat)
    requires Inv(q) && i < |q.threads| && q.threads[i].PutShort? && !q.m.partial
    ensures LeaksIn(q, i, 1)
  {
    ShortTick(q, i);
    var q2 := Queue(q.m.(leaked := true), q.threads[i := Idle]);
    hide Inv, Safe, StepThread;
    OneTick(q, i, 1, q2.m, Idle);
    assert OnlyTicks<T>(i, 0) == [];
  }

  lemma ShortTick<T>(q: Queue<T>, i: nat)
    requires Inv(q) && i < |q.threads| && q.threads[i].PutShort? && !q.m.partial
    ensures Safe(q.m, q.threads[i]) && StepThread(q.m, q.threads[i]) == (q.m.(leaked := true), Idle, Silent)
  {
    PutSafe(q.m, q.threads[i]);
    hide Inv;
  }

  /** Room for some but not all of vs, and no partial puts. */
  predicate TooMany<T>(m: Mem<T>, vs: seq<T>)
    requires Shape(R(m))
  {
    !m.cleared && !m.partial && |Abs(m)| < |m.buf| - 1 < |Abs(m)| + |vs|
  }

  lemma BatchTicks<T>(m: Mem<T>, vs: seq<T>)
    requires Shape(R(m)) && TooMany(m, vs)
    ensures var pc0, pc1, pc2 := PutHead(Batch(vs), m.rear), PutNHead(vs), PutNRear(vs, m.head);
      && !m.partial && Safe(m, pc0) && StepThread(m, pc0) == (m, pc1, Silent)
      && Safe(m, pc1) && StepThread(m, pc1) == (m, pc2, Silent)
      && Safe(m, pc2) && StepThread(m, pc2) == (m, PutShort(vs, m.rear, Fold(m.head - m.rear - 1, |m.buf|)), Silent)
  {
    hide Abs, Used, Pos, IsPow2, And, CopySlot, BatchEnd, Slot;
    AbsBounds(m);
    Folds(R(m));
  }

  lemma StillInv<T>(q: Queue<T>, i: nat, m2: Mem<T>, pc2: Pc<T>)
    requires Inv(q) && i < |q.threads| && q.threads[i] != Idle && Safe(q.m, q.threads[i])
    requires StepThread(q.m, q.threads[i]).0 == m2 && StepThread(q.m, q.threads[i]).1 == pc2
    ensures Inv(Queue(m2, q.threads[i := pc2]))
  {
    hide Inv, StepThread, Safe;
    StepRefines(q, Tick(i));
  }

  /** From its test for room on, a batch that does not fit leaks. */
  lemma ShortBatchLeaks<T>(q: Queue<T>, i: nat, vs: seq<T>)
    requires Inv(q) && i < |q.threads| && q.threads[i] == PutHead(Batch(vs), q.m.rear) && TooMany(q.m, vs)
    ensures LeaksIn(q, i, 4)
  {
    hide LeaksIn, TooMany, StepThread, Safe, Fold, Abs, Shape, ThreadOk, KeysOk;
    var m := q.m;
    assert Shape(R(m));
    hide Inv;
    BatchTicks(m, vs);
    var pc1, pc2, pc3 := PutNHead(vs), PutNRear(vs, m.head), PutShort(vs, m.rear, Fold(m.head - m.rear - 1, |m.buf|));
    var q1, q2, q3 := Queue(m, q.threads[i := pc1]), Queue(m, q.threads[i := pc2]), Queue(m, q.threads[i := pc3]);
    StillInv(q, i, m, pc1);
    assert q2.threads == q1.threads[i := pc2];
    StillInv(q1, i, m, pc2);
    assert q3.threads == q2.threads[i := pc3];
    StillInv(q2, i, m, pc3);
    ShortLeaks(q3, i);
    LeaksLater(q2, i, 2, m, pc3);
    LeaksLater(q1, i, 3, m, pc2);
    LeaksLater(q, i, 4, m, pc1);
  }

  lemma KeyTaken<T>(m: Mem<T>, vs: seq<T>)
    requires Shape(R(m)) && m.kput == 0
    ensures var m1 := m.(kput := 1); var pc0, pc1, pc2 := PutKey(Batch(vs)), PutRear(Batch(vs)), PutHead(Batch(vs), m.rear);
      && Shape(R(m1)) && (TooMany(m1, vs) <==> TooMany(m, vs))
      && Safe(m, pc0) && StepThread(m, pc0) == (m1, pc1, Silent)
      && Safe(m1, pc1) && StepThread(m1, pc1) == (m1, pc2, Silent)
  {
    hide IsPow2;
    SameAbs(m, m.(kput := 1));
  }

  lemma CallLeaks<T>(q: Queue<T>, i: nat, vs: seq<T>)
    requires Inv(q) && i < |q.threads| && q.threads[i] == PutKey(Batch(vs)) && q.m.kput == 0 && TooMany(q.m, vs)
    ensures LeaksIn(q, i, 6)
  {
    hide LeaksIn, TooMany, StepThread, Safe, Abs, Shape, ThreadOk, KeysOk;
    var m, m1 := q.m, q.m.(kput := 1);
    assert Shape(R(m));
    hide Inv;
    KeyTaken(m, vs);
    var pc1, pc2 := PutRear(Batch(vs)), PutHead(Batch(vs), m.rear);
    var q1, q2 := Queue(m1, q.threads[i := pc1]), Queue(m1, q.threads[i := pc2]);
    StillInv(q, i, m1, pc1);
    assert q2.threads == q1.threads[i := pc2];
    StillInv(q1, i, m1, pc2);
    ShortBatchLeaks(q2, i, vs);
    LeaksLater(q1, i, 5, m1, pc2);
    LeaksLater(q, i, 6, m1, pc1);
  }

  // ---------- When it is not ----------

  /** A putter on its way without disturbance that will not leak. */
  ghost predicate Calm<T>(m: Mem<T>, pc: Pc<T>, p: PutOp<T>)
    requires Shape(R(m))
  {
    && !m.leaked && !m.cleared
    && match pc
       case PutKey(p2) => p2 == p && m.kput == 0 && Fits(m, p)
       case PutRear(p2) => p2 == p && Fits(m, p)
       case PutHead(p2, _) => p2 == p && Fits(m, p)
       case PutFull(p2) => p2 == p && Fits(m, p)
       case PutAlive(p2) => p2 == p && Fits(m, p)
       case PutNHead(vs) => p == Batch(vs) && Fits(m, p)
       case PutNRear(vs, rd) => p == Batch(vs) && Fits(m, p) && rd == m.head
       case PutShort(_, _, _) => m.partial
       case _ => Late(pc)
  }

  predicate Late<T>(pc: Pc<T>) {
    pc == Idle || pc.PutFail? || pc.PutWrite? || pc.PutSlot? || pc.PutNext? || pc.PutStore? || pc.PutCopy? || pc.PutDone?
  }

  predicate Fits<T>(m: Mem<T>, p: PutOp<T>)
    requires Shape(R(m))
  {
    p.Batch? ==> !TooMany(m, p.vs)
  }

  lemma CalmStep<T>(m: Mem<T>, pc: Pc<T>, p: PutOp<T>)
    requires Shape(R(m)) && ThreadOk(m, pc) && pc != Idle && Calm(m, pc, p) && Safe(m, pc)
    requires Shape(R(StepThread(m, pc).0))
    ensures var (m2, pc2, _) := StepThread(m, pc); Calm(m2, pc2, p)
  {
    hide StepPut, Safe, Shape, ThreadOk, TooMany, Abs, Calm, Late, Getting, Fits;
    CalmFacts(m, pc, p);
    PutLeaks(m, pc);
    PutOtherKeys(m, pc);
    if Late(pc) || pc.PutShort? {
      LateStep(m, pc);
      LateCalm(StepPut(m, pc).0, StepPut(m, pc).1, p);
    } else {
      EarlyStep(m, pc, p);
    }
  }

  lemma CalmFacts<T>(m: Mem<T>, pc: Pc<T>, p: PutOp<T>)
    requires Shape(R(m)) && Calm(m, pc, p) && pc != Idle
    ensures Putting(pc) && !Getting(pc) && !m.leaked && !m.cleared && (pc.PutShort? ==> m.partial)
  {
    hide Shape, Fits;
  }

  lemma LateCalm<T>(m: Mem<T>, pc: Pc<T>, p: PutOp<T>)
    requires Shape(R(m)) && !m.leaked && !m.cleared && Late(pc)
    ensures Calm(m, pc, p)
  {
    hide Shape, Fits;
  }

  lemma LateStep<T>(m: Mem<T>, pc: Pc<T>)
    requires Putting(pc) && Safe(m, pc) && (Late(pc) || (pc.PutShort? && m.partial))
    ensures Late(StepPut(m, pc).1)
  {
    hide Safe, CopySlot, BatchEnd, Pos;
  }

  lemma EarlyStep<T>(m: Mem<T>, pc: Pc<T>, p: PutOp<T>)
    requires Shape(R(m)) && ThreadOk(m, pc) && Putting(pc) && Calm(m, pc, p) && Safe(m, pc) && !Late(pc) && !pc.PutShort?
    ensures var (m2, pc2, _) := StepPut(m, pc); Shape(R(m2)) && Calm(m2, pc2, p)
  {
    hide Abs, Used, Pos, IsPow2, And, CopySlot, BatchEnd, Slot, TooMany;
    Folds(R(m));
    var m2 := StepPut(m, pc).0;
    assert m2 == m.(kput := m2.kput);
    SameAbs(m, m2);
    SameTooMany(m, m2, p);
    if pc.PutNRear? { RoomIs(m, pc.vs); }
  }

  lemma SameTooMany<T>(m: Mem<T>, m2: Mem<T>, p: PutOp<T>)
    requires Shape(R(m)) && Shape(R(m2)) && Abs(m2) == Abs(m) && |m2.buf| == |m.buf| && m2.partial == m.partial && m2.cleared == m.cleared
    ensures Fits(m2, p) <==> Fits(m, p)
  {
  }

  /** With the elements in between gone or not, what head and rear leave free is the room there is. */
  lemma RoomIs<T>(m: Mem<T>, vs: seq<T>)
    requires Shape(R(m)) && !m.cleared && !TooMany(m, vs) && 1 <= Fold(m.head - m.rear - 1, |m.buf|)
    ensures Fold(m.head - m.rear - 1, |m.buf|) >= |vs| || m.partial
  {
    hide IsPow2;
    AbsBounds(m);
  }

  lemma {:induction false} CalmRun<T>(q: Queue<T>, i: nat, p: PutOp<T>, n: nat)
    requires Inv(q) && i < |q.threads| && Calm(q.m, q.threads[i], p) && Possible(q, OnlyTicks(i, n))
    ensures !End(q, OnlyTicks(i, n)).m.leaked
    decreases n
  {
    hide ThreadOk, StepThread, Shape, KeysOk, Abs;
    if n > 0 {
      assert OnlyTicks<T>(i, n)[0] == Tick(i) && OnlyTicks<T>(i, n)[1..] == OnlyTicks(i, n - 1);
      StepRefines(q, Tick(i));
      CalmStep(q.m, q.threads[i], p);
      CalmRun(After(q, Tick(i)), i, p, n - 1);
    } else {
      assert OnlyTicks<T>(i, 0) == [];
    }
  }

  /** A call of putq that finds the putters' key free and runs undisturbed leaks it exactly if it has a batch, the
      queue has room for some of it but not for all, and QUEUE_PARTIAL is clear. */
  lemma LeaksIffTooMany<T>(q: Queue<T>, i: nat, p: PutOp<T>)
    requires Inv(q) && i < |q.threads| && q.threads[i] == PutKey(p) && q.m.kput == 0
    ensures (exists n: nat :: LeaksIn(q, i, n)) <==> p.Batch? && TooMany(q.m, p.vs)
  {
    FreeKey(q);
    if p.Batch? && TooMany(q.m, p.vs) {
      CallLeaks(q, i, p.vs);
    } else {
      assert Calm(q.m, q.threads[i], p);
      forall n: nat | LeaksIn(q, i, n) ensures false { CalmRun(q, i, p, n); }
    }
  }

  lemma FreeKey<T>(q: Queue<T>)
    requires Inv(q) && q.m.kput == 0
    ensures !q.m.leaked && !q.m.cleared
  {
    hide Shape, ThreadOk;
    assert KeyOk(ForPut, Value(ForPut, q.m), Leaked(ForPut, q.m), q.threads);
    assert KeyOk(ForClear, Value(ForClear, q.m), Leaked(ForClear, q.m), q.threads);
    forall j | 0 <= j < |q.threads| ensures Holds(ForClear, q.threads[j]) ==> Holds(ForPut, q.threads[j]) {
      ClearHoldsPut(q.threads[j]);
    }
  }

  lemma ClearHoldsPut<T>(pc: Pc<T>)
    ensures Holds(ForClear, pc) ==> Holds(ForPut, pc)
  {
  }

  /** While QUEUE_PARTIAL stays set no run leaks the key. */
  lemma {:induction false} PartialNeverLeaks<T>(q: Queue<T>, run: seq<Action<T>>)
    requires Inv(q) && Possible(q, run) && !q.m.leaked && q.m.partial
    requires forall i :: 0 <= i < |run| && run[i].SetFlags? ==> run[i].partial
    ensures !End(q, run).m.leaked
    decreases |run|
  {
    if run != [] {
      NoLeakStep(q, run[0]);
      hide Inv, Step, Enabled;
      PartialNeverLeaks(After(q, run[0]), run[1..]);
    }
  }

  lemma NoLeakStep<T>(q: Queue<T>, a: Action<T>)
    requires Inv(q) && Enabled(q, a) && !q.m.leaked && (q.m.partial || (a.Tick? ==> !q.threads[a.i].PutShort?))
    ensures !After(q, a).m.leaked && (After(q, a).m.partial == if a.SetFlags? then a.partial else q.m.partial)
  {
    hide ThreadOk, Shape, StepThread, Safe, KeysOk;
    StepRefines(q, a);
    if a.Tick? {
      LeakStep(q.m, q.threads[a.i]);
      FlagsStay(q.m, q.threads[a.i]);
    }
  }

  lemma FlagsStay<T>(m: Mem<T>, pc: Pc<T>)
    requires pc != Idle && Safe(m, pc)
    ensures StepThread(m, pc).0.partial == m.partial
  {
    hide StepPut, Safe, CopySlot, BatchEnd, Pos;
    if Putting(pc) { PutFlagsStay(m, pc); }
  }

  lemma PutFlagsStay<T>(m: Mem<T>, pc: Pc<T>)
    requires Putting(pc) && Safe(m, pc)
    ensures StepPut(m, pc).0.partial == m.partial
  {
    hide Safe, CopySlot, BatchEnd, Pos;
  }

  predicate SmallOp<T>(p: PutOp<T>) {
    p.Batch? ==> |p.vs| <= 1
  }

  /** The thread is not putting a batch of more than one element. */
  predicate SmallPc<T>(pc: Pc<T>) {
    match pc
    case PutKey(p) => SmallOp(p) case PutSwap(p) => SmallOp(p) case PutRear(p) => SmallOp(p)
    case PutHead(p, _) => SmallOp(p) case PutFull(p) => SmallOp(p) case PutAlive(p) => SmallOp(p)
    case PutNHead(vs) => |vs| <= 1 case PutNRear(vs, _) => |vs| <= 1 case PutShort(vs, _, _) => |vs| <= 1
    case _ => true
  }

  lemma SmallStep<T>(m: Mem<T>, pc: Pc<T>)
    requires pc != Idle && Safe(m, pc) && SmallPc(pc)
    ensures SmallPc(StepThread(m, pc).1)
  {
    hide StepPut, Safe, CopySlot, BatchEnd, Pos;
    if Putting(pc) { SmallPutStep(m, pc); }
  }

  lemma SmallPutStep<T>(m: Mem<T>, pc: Pc<T>)
    requires Putting(pc) && Safe(m, pc) && SmallPc(pc)
    ensures SmallPc(StepPut(m, pc).1)
  {
    hide Safe, CopySlot, BatchEnd, Pos;
  }

  /** Nor does any run in which no batch has more than one element. */
  lemma {:induction false} SmallNeverLeaks<T>(q: Queue<T>, run: seq<Action<T>>)
    requires Inv(q) && Possible(q, run) && !q.m.leaked
    requires forall i :: 0 <= i < |q.threads| ==> SmallPc(q.threads[i])
    requires forall i :: 0 <= i < |run| && run[i].Start? && run[i].op.Putq? ==> SmallOp(run[i].op.p)
    ensures !End(q, run).m.leaked
    decreases |run|
  {
    if run != [] {
      SmallAction(q, run[0]);
      hide Inv, Step, Enabled, SmallPc;
      SmallNeverLeaks(After(q, run[0]), run[1..]);
    }
  }

  lemma SmallAction<T>(q: Queue<T>, a: Action<T>)
    requires Inv(q) && Enabled(q, a) && !q.m.leaked && (a.Start? && a.op.Putq? ==> SmallOp(a.op.p))
    requires forall i :: 0 <= i < |q.threads| ==> SmallPc(q.threads[i])
    ensures var q2 := After(q, a); !q2.m.leaked && forall i :: 0 <= i < |q2.threads| ==> SmallPc(q2.threads[i])
  {
    StepRefines(q, a);
    if a.Tick? {
      assert ThreadOk(q.m, q.threads[a.i]);
      NotShort(q.m, q.threads[a.i]);
      SmallStep(q.m, q.threads[a.i]);
    }
    hide ThreadOk, Shape, StepThread, Safe, KeysOk, SmallPc;
    NoLeakStep(q, a);
    if a.Start? { SmallStart(a.op); } else { SmallStart<T>(Rewind); }
  }

  lemma NotShort<T>(m: Mem<T>, pc: Pc<T>)
    requires Shape(R(m)) && ThreadOk(m, pc) && SmallPc(pc)
    ensures !pc.PutShort?
  {
  }

  lemma SmallStart<T>(op: Op<T>)
    requires op.Putq? ==> SmallOp(op.p)
    ensures SmallPc(First(op)) && SmallPc<T>(Idle)
  {
  }
}
