/**
  Calls on the lock-free queue: what one call of getq, putq or rewind does to the queue and returns, whatever the
  other threads do meanwhile, and what it does when they leave it alone.
 */
module LockFreeCalls {
  import opened Bits
  import opened Ring
  import opened LockFreeQueue

  /** What a call returns: the elements got, how many were put, or nothing. */
  datatype Answer<T> = Elements(vs: seq<T>) | Count(n: nat) | Void

  /** The answer of a call whose last access is made at pc. */
  function AnswerOf<T>(pc: Pc<T>): Answer<T> {
    match pc
    case GetDone(vs) => Elements(vs)
    case GetFail => Elements([])
    case PutDone(n) => Count(n)
    case PutFail => Count(0)
    case PutShort(_, _, _) => Count(0)
    case _ => Void
  }

  /** Thread i stays inside its call until the last action of the run. */
  ghost predicate During<T>(q: Queue<T>, run: seq<Action<T>>, i: nat)
    requires Inv(q) && Possible(q, run)
    decreases |run|
  {
    run == [] || (i < |q.threads| && !q.threads[i].Idle? && During(After(q, run[0]), run[1..], i))
  }

  /** Where thread i is before the last action. */
  ghost function LastPc<T>(q: Queue<T>, run: seq<Action<T>>, i: nat): Pc<T>
    requires Inv(q) && Possible(q, run) && run != [] && During(q, run, i)
    decreases |run|
  {
    if |run| == 1 then q.threads[i] else LastPc(After(q, run[0]), run[1..], i)
  }

  /** What thread i did to the FIFO so far, and whether the flags have been found set on the way. */
  datatype Past<T> = Past(labels: seq<Label<T>>, nonblock: bool, partial: bool)

  /** One more action, from state q. */
  ghost function Then<T>(past: Past<T>, q: Queue<T>, a: Action<T>, i: nat): Past<T>
    requires Inv(q) && Enabled(q, a)
  {
    Past(if a.Tick? && a.i == i then past.labels + [LabelOf(q, a)] else past.labels,
         past.nonblock || q.m.nonblock, past.partial || q.m.partial)
  }

  ghost function PastOf<T>(past: Past<T>, q: Queue<T>, run: seq<Action<T>>, i: nat): Past<T>
    requires Inv(q) && Possible(q, run)
    decreases |run|
  {
    if run == [] then past else PastOf(Then(past, q, run[0], i), After(q, run[0]), run[1..], i)
  }

  /** The labels that change the FIFO. */
  function Effects<T>(ls: seq<Label<T>>): seq<Label<T>> {
    if ls == [] then []
    else
      var l := ls[|ls| - 1];
      Effects(ls[..|ls| - 1]) + if l.Enq? || l.Deq? || l.Clear? then [l] else []
  }

  /** Elements a getq may take: one, or up to n. */
  predicate MayTake<T>(g: GetOp, vs: seq<T>) {
    match g case One => |vs| == 1 case Many(n) => |vs| <= n
  }

  /** Elements a putq may put: its own, all of them, or the first ones if QUEUE_PARTIAL was set. */
  ghost predicate MayPut<T>(p: PutOp<T>, ws: seq<T>, partial: bool) {
    match p
    case Single(v) => ws == [v]
    case Batch(vs) => ws == vs || (partial && ws != [] && ws < vs)
  }

  /** What a call may have done and returned. leaked tells whether it, or a call before it, has leaked the putters' key. */
  ghost predicate Answered<T>(op: Op<T>, past: Past<T>, leaked: bool, ans: Answer<T>) {
    var es := Effects(past.labels);
    match op
    case Getq(g) =>
      || (es == [] && ans == Elements([]) && SawEmpty in past.labels && past.nonblock)
      || (|es| == 1 && es[0].Deq? && MayTake(g, es[0].vs) && ans == Elements(es[0].vs))
    case Putq(p) =>
      || (es == [] && ans == Count(0) && SawFull in past.labels && past.nonblock)
      || (es == [] && ans == Count(0) && p.Batch? && |p.vs| > 1 && leaked)
      || (|es| == 1 && es[0].Enq? && MayPut(p, es[0].vs, past.partial) && ans == Count(|es[0].vs|))
    case Rewind => es == [Clear] && ans == Void
  }

  // ---------- Inside a call ----------

  /** Where a call of op can be, given its past. */
  ghost predicate InCall<T>(op: Op<T>, past: Past<T>, pc: Pc<T>) {
    var es := Effects(past.labels);
    match pc
    case Idle => false
    case GetKey(g) => op == Getq(g) && es == []
    case GetSwap(g) => op == Getq(g) && es == []
    case GetHead(g) => op == Getq(g) && es == []
    case GetRear(g, _) => op == Getq(g) && es == []
    case GetEmpty(g) => op == Getq(g) && es == [] && SawEmpty in past.labels
    case GetFail => op.Getq? && es == [] && SawEmpty in past.labels && past.nonblock
    case GetAlive(g) => op == Getq(g) && es == []
    case GetRead => op == Getq(One) && es == []
    case GetSlot(_) => op == Getq(One) && es == []
    case GetNext(_) => op == Getq(One) && es == []
    case GetStore(_, _) => op == Getq(One) && es == []
    case GetNHead(n) => op == Getq(Many(n)) && es == []
    case GetNRear(n, _) => op == Getq(Many(n)) && es == []
    case GetCopy(_, kp, out) => op.Getq? && op.g.Many? && |out| <= kp <= op.g.n && es == []
    case GetDone(vs) => op.Getq? && MayTake(op.g, vs) && es == [Deq(vs)]
    case PutKey(p) => op == Putq(p) && es == []
    case PutSwap(p) => op == Putq(p) && es == []
    case PutRear(p) => op == Putq(p) && es == []
    case PutHead(p, _) => op == Putq(p) && es == []
    case PutFull(p) => op == Putq(p) && es == [] && SawFull in past.labels
    case PutFail => op.Putq? && es == [] && SawFull in past.labels && past.nonblock
    case PutAlive(p) => op == Putq(p) && es == []
    case PutWrite(v) => op == Putq(Single(v)) && es == []
    case PutSlot(v, _) => op == Putq(Single(v)) && es == []
    case PutNext(v) => op == Putq(Single(v)) && es == []
    case PutStore(v, _) => op == Putq(Single(v)) && es == []
    case PutNHead(vs) => op == Putq(Batch(vs)) && es == []
    case PutNRear(vs, _) => op == Putq(Batch(vs)) && es == []
    case PutShort(vs, _, kp) => op == Putq(Batch(vs)) && es == []
    case PutCopy(_, ws, _) => op.Putq? && op.p.Batch? && MayPut(op.p, ws, past.partial) && es == []
    case PutDone(n) => op.Putq? && |es| == 1 && es[0].Enq? && MayPut(op.p, es[0].vs, past.partial) && n == |es[0].vs|
    case RewRear => op == Rewind && es == [Clear]
    case RewOutPut => op == Rewind && es == [Clear]
    case RewOutGet => op == Rewind && es == [Clear]
    case _ => op == Rewind && es == []
  }

  lemma OneMore<T>(ls: seq<Label<T>>, l: Label<T>)
    ensures Effects(ls + [l]) == Effects(ls) + if l.Enq? || l.Deq? || l.Clear? then [l] else []
    ensures forall k :: k in ls || k == l ==> k in ls + [l]
  {
    assert (ls + [l])[..|ls|] == ls;
  }

  /** Taking the key and waiting. */
  predicate Waits<T>(pc: Pc<T>) {
    || pc.GetKey? || pc.GetSwap? || pc.GetHead? || pc.GetRear? || pc.GetEmpty? || pc.GetFail? || pc.GetAlive?
    || pc.PutKey? || pc.PutSwap? || pc.PutRear? || pc.PutHead? || pc.PutFull? || pc.PutFail? || pc.PutAlive?
  }

  lemma GetWaits<T>(op: Op<T>, past: Past<T>, m: Mem<T>, pc: Pc<T>, past2: Past<T>)
    requires Getting(pc) && Waits(pc) && Safe(m, pc) && InCall(op, past, pc)
    requires past2 == Past(past.labels + [StepGet(m, pc).2], past.nonblock || m.nonblock, past.partial || m.partial)
    ensures var pc2 := StepGet(m, pc).1;
      if pc2.Idle? then Answered(op, past2, false, AnswerOf(pc)) else InCall(op, past2, pc2)
  {
    hide Pos, CopySlot, BatchEnd, Effects, Safe;
    OneMore(past.labels, StepGet(m, pc).2);
  }

  lemma PutWaits<T>(op: Op<T>, past: Past<T>, m: Mem<T>, pc: Pc<T>, past2: Past<T>)
    requires Putting(pc) && Waits(pc) && Safe(m, pc) && InCall(op, past, pc)
    requires past2 == Past(past.labels + [StepPut(m, pc).2], past.nonblock || m.nonblock, past.partial || m.partial)
    ensures var (m2, pc2, _) := StepPut(m, pc);
      if pc2.Idle? then Answered(op, past2, m2.leaked, AnswerOf(pc)) else InCall(op, past2, pc2)
  {
    hide Pos, CopySlot, BatchEnd, Effects, Safe;
    OneMore(past.labels, StepPut(m, pc).2);
  }

  lemma GetMoves<T>(op: Op<T>, past: Past<T>, m: Mem<T>, pc: Pc<T>, past2: Past<T>)
    requires Shape(R(m)) && ThreadOk(m, pc) && Getting(pc) && !Waits(pc) && Safe(m, pc) && InCall(op, past, pc)
    requires past2 == Past(past.labels + [StepGet(m, pc).2], past.nonblock || m.nonblock, past.partial || m.partial)
    ensures var pc2 := StepGet(m, pc).1;
      if pc2.Idle? then Answered(op, past2, false, AnswerOf(pc)) else InCall(op, past2, pc2)
  {
    hide Abs, IsPow2, Pos, CopySlot, BatchEnd, Effects, Used;
    OneMore(past.labels, StepGet(m, pc).2);
    if pc.GetNRear? { NoneCopied(m, pc); }
  }

  lemma NoneCopied<T>(m: Mem<T>, pc: Pc<T>)
    requires Shape(R(m)) && ThreadOk(m, pc) && pc.GetNRear? && Safe(m, pc)
    ensures var pc2 := StepGet(m, pc).1; pc2.GetCopy? && |pc2.out| == 0 <= pc2.kp <= pc.n
  {
    Folds(R(m));
    AbsBounds(m);
    hide IsPow2, CopySlot, BatchEnd;
  }

  lemma PutMoves<T>(op: Op<T>, past: Past<T>, m: Mem<T>, pc: Pc<T>, past2: Past<T>)
    requires Putting(pc) && !Waits(pc) && !pc.PutShort? && Safe(m, pc) && InCall(op, past, pc)
    requires past2 == Past(past.labels + [StepPut(m, pc).2], past.nonblock || m.nonblock, past.partial || m.partial)
    ensures var (m2, pc2, _) := StepPut(m, pc);
      if pc2.Idle? then Answered(op, past2, m2.leaked, AnswerOf(pc)) else InCall(op, past2, pc2)
  {
    hide Pos, CopySlot, BatchEnd, Effects, Safe;
    OneMore(past.labels, StepPut(m, pc).2);
  }

  lemma ShortMoves<T>(op: Op<T>, past: Past<T>, m: Mem<T>, pc: Pc<T>, past2: Past<T>)
    requires Shape(R(m)) && ThreadOk(m, pc) && pc.PutShort? && Safe(m, pc) && InCall(op, past, pc)
    requires past2 == Past(past.labels + [StepPut(m, pc).2], past.nonblock || m.nonblock, past.partial || m.partial)
    ensures var (m2, pc2, _) := StepPut(m, pc);
      if pc2.Idle? then Answered(op, past2, m2.leaked, AnswerOf(pc)) else InCall(op, past2, pc2)
  {
    hide Shape, Abs, Effects;
    OneMore(past.labels, StepPut(m, pc).2);
  }

  lemma RewMoves<T>(op: Op<T>, past: Past<T>, m: Mem<T>, pc: Pc<T>, past2: Past<T>)
    requires Rewinding(pc) && InCall(op, past, pc)
    requires past2 == Past(past.labels + [StepRewind(m, pc).2], past.nonblock || m.nonblock, past.partial || m.partial)
    ensures var pc2 := StepRewind(m, pc).1;
      if pc2.Idle? then Answered(op, past2, false, AnswerOf(pc)) else InCall(op, past2, pc2)
  {
    hide Effects;
    OneMore(past.labels, StepRewind(m, pc).2);
  }

  lemma AnsweredStill<T>(op: Op<T>, past: Past<T>, leaked: bool, ans: Answer<T>)
    requires Answered(op, past, false, ans)
    ensures Answered(op, past, leaked, ans)
  {
    hide Effects;
  }

  /** An access of the thread itself. */
  lemma OwnMove<T>(op: Op<T>, past: Past<T>, m: Mem<T>, pc: Pc<T>, past2: Past<T>)
    requires Shape(R(m)) && ThreadOk(m, pc) && pc != Idle && Safe(m, pc) && InCall(op, past, pc)
    requires past2 == Past(past.labels + [StepThread(m, pc).2], past.nonblock || m.nonblock, past.partial || m.partial)
    ensures var (m2, pc2, _) := StepThread(m, pc);
      if pc2.Idle? then Answered(op, past2, m2.leaked, AnswerOf(pc)) else InCall(op, past2, pc2)
  {
    hide Shape, ThreadOk, Safe, StepGet, StepPut, StepRewind, InCall, Answered;
    if Getting(pc) {
      if Waits(pc) { GetWaits(op, past, m, pc, past2); } else { GetMoves(op, past, m, pc, past2); }
      if StepGet(m, pc).1.Idle? { AnsweredStill(op, past2, StepGet(m, pc).0.leaked, AnswerOf(pc)); }
    } else if Putting(pc) {
      if Waits(pc) {
        PutWaits(op, past, m, pc, past2);
      } else if pc.PutShort? {
        ShortMoves(op, past, m, pc, past2);
      } else {
        PutMoves(op, past, m, pc, past2);
      }
    } else {
      RewMoves(op, past, m, pc, past2);
      if StepRewind(m, pc).1.Idle? { AnsweredStill(op, past2, StepRewind(m, pc).0.leaked, AnswerOf(pc)); }
    }
  }

  /** Somebody else's action. */
  lemma OthersMove<T>(op: Op<T>, past: Past<T>, pc: Pc<T>, nonblock: bool, partial: bool)
    requires InCall(op, past, pc)
    ensures InCall(op, Past(past.labels, past.nonblock || nonblock, past.partial || partial), pc)
  {
    hide Effects;
  }

  /** Any action of anybody. */
  lemma CallMoves<T>(op: Op<T>, past: Past<T>, q: Queue<T>, a: Action<T>, i: nat)
    requires Inv(q) && Enabled(q, a) && i < |q.threads| && !q.threads[i].Idle? && InCall(op, past, q.threads[i])
    ensures var q2, past2 := After(q, a), Then(past, q, a, i);
      && i < |q2.threads|
      && if q2.threads[i].Idle? then a.Tick? && a.i == i && Answered(op, past2, q2.m.leaked, AnswerOf(q.threads[i]))
         else InCall(op, past2, q2.threads[i])
  {
    StepRefines(q, a);
    hide KeysOk, StepThread, InCall, Answered, Safe;
    if a.Tick? && a.i == i {
      OwnMove(op, past, q.m, q.threads[i], Then(past, q, a, i));
    } else {
      OthersMove(op, past, q.threads[i], q.m.nonblock, q.m.partial);
    }
  }

  lemma {:induction false} CallRun<T>(op: Op<T>, past: Past<T>, q: Queue<T>, run: seq<Action<T>>, i: nat)
    requires Inv(q) && Possible(q, run) && run != [] && During(q, run, i) && InCall(op, past, q.threads[i])
    ensures i < |End(q, run).threads|
    ensures End(q, run).threads[i].Idle? ==>
      Answered(op, PastOf(past, q, run, i), End(q, run).m.leaked, AnswerOf(LastPc(q, run, i)))
    decreases |run|
  {
    hide Inv, Enabled, Step, InCall, Answered;
    CallMoves(op, past, q, run[0], i);
    if |run| == 1 {
      assert run[1..] == [];
    } else {
      CallRun(op, Then(past, q, run[0], i), After(q, run[0]), run[1..], i);
    }
  }

  /** Over any run, from the start of a call to its return: getq takes once, one element or at most as many as asked
      for, and returns just these; or, without QUEUE_NONBLOCK never, nothing, having found the queue empty. putq puts
      once, its own elements, all of them or with QUEUE_PARTIAL some of the first, and says how many; or nothing, having
      found the queue full, or leaking its key. rewind clears once. */
  lemma CallsAnswer<T>(q: Queue<T>, op: Op<T>, i: nat, run: seq<Action<T>>)
    requires Inv(q) && Enabled(q, Start(i, op)) && Possible(After(q, Start(i, op)), run) && run != []
    requires During(After(q, Start(i, op)), run, i)
    requires i < |End(After(q, Start(i, op)), run).threads| && End(After(q, Start(i, op)), run).threads[i].Idle?
    ensures var q1 := After(q, Start(i, op));
      Answered(op, PastOf(Past([], false, false), q1, run, i), End(q1, run).m.leaked, AnswerOf(LastPc(q1, run, i)))
  {
    var q1 := After(q, Start(i, op));
    assert q1.threads[i] == First(op) && InCall(op, Past([], false, false), First(op));
    hide Inv, Enabled, Step, InCall, Answered;
    CallRun(op, Past([], false, false), q1, run, i);
  }

  // ---------- A thread left alone ----------

  lemma TickOn<T>(q: Queue<T>, i: nat, n: nat)
    requires Inv(q) && i < |q.threads| && !q.threads[i].Idle? && n > 0
    requires Possible(After(q, Tick(i)), OnlyTicks(i, n - 1)) && During(After(q, Tick(i)), OnlyTicks(i, n - 1), i)
    ensures Possible(q, OnlyTicks(i, n)) && During(q, OnlyTicks(i, n), i)
    ensures End(q, OnlyTicks(i, n)) == End(After(q, Tick(i)), OnlyTicks(i, n - 1))
    ensures LastPc(q, OnlyTicks(i, n), i) == if n == 1 then q.threads[i] else LastPc(After(q, Tick(i)), OnlyTicks(i, n - 1), i)
  {
    hide Inv;
    var run := OnlyTicks<T>(i, n);
    assert run[0] == Tick(i) && run[1..] == OnlyTicks(i, n - 1) && |run| == n;
    StepRefines(q, Tick(i));
  }

  lemma CanTick<T>(q: Queue<T>, i: nat)
    requires Inv(q) && i < |q.threads| && (Getting(q.threads[i]) || Putting(q.threads[i]))
    ensures !q.threads[i].Idle? && Enabled(q, Tick(i)) && Shape(R(q.m)) && Shape(R(After(q, Tick(i)).m))
    ensures |After(q, Tick(i)).m.buf| == |q.m.buf|
  {
  }

  lemma NoTicks<T>(q: Queue<T>, i: nat)
    requires Inv(q)
    ensures Possible(q, OnlyTicks(i, 0)) && End(q, OnlyTicks(i, 0)) == q && During(q, OnlyTicks(i, 0), i)
  {
    assert OnlyTicks<T>(i, 0) == [];
  }

  lemma TickIs<T>(q: Queue<T>, i: nat)
    requires Inv(q) && i < |q.threads| && !q.threads[i].Idle?
    ensures Safe(q.m, q.threads[i]) && Alone(q.m, q.threads[i]) && ThreadOk(q.m, q.threads[i]) && Shape(R(q.m))
    ensures var q2, (m2, pc2, _) := After(q, Tick(i)), StepThread(q.m, q.threads[i]);
      q2.m == m2 && i < |q2.threads| && q2.threads[i] == pc2
  {
    AloneIs(q, i);
    StepRefines(q, Tick(i));
    hide KeysOk, Alone, StepThread, Safe;
  }

  /** How many of the elements a it takes. */
  function Takes<T>(g: GetOp, a: seq<T>): (k: nat)
    ensures k <= |a|
  {
    if a == [] then 0 else match g case One => 1 case Many(n) => if n < |a| then n else |a|
  }

  /** A getter on its way through a queue that holds a and that nobody else touches. */
  ghost predicate GetOn<T>(g: GetOp, a: seq<T>, m: Mem<T>, pc: Pc<T>)
    requires Shape(R(m))
  {
    && !m.cleared
    && match pc
       case GetKey(h) => h == g && m.kget == 0 && Abs(m) == a && (a == [] ==> m.nonblock)
       case GetHead(h) => h == g && Abs(m) == a && (a == [] ==> m.nonblock)
       case GetRear(h, _) => h == g && Abs(m) == a && (a == [] ==> m.nonblock)
       case GetEmpty(h) => h == g && Abs(m) == a == [] && m.nonblock
       case GetFail => Abs(m) == a == []
       case GetRead => g == One && Abs(m) == a != []
       case GetSlot(_) => g == One && Abs(m) == a != []
       case GetNext(_) => g == One && Abs(m) == a != []
       case GetStore(_, _) => g == One && Abs(m) == a != []
       case GetNHead(n) => g == Many(n) && Abs(m) == a != []
       case GetNRear(n, _) => g == Many(n) && Abs(m) == a != []
       case GetCopy(_, kp, out) => g.Many? && Abs(m) == a != [] && kp == Takes(g, a) && |out| <= kp
       case GetDone(vs) => a != [] && vs == a[..Takes(g, a)] && Abs(m) == a[Takes(g, a)..]
       case _ => false
  }

  /** The accesses it has still to make, at most. */
  function GetLeft<T>(a: seq<T>, pc: Pc<T>): nat {
    match pc
    case GetKey(_) => |a| + 12 case GetHead(_) => |a| + 11 case GetRear(_, _) => |a| + 10
    case GetEmpty(_) => 2 case GetFail => 1
    case GetRead => 5 case GetSlot(_) => 4 case GetNext(_) => 3 case GetStore(_, _) => 2
    case GetNHead(_) => |a| + 4 case GetNRear(_, _) => |a| + 3 case GetCopy(_, kp, out) => if kp > |out| then kp - |out| + 2 else 2
    case _ => 1
  }

  /** Its next access brings it on, or it returns what it should. */
  ghost predicate GetsOn<T>(g: GetOp, a: seq<T>, m: Mem<T>, pc: Pc<T>, m2: Mem<T>, pc2: Pc<T>)
    requires Shape(R(m2))
  {
    if pc2.Idle? then AnswerOf(pc) == Elements(a[..Takes(g, a)]) && Abs(m2) == a[Takes(g, a)..]
    else GetOn(g, a, m2, pc2) && GetLeft(a, pc2) < GetLeft(a, pc)
  }

  lemma GetOnWaits<T>(g: GetOp, a: seq<T>, m: Mem<T>, pc: Pc<T>)
    requires Shape(R(m)) && ThreadOk(m, pc) && Alone(m, pc) && Getting(pc) && Safe(m, pc) && Waits(pc) && GetOn(g, a, m, pc)
    ensures var (m2, pc2, _) := StepGet(m, pc); Shape(R(m2)) && GetsOn(g, a, m, pc, m2, pc2)
  {
    hide Abs, IsPow2, Pos, CopySlot, BatchEnd, Used, Alone;
    AbsBounds(m);
    SameAbs(m, StepGet(m, pc).0);
  }

  lemma GetOnMoves<T>(g: GetOp, a: seq<T>, m: Mem<T>, pc: Pc<T>)
    requires Shape(R(m)) && ThreadOk(m, pc) && Alone(m, pc) && Getting(pc) && Safe(m, pc) && !Waits(pc) && !HeadStore(pc)
    requires GetOn(g, a, m, pc)
    ensures var (m2, pc2, _) := StepGet(m, pc); Shape(R(m2)) && GetsOn(g, a, m, pc, m2, pc2)
  {
    hide Abs, IsPow2, CopySlot, BatchEnd, Used, Alone, Pos;
    AbsBounds(m);
    Folds(R(m));
    SameAbs(m, StepGet(m, pc).0);
  }

  lemma GetOnStores<T>(g: GetOp, a: seq<T>, m: Mem<T>, pc: Pc<T>)
    requires Shape(R(m)) && ThreadOk(m, pc) && Alone(m, pc) && Getting(pc) && Safe(m, pc) && HeadStore(pc)
    requires GetOn(g, a, m, pc)
    ensures var (m2, pc2, _) := StepGet(m, pc); Shape(R(m2)) && GetsOn(g, a, m, pc, m2, pc2)
  {
    hide Abs, Shape, Alone, StepGet, ThreadOk, GetOn, GetsOn, HeadStore, Takes, Safe, Getting;
    HeadStoreTakes(m, pc);
    TakenIs(g, a, m, pc);
    var (m2, pc2, l) := StepGet(m, pc);
    StoreEnds(g, a, m, pc, m2, l.vs);
  }

  lemma StoreEnds<T>(g: GetOp, a: seq<T>, m: Mem<T>, pc: Pc<T>, m2: Mem<T>, vs: seq<T>)
    requires HeadStore(pc) && Shape(R(m)) && Shape(R(m2)) && GetOn(g, a, m, pc) && m2.cleared == m.cleared
    requires a != [] && a == vs + Abs(m2) && |vs| == Takes(g, a)
    ensures GetsOn(g, a, m, pc, m2, GetDone(vs))
  {
    hide Abs, Shape, Takes;
    assert a[..|vs|] == vs && a[|vs|..] == Abs(m2);
  }

  lemma TakenIs<T>(g: GetOp, a: seq<T>, m: Mem<T>, pc: Pc<T>)
    requires Shape(R(m)) && ThreadOk(m, pc) && Getting(pc) && Safe(m, pc) && HeadStore(pc) && GetOn(g, a, m, pc)
    ensures Abs(m) == a && a != [] && StepGet(m, pc).2.Deq? && |StepGet(m, pc).2.vs| == Takes(g, a)
  {
    hide Abs, IsPow2, CopySlot, BatchEnd, Used, Pos;
  }

  lemma GetOnTick<T>(q: Queue<T>, i: nat, g: GetOp, a: seq<T>)
    requires Inv(q) && i < |q.threads| && Getting(q.threads[i]) && GetOn(g, a, q.m, q.threads[i])
    ensures var q2 := After(q, Tick(i)); i < |q2.threads| && GetsOn(g, a, q.m, q.threads[i], q2.m, q2.threads[i])
    ensures var q2 := After(q, Tick(i)); q2.threads[i].Idle? || Getting(q2.threads[i])
  {
    TickIs(q, i);
    hide Inv, Shape, ThreadOk, Alone, Safe, StepGet, GetOn, GetsOn, Waits, HeadStore;
    var m, pc := q.m, q.threads[i];
    GetOtherKeys(m, pc);
    if HeadStore(pc) { GetOnStores(g, a, m, pc); } else if Waits(pc) { GetOnWaits(g, a, m, pc); } else { GetOnMoves(g, a, m, pc); }
  }

  lemma {:induction false} GetOnReturns<T>(q: Queue<T>, i: nat, g: GetOp, a: seq<T>) returns (n: nat)
    requires Inv(q) && i < |q.threads| && Getting(q.threads[i]) && GetOn(g, a, q.m, q.threads[i])
    ensures n > 0 && Possible(q, OnlyTicks(i, n)) && During(q, OnlyTicks(i, n), i)
    ensures var q2 := End(q, OnlyTicks(i, n));
      && i < |q2.threads| && q2.threads[i].Idle? && Abs(q2.m) == a[Takes(g, a)..]
      && AnswerOf(LastPc(q, OnlyTicks(i, n), i)) == Elements(a[..Takes(g, a)])
    decreases GetLeft(a, q.threads[i])
  {
    hide Inv, GetOn, Getting, Step, Enabled, Possible, During, End, LastPc, Takes, Abs, Shape;
    CanTick(q, i);
    var q2 := After(q, Tick(i));
    GetOnTick(q, i, g, a);
    if q2.threads[i].Idle? {
      n := 1;
      NoTicks(q2, i);
    } else {
      n := GetOnReturns(q2, i, g, a);
      n := n + 1;
    }
    TickOn(q, i, n);
  }

  /** Left alone with the getters' key free, getq returns, unless the queue is empty and QUEUE_NONBLOCK clear: with the
      first element or the first n, all if there are fewer, which are then gone. */
  lemma GetAlone<T>(q: Queue<T>, i: nat, g: GetOp) returns (n: nat)
    requires Inv(q) && i < |q.threads| && q.threads[i] == GetKey(g) && q.m.kget == 0
    requires Abs(q.m) != [] || q.m.nonblock
    ensures n > 0 && Possible(q, OnlyTicks(i, n)) && During(q, OnlyTicks(i, n), i)
    ensures var q2, a := End(q, OnlyTicks(i, n)), Abs(q.m);
      && i < |q2.threads| && q2.threads[i].Idle? && Abs(q2.m) == a[Takes(g, a)..]
      && AnswerOf(LastPc(q, OnlyTicks(i, n), i)) == Elements(a[..Takes(g, a)])
  {
    NotClearing(q);
    assert GetOn(g, Abs(q.m), q.m, q.threads[i]);
    n := GetOnReturns(q, i, g, Abs(q.m));
  }

  lemma NotClearing<T>(q: Queue<T>)
    requires Inv(q) && (q.m.kget == 0 || q.m.kput == 0)
    ensures !q.m.cleared && (q.m.kput == 0 ==> !q.m.leaked)
  {
    hide Shape, ThreadOk;
    assert KeyOk(ForGet, Value(ForGet, q.m), Leaked(ForGet, q.m), q.threads);
    assert KeyOk(ForPut, Value(ForPut, q.m), Leaked(ForPut, q.m), q.threads);
    assert KeyOk(ForClear, Value(ForClear, q.m), Leaked(ForClear, q.m), q.threads);
    forall j | 0 <= j < |q.threads|
      ensures Holds(ForClear, q.threads[j]) ==> Holds(ForPut, q.threads[j]) && Holds(ForGet, q.threads[j])
    {
      ClearHoldsBoth(q.threads[j]);
    }
  }

  lemma ClearHoldsBoth<T>(pc: Pc<T>)
    ensures Holds(ForClear, pc) ==> Holds(ForPut, pc) && Holds(ForGet, pc)
  {
  }

  // ---------- A putter left alone ----------

  /** The elements it puts into a queue that holds a, of at most cap. */
  function Puts<T>(p: PutOp<T>, a: seq<T>, cap: nat, partial: bool): seq<T> {
    match p
    case Single(v) => if |a| < cap then [v] else []
    case Batch(vs) =>
      if |a| >= cap then []
      else if |a| + |vs| <= cap then vs
      else if partial then vs[..cap - |a|]
      else []
  }

  /** A putter on its way through a queue that holds a and that nobody else touches. */
  ghost predicate PutOn<T>(p: PutOp<T>, a: seq<T>, pa: bool, m: Mem<T>, pc: Pc<T>)
    requires Shape(R(m))
  {
    var cap := |m.buf| - 1;
    && !m.cleared && m.partial == pa
    && match pc
       case PutKey(o) => o == p && m.kput == 0 && Abs(m) == a && (|a| == cap ==> m.nonblock)
       case PutRear(o) => o == p && Abs(m) == a && (|a| == cap ==> m.nonblock)
       case PutHead(o, _) => o == p && Abs(m) == a && (|a| == cap ==> m.nonblock)
       case PutFull(o) => o == p && Abs(m) == a && |a| == cap && m.nonblock
       case PutFail => Abs(m) == a && |a| == cap
       case PutWrite(v) => p == Single(v) && Abs(m) == a && |a| < cap
       case PutSlot(v, _) => p == Single(v) && Abs(m) == a && |a| < cap
       case PutNext(v) => p == Single(v) && Abs(m) == a && |a| < cap
       case PutStore(v, _) => p == Single(v) && Abs(m) == a && |a| < cap
       case PutNHead(vs) => p == Batch(vs) && Abs(m) == a && |a| < cap
       case PutNRear(vs, rd) => p == Batch(vs) && Abs(m) == a && |a| < cap && rd == m.head
       case PutShort(vs, _, kp) => p == Batch(vs) && Abs(m) == a && |a| < cap && kp == cap - |a| < |vs|
       case PutCopy(_, ws, _) => p.Batch? && Abs(m) == a && |a| < cap && ws == Puts(p, a, cap, pa)
       case PutDone(n) => |a| < cap && n == |Puts(p, a, cap, pa)| && Abs(m) == a + Puts(p, a, cap, pa)
       case _ => false
  }

  function PutLeft<T>(p: PutOp<T>, pc: Pc<T>): nat {
    var k := if p.Batch? then |p.vs| else 0;
    match pc
    case PutKey(_) => k + 12 case PutRear(_) => k + 11 case PutHead(_, _) => k + 10
    case PutFull(_) => 2 case PutFail => 1
    case PutWrite(_) => 5 case PutSlot(_, _) => 4 case PutNext(_) => 3 case PutStore(_, _) => 2
    case PutNHead(_) => k + 5 case PutNRear(_, _) => k + 4 case PutShort(_, _, _) => k + 3
    case PutCopy(_, ws, j) => if |ws| > j then |ws| - j + 2 else 2
    case _ => 1
  }

  ghost predicate PutsOn<T>(p: PutOp<T>, a: seq<T>, pa: bool, pc: Pc<T>, m2: Mem<T>, pc2: Pc<T>)
    requires Shape(R(m2))
  {
    var ws := Puts(p, a, |m2.buf| - 1, pa);
    if pc2.Idle? then AnswerOf(pc) == Count(|ws|) && Abs(m2) == a + ws
    else PutOn(p, a, pa, m2, pc2) && PutLeft(p, pc2) < PutLeft(p, pc)
  }

  lemma PutOnWaits<T>(p: PutOp<T>, a: seq<T>, pa: bool, m: Mem<T>, pc: Pc<T>)
    requires Shape(R(m)) && ThreadOk(m, pc) && Putting(pc) && Safe(m, pc) && Waits(pc) && PutOn(p, a, pa, m, pc)
    ensures var (m2, pc2, _) := StepPut(m, pc); Shape(R(m2)) && PutsOn(p, a, pa, pc, m2, pc2)
  {
    hide Abs, IsPow2, Pos, CopySlot, BatchEnd, Used;
    AbsBounds(m);
    Folds(R(m));
    SameAbs(m, StepPut(m, pc).0);
    assert a + [] == a;
  }

  lemma PutOnRoom<T>(p: PutOp<T>, a: seq<T>, pa: bool, m: Mem<T>, pc: Pc<T>)
    requires Shape(R(m)) && ThreadOk(m, pc) && pc.PutNRear? && Safe(m, pc) && PutOn(p, a, pa, m, pc)
    ensures var (m2, pc2, _) := StepPut(m, pc); Shape(R(m2)) && PutsOn(p, a, pa, pc, m2, pc2)
  {
    hide Abs, IsPow2, CopySlot, BatchEnd, Used, Written, Pos;
    AbsBounds(m);
    Folds(R(m));
    SameAbs(m, StepPut(m, pc).0);
  }

  lemma PutOnMoves<T>(p: PutOp<T>, a: seq<T>, pa: bool, m: Mem<T>, pc: Pc<T>)
    requires Shape(R(m)) && ThreadOk(m, pc) && Putting(pc) && Safe(m, pc) && !Waits(pc) && !BufStore(pc) && !RearStore(pc)
    requires PutOn(p, a, pa, m, pc) && !pc.PutNRear?
    ensures var (m2, pc2, _) := StepPut(m, pc); Shape(R(m2)) && PutsOn(p, a, pa, pc, m2, pc2)
  {
    hide Abs, IsPow2, Pos, CopySlot, BatchEnd, Used, Written;
    SameAbs(m, StepPut(m, pc).0);
    assert a + [] == a;
  }

  lemma PutOnWrites<T>(p: PutOp<T>, a: seq<T>, pa: bool, m: Mem<T>, pc: Pc<T>)
    requires Shape(R(m)) && ThreadOk(m, pc) && Alone(m, pc) && Putting(pc) && Safe(m, pc) && BufStore(pc)
    requires PutOn(p, a, pa, m, pc)
    ensures var (m2, pc2, _) := StepPut(m, pc); Shape(R(m2)) && PutsOn(p, a, pa, pc, m2, pc2)
  {
    hide Abs, Shape, Alone, ThreadOk, Written, CopySlot, BatchEnd, Pos;
    BufStoreHides(m, pc);
  }

  lemma PutOnStores<T>(p: PutOp<T>, a: seq<T>, pa: bool, m: Mem<T>, pc: Pc<T>)
    requires Shape(R(m)) && ThreadOk(m, pc) && Alone(m, pc) && Putting(pc) && Safe(m, pc) && RearStore(pc)
    requires PutOn(p, a, pa, m, pc)
    ensures var (m2, pc2, _) := StepPut(m, pc); Shape(R(m2)) && PutsOn(p, a, pa, pc, m2, pc2)
  {
    hide Abs, Shape, Alone, ThreadOk, Written, CopySlot, BatchEnd, Pos;
    RearStorePuts(m, pc);
  }

  lemma PutOnTick<T>(q: Queue<T>, i: nat, p: PutOp<T>, a: seq<T>, pa: bool)
    requires Inv(q) && i < |q.threads| && Putting(q.threads[i]) && PutOn(p, a, pa, q.m, q.threads[i])
    ensures var q2 := After(q, Tick(i)); i < |q2.threads| && PutsOn(p, a, pa, q.threads[i], q2.m, q2.threads[i])
    ensures var q2 := After(q, Tick(i)); q2.threads[i].Idle? || Putting(q2.threads[i])
  {
    TickIs(q, i);
    hide Inv, Shape, ThreadOk, Alone, Safe, StepPut, PutOn, PutsOn, Waits, BufStore, RearStore;
    var m, pc := q.m, q.threads[i];
    NotGetting(pc);
    PutOtherKeys(m, pc);
    if BufStore(pc) {
      PutOnWrites(p, a, pa, m, pc);
    } else if RearStore(pc) {
      PutOnStores(p, a, pa, m, pc);
    } else if Waits(pc) {
      PutOnWaits(p, a, pa, m, pc);
    } else if pc.PutNRear? {
      PutOnRoom(p, a, pa, m, pc);
    } else {
      PutOnMoves(p, a, pa, m, pc);
    }
  }

  lemma NotGetting<T>(pc: Pc<T>)
    requires Putting(pc)
    ensures !Getting(pc)
  {
  }

  lemma {:induction false} PutOnReturns<T>(q: Queue<T>, i: nat, p: PutOp<T>, a: seq<T>, pa: bool) returns (n: nat)
    requires Inv(q) && i < |q.threads| && Putting(q.threads[i]) && PutOn(p, a, pa, q.m, q.threads[i])
    ensures n > 0 && Possible(q, OnlyTicks(i, n)) && During(q, OnlyTicks(i, n), i)
    ensures var q2, ws := End(q, OnlyTicks(i, n)), Puts(p, a, |q.m.buf| - 1, pa);
      && i < |q2.threads| && q2.threads[i].Idle? && Abs(q2.m) == a + ws
      && AnswerOf(LastPc(q, OnlyTicks(i, n), i)) == Count(|ws|)
    decreases PutLeft(p, q.threads[i])
  {
    hide Inv, PutOn, Putting, Step, Enabled, Puts, Possible, During, End, LastPc, Abs, Shape;
    CanTick(q, i);
    var q2 := After(q, Tick(i));
    PutOnTick(q, i, p, a, pa);
    if q2.threads[i].Idle? {
      n := 1;
      NoTicks(q2, i);
    } else {
      n := PutOnReturns(q2, i, p, a, pa);
      n := n + 1;
    }
    TickOn(q, i, n);
  }

  /** Left alone with the putters' key free, putq returns, unless the queue is full and QUEUE_NONBLOCK clear: it puts
      its elements if there is room for all of them, with QUEUE_PARTIAL as many as there is room for, otherwise none,
      and says how many. */
  lemma PutAlone<T>(q: Queue<T>, i: nat, p: PutOp<T>) returns (n: nat)
    requires Inv(q) && i < |q.threads| && q.threads[i] == PutKey(p) && q.m.kput == 0
    requires |Abs(q.m)| < |q.m.buf| - 1 || q.m.nonblock
    ensures n > 0 && Possible(q, OnlyTicks(i, n)) && During(q, OnlyTicks(i, n), i)
    ensures var q2, ws := End(q, OnlyTicks(i, n)), Puts(p, Abs(q.m), |q.m.buf| - 1, q.m.partial);
      && i < |q2.threads| && q2.threads[i].Idle? && Abs(q2.m) == Abs(q.m) + ws
      && AnswerOf(LastPc(q, OnlyTicks(i, n), i)) == Count(|ws|)
  {
    NotClearing(q);
    AbsBounds(q.m);
    assert PutOn(p, Abs(q.m), q.m.partial, q.m, q.threads[i]);
    n := PutOnReturns(q, i, p, Abs(q.m), q.m.partial);
  }
}
