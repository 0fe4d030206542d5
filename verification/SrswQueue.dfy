/** SRSW_Queue: one pushing and one popping thread on a ring of any capacity, every shared access one step. */
module SrswQueue {
  import opened Bits
  import opened Ring

  datatype Tx<T> = TxIdle | TxNext(t: T) | TxTest(t: T, wr2: int) | TxData(t: T, wr2: int) | TxStore(t: T, wr2: int)

  datatype Rx<T> = RxIdle | RxTest | RxData | RxStore(t: T)

  /** head is rd_pos and rear is wr_pos. */
  datatype State<T> = State(r: Ring<T>, tx: Tx<T>, rx: Rx<T>)

  datatype Label<T> = Silent | Pushed(t: T) | Full | Popped(t: T) | Empty

  datatype Action<T> = Push(t: T) | TickTx | Pop | TickRx

  predicate Enabled<T>(s: State<T>, a: Action<T>) {
    match a
    case Push(_) => s.tx.TxIdle?
    case TickTx => !s.tx.TxIdle?
    case Pop => s.rx.RxIdle?
    case TickRx => !s.rx.RxIdle?
  }

  function Step<T>(s: State<T>, a: Action<T>): (State<T>, Label<T>)
    requires Enabled(s, a) && Bounds(s.r)
  {
    var r, size := s.r, |s.r.buf|;
    match a
    case Push(t) => (s.(tx := TxNext(t)), Silent)
    case Pop => (s.(rx := RxTest), Silent)
    case TickTx => (
      match s.tx
      case TxNext(t) => (s.(tx := TxTest(t, (r.rear + 1) % size)), Silent)
      case TxTest(t, wr2) => if wr2 == r.head then (s.(tx := TxIdle), Full) else (s.(tx := TxData(t, wr2)), Silent)
      case TxData(t, wr2) => (s.(tx := TxStore(t, wr2), r := r.(buf := r.buf[r.rear := t])), Silent)
      case TxStore(t, wr2) => (s.(tx := TxIdle, r := r.(rear := wr2)), Pushed(t)))
    case TickRx => (
      match s.rx
      case RxTest => if r.head == r.rear then (s.(rx := RxIdle), Empty) else (s.(rx := RxData), Silent)
      case RxData => (s.(rx := RxStore(r.buf[r.head])), Silent)
      case RxStore(t) => (s.(rx := RxIdle, r := r.(head := (r.head + 1) % size)), Popped(t)))
  }

  datatype Outcome<T> = Refused | Now(contents: seq<T>)

  /** An atomic FIFO of at most cap elements does what label l says, or refuses if it cannot. */
  ghost function Fifo<T>(a: seq<T>, l: Label<T>, cap: int): Outcome<T> {
    match l
    case Silent => Now(a)
    case Pushed(t) => if |a| < cap then Now(a + [t]) else Refused
    case Full => if |a| == cap then Now(a) else Refused
    case Popped(t) => if a != [] && a[0] == t then Now(a[1..]) else Refused
    case Empty => if a == [] then Now(a) else Refused
  }

  ghost predicate TxOk<T>(r: Ring<T>, tx: Tx<T>)
    requires Bounds(r)
  {
    match tx
    case TxTest(_, wr2) => wr2 == Fold(r.rear + 1, |r.buf|)
    case TxData(_, wr2) => wr2 == Fold(r.rear + 1, |r.buf|) && Used(r) + 1 < |r.buf|
    case TxStore(t, wr2) => wr2 == Fold(r.rear + 1, |r.buf|) && Used(r) + 1 < |r.buf| && r.buf[r.rear] == t
    case _ => true
  }

  ghost predicate RxOk<T>(r: Ring<T>, rx: Rx<T>)
    requires Bounds(r)
  {
    match rx
    case RxData => Contents(r) != []
    case RxStore(t) => Contents(r) != [] && Contents(r)[0] == t
    case _ => true
  }

  ghost predicate Inv<T>(s: State<T>) {
    Bounds(s.r) && TxOk(s.r, s.tx) && RxOk(s.r, s.rx)
  }

  lemma ModFolds(x: int, n: nat)
    requires 0 <= x <= n && n > 0
    ensures x % n == Fold(x, n)
  {
    if x == n { ModUnique(x, n, 1, 0); } else { ModUnique(x, n, 0, x); }
  }

  /** Every step of either thread keeps the invariant and does to the FIFO what its label says. */
  lemma StepRefines<T>(s: State<T>, a: Action<T>)
    requires Inv(s) && Enabled(s, a)
    ensures var (s2, l) := Step(s, a);
      Inv(s2) && |s2.r.buf| == |s.r.buf| && Fifo(Contents(s.r), l, |s.r.buf| - 1) == Now(Contents(s2.r))
  {
    hide Contents, Used;
    var r := s.r;
    UsedBounds(r);
    match a
    case Push(_) =>
    case Pop =>
    case TickTx =>
      ModFolds(r.rear + 1, |r.buf|);
      match s.tx {
        case TxData(t, _) => WriteFree(r, 0, t); SameUsed(r, r.(buf := r.buf[r.rear := t]));
        case TxStore(t, wr2) => assert StandsAt(r, 0, t); AdvanceRear(r, [t], wr2);
        case _ =>
      }
    case TickRx =>
      ModFolds(r.head + 1, |r.buf|);
      if s.rx.RxStore? {
        AdvanceHead(r, 1, Fold(r.head + 1, |r.buf|));
        UsedBounds(r.(head := Fold(r.head + 1, |r.buf|)));
      }
  }

  lemma SameUsed<T>(r: Ring<T>, r2: Ring<T>)
    requires r2.head == r.head && r2.rear == r.rear && |r2.buf| == |r.buf|
    ensures Used(r2) == Used(r)
  {
  }

  ghost predicate Possible<T>(s: State<T>, run: seq<Action<T>>)
    requires Inv(s)
    decreases |run|
  {
    run == [] || (Enabled(s, run[0]) && Possible(After(s, run[0]), run[1..]))
  }

  ghost function After<T>(s: State<T>, a: Action<T>): (s2: State<T>)
    requires Inv(s) && Enabled(s, a)
    ensures Inv(s2) && |s2.r.buf| == |s.r.buf|
  {
    StepRefines(s, a);
    Step(s, a).0
  }

  ghost function End<T>(s: State<T>, run: seq<Action<T>>): (s2: State<T>)
    requires Inv(s) && Possible(s, run)
    ensures Inv(s2) && |s2.r.buf| == |s.r.buf|
    decreases |run|
  {
    if run == [] then s else End(After(s, run[0]), run[1..])
  }

  ghost function Trace<T>(s: State<T>, run: seq<Action<T>>): seq<Label<T>>
    requires Inv(s) && Possible(s, run)
    decreases |run|
  {
    if run == [] then [] else [Step(s, run[0]).1] + Trace(After(s, run[0]), run[1..])
  }

  ghost function Replay<T>(a: seq<T>, ls: seq<Label<T>>, cap: int): Outcome<T>
    decreases |ls|
  {
    if ls == [] then Now(a)
    else match Fifo(a, ls[0], cap) case Refused => Refused case Now(b) => Replay(b, ls[1..], cap)
  }

  /** Every interleaving is a run of an atomic FIFO that holds one element less than the ring has slots. */
  lemma {:induction false} RunsRefineFifo<T>(s: State<T>, run: seq<Action<T>>)
    requires Inv(s) && Possible(s, run)
    ensures Replay(Contents(s.r), Trace(s, run), |s.r.buf| - 1) == Now(Contents(End(s, run).r))
    decreases |run|
  {
    hide TxOk, RxOk, Contents, Fifo, Enabled, Step;
    if run != [] {
      StepRefines(s, run[0]);
      var s2 := After(s, run[0]);
      RunsRefineFifo(s2, run[1..]);
      assert Trace(s, run)[1..] == Trace(s2, run[1..]);
    }
  }

  /** reset: a ring of n slots starts empty. */
  lemma ResetInv<T>(buf: seq<T>)
    requires buf != []
    ensures Inv(State(Ring(buf, 0, 0), TxIdle, RxIdle)) && Contents(Ring(buf, 0, 0)) == []
  {
  }

  // ---------- Calls ----------

  /** The pushing thread stays inside its call until the last action. */
  ghost predicate DuringPush<T>(s: State<T>, run: seq<Action<T>>)
    requires Inv(s) && Possible(s, run)
    decreases |run|
  {
    run == [] || (!s.tx.TxIdle? && DuringPush(After(s, run[0]), run[1..]))
  }

  ghost predicate DuringPop<T>(s: State<T>, run: seq<Action<T>>)
    requires Inv(s) && Possible(s, run)
    decreases |run|
  {
    run == [] || (!s.rx.RxIdle? && DuringPop(After(s, run[0]), run[1..]))
  }

  function Shown<T>(l: Label<T>): seq<Label<T>> {
    if l.Silent? then [] else [l]
  }

  /** What the pushing thread's accesses do to the FIFO or find out about it. */
  ghost function PushLabels<T>(s: State<T>, run: seq<Action<T>>): seq<Label<T>>
    requires Inv(s) && Possible(s, run)
    decreases |run|
  {
    if run == [] then []
    else (if run[0].TickTx? then Shown(Step(s, run[0]).1) else []) + PushLabels(After(s, run[0]), run[1..])
  }

  ghost function PopLabels<T>(s: State<T>, run: seq<Action<T>>): seq<Label<T>>
    requires Inv(s) && Possible(s, run)
    decreases |run|
  {
    if run == [] then []
    else (if run[0].TickRx? then Shown(Step(s, run[0]).1) else []) + PopLabels(After(s, run[0]), run[1..])
  }

  lemma {:induction false} PushRuns<T>(s: State<T>, t: T, run: seq<Action<T>>)
    requires Inv(s) && Possible(s, run) && DuringPush(s, run) && !s.tx.TxIdle? && s.tx.t == t && run != []
    ensures End(s, run).tx.TxIdle? ==> PushLabels(s, run) == [Pushed(t)] || PushLabels(s, run) == [Full]
    ensures !End(s, run).tx.TxIdle? ==> PushLabels(s, run) == []
    decreases |run|
  {
    StepRefines(s, run[0]);
    hide TxOk, RxOk, Contents, Fifo;
    var s2, rest := After(s, run[0]), run[1..];
    var l := if run[0].TickTx? then Shown(Step(s, run[0]).1) else [];
    assert PushLabels(s, run) == l + PushLabels(s2, rest) && End(s, run) == End(s2, rest);
    if rest == [] {
      assert PushLabels(s2, rest) == [] && End(s2, rest) == s2;
    } else {
      PushRuns(s2, t, rest);
    }
  }

  lemma {:induction false} PopRuns<T>(s: State<T>, run: seq<Action<T>>)
    requires Inv(s) && Possible(s, run) && DuringPop(s, run) && !s.rx.RxIdle? && run != []
    ensures End(s, run).rx.RxIdle? ==> |PopLabels(s, run)| == 1 && (PopLabels(s, run)[0].Popped? || PopLabels(s, run)[0].Empty?)
    ensures !End(s, run).rx.RxIdle? ==> PopLabels(s, run) == []
    decreases |run|
  {
    StepRefines(s, run[0]);
    hide TxOk, RxOk, Contents, Fifo;
    var s2, rest := After(s, run[0]), run[1..];
    var l := if run[0].TickRx? then Shown(Step(s, run[0]).1) else [];
    assert PopLabels(s, run) == l + PopLabels(s2, rest) && End(s, run) == End(s2, rest);
    if rest == [] {
      assert PopLabels(s2, rest) == [] && End(s2, rest) == s2;
    } else {
      PopRuns(s2, rest);
    }
  }

  /** Whatever the other thread does meanwhile: a push that has returned has put its own element, once, or has found the
      queue full and done nothing; a pop has taken one element, or found the queue empty. */
  lemma CallsAnswer<T>(s: State<T>, a: Action<T>, run: seq<Action<T>>)
    requires Inv(s) && Enabled(s, a) && Possible(After(s, a), run) && run != []
    ensures a.Push? && DuringPush(After(s, a), run) && End(After(s, a), run).tx.TxIdle? ==>
      PushLabels(After(s, a), run) == [Pushed(a.t)] || PushLabels(After(s, a), run) == [Full]
    ensures a.Pop? && DuringPop(After(s, a), run) && End(After(s, a), run).rx.RxIdle? ==>
      |PopLabels(After(s, a), run)| == 1 && (PopLabels(After(s, a), run)[0].Popped? || PopLabels(After(s, a), run)[0].Empty?)
  {
    var s1 := After(s, a);
    hide TxOk, RxOk, Contents, Fifo;
    if a.Push? && DuringPush(s1, run) { PushRuns(s1, a.t, run); }
    if a.Pop? && DuringPop(s1, run) { PopRuns(s1, run); }
  }
}
