/**
  One sender and one receiver on the same byte ring, every access to shared memory one step. Either
  side may use send/recv/peek or the overlapped descriptors of MyOverLappedRb.
 */
module RingThreads {
  import opened Bits
  import opened Ring
  import opened ByteRing

  /** The most bytes init_recv asks for at once. */
  const RECV_MAX: nat := 4096

  /** The sending side. */
  datatype Tx =
    | TxIdle
    // send
    | TxRd(vs: seq<byte>) | TxWr(vs: seq<byte>, rd: int) | TxCopy(wr: int, vs: seq<byte>, i: nat)
    // init_recv, and the descriptors until done_recv
    | InRd | InWr(rd: int) | InSegs(wr: int, sz: int)

  /** The receiving side. keep is set for peek. */
  datatype Rx =
    | RxIdle
    // recv and peek
    | RxRd(n: nat, keep: bool) | RxWr(n: nat, keep: bool, rd: int) | RxCopy(keep: bool, rd: int, kp: int, out: seq<byte>)
    // init_send, and the descriptors until done_send
    | OutRd | OutWr(rd: int) | OutSegs(rd: int, sz: int)

  datatype State = State(r: Ring<byte>, tx: Tx, rx: Rx)

  datatype Label =
    | Silent
    | Sent(vs: seq<byte>) | NoRoom(n: nat)
    | Got(vs: seq<byte>) | Peeked(vs: seq<byte>) | SawEmpty

  datatype Action =
    | Send(vs: seq<byte>) | InitRecv | TickTx
    /** The network puts byte v into the j-th slot of the receive segments, or reports n bytes received. */
    | Fill(j: nat, v: byte) | DoneRecv(n: nat)
    | Recv(n: nat, keep: bool) | InitSend | TickRx
    /** The network reports n bytes of the send segments sent. */
    | DoneSend(n: nat)

  predicate SafeTx(s: State) {
    && s.r.buf != []
    && match s.tx
       case TxCopy(wr, vs, i) => i < |vs| ==> Slot(s.r, CopySlot(s.r, wr, i, |vs|))
       case InSegs(wr, sz) => 0 <= wr && 0 <= sz < |s.r.buf| && forall j: nat :: j < sz ==> Slot(s.r, CopySlot(s.r, wr, j, sz))
       case _ => true
  }

  predicate SafeRx(s: State) {
    && s.r.buf != []
    && match s.rx
       case RxCopy(_, rd, kp, out) => |out| < kp ==> Slot(s.r, CopySlot(s.r, rd, |out|, kp))
       case OutSegs(rd, sz) => Slot(s.r, rd) && 0 <= sz < |s.r.buf|
       case _ => true
  }

  predicate Enabled(s: State, a: Action) {
    match a
    case Send(_) => s.tx.TxIdle?
    case InitRecv => s.tx.TxIdle?
    case TickTx => !s.tx.TxIdle? && !s.tx.InSegs?
    case Fill(j, _) => s.tx.InSegs? && j < s.tx.sz
    case DoneRecv(n) => s.tx.InSegs? && n <= s.tx.sz
    case Recv(_, _) => s.rx.RxIdle?
    case InitSend => s.rx.RxIdle?
    case TickRx => !s.rx.RxIdle? && !s.rx.OutSegs?
    case DoneSend(n) => s.rx.OutSegs? && n <= s.rx.sz
  }

  function StepTx(s: State): (State, Label)
    requires !s.tx.TxIdle? && !s.tx.InSegs? && SafeTx(s)
  {
    var r := s.r;
    match s.tx
    case TxRd(vs) => (s.(tx := TxWr(vs, r.head)), if Pos(r, r.head - r.rear - 1) < |vs| then NoRoom(|vs|) else Silent)
    case TxWr(vs, rd) =>
      if Pos(r, rd - r.rear - 1) >= |vs| then (s.(tx := TxCopy(r.rear, vs, 0)), Silent) else (s.(tx := TxIdle), Silent)
    case TxCopy(wr, vs, i) =>
      if i < |vs| then (s.(tx := TxCopy(wr, vs, i + 1), r := r.(buf := r.buf[CopySlot(r, wr, i, |vs|) := vs[i]])), Silent)
      else (s.(tx := TxIdle, r := r.(rear := BatchEnd(r, wr, |vs|))), Sent(vs))
    case InRd => (s.(tx := InWr(r.head)), Silent)
    case InWr(rd) =>
      var sz := Pos(r, rd - r.rear - 1);
      (s.(tx := if sz == 0 then TxIdle else InSegs(r.rear, if sz > RECV_MAX then RECV_MAX else sz)), Silent)
  }

  function StepRx(s: State): (State, Label)
    requires !s.rx.RxIdle? && !s.rx.OutSegs? && SafeRx(s)
  {
    var r := s.r;
    match s.rx
    case RxRd(n, keep) => (s.(rx := RxWr(n, keep, r.head)), Silent)
    case RxWr(n, keep, rd) =>
      var kp := Pos(r, r.rear - rd);
      if kp == 0 then (s.(rx := RxIdle), SawEmpty) else (s.(rx := RxCopy(keep, rd, if kp > n then n else kp, [])), Silent)
    case RxCopy(keep, rd, kp, out) =>
      if |out| < kp then (s.(rx := RxCopy(keep, rd, kp, out + [r.buf[CopySlot(r, rd, |out|, kp)]])), Silent)
      else if keep then (s.(rx := RxIdle), Peeked(out))
      else (s.(rx := RxIdle, r := r.(head := BatchEnd(r, rd, kp))), Got(out))
    case OutRd => (s.(rx := OutWr(r.head)), Silent)
    case OutWr(rd) =>
      var sz := Pos(r, r.rear - rd);
      if sz == 0 then (s.(rx := RxIdle), SawEmpty) else (s.(rx := OutSegs(rd, sz)), Silent)
  }

  /** The bytes the network finds in the first n bytes of segments at position p. */
  function Taken(r: Ring<byte>, p: int, sz: int, n: nat): seq<byte>
    requires Slot(r, p) && n <= sz < |r.buf|
  {
    var d := SegsFor(r, p, sz);
    Denoted(r.buf, d)[..n]
  }

  function Step(s: State, a: Action): (State, Label)
    requires Enabled(s, a) && SafeTx(s) && SafeRx(s)
    requires a.DoneRecv? ==> Slot(s.r, s.tx.wr)
  {
    var r := s.r;
    match a
    case Send(vs) => (s.(tx := TxRd(vs)), Silent)
    case InitRecv => (s.(tx := InRd), Silent)
    case TickTx => StepTx(s)
    case Fill(j, v) => (s.(r := r.(buf := r.buf[CopySlot(r, s.tx.wr, j, s.tx.sz) := v])), Silent)
    case DoneRecv(n) =>
      (s.(tx := TxIdle, r := r.(rear := Pos(r, r.rear + n))), Sent(Taken(r, s.tx.wr, s.tx.sz, n)))
    case Recv(n, keep) => (s.(rx := RxRd(n, keep)), Silent)
    case InitSend => (s.(rx := OutRd), Silent)
    case TickRx => StepRx(s)
    case DoneSend(n) =>
      (s.(rx := RxIdle, r := r.(head := Pos(r, r.head + n))), Got(Taken(r, s.rx.rd, s.rx.sz, n)))
  }

  // ---------- The ring as a FIFO ----------

  datatype Outcome = Refused | Now(contents: seq<byte>)

  /** A bounded FIFO holding a, of at most cap bytes, does what label l says, or refuses if it cannot. */
  ghost function Fifo(a: seq<byte>, l: Label, cap: int): Outcome {
    match l
    case Silent => Now(a)
    case Sent(vs) => if |a + vs| <= cap then Now(a + vs) else Refused
    case NoRoom(n) => if |a| + n > cap then Now(a) else Refused
    case Got(vs) => if vs <= a then Now(a[|vs|..]) else Refused
    case Peeked(vs) => if vs <= a then Now(a) else Refused
    case SawEmpty => if a == [] then Now(a) else Refused
  }

  // ---------- Invariant ----------

  ghost predicate TxOk(r: Ring<byte>, tx: Tx)
    requires Shape(r)
  {
    var n := |r.buf|;
    match tx
    case TxWr(_, rd) => Slot(r, rd) && Fold(rd - r.rear - 1, n) + Used(r) <= n - 1
    case TxCopy(wr, vs, i) => wr == r.rear && i <= |vs| && |vs| + Used(r) <= n - 1 && Written(r, vs, i)
    case InWr(rd) => Slot(r, rd) && Fold(rd - r.rear - 1, n) + Used(r) <= n - 1
    case InSegs(wr, sz) => wr == r.rear && 0 < sz && sz + Used(r) <= n - 1
    case _ => true
  }

  ghost predicate RxOk(r: Ring<byte>, rx: Rx)
    requires Shape(r)
  {
    match rx
    case RxWr(_, _, rd) => rd == r.head
    case RxCopy(_, rd, kp, out) => rd == r.head && |out| <= kp <= |Contents(r)| && out == Contents(r)[..|out|]
    case OutWr(rd) => rd == r.head
    case OutSegs(rd, sz) => rd == r.head && 0 < sz <= |Contents(r)|
    case _ => true
  }

  ghost predicate Inv(s: State) {
    Shape(s.r) && TxOk(s.r, s.tx) && RxOk(s.r, s.rx)
  }

  /** A ring as rewind leaves it, with nobody using it yet. */
  function Fresh(buf: seq<byte>): State {
    State(Ring(buf, 0, 0), TxIdle, RxIdle)
  }

  lemma Safe(s: State)
    requires Inv(s)
    ensures SafeTx(s) && SafeRx(s) && (s.tx.InSegs? ==> Slot(s.r, s.tx.wr))
  {
    hide Contents;
    UsedBounds(s.r);
    match s.tx {
      case TxCopy(wr, vs, i) => BatchSlots(s.r, wr, |vs|);
      case InSegs(wr, sz) => BatchSlots(s.r, wr, sz);
      case _ =>
    }
    match s.rx {
      case RxCopy(_, rd, kp, out) => BatchSlots(s.r, rd, kp);
      case _ =>
    }
    hide IsPow2, CopySlot;
  }

  /** The sender's knowledge survives what the receiver does. */
  lemma TxKept(r: Ring<byte>, r2: Ring<byte>, tx: Tx)
    requires Shape(r) && Shape(r2) && TxOk(r, tx) && r2.buf == r.buf && r2.rear == r.rear && Used(r2) <= Used(r)
    ensures TxOk(r2, tx)
  {
    hide IsPow2, Used;
    if tx.TxCopy? { StillWritten(r, r2, tx.vs, tx.i); }
  }

  /** The receiver's knowledge survives what the sender does. */
  lemma RxKept(r: Ring<byte>, r2: Ring<byte>, rx: Rx)
    requires Shape(r) && Shape(r2) && RxOk(r, rx) && r2.head == r.head && |r2.buf| == |r.buf| && Contents(r) <= Contents(r2)
    ensures RxOk(r2, rx)
  {
    hide IsPow2, Contents;
    if rx.RxCopy? { assert Contents(r2)[..|rx.out|] == Contents(r)[..|rx.out|]; }
  }

  // ---------- The sending side ----------

  ghost predicate TxGood(s: State, s2: State, l: Label)
    requires Shape(s.r)
  {
    && Shape(s2.r) && |s2.r.buf| == |s.r.buf| && s2.r.head == s.r.head && s2.rx == s.rx
    && Contents(s.r) <= Contents(s2.r) && TxOk(s2.r, s2.tx)
    && Fifo(Contents(s.r), l, |s.r.buf| - 1) == Now(Contents(s2.r))
  }

  lemma TxGoodKeeps(s: State, s2: State, l: Label)
    requires Inv(s) && TxGood(s, s2, l)
    ensures Inv(s2)
  {
    hide Fifo, Contents, TxOk;
    RxKept(s.r, s2.r, s.rx);
  }

  predicate TxStores(tx: Tx) {
    tx.TxCopy?
  }

  lemma TxLearns(s: State)
    requires Inv(s) && SafeTx(s) && !s.tx.TxIdle? && !s.tx.InSegs? && !TxStores(s.tx)
    ensures TxGood(s, StepTx(s).0, StepTx(s).1)
  {
    hide Contents, IsPow2, And, Pos, Used, BatchEnd, CopySlot;
    Folds(s.r);
    UsedBounds(s.r);
  }

  lemma TxWrites(s: State)
    requires Inv(s) && SafeTx(s) && s.tx.TxCopy? && s.tx.i < |s.tx.vs|
    ensures TxGood(s, StepTx(s).0, StepTx(s).1)
  {
    hide Contents, IsPow2, CopySlot, BatchEnd, Written, Used;
    var r, vs, i := s.r, s.tx.vs, s.tx.i;
    UsedBounds(r);
    BatchSlots(r, s.tx.wr, |vs|);
    WriteFree(r, i, vs[i]);
    OneMoreWritten(r, vs, i);
    SameUsed(r, StepTx(s).0.r);
  }

  lemma SameUsed(r: Ring<byte>, r2: Ring<byte>)
    requires r2.head == r.head && r2.rear == r.rear && |r2.buf| == |r.buf|
    ensures Used(r2) == Used(r)
  {
  }

  lemma TxCommits(s: State)
    requires Inv(s) && SafeTx(s) && s.tx.TxCopy? && s.tx.i >= |s.tx.vs|
    ensures TxGood(s, StepTx(s).0, StepTx(s).1)
  {
    hide Contents, IsPow2, CopySlot, BatchEnd, Used;
    var r, vs := s.r, s.tx.vs;
    UsedBounds(r);
    BatchSlots(r, s.tx.wr, |vs|);
    AdvanceRear(r, vs, BatchEnd(r, s.tx.wr, |vs|));
    UsedBounds(StepTx(s).0.r);
  }

  lemma FillHides(s: State, j: nat, v: byte)
    requires Inv(s) && SafeTx(s) && SafeRx(s) && s.tx.InSegs? && j < s.tx.sz
    ensures TxGood(s, Step(s, Fill(j, v)).0, Silent)
  {
    hide Contents, IsPow2, CopySlot, Used;
    UsedBounds(s.r);
    BatchSlots(s.r, s.tx.wr, s.tx.sz);
    WriteFree(s.r, j, v);
    SameUsed(s.r, Step(s, Fill(j, v)).0.r);
  }

  lemma DoneRecvAppends(s: State, n: nat)
    requires Inv(s) && SafeTx(s) && SafeRx(s) && s.tx.InSegs? && Slot(s.r, s.tx.wr) && n <= s.tx.sz
    ensures TxGood(s, Step(s, DoneRecv(n)).0, Step(s, DoneRecv(n)).1)
  {
    hide Contents, IsPow2, Used, And;
    var r, vs := s.r, Taken(s.r, s.tx.wr, s.tx.sz, n);
    UsedBounds(r);
    MaskFolds(r.rear + n, |r.buf|);
    FilledIsWritten(r, s.tx.sz, n);
    AdvanceRear(r, vs, Fold(r.rear + n, |r.buf|));
    UsedBounds(Step(s, DoneRecv(n)).0.r);
  }

  /** What stands in the first n bytes of the receive segments is what stands behind rear. */
  lemma FilledIsWritten(r: Ring<byte>, sz: nat, n: nat)
    requires Shape(r) && n <= sz < |r.buf|
    ensures |Taken(r, r.rear, sz, n)| == n && Written(r, Taken(r, r.rear, sz, n), n)
  {
    SegsAreSlots(r, r.rear, sz);
    hide IsPow2, SegsFor, Denoted;
    var vs := Taken(r, r.rear, sz, n);
    assert |Denoted(r.buf, SegsFor(r, r.rear, sz))| == sz by { DenotedSize(r.buf, SegsFor(r, r.rear, sz)); }
    forall j: nat | j < n ensures StandsAt(r, j, vs[j]) { assert DenotesSlot(r, r.rear, SegsFor(r, r.rear, sz), j); }
  }

  lemma DenotedSize(buf: seq<byte>, d: Segs)
    requires d.buf0 + d.len0 <= |buf| && d.len1 <= |buf|
    ensures |Denoted(buf, d)| == d.len0 + d.len1
  {
  }

  // ---------- The receiving side ----------

  ghost predicate RxGood(s: State, s2: State, l: Label)
    requires Shape(s.r)
  {
    && Shape(s2.r) && s2.r.buf == s.r.buf && s2.r.rear == s.r.rear && s2.tx == s.tx
    && Used(s2.r) <= Used(s.r) && RxOk(s2.r, s2.rx)
    && Fifo(Contents(s.r), l, |s.r.buf| - 1) == Now(Contents(s2.r))
  }

  lemma RxGoodKeeps(s: State, s2: State, l: Label)
    requires Inv(s) && RxGood(s, s2, l)
    ensures Inv(s2)
  {
    hide Fifo, Contents, RxOk, Used;
    TxKept(s.r, s2.r, s.tx);
  }

  lemma RxLearns(s: State)
    requires Inv(s) && SafeRx(s) && !s.rx.RxIdle? && !s.rx.OutSegs? && !s.rx.RxCopy?
    ensures RxGood(s, StepRx(s).0, StepRx(s).1)
  {
    hide Contents, IsPow2, And, Pos, Used, BatchEnd, CopySlot;
    Folds(s.r);
    UsedBounds(s.r);
  }

  lemma RxCopies(s: State)
    requires Inv(s) && SafeRx(s) && s.rx.RxCopy? && |s.rx.out| < s.rx.kp
    ensures RxGood(s, StepRx(s).0, StepRx(s).1)
  {
    hide Contents, IsPow2, Used;
    var r, i := s.r, |s.rx.out|;
    ContentsAt(r);
    BatchSlots(r, s.rx.rd, s.rx.kp);
    hide CopySlot, BatchEnd;
    assert CopySlot(r, s.rx.rd, i, s.rx.kp) == At(r, i);
    hide At;
    assert Contents(r)[..i + 1] == Contents(r)[..i] + [Contents(r)[i]];
  }

  lemma RxFinishes(s: State)
    requires Inv(s) && SafeRx(s) && s.rx.RxCopy? && |s.rx.out| >= s.rx.kp
    ensures RxGood(s, StepRx(s).0, StepRx(s).1)
  {
    hide Contents, IsPow2, CopySlot, BatchEnd, Used;
    var r := s.r;
    UsedBounds(r);
    BatchSlots(r, s.rx.rd, s.rx.kp);
    AdvanceHead(r, s.rx.kp, BatchEnd(r, s.rx.rd, s.rx.kp));
    UsedBounds(StepRx(s).0.r);
  }

  lemma DoneSendRemoves(s: State, n: nat)
    requires Inv(s) && SafeTx(s) && SafeRx(s) && s.rx.OutSegs? && n <= s.rx.sz
    ensures RxGood(s, Step(s, DoneSend(n)).0, Step(s, DoneSend(n)).1)
  {
    hide Contents, IsPow2, Used, And;
    var r := s.r;
    UsedBounds(r);
    MaskFolds(r.head + n, |r.buf|);
    SegsAreContents(r, s.rx.sz);
    AdvanceHead(r, n, Fold(r.head + n, |r.buf|));
    UsedBounds(Step(s, DoneSend(n)).0.r);
  }

  // ---------- The system ----------

  /** Every step of either side keeps the invariant and does to the FIFO what its label says. */
  lemma StepRefines(s: State, a: Action)
    requires Inv(s) && Enabled(s, a)
    ensures SafeTx(s) && SafeRx(s) && (s.tx.InSegs? ==> Slot(s.r, s.tx.wr))
    ensures var (s2, l) := Step(s, a);
      Inv(s2) && |s2.r.buf| == |s.r.buf| && Fifo(Contents(s.r), l, |s.r.buf| - 1) == Now(Contents(s2.r))
  {
    hide Contents, SafeTx, SafeRx, Fifo, TxOk, RxOk, StepTx, StepRx, Shape;
    Safe(s);
    match a
    case Send(_) => CallStarts(s, s.(tx := Step(s, a).0.tx));
    case InitRecv => CallStarts(s, s.(tx := Step(s, a).0.tx));
    case TickTx => TxTick(s);
    case Fill(j, v) => FillHides(s, j, v); TxGoodKeeps(s, Step(s, a).0, Silent);
    case DoneRecv(n) => DoneRecvAppends(s, n); TxGoodKeeps(s, Step(s, a).0, Step(s, a).1);
    case Recv(_, _) => CallStarts(s, s.(rx := Step(s, a).0.rx));
    case InitSend => CallStarts(s, s.(rx := Step(s, a).0.rx));
    case TickRx => RxTick(s);
    case DoneSend(n) => DoneSendRemoves(s, n); RxGoodKeeps(s, Step(s, a).0, Step(s, a).1);
  }

  lemma CallStarts(s: State, s2: State)
    requires Inv(s) && s2.r == s.r && (s2.tx == s.tx || s2.tx.TxRd? || s2.tx.InRd?) && (s2.rx == s.rx || s2.rx.RxRd? || s2.rx.OutRd?)
    ensures Inv(s2) && Fifo(Contents(s.r), Silent, |s.r.buf| - 1) == Now(Contents(s2.r))
  {
    hide Contents, Shape;
  }

  lemma TxTick(s: State)
    requires Inv(s) && SafeTx(s) && !s.tx.TxIdle? && !s.tx.InSegs?
    ensures TxGood(s, StepTx(s).0, StepTx(s).1) && Inv(StepTx(s).0)
  {
    hide Contents, SafeTx, Fifo, TxOk, StepTx, Shape, TxGood;
    if !s.tx.TxCopy? { TxLearns(s); } else if s.tx.i < |s.tx.vs| { TxWrites(s); } else { TxCommits(s); }
    TxGoodKeeps(s, StepTx(s).0, StepTx(s).1);
  }

  lemma RxTick(s: State)
    requires Inv(s) && SafeRx(s) && !s.rx.RxIdle? && !s.rx.OutSegs?
    ensures RxGood(s, StepRx(s).0, StepRx(s).1) && Inv(StepRx(s).0)
  {
    hide Contents, SafeRx, Fifo, RxOk, StepRx, Shape, RxGood;
    if !s.rx.RxCopy? { RxLearns(s); } else if |s.rx.out| < s.rx.kp { RxCopies(s); } else { RxFinishes(s); }
    RxGoodKeeps(s, StepRx(s).0, StepRx(s).1);
  }

  ghost predicate Possible(s: State, run: seq<Action>)
    requires Inv(s)
    decreases |run|
  {
    run == [] || (Enabled(s, run[0]) && Possible(After(s, run[0]), run[1..]))
  }

  ghost function After(s: State, a: Action): (s2: State)
    requires Inv(s) && Enabled(s, a)
    ensures Inv(s2) && |s2.r.buf| == |s.r.buf|
  {
    StepRefines(s, a);
    Step(s, a).0
  }

  ghost function End(s: State, run: seq<Action>): (s2: State)
    requires Inv(s) && Possible(s, run)
    ensures Inv(s2) && |s2.r.buf| == |s.r.buf|
    decreases |run|
  {
    if run == [] then s else End(After(s, run[0]), run[1..])
  }

  ghost function LabelOf(s: State, a: Action): Label
    requires Inv(s) && Enabled(s, a)
  {
    StepRefines(s, a);
    Step(s, a).1
  }

  ghost function Trace(s: State, run: seq<Action>): seq<Label>
    requires Inv(s) && Possible(s, run)
    decreases |run|
  {
    if run == [] then [] else [LabelOf(s, run[0])] + Trace(After(s, run[0]), run[1..])
  }

  ghost function Replay(a: seq<byte>, ls: seq<Label>, cap: int): Outcome
    decreases |ls|
  {
    if ls == [] then Now(a)
    else match Fifo(a, ls[0], cap) case Refused => Refused case Now(b) => Replay(b, ls[1..], cap)
  }

  /** Every interleaving of the two sides is a run of an atomic bounded byte FIFO. */
  lemma {:induction false} RunsRefineFifo(s: State, run: seq<Action>)
    requires Inv(s) && Possible(s, run)
    ensures Replay(Contents(s.r), Trace(s, run), |s.r.buf| - 1) == Now(Contents(End(s, run).r))
    decreases |run|
  {
    hide TxOk, RxOk, Shape, Contents, Fifo, Enabled, Step;
    if run != [] {
      StepRefines(s, run[0]);
      var s2 := After(s, run[0]);
      RunsRefineFifo(s2, run[1..]);
      assert Trace(s, run)[1..] == Trace(s2, run[1..]);
    }
  }

  function SentBy(l: Label): seq<byte> {
    if l.Sent? then l.vs else []
  }

  function GotBy(l: Label): seq<byte> {
    if l.Got? then l.vs else []
  }

  /** The bytes sent so far, in order. */
  function AllSent(ls: seq<Label>): seq<byte> {
    if ls == [] then [] else SentBy(ls[0]) + AllSent(ls[1..])
  }

  function AllGot(ls: seq<Label>): seq<byte> {
    if ls == [] then [] else GotBy(ls[0]) + AllGot(ls[1..])
  }

  /** No byte is lost, duplicated or reordered: what was there and what was sent is what was received and what is left. */
  lemma {:induction false} NothingLost(a: seq<byte>, ls: seq<Label>, cap: int, b: seq<byte>)
    requires Replay(a, ls, cap) == Now(b)
    ensures a + AllSent(ls) == AllGot(ls) + b
    decreases |ls|
  {
    if ls != [] {
      StepBalances(a, ls[0], cap);
      var c := Fifo(a, ls[0], cap).contents;
      NothingLost(c, ls[1..], cap, b);
      hide Fifo, SentBy, GotBy;
      Joined(a, SentBy(ls[0]), GotBy(ls[0]), c, AllSent(ls[1..]), AllGot(ls[1..]), b);
    }
  }

  /** So over every run, from any reachable state on. */
  lemma RunsLoseNothing(s: State, run: seq<Action>)
    requires Inv(s) && Possible(s, run)
    ensures Contents(s.r) + AllSent(Trace(s, run)) == AllGot(Trace(s, run)) + Contents(End(s, run).r)
  {
    hide Contents, Replay, TxOk, RxOk, Trace;
    RunsRefineFifo(s, run);
    NothingLost(Contents(s.r), Trace(s, run), |s.r.buf| - 1, Contents(End(s, run).r));
  }

  /** A fresh ring is empty; what is received from it is a prefix of what was sent, and the rest is queued. */
  lemma FreshRunsLoseNothing(buf: seq<byte>, run: seq<Action>)
    requires IsPow2(|buf|) && Possible(Fresh(buf), run)
    ensures Inv(Fresh(buf))
    ensures AllSent(Trace(Fresh(buf), run)) == AllGot(Trace(Fresh(buf), run)) + Contents(End(Fresh(buf), run).r)
  {
    assert Inv(Fresh(buf)) && Contents(Fresh(buf).r) == [];
    hide Contents, TxOk, RxOk, Trace;
    RunsLoseNothing(Fresh(buf), run);
    assert [] + AllSent(Trace(Fresh(buf), run)) == AllSent(Trace(Fresh(buf), run));
  }

  lemma StepBalances(a: seq<byte>, l: Label, cap: int)
    requires Fifo(a, l, cap).Now?
    ensures a + SentBy(l) == GotBy(l) + Fifo(a, l, cap).contents
  {
  }

  lemma Joined(a: seq<byte>, s1: seq<byte>, g1: seq<byte>, c: seq<byte>, s2: seq<byte>, g2: seq<byte>, b: seq<byte>)
    requires a + s1 == g1 + c && c + s2 == g2 + b
    ensures a + (s1 + s2) == (g1 + g2) + b
  {
    assert a + (s1 + s2) == g1 + c + s2;
    assert g1 + c + s2 == g1 + (c + s2);
  }

  /** From init_send to done_send, whatever the sender does meanwhile, the segments hold the next bytes of the FIFO. */
  lemma SendSegmentsHold(s: State)
    requires Inv(s) && s.rx.OutSegs?
    ensures var d := SegsFor(s.r, s.rx.rd, s.rx.sz);
      && d.buf0 + d.len0 <= |s.r.buf| && d.len1 <= |s.r.buf|
      && s.rx.sz <= |Contents(s.r)| && Denoted(s.r.buf, d) == Contents(s.r)[..s.rx.sz]
  {
    hide Contents;
    UsedBounds(s.r);
    SegsAreContents(s.r, s.rx.sz);
  }

  /** From init_recv to done_recv the segments share no slot with the contents. */
  lemma RecvSegmentsFree(s: State, j: nat, i: nat)
    requires Inv(s) && s.tx.InSegs? && j < s.tx.sz && i < Used(s.r)
    ensures Fold(s.tx.wr + j, |s.r.buf|) != At(s.r, i)
  {
    SegsAreFree(s.r, s.tx.sz, j, i);
  }

  // ---------- Calls ----------

  /** The sending side stays inside its call until the last action. */
  ghost predicate DuringTx(s: State, run: seq<Action>)
    requires Inv(s) && Possible(s, run)
    decreases |run|
  {
    run == [] || (!s.tx.TxIdle? && DuringTx(After(s, run[0]), run[1..]))
  }

  ghost predicate DuringRx(s: State, run: seq<Action>)
    requires Inv(s) && Possible(s, run)
    decreases |run|
  {
    run == [] || (!s.rx.RxIdle? && DuringRx(After(s, run[0]), run[1..]))
  }

  function Shown(l: Label): seq<Label> {
    if l.Silent? then [] else [l]
  }

  /** What the sending side's accesses do to the FIFO or find out about it. */
  ghost function TxLabels(s: State, run: seq<Action>): seq<Label>
    requires Inv(s) && Possible(s, run)
    decreases |run|
  {
    if run == [] then [] else (if run[0].TickTx? then Shown(LabelOf(s, run[0])) else []) + TxLabels(After(s, run[0]), run[1..])
  }

  ghost function RxLabels(s: State, run: seq<Action>): seq<Label>
    requires Inv(s) && Possible(s, run)
    decreases |run|
  {
    if run == [] then [] else (if run[0].TickRx? then Shown(LabelOf(s, run[0])) else []) + RxLabels(After(s, run[0]), run[1..])
  }

  /** A send of vs with the labels ls behind it. */
  ghost predicate Sending(vs: seq<byte>, r: Ring<byte>, tx: Tx, ls: seq<Label>)
    requires r.buf != []
  {
    match tx
    case TxRd(us) => us == vs && ls == []
    case TxWr(us, rd) => us == vs && ls == if Pos(r, rd - r.rear - 1) < |vs| then [NoRoom(|vs|)] else []
    case TxCopy(_, us, _) => us == vs && ls == []
    case TxIdle => ls == [Sent(vs)] || ls == [NoRoom(|vs|)]
    case _ => false
  }

  lemma SendMoves(vs: seq<byte>, s: State, ls: seq<Label>)
    requires Inv(s) && SafeTx(s) && !s.tx.TxIdle? && Sending(vs, s.r, s.tx, ls)
    ensures var (s2, l) := StepTx(s); s2.r.buf != [] && Sending(vs, s2.r, s2.tx, ls + Shown(l))
  {
    hide Contents, IsPow2, Pos, CopySlot, BatchEnd, Used;
  }

  /** The other side's actions leave rear and the ring's size alone. */
  lemma SendStays(vs: seq<byte>, s: State, a: Action, ls: seq<Label>)
    requires Inv(s) && Enabled(s, a) && !a.TickTx? && !s.tx.TxIdle? && s.r.buf != [] && Sending(vs, s.r, s.tx, ls)
    ensures var s2 := After(s, a); s2.r.buf != [] && Sending(vs, s2.r, s2.tx, ls)
  {
    StepRefines(s, a);
    hide Contents, IsPow2, CopySlot, BatchEnd, Used, TxOk, RxOk;
    assert After(s, a).r.rear == s.r.rear && |After(s, a).r.buf| == |s.r.buf| && After(s, a).tx == s.tx;
  }

  lemma {:induction false} SendRuns(vs: seq<byte>, s: State, run: seq<Action>, ls: seq<Label>)
    requires Inv(s) && Possible(s, run) && DuringTx(s, run) && s.r.buf != [] && Sending(vs, s.r, s.tx, ls)
    ensures End(s, run).r.buf != [] && Sending(vs, End(s, run).r, End(s, run).tx, ls + TxLabels(s, run))
    decreases |run|
  {
    if run == [] {
      assert ls + [] == ls;
    } else {
      StepRefines(s, run[0]);
      if run[0].TickTx? { SendMoves(vs, s, ls); } else { SendStays(vs, s, run[0], ls); }
      hide Inv, Enabled, Step, Sending;
      var l := if run[0].TickTx? then Shown(LabelOf(s, run[0])) else [];
      assert ls + [] == ls;
      SendRuns(vs, After(s, run[0]), run[1..], ls + l);
      assert ls + l + TxLabels(After(s, run[0]), run[1..]) == ls + TxLabels(s, run);
    }
  }

  /** Whatever the receiver does meanwhile, a send that has returned has sent all its bytes, once, or has found no room
      for them and sent none. */
  lemma SendAnswers(s: State, vs: seq<byte>, run: seq<Action>)
    requires Inv(s) && Enabled(s, Send(vs)) && Possible(After(s, Send(vs)), run) && DuringTx(After(s, Send(vs)), run)
    requires End(After(s, Send(vs)), run).tx.TxIdle?
    ensures var ls := TxLabels(After(s, Send(vs)), run); ls == [Sent(vs)] || ls == [NoRoom(|vs|)]
  {
    var s1 := After(s, Send(vs));
    assert Shape(s1.r) && s1.r.buf != [] && Sending(vs, s1.r, s1.tx, []);
    hide Inv, Enabled, Step, Contents;
    SendRuns(vs, s1, run, []);
    assert [] + TxLabels(s1, run) == TxLabels(s1, run);
  }

  function Least(n: nat, k: nat): nat {
    if k < n then k else n
  }

  /** A recv or peek of n bytes with the labels ls behind it; if alone is set, of a ring that held a from the start. */
  ghost predicate Receiving(n: nat, keep: bool, alone: bool, a: seq<byte>, r: Ring<byte>, rx: Rx, ls: seq<Label>)
    requires Shape(r)
  {
    match rx
    case RxRd(k, kp) => k == n && kp == keep && ls == [] && (alone ==> Contents(r) == a)
    case RxWr(k, kp, rd) => k == n && kp == keep && ls == [] && (alone ==> Contents(r) == a)
    case RxCopy(kp, _, k, out) =>
      kp == keep && |out| <= k <= n && ls == [] && (alone ==> Contents(r) == a && a != [] && k == Least(n, |a|))
    case RxIdle =>
      || (ls == [SawEmpty] && (alone ==> a == []))
      || (|ls| == 1 && (if keep then ls[0].Peeked? else ls[0].Got?) && |ls[0].vs| <= n
          && (alone ==> a != [] && ls[0].vs == a[..Least(n, |a|)]))
    case _ => false
  }

  lemma RecvMoves(n: nat, keep: bool, alone: bool, a: seq<byte>, s: State, ls: seq<Label>)
    requires Inv(s) && SafeRx(s) && !s.rx.RxIdle? && Receiving(n, keep, alone, a, s.r, s.rx, ls)
    ensures var (s2, l) := StepRx(s); Shape(s2.r) && Receiving(n, keep, alone, a, s2.r, s2.rx, ls + Shown(l))
  {
    UsedBounds(s.r);
    Folds(s.r);
    RxTick(s);
    hide Contents, IsPow2, Pos, CopySlot, BatchEnd, Used, Fifo;
  }

  lemma RecvStays(n: nat, keep: bool, alone: bool, a: seq<byte>, s: State, act: Action, ls: seq<Label>)
    requires Inv(s) && Enabled(s, act) && !act.TickRx? && !s.rx.RxIdle? && Receiving(n, keep, alone, a, s.r, s.rx, ls)
    ensures Shape(After(s, act).r) && Receiving(n, keep, false, a, After(s, act).r, After(s, act).rx, ls)
  {
    StepRefines(s, act);
    hide Contents, IsPow2, CopySlot, BatchEnd, Used, TxOk;
  }

  lemma {:induction false} RecvRuns(n: nat, keep: bool, alone: bool, a: seq<byte>, s: State, run: seq<Action>, ls: seq<Label>)
    requires Inv(s) && Possible(s, run) && DuringRx(s, run) && Receiving(n, keep, alone, a, s.r, s.rx, ls)
    requires alone ==> forall k :: 0 <= k < |run| ==> run[k].TickRx?
    ensures Shape(End(s, run).r) && Receiving(n, keep, alone, a, End(s, run).r, End(s, run).rx, ls + RxLabels(s, run))
    decreases |run|
  {
    if run == [] {
      assert ls + [] == ls;
    } else {
      StepRefines(s, run[0]);
      if run[0].TickRx? { RecvMoves(n, keep, alone, a, s, ls); } else { RecvStays(n, keep, alone, a, s, run[0], ls); }
      hide Inv, Enabled, Step, Receiving;
      var l := if run[0].TickRx? then Shown(LabelOf(s, run[0])) else [];
      assert ls + [] == ls;
      RecvRuns(n, keep, alone, a, After(s, run[0]), run[1..], ls + l);
      assert ls + l + RxLabels(After(s, run[0]), run[1..]) == ls + RxLabels(s, run);
    }
  }

  /** Whatever the sender does meanwhile, a recv that has returned has taken, once, at most as many bytes as it was asked
      for, a peek has only seen them, or either has found the ring empty; and if the sender did nothing, they got as
      many of the first bytes as they were asked for, or all if there were fewer. */
  lemma RecvAnswers(s: State, n: nat, keep: bool, run: seq<Action>)
    requires Inv(s) && Enabled(s, Recv(n, keep)) && Possible(After(s, Recv(n, keep)), run) && DuringRx(After(s, Recv(n, keep)), run)
    requires End(After(s, Recv(n, keep)), run).rx.RxIdle?
    ensures var ls := RxLabels(After(s, Recv(n, keep)), run);
      || ls == [SawEmpty]
      || (|ls| == 1 && (if keep then ls[0].Peeked? else ls[0].Got?) && |ls[0].vs| <= n)
    ensures (forall k :: 0 <= k < |run| ==> run[k].TickRx?) ==>
      var ls, a := RxLabels(After(s, Recv(n, keep)), run), Contents(s.r);
      ls == [if a == [] then SawEmpty else if keep then Peeked(a[..Least(n, |a|)]) else Got(a[..Least(n, |a|)])]
  {
    var s1, alone := After(s, Recv(n, keep)), forall k :: 0 <= k < |run| ==> run[k].TickRx?;
    assert Shape(s1.r) && s1.r == s.r && Receiving(n, keep, alone, Contents(s.r), s1.r, s1.rx, []);
    hide Inv, Enabled, Step, Contents;
    RecvRuns(n, keep, alone, Contents(s.r), s1, run, []);
    assert [] + RxLabels(s1, run) == RxLabels(s1, run);
  }

  /** init_recv offers as much of the free room as it may, and init_send all that is queued, as they find it. */
  lemma SegmentsOffered(s: State)
    requires Inv(s)
    ensures s.tx.InWr? && s.tx.rd == s.r.head ==> var room := |s.r.buf| - 1 - |Contents(s.r)|;
      StepTx(s).0.tx == if room == 0 then TxIdle else InSegs(s.r.rear, Least(RECV_MAX, room))
    ensures s.rx.OutWr? ==>
      StepRx(s).0.rx == if Contents(s.r) == [] then RxIdle else OutSegs(s.r.head, |Contents(s.r)|)
  {
    hide Contents, IsPow2, Used, BatchEnd, CopySlot, Pos;
    Folds(s.r);
    UsedBounds(s.r);
  }
}
