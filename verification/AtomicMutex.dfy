/**
  AtomicMutex: a recursive spin lock. Every read or write of val, num and tid is one step, and the
  steps of any number of threads interleave freely. tid is left unset by the constructor; it is taken
  to name no thread then. num does not wrap.
 */
module AtomicMutex {

  /** uintptr_t(-1). */
  const NONE := -1

  /** Where a thread is; d counts the locks it holds. try is set for try_lock. */
  datatype Pc =
    | Out(d: nat)
    // lock and try_lock
    | LockVal(d: nat, try: bool) | LockTid(d: nat, try: bool) | IncRead(d: nat) | IncWrite(d: nat, n: int)
    | AssertNum | SetNum | SetTid
    // unlock
    | AssertTid(d: nat) | DecRead(d: nat) | DecWrite(d: nat, n: int) | ClearTid | ClearVal

  datatype Mem = Mem(val: int, num: int, tid: int)

  datatype State = State(m: Mem, threads: seq<Pc>)

  datatype Action = Lock(i: nat) | TryLock(i: nat) | Unlock(i: nat) | Tick(i: nat) | NewThread

  /** The next access of thread me. */
  function StepThread(m: Mem, me: nat, pc: Pc): (Mem, Pc)
    requires !pc.Out?
  {
    match pc
    case LockVal(d, try) => (m.(val := 1), if m.val != 0 then LockTid(d, try) else AssertNum)
    case LockTid(d, try) => (m, if me == m.tid then IncRead(d) else if try then Out(d) else LockVal(d, try))
    case IncRead(d) => (m, IncWrite(d, m.num))
    case IncWrite(d, n) => (m.(num := n + 1), Out(d + 1))
    case AssertNum => (m, SetNum)
    case SetNum => (m.(num := 1), SetTid)
    case SetTid => (m.(tid := me), Out(1))
    case AssertTid(d) => (m, DecRead(d))
    case DecRead(d) => (m, DecWrite(d, m.num))
    case DecWrite(d, n) => (m.(num := n - 1), if n - 1 == 0 then ClearTid else Out(if d > 0 then d - 1 else 0))
    case ClearTid => (m.(tid := NONE), ClearVal)
    case ClearVal => (m.(val := 0), Out(0))
  }

  /** Threads unlock only what they have locked. */
  predicate Enabled(s: State, a: Action) {
    match a
    case Lock(i) => i < |s.threads| && s.threads[i].Out?
    case TryLock(i) => i < |s.threads| && s.threads[i].Out?
    case Unlock(i) => i < |s.threads| && s.threads[i].Out? && s.threads[i].d > 0
    case Tick(i) => i < |s.threads| && !s.threads[i].Out?
    case NewThread => true
  }

  function Step(s: State, a: Action): State
    requires Enabled(s, a)
  {
    match a
    case Lock(i) => s.(threads := s.threads[i := LockVal(s.threads[i].d, false)])
    case TryLock(i) => s.(threads := s.threads[i := LockVal(s.threads[i].d, true)])
    case Unlock(i) => s.(threads := s.threads[i := AssertTid(s.threads[i].d)])
    case Tick(i) => var (m, pc) := StepThread(s.m, i, s.threads[i]); State(m, s.threads[i := pc])
    case NewThread => s.(threads := s.threads + [Out(0)])
  }

  /** Before any thread came by; unset is what tid happens to hold. */
  predicate Initial(s: State) {
    s.m.val == 0 && s.m.num == 0 && s.m.tid < 0 && s.threads == []
  }

  // ---------- Invariant ----------

  /** The thread has taken val from 0 to 1 and not yet put it back. */
  predicate Owns(pc: Pc) {
    match pc
    case Out(d) => d > 0
    case LockVal(d, _) => d > 0
    case LockTid(d, _) => d > 0
    case _ => true
  }

  /** What holds for the owner of the lock while it is at pc. */
  ghost predicate OwnerOk(m: Mem, me: nat, pc: Pc) {
    && m.val == 1
    && match pc
       case Out(d) => m.num == d && m.tid == me
       case LockVal(d, _) => m.num == d && m.tid == me
       case LockTid(d, _) => m.num == d && m.tid == me
       case IncRead(d) => d > 0 && m.num == d && m.tid == me
       case IncWrite(d, n) => d > 0 && m.num == d == n && m.tid == me
       case AssertNum => m.num == 0 && m.tid < 0
       case SetNum => m.num == 0 && m.tid < 0
       case SetTid => m.num == 1 && m.tid < 0
       case AssertTid(d) => d > 0 && m.num == d && m.tid == me
       case DecRead(d) => d > 0 && m.num == d && m.tid == me
       case DecWrite(d, n) => d > 0 && m.num == d == n && m.tid == me
       case ClearTid => m.num == 0 && m.tid == me
       case ClearVal => m.num == 0 && m.tid < 0
  }

  /** Either the lock is free, or exactly thread o owns it. */
  ghost predicate OwnedBy(s: State, o: int) {
    && -1 <= o < |s.threads|
    && (forall i :: 0 <= i < |s.threads| ==> (Owns(s.threads[i]) <==> i == o))
    && (o == -1 ==> s.m == Mem(0, 0, s.m.tid) && s.m.tid < 0)
    && (o >= 0 ==> OwnerOk(s.m, o, s.threads[o]))
  }

  ghost predicate Inv(s: State) {
    exists o :: OwnedBy(s, o)
  }

  lemma InitialInv(s: State)
    requires Initial(s)
    ensures Inv(s)
  {
    assert OwnedBy(s, -1);
  }

  /** A step of the owner: it keeps the lock, or lets it go. */
  lemma OwnerSteps(m: Mem, me: nat, pc: Pc)
    requires !pc.Out? && Owns(pc) && OwnerOk(m, me, pc)
    ensures var (m2, pc2) := StepThread(m, me, pc);
      if pc.ClearVal? then !Owns(pc2) && m2 == Mem(0, 0, m2.tid) && m2.tid < 0 else Owns(pc2) && OwnerOk(m2, me, pc2)
  {
  }

  /** A step of a thread that does not own the lock changes memory only by taking the lock when it is free. */
  lemma OtherSteps(m: Mem, me: nat, pc: Pc)
    requires !pc.Out? && !Owns(pc) && m.tid != me && (m.val == 1 || (m == Mem(0, 0, m.tid) && m.tid < 0))
    ensures var (m2, pc2) := StepThread(m, me, pc);
      if pc.LockVal? && m.val == 0 then Owns(pc2) && OwnerOk(m2, me, pc2) else !Owns(pc2) && m2 == m
  {
  }

  lemma {:induction false} StepKeepsInv(s: State, a: Action)
    requires Inv(s) && Enabled(s, a)
    ensures Inv(Step(s, a))
  {
    var o :| OwnedBy(s, o);
    var s2 := Step(s, a);
    match a
    case Tick(i) =>
      var pc := s.threads[i];
      hide OwnerOk, StepThread;
      if i == o {
        OwnerSteps(s.m, i, pc);
        assert OwnedBy(s2, if pc.ClearVal? then -1 else o);
      } else {
        TidOfOwner(s, o, i);
        OtherSteps(s.m, i, pc);
        assert OwnedBy(s2, if pc.LockVal? && s.m.val == 0 then i else o);
      }
    case _ => assert OwnedBy(s2, o);
  }

  lemma TidOfOwner(s: State, o: int, i: nat)
    requires OwnedBy(s, o) && i != o
    ensures s.m.tid != i && (s.m.val == 1 <==> o >= 0) && (o < 0 ==> s.m == Mem(0, 0, s.m.tid) && s.m.tid < 0)
  {
  }

  // ---------- Whole runs ----------

  ghost predicate Runs(s: State, run: seq<Action>, t: State)
    decreases |run|
  {
    if run == [] then s == t else Enabled(s, run[0]) && Runs(Step(s, run[0]), run[1..], t)
  }

  lemma {:induction false} RunsKeepInv(s: State, run: seq<Action>, t: State)
    requires Inv(s) && Runs(s, run, t)
    ensures Inv(t)
    decreases |run|
  {
    if run != [] {
      hide Inv, Enabled, Step;
      StepKeepsInv(s, run[0]);
      RunsKeepInv(Step(s, run[0]), run[1..], t);
    }
  }

  /** The locks a thread holds. */
  function Depth(pc: Pc): nat {
    match pc
    case Out(d) => d
    case LockVal(d, _) => d
    case LockTid(d, _) => d
    case IncRead(d) => d
    case IncWrite(d, _) => d
    case AssertTid(d) => d
    case DecRead(d) => d
    case DecWrite(d, _) => d
    case _ => 0
  }

  /** Whatever the threads did: at most one of them holds locks, tid names it and num counts them; tid names a
      thread only while it owns the lock; and the lock is free exactly when val is 0. */
  lemma MutualExclusion(s: State, run: seq<Action>, t: State)
    requires Initial(s) && Runs(s, run, t)
    ensures forall i, j :: 0 <= i < |t.threads| && 0 <= j < |t.threads| && Depth(t.threads[i]) > 0 && Depth(t.threads[j]) > 0 ==> i == j
    ensures forall i :: 0 <= i < |t.threads| && Depth(t.threads[i]) > 0 ==> t.m.tid == i && t.m.num == Depth(t.threads[i])
    ensures t.m.tid >= 0 ==> t.m.tid < |t.threads| && Owns(t.threads[t.m.tid])
    ensures t.m.val == 0 <==> forall i :: 0 <= i < |t.threads| ==> !Owns(t.threads[i])
  {
    InitialInv(s);
    RunsKeepInv(s, run, t);
    var o :| OwnedBy(t, o);
    forall i | 0 <= i < |t.threads| && Depth(t.threads[i]) > 0 ensures i == o { assert Owns(t.threads[i]); }
    if o >= 0 { assert Owns(t.threads[o]); }
  }

  /** None of the three assertions in the code ever fails. */
  lemma AssertionsHold(s: State, run: seq<Action>, t: State, i: nat)
    requires Initial(s) && Runs(s, run, t) && i < |t.threads|
    ensures t.threads[i].AssertNum? ==> t.m.num == 0
    ensures t.threads[i].AssertTid? ==> t.m.tid == i
    ensures t.threads[i].ClearVal? ==> t.m.val == 1
  {
    InitialInv(s);
    RunsKeepInv(s, run, t);
    var o :| OwnedBy(t, o);
    assert Owns(t.threads[i]) <==> i == o;
  }

  /** try_lock by a thread that holds no lock succeeds exactly if it finds val zero. */
  lemma TryLockDecides(m: Mem, me: nat)
    requires m.tid != me
    ensures var (m1, pc1) := StepThread(m, me, LockVal(0, true));
      if m.val == 0 then pc1 == AssertNum else StepThread(m1, me, LockTid(0, true)) == (m1, Out(0)) && pc1 == LockTid(0, true)
  {
  }

  // ---------- What a call does ----------

  datatype Call = LockCall | TryLockCall | UnlockCall

  function Started(c: Call, i: nat): Action {
    match c case LockCall => Lock(i) case TryLockCall => TryLock(i) case UnlockCall => Unlock(i)
  }

  /** The locks a thread that held d of them may hold when the call returns. */
  predicate Returns(c: Call, d: nat, e: nat) {
    match c
    case LockCall => e == d + 1
    case TryLockCall => e == d + 1 || (d == 0 && e == 0)
    case UnlockCall => e + 1 == d
  }

  /** A run that ends no later than thread i's return from the call it is in. */
  ghost predicate During(s: State, run: seq<Action>, t: State, i: nat)
    decreases |run|
  {
    && i < |s.threads|
    && if run == [] then s == t else !s.threads[i].Out? && Enabled(s, run[0]) && During(Step(s, run[0]), run[1..], t, i)
  }

  /** Where a call by a thread that held d locks can be. */
  predicate Inside(c: Call, d: nat, pc: Pc) {
    match pc
    case Out(_) => false
    case LockVal(e, try) => e == d && !c.UnlockCall? && (try <==> c.TryLockCall?)
    case LockTid(e, try) => e == d && !c.UnlockCall? && (try <==> c.TryLockCall?)
    case IncRead(e) => e == d && !c.UnlockCall?
    case IncWrite(e, _) => e == d && !c.UnlockCall?
    case AssertTid(e) => e == d && c.UnlockCall?
    case DecRead(e) => e == d && c.UnlockCall?
    case DecWrite(e, _) => e == d && c.UnlockCall?
    case ClearTid => d == 1 && c.UnlockCall?
    case ClearVal => d == 1 && c.UnlockCall?
    case _ => d == 0 && !c.UnlockCall?
  }

  lemma CallStep(c: Call, d: nat, m: Mem, me: nat, pc: Pc)
    requires Inside(c, d, pc) && if Owns(pc) then OwnerOk(m, me, pc) else m.tid != me
    ensures var pc2 := StepThread(m, me, pc).1; if pc2.Out? then Returns(c, d, pc2.d) else Inside(c, d, pc2)
  {
  }

  lemma Knows(s: State, i: nat)
    requires Inv(s) && i < |s.threads|
    ensures if Owns(s.threads[i]) then OwnerOk(s.m, i, s.threads[i]) else s.m.tid != i
  {
    var o :| OwnedBy(s, o);
    hide OwnerOk;
    if i != o { TidOfOwner(s, o, i); }
  }

  lemma {:induction false} CallReturns(c: Call, d: nat, s: State, run: seq<Action>, t: State, i: nat)
    requires Inv(s) && During(s, run, t, i) && Inside(c, d, s.threads[i])
    ensures i < |t.threads| && if t.threads[i].Out? then Returns(c, d, t.threads[i].d) else Inside(c, d, t.threads[i])
    decreases |run|
  {
    if run != [] {
      var s2 := Step(s, run[0]);
      StepKeepsInv(s, run[0]);
      Knows(s, i);
      hide Inv, OwnerOk, Inside, Returns, StepThread;
      if run[0] == Tick(i) { CallStep(c, d, s.m, i, s.threads[i]); }
      if s2.threads[i].Out? {
        assert run[1..] == [];
      } else {
        CallReturns(c, d, s2, run[1..], t, i);
      }
    }
  }

  /** Whatever other threads do meanwhile: lock returns with one lock more, so holding the lock; try_lock with one more
      or, if its caller held none, with none; and unlock with one less. */
  lemma CallsAnswer(z: State, before: seq<Action>, s: State, c: Call, run: seq<Action>, t: State, i: nat)
    requires Initial(z) && Runs(z, before, s) && Enabled(s, Started(c, i))
    requires During(Step(s, Started(c, i)), run, t, i) && i < |t.threads| && t.threads[i].Out?
    ensures Returns(c, s.threads[i].d, t.threads[i].d)
  {
    InitialInv(z);
    RunsKeepInv(z, before, s);
    StepKeepsInv(s, Started(c, i));
    hide Inv, OwnerOk;
    CallReturns(c, s.threads[i].d, Step(s, Started(c, i)), run, t, i);
  }

  function Ticks(i: nat, n: nat): seq<Action> {
    seq(n, _ => Tick(i))
  }

  /** k accesses of a thread alone. */
  function Solo(m: Mem, me: nat, pc: Pc, k: nat): (Mem, Pc)
    decreases k
  {
    if k == 0 || pc.Out? then (m, pc) else var (m2, pc2) := StepThread(m, me, pc); Solo(m2, me, pc2, k - 1)
  }

  predicate Busy(m: Mem, me: nat, pc: Pc, k: nat)
    decreases k
  {
    k == 0 || (!pc.Out? && var (m2, pc2) := StepThread(m, me, pc); Busy(m2, me, pc2, k - 1))
  }

  lemma {:induction false} SoloRuns(s: State, i: nat, k: nat)
    requires i < |s.threads| && Busy(s.m, i, s.threads[i], k)
    ensures var (m2, pc2) := Solo(s.m, i, s.threads[i], k); Runs(s, Ticks(i, k), State(m2, s.threads[i := pc2]))
    decreases k
  {
    hide StepThread;
    if k == 0 {
      assert s.threads[i := s.threads[i]] == s.threads;
    } else {
      assert Ticks(i, k)[0] == Tick(i) && Ticks(i, k)[1..] == Ticks(i, k - 1);
      SoloRuns(Step(s, Tick(i)), i, k - 1);
      var pc2 := Solo(s.m, i, s.threads[i], k).1;
      assert Step(s, Tick(i)).threads[i := pc2] == s.threads[i := pc2];
    }
  }

  lemma SoloLock(m: Mem, me: nat, d: nat, try: bool)
    requires if d == 0 then m.val == 0 else OwnerOk(m, me, Out(d))
    ensures Busy(m, me, LockVal(d, try), 4) && Solo(m, me, LockVal(d, try), 4).1 == Out(d + 1)
  {
    var (m1, pc1) := StepThread(m, me, LockVal(d, try));
    var (m2, pc2) := StepThread(m1, me, pc1);
    var (m3, pc3) := StepThread(m2, me, pc2);
    var (m4, pc4) := StepThread(m3, me, pc3);
    hide StepThread;
    assert Solo(m4, me, pc4, 0).1 == Out(d + 1) && Busy(m4, me, pc4, 0);
    assert Solo(m3, me, pc3, 1).1 == Out(d + 1) && Busy(m3, me, pc3, 1);
    assert Solo(m2, me, pc2, 2).1 == Out(d + 1) && Busy(m2, me, pc2, 2);
    assert Solo(m1, me, pc1, 3).1 == Out(d + 1) && Busy(m1, me, pc1, 3);
  }

  lemma SoloUnlock(m: Mem, me: nat, d: nat)
    requires d > 0 && OwnerOk(m, me, Out(d))
    ensures var n := if d == 1 then 5 else 3; Busy(m, me, AssertTid(d), n) && Solo(m, me, AssertTid(d), n).1 == Out(d - 1)
  {
    var n := if d == 1 then 5 else 3;
    var (m1, pc1) := StepThread(m, me, AssertTid(d));
    var (m2, pc2) := StepThread(m1, me, pc1);
    var (m3, pc3) := StepThread(m2, me, pc2);
    if n == 5 {
      var (m4, pc4) := StepThread(m3, me, pc3);
      var (m5, pc5) := StepThread(m4, me, pc4);
      assert Solo(m5, me, pc5, 0).1 == Out(0);
      assert Solo(m4, me, pc4, 1).1 == Out(0) && Busy(m4, me, pc4, 1);
    }
    hide StepThread;
    assert Solo(m3, me, pc3, n - 3).1 == Out(d - 1) && Busy(m3, me, pc3, n - 3);
    assert Solo(m2, me, pc2, n - 2).1 == Out(d - 1) && Busy(m2, me, pc2, n - 2);
    assert Solo(m1, me, pc1, n - 1).1 == Out(d - 1) && Busy(m1, me, pc1, n - 1);
  }

  /** Undisturbed, lock and try_lock take the lock in four accesses if it is free or their caller's own, and unlock
      always returns, after five at most. */
  lemma CallsEnd(s: State, c: Call, i: nat) returns (n: nat, t: State)
    requires Inv(s) && Enabled(s, Started(c, i)) && (c.UnlockCall? || s.m.val == 0 || s.threads[i].d > 0)
    ensures n <= 5 && Runs(Step(s, Started(c, i)), Ticks(i, n), t) && i < |t.threads| && t.threads[i].Out?
    ensures t.threads[i].d == if c.UnlockCall? then s.threads[i].d - 1 else s.threads[i].d + 1
  {
    var d := s.threads[i].d;
    var s1 := Step(s, Started(c, i));
    Knows(s, i);
    if c.UnlockCall? {
      n := if d == 1 then 5 else 3;
      SoloUnlock(s.m, i, d);
    } else {
      n := 4;
      SoloLock(s.m, i, d, c.TryLockCall?);
    }
    hide StepThread, Busy, Solo, Inv, OwnerOk;
    SoloRuns(s1, i, n);
    var (m2, pc2) := Solo(s1.m, i, s1.threads[i], n);
    t := State(m2, s1.threads[i := pc2]);
  }
}
