/** The code of a statement with its exits filled in: its parts, and where its jumps may go. */
module ScriptShape {
  import opened ScriptMachine
  import opened ScriptExpr
  import opened ScriptAssign
  import opened ScriptStmt

  // ---------- Code with its exits filled in ----------

  /** An unresolved jump is the placeholder 0. */
  function FinalInst(i: SInst, t1: seq<nat>, t2: seq<nat>): Inst {
    match i
    case Plain(x) => x
    case ToExit(l) => Jump(if l < |t1| then t1[l] else 0)
    case ToNext(l) => Jump(if l < |t2| then t2[l] else 0)
  }

  function Final(c: SCode, t1: seq<nat>, t2: seq<nat>): (r: seq<Inst>)
    ensures |r| == |c|
  {
    seq(|c|, i requires 0 <= i < |c| => FinalInst(c[i], t1, t2))
  }

  lemma FinalAdd(a: SCode, b: SCode, t1: seq<nat>, t2: seq<nat>)
    ensures Final(a + b, t1, t2) == Final(a, t1, t2) + Final(b, t1, t2)
  {
  }

  lemma FinalLift(c: seq<Inst>, t1: seq<nat>, t2: seq<nat>)
    ensures Final(Lift(c), t1, t2) == c
  {
  }

  lemma FinalResolve(c: SCode, t1: seq<nat>, t2: seq<nat>, exit: nat, next: nat)
    requires Levels(c, |t1| + 1, |t2| + 1)
    ensures Final(Resolve(c, |t1|, exit, |t2|, next), t1, t2) == Final(c, t1 + [exit], t2 + [next])
  {
  }

  lemma FinalResolveExit(c: SCode, t1: seq<nat>, t2: seq<nat>, exit: nat)
    requires Levels(c, |t1| + 1, |t2|)
    ensures Final(ResolveExit(c, |t1|, exit), t1, t2) == Final(c, t1 + [exit], t2)
  {
  }

  // ---------- Where jumps may go ----------

  ghost predicate Levels(c: SCode, d1: nat, d2: nat) {
    && (forall i :: 0 <= i < |c| && c[i].ToExit? ==> c[i].l < d1)
    && (forall i :: 0 <= i < |c| && c[i].ToNext? ==> c[i].l < d2)
  }

  ghost predicate TargetsIn(i: Inst, lo: nat, hi: nat) {
    match i
    case Jump(t) => lo <= t <= hi
    case JumpTrue(t) => lo <= t <= hi
    case JumpFalse(t) => lo <= t <= hi
    case PushSwitch(cases, d) => lo <= d <= hi && forall v :: v in cases ==> lo <= cases[v] <= hi
    case _ => true
  }

  ghost predicate Inside(c: SCode, lo: nat, hi: nat) {
    forall i :: 0 <= i < |c| && c[i].Plain? ==> TargetsIn(c[i].i, lo, hi)
  }

  /** Every jump of a statement's code stays within it, or is symbolic and names an enclosing level. */
  ghost predicate Tidy(c: SCode, lo: nat, hi: nat, d1: nat, d2: nat) {
    Levels(c, d1, d2) && Inside(c, lo, hi)
  }

  lemma TidyAdd(a: SCode, b: SCode, lo: nat, hi: nat, d1: nat, d2: nat)
    requires Tidy(a, lo, hi, d1, d2) && Tidy(b, lo, hi, d1, d2)
    ensures Tidy(a + b, lo, hi, d1, d2)
  {
    forall i | 0 <= i < |a + b| ensures ((a + b)[i].ToExit? ==> (a + b)[i].l < d1) && ((a + b)[i].ToNext? ==> (a + b)[i].l < d2)
      && ((a + b)[i].Plain? ==> TargetsIn((a + b)[i].i, lo, hi))
    {
      if i < |a| { assert (a + b)[i] == a[i]; } else { assert (a + b)[i] == b[i - |a|]; }
    }
  }

  lemma TidyWider(c: SCode, lo: nat, hi: nat, lo2: nat, hi2: nat, d1: nat, d2: nat)
    requires Tidy(c, lo, hi, d1, d2) && lo2 <= lo && hi <= hi2
    ensures Tidy(c, lo2, hi2, d1, d2)
  {
    forall i | 0 <= i < |c| && c[i].Plain? ensures TargetsIn(c[i].i, lo2, hi2) { assert TargetsIn(c[i].i, lo, hi); }
  }

  /** Straight-line code has no jumps. */
  predicate NoJumps(c: seq<Inst>) {
    forall i :: 0 <= i < |c| ==> !(c[i].Jump? || c[i].JumpTrue? || c[i].JumpFalse? || c[i].PushSwitch?)
  }

  lemma {:induction false} ExprNoJumps(e: Expr)
    ensures NoJumps(Code(e))
  {
    match e
    case Un(_, e1) => ExprNoJumps(e1);
    case Bin(_, e1, e2) => ExprNoJumps(e1); ExprNoJumps(e2);
    case _ =>
  }

  lemma {:induction false} AllNoJumps(es: seq<Expr>)
    ensures NoJumps(CodeAll(es))
  {
    if es != [] { ExprNoJumps(es[0]); AllNoJumps(es[1..]); }
  }

  lemma {:induction false} ItemsNoJumps(l: seq<LItem>)
    ensures NoJumps(Stores(l)) && NoJumps(Loads(l))
  {
    if l != [] { ItemsNoJumps(l[1..]); }
  }

  lemma {:induction false} ChainNoJumps(ls: seq<seq<LItem>>, rcode: seq<Inst>, n2: nat)
    requires NoJumps(rcode)
    ensures NoJumps(ChainCode(ls, rcode, n2))
    decreases |ls|
  {
    if ls != [] {
      var l := ls[|ls| - 1];
      ItemsNoJumps(l);
      ChainNoJumps(ls[..|ls| - 1], Loads(l), |l|);
    }
  }

  lemma LiftTidy(c: seq<Inst>, lo: nat, hi: nat, d1: nat, d2: nat)
    requires NoJumps(c)
    ensures Tidy(Lift(c), lo, hi, d1, d2)
  {
  }

  lemma OneTidy(i: SInst, lo: nat, hi: nat, d1: nat, d2: nat)
    requires i.Plain? ==> TargetsIn(i.i, lo, hi)
    requires i.ToExit? ==> i.l < d1
    requires i.ToNext? ==> i.l < d2
    ensures Tidy([i], lo, hi, d1, d2)
  {
  }

  lemma ResolveTidy(c: SCode, lo: nat, hi: nat, d1: nat, d2: nat, exit: nat, next: nat)
    requires Tidy(c, lo, hi, d1 + 1, d2 + 1) && lo <= exit <= hi && lo <= next <= hi
    ensures Tidy(Resolve(c, d1, exit, d2, next), lo, hi, d1, d2)
  {
  }

  lemma ResolveExitTidy(c: SCode, lo: nat, hi: nat, d1: nat, d2: nat, exit: nat)
    requires Tidy(c, lo, hi, d1 + 1, d2) && lo <= exit <= hi
    ensures Tidy(ResolveExit(c, d1, exit), lo, hi, d1, d2)
  {
  }

  // What the code of each compound statement consists of.

  lemma SeqShape(s: Stmt, b: nat, d1: nat, d2: nat)
    requires s.Seq? && Accepted(s, d1, d2)
    ensures Accepted(s.first, d1, d2) && Accepted(s.rest, d1, d2) && Len(s) == Len(s.first) + Len(s.rest)
    ensures SCodeOf(s, b, d1, d2) == SCodeOf(s.first, b, d1, d2) + SCodeOf(s.rest, b + Len(s.first), d1, d2)
  {
    hide Code, CodeAll, AssignCode, ControlCode, Resolve, Lift, CasesCode, CaseMap, DefaultAt, ResolveExit, CasesLen, CasesAccepted, TestCode, TestLen;
  }

  lemma IfShape(s: Stmt, b: nat, d1: nat, d2: nat)
    requires s.If? && Accepted(s, d1, d2)
    ensures Accepted(s.then1, d1, d2) && Accepted(s.else0, d1, d2)
    ensures var n := |Code(s.cond)|; var else0 := b + n + 1 + Len(s.then1) + 1;
      && b + Len(s) == else0 + Len(s.else0)
      && SCodeOf(s, b, d1, d2) == Lift(Code(s.cond)) + [Plain(JumpFalse(else0))] + SCodeOf(s.then1, b + n + 1, d1, d2)
           + [Plain(Jump(else0 + Len(s.else0)))] + SCodeOf(s.else0, else0, d1, d2)
  {
    hide Code, CodeAll, AssignCode, ControlCode, Resolve, Lift, CasesCode, CaseMap, DefaultAt, ResolveExit, CasesLen, CasesAccepted, TestCode, TestLen;
  }

  lemma LoopShape(s: Stmt, b: nat, d1: nat, d2: nat)
    requires s.Loop? && Accepted(s, d1, d2)
    ensures Accepted(s.init, d1, d2) && Accepted(s.body, d1 + 1, d2 + 1) && Accepted(s.fini, d1 + 1, d2 + 1)
    ensures var j1 := LoopStart(s, b); var jc := j1 + Len(s.body); var jt := jc + Len(s.fini);
      && j1 == b + Len(s.init) + |LoopEntry(s, jt)| && b + Len(s) == jt + TestLen(s.test) + 1
      && SCodeOf(s, b, d1, d2) == LoopCode(s, b, d1, d2)
      && LoopCode(s, b, d1, d2) == SCodeOf(s.init, b, d1, d2) + LoopEntry(s, jt)
           + Resolve(SCodeOf(s.body, j1, d1 + 1, d2 + 1) + SCodeOf(s.fini, jc, d1 + 1, d2 + 1), d1, b + Len(s), d2, jc)
           + TestCode(s.test, j1)
  {
    hide Code, CodeAll, AssignCode, ControlCode, Resolve, Lift, CasesCode, CaseMap, DefaultAt, ResolveExit, CasesLen, CasesAccepted, TestCode, TestLen;
  }

  /** while and for loops are entered at their test. */
  function LoopEntry(s: Stmt, jt: nat): SCode
    requires s.Loop?
  {
    if s.kind == Do then [] else [Plain(Jump(jt))]
  }

  function SwitchHead(s: Stmt, b: nat): SCode
    requires s.Switch?
  {
    var first := b + |Code(s.subject)| + 5;
    [Plain(PmAdj(1)), Plain(PushSwitch(CaseMap(s.cases, first), DefaultAt(s.cases, first, b + Len(s)))), Plain(Call), Plain(JumpN)]
  }

  lemma SwitchShape(s: Stmt, b: nat, d1: nat, d2: nat)
    requires s.Switch? && Accepted(s, d1, d2)
    ensures CasesAccepted(s.cases, d1 + 1, d2, {}, false)
    ensures var first := b + |Code(s.subject)| + 5;
      && b + Len(s) == first + CasesLen(s.cases)
      && SCodeOf(s, b, d1, d2) == [Plain(Prog1)] + Lift(Code(s.subject)) + SwitchHead(s, b)
           + ResolveExit(CasesCode(s.cases, first, d1 + 1, d2, {}, false), d1, b + Len(s))
  {
    hide Code, CodeAll, AssignCode, ControlCode, Resolve, Lift, CasesCode, CaseMap, DefaultAt, ResolveExit, CasesLen;
  }

  lemma CaseShape(cs: Cases, b: nat, d1: nat, d2: nat, seen: set<Value>, dflt: bool)
    requires cs.Case? && d1 > 0 && CasesAccepted(cs, d1, d2, seen, dflt)
    ensures Accepted(cs.body, d1, d2) && CasesAccepted(cs.rest, d1, d2, seen + Values(cs.vals), dflt || cs.vals == [])
    ensures var b2 := b + Len(cs.body) + 1;
      && b + CasesLen(cs) == b2 + CasesLen(cs.rest)
      && CasesCode(cs, b, d1, d2, seen, dflt) == SCodeOf(cs.body, b, d1, d2) + [ToExit(d1 - 1)]
           + CasesCode(cs.rest, b2, d1, d2, seen + Values(cs.vals), dflt || cs.vals == [])
  {
    hide Code, CodeAll, AssignCode, ControlCode, Resolve, Lift, ResolveExit;
  }

  /** No placeholder and no jump out of the statement, except to enclosing exits and continuations. */
  lemma {:induction false} CodeTidy(s: Stmt, b: nat, d1: nat, d2: nat)
    requires Accepted(s, d1, d2)
    ensures Tidy(SCodeOf(s, b, d1, d2), b, b + Len(s), d1, d2)
    decreases s, 1
  {
    var hi := b + Len(s);
    match s
    case Nop => EmptyTidy(b, hi, d1, d2);
    case AssignStmt(ls, es) =>
      hide Tidy;
      AllNoJumps(es);
      ChainNoJumps(ls, CodeAll(es), |es|);
      LiftTidy(AssignCode(ls, es), b, hi, d1, d2);
    case Seq(_, _) => SeqTidy(s, b, d1, d2);
    case Block(x) => CodeTidy(x, b, d1, d2);
    case If(_, _, _) => IfTidy(s, b, d1, d2);
    case Loop(_, _, _, _, _) => LoopTidy(s, b, d1, d2);
    case Control(k) => OneTidy(ControlCode(k, d1, d2), b, hi, d1, d2);
    case Switch(_, _) => SwitchTidy(s, b, d1, d2);
    case ReturnStmt(es) =>
      hide Tidy;
      AllNoJumps(es);
      OneTidy(Plain(Prog1), b, hi, d1, d2);
      LiftTidy(CodeAll(es), b, hi, d1, d2);
      OneTidy(Plain(Return), b, hi, d1, d2);
      TidyAdd([Plain(Prog1)], Lift(CodeAll(es)), b, hi, d1, d2);
      TidyAdd([Plain(Prog1)] + Lift(CodeAll(es)), [Plain(Return)], b, hi, d1, d2);
  }

  lemma SeqTidy(s: Stmt, b: nat, d1: nat, d2: nat)
    requires s.Seq? && Accepted(s, d1, d2)
    ensures Tidy(SCodeOf(s, b, d1, d2), b, b + Len(s), d1, d2)
    decreases s, 0
  {
    hide Tidy, SCodeOf, Len, Accepted;
    SeqShape(s, b, d1, d2);
    var mid, hi := b + Len(s.first), b + Len(s);
    CodeTidy(s.first, b, d1, d2);
    TidyWider(SCodeOf(s.first, b, d1, d2), b, mid, b, hi, d1, d2);
    CodeTidy(s.rest, mid, d1, d2);
    TidyWider(SCodeOf(s.rest, mid, d1, d2), mid, hi, b, hi, d1, d2);
    TidyAdd(SCodeOf(s.first, b, d1, d2), SCodeOf(s.rest, mid, d1, d2), b, hi, d1, d2);
  }

  lemma EmptyTidy(lo: nat, hi: nat, d1: nat, d2: nat)
    ensures Tidy([], lo, hi, d1, d2)
  {
  }

  lemma IfTidy(s: Stmt, b: nat, d1: nat, d2: nat)
    requires s.If? && Accepted(s, d1, d2)
    ensures Tidy(SCodeOf(s, b, d1, d2), b, b + Len(s), d1, d2)
    decreases s, 0
  {
    hide Tidy, SCodeOf, Len, Accepted, Code, CasesAccepted, CasesLen, CasesCode, LoopCode, TestCode, Resolve, ResolveExit, SwitchHead;
    IfShape(s, b, d1, d2);
    var hi := b + Len(s);
    var n := |Code(s.cond)|;
    var else0 := b + n + 1 + Len(s.then1) + 1;
    var c0 := Lift(Code(s.cond));
    var c1 := SCodeOf(s.then1, b + n + 1, d1, d2);
    var c2 := SCodeOf(s.else0, else0, d1, d2);
    ExprNoJumps(s.cond);
    LiftTidy(Code(s.cond), b, hi, d1, d2);
    OneTidy(Plain(JumpFalse(else0)), b, hi, d1, d2);
    OneTidy(Plain(Jump(else0 + Len(s.else0))), b, hi, d1, d2);
    CodeTidy(s.then1, b + n + 1, d1, d2);
    TidyWider(c1, b + n + 1, else0 - 1, b, hi, d1, d2);
    CodeTidy(s.else0, else0, d1, d2);
    TidyWider(c2, else0, hi, b, hi, d1, d2);
    TidyAdd(c0, [Plain(JumpFalse(else0))], b, hi, d1, d2);
    TidyAdd(c0 + [Plain(JumpFalse(else0))], c1, b, hi, d1, d2);
    TidyAdd(c0 + [Plain(JumpFalse(else0))] + c1, [Plain(Jump(else0 + Len(s.else0)))], b, hi, d1, d2);
    TidyAdd(c0 + [Plain(JumpFalse(else0))] + c1 + [Plain(Jump(else0 + Len(s.else0)))], c2, b, hi, d1, d2);
  }

  lemma LoopTidy(s: Stmt, b: nat, d1: nat, d2: nat)
    requires s.Loop? && Accepted(s, d1, d2)
    ensures Tidy(LoopCode(s, b, d1, d2), b, b + Len(s), d1, d2)
    decreases s, 0
  {
    hide Tidy, SCodeOf, Len, Accepted, Code, CasesAccepted, CasesLen, CasesCode, LoopCode, TestCode, Resolve, ResolveExit, SwitchHead;
    LoopShape(s, b, d1, d2);
    var hi := b + Len(s);
    var j1 := LoopStart(s, b);
    var jc := j1 + Len(s.body);
    var jt := jc + Len(s.fini);
    var c0 := SCodeOf(s.init, b, d1, d2);
    var c1 := LoopEntry(s, jt);
    var c2, c3 := SCodeOf(s.body, j1, d1 + 1, d2 + 1), SCodeOf(s.fini, jc, d1 + 1, d2 + 1);
    CodeTidy(s.init, b, d1, d2);
    TidyWider(c0, b, b + Len(s.init), b, hi, d1, d2);
    if s.kind == Do { EmptyTidy(b, hi, d1, d2); } else { OneTidy(Plain(Jump(jt)), b, hi, d1, d2); }
    CodeTidy(s.body, j1, d1 + 1, d2 + 1);
    TidyWider(c2, j1, jc, b, hi, d1 + 1, d2 + 1);
    CodeTidy(s.fini, jc, d1 + 1, d2 + 1);
    TidyWider(c3, jc, jt, b, hi, d1 + 1, d2 + 1);
    TidyAdd(c2, c3, b, hi, d1 + 1, d2 + 1);
    ResolveTidy(c2 + c3, b, hi, d1, d2, hi, jc);
    TestTidy(s.test, j1, b, hi, d1, d2);
    TidyAdd(c0, c1, b, hi, d1, d2);
    TidyAdd(c0 + c1, Resolve(c2 + c3, d1, hi, d2, jc), b, hi, d1, d2);
    TidyAdd(c0 + c1 + Resolve(c2 + c3, d1, hi, d2, jc), TestCode(s.test, j1), b, hi, d1, d2);
  }

  lemma TestTidy(t: Option<Expr>, j1: nat, lo: nat, hi: nat, d1: nat, d2: nat)
    requires lo <= j1 <= hi
    ensures Tidy(TestCode(t, j1), lo, hi, d1, d2)
  {
    if t.Some? {
      ExprNoJumps(t.value);
      LiftTidy(Code(t.value), lo, hi, d1, d2);
      TidyAdd(Lift(Code(t.value)), [Plain(JumpTrue(j1))], lo, hi, d1, d2);
    }
  }

  lemma {:induction false} CasesTidy(cs: Cases, b: nat, d1: nat, d2: nat, seen: set<Value>, dflt: bool)
    requires d1 > 0 && CasesAccepted(cs, d1, d2, seen, dflt)
    ensures Tidy(CasesCode(cs, b, d1, d2, seen, dflt), b, b + CasesLen(cs), d1, d2)
    decreases cs, 1
  {
    if cs == NoCases {
      EmptyTidy(b, b + CasesLen(cs), d1, d2);
    } else {
      CaseTidy(cs, b, d1, d2, seen, dflt);
    }
  }

  lemma CaseTidy(cs: Cases, b: nat, d1: nat, d2: nat, seen: set<Value>, dflt: bool)
    requires cs.Case? && d1 > 0 && CasesAccepted(cs, d1, d2, seen, dflt)
    ensures Tidy(CasesCode(cs, b, d1, d2, seen, dflt), b, b + CasesLen(cs), d1, d2)
    decreases cs, 0
  {
    hide Tidy, SCodeOf, Len, Accepted, Code, CasesAccepted, CasesLen, CasesCode, LoopCode, TestCode, Resolve, ResolveExit, SwitchHead;
    CaseShape(cs, b, d1, d2, seen, dflt);
    var hi := b + CasesLen(cs);
    var b2 := b + Len(cs.body) + 1;
    var c1 := SCodeOf(cs.body, b, d1, d2);
    var c3 := CasesCode(cs.rest, b2, d1, d2, seen + Values(cs.vals), dflt || cs.vals == []);
    CodeTidy(cs.body, b, d1, d2);
    TidyWider(c1, b, b + Len(cs.body), b, hi, d1, d2);
    OneTidy(ToExit(d1 - 1), b, hi, d1, d2);
    CasesTidy(cs.rest, b2, d1, d2, seen + Values(cs.vals), dflt || cs.vals == []);
    TidyWider(c3, b2, hi, b, hi, d1, d2);
    TidyAdd(c1, [ToExit(d1 - 1)], b, hi, d1, d2);
    TidyAdd(c1 + [ToExit(d1 - 1)], c3, b, hi, d1, d2);
  }

  lemma {:induction false} CaseTargets(cs: Cases, b: nat, exit: nat)
    requires exit == b + CasesLen(cs)
    ensures forall v :: v in CaseMap(cs, b) ==> b <= CaseMap(cs, b)[v] <= exit
    ensures b <= DefaultAt(cs, b, exit) <= exit
  {
    if cs.Case? { CaseTargets(cs.rest, b + Len(cs.body) + 1, exit); }
  }

  lemma SwitchTidy(s: Stmt, b: nat, d1: nat, d2: nat)
    requires s.Switch? && Accepted(s, d1, d2)
    ensures Tidy(SCodeOf(s, b, d1, d2), b, b + Len(s), d1, d2)
    decreases s, 0
  {
    hide Tidy, SCodeOf, Len, Accepted, Code, CasesAccepted, CasesLen, CasesCode, LoopCode, TestCode, Resolve, ResolveExit, SwitchHead;
    SwitchShape(s, b, d1, d2);
    var hi := b + Len(s);
    var first := b + |Code(s.subject)| + 5;
    var head := SwitchHead(s, b);
    var c := CasesCode(s.cases, first, d1 + 1, d2, {}, false);
    ExprNoJumps(s.subject);
    OneTidy(Plain(Prog1), b, hi, d1, d2);
    LiftTidy(Code(s.subject), b, hi, d1, d2);
    CaseTargets(s.cases, first, hi);
    HeadTidy(s, b, d1, d2);
    CasesTidy(s.cases, first, d1 + 1, d2, {}, false);
    TidyWider(c, first, hi, b, hi, d1 + 1, d2);
    ResolveExitTidy(c, b, hi, d1, d2, hi);
    TidyAdd([Plain(Prog1)], Lift(Code(s.subject)), b, hi, d1, d2);
    TidyAdd([Plain(Prog1)] + Lift(Code(s.subject)), head, b, hi, d1, d2);
    TidyAdd([Plain(Prog1)] + Lift(Code(s.subject)) + head, ResolveExit(c, d1, hi), b, hi, d1, d2);
  }

  lemma HeadTidy(s: Stmt, b: nat, d1: nat, d2: nat)
    requires s.Switch? && Accepted(s, d1, d2)
    ensures Tidy(SwitchHead(s, b), b, b + Len(s), d1, d2)
  {
    var first := b + |Code(s.subject)| + 5;
    SwitchShape(s, b, d1, d2);
    CaseTargets(s.cases, first, b + Len(s));
    hide SCodeOf, CaseMap, DefaultAt, CasesCode, CasesAccepted, Code, Len, Lift, ResolveExit, CasesLen, Accepted, Tidy;
    var hi := b + Len(s);
    var t := PushSwitch(CaseMap(s.cases, first), DefaultAt(s.cases, first, hi));
    assert TargetsIn(t, b, hi);
    OneTidy(Plain(PmAdj(1)), b, hi, d1, d2);
    OneTidy(Plain(t), b, hi, d1, d2);
    OneTidy(Plain(Call), b, hi, d1, d2);
    OneTidy(Plain(JumpN), b, hi, d1, d2);
    TidyAdd([Plain(PmAdj(1))], [Plain(t)], b, hi, d1, d2);
    TidyAdd([Plain(Call)], [Plain(JumpN)], b, hi, d1, d2);
    TidyAdd([Plain(PmAdj(1)), Plain(t)], [Plain(Call), Plain(JumpN)], b, hi, d1, d2);
    assert SwitchHead(s, b) == [Plain(PmAdj(1)), Plain(t)] + [Plain(Call), Plain(JumpN)];
  }
}
