/** Running the code of a statement agrees with the statement's structured meaning. */
module ScriptSim {
  import opened ScriptMachine
  import opened ScriptExpr
  import opened ScriptAssign
  import opened ScriptStmt
  import opened ScriptShape

  /** The surroundings of a piece of code: the temporaries and marks below it, and where the enclosing
      exits and continuations are. */
  datatype Ctx = Ctx(m: Sem, code: seq<Inst>, temps: seq<Value>, vbp: seq<nat>, t1: seq<nat>, t2: seq<nat>)

  function At(x: Ctx, pc: int, st: Store): Config {
    Conf(pc, st, x.temps, x.vbp)
  }

  /** After n steps from c the machine is where result r, obtained with fuel f, says: behind the statement at
      address end, at an enclosing exit or continuation, stopped with the returned values, or, if the
      fuel ran out, still running after at least f steps. */
  ghost predicate Agrees(x: Ctx, n: nat, c: Config, r: Result, end: int, f: nat) {
    match r
    case OutOfFuel => n >= f && Run(x.m, x.code, n, c).Running?
    case Ended(Normal, st) => Run(x.m, x.code, n, c) == At(x, end, st)
    case Ended(Brk(d), st) => n > 0 && d < |x.t1| && Run(x.m, x.code, n, c) == At(x, x.t1[|x.t1| - 1 - d], st)
    case Ended(Cont(d), st) => n > 0 && d < |x.t2| && Run(x.m, x.code, n, c) == At(x, x.t2[|x.t2| - 1 - d], st)
    case Ended(Ret(vs), st) => n > 0 && Run(x.m, x.code, n, c) == Done(vs, st.globals)
  }

  /** The code of s stands at address b. */
  ghost predicate Placed(x: Ctx, s: Stmt, b: nat) {
    Accepted(s, |x.t1|, |x.t2|) && Stands(x.code, b, Final(SCodeOf(s, b, |x.t1|, |x.t2|), x.t1, x.t2))
  }

  lemma AgreesAfter(x: Ctx, a: nat, n: nat, c: Config, c1: Config, r: Result, end: int, f: nat)
    requires Run(x.m, x.code, a, c) == c1 && Agrees(x, n, c1, r, end, f)
    ensures Agrees(x, a + n, c, r, end, f)
  {
    RunAdd(x.m, x.code, a, n, c);
  }

  /** Work done with one unit of fuel less, after at least one step. */
  lemma AgreesAfterStep(x: Ctx, a: nat, n: nat, c: Config, c1: Config, r: Result, end: int, f: nat)
    requires a > 0 && f > 0 && Run(x.m, x.code, a, c) == c1 && Agrees(x, n, c1, r, end, f - 1)
    ensures Agrees(x, a + n, c, r, end, f)
  {
    RunAdd(x.m, x.code, a, n, c);
  }

  lemma AtIs(x: Ctx, y: Ctx, pc: int, st: Store)
    ensures At(x, pc, st).Running?
    ensures y.temps == x.temps && y.vbp == x.vbp ==> At(y, pc, st) == At(x, pc, st)
  {
  }

  lemma EvalRuns(x: Ctx, pc: nat, e: Expr, st: Store)
    requires Stands(x.code, pc, Code(e)) && ExprFits(e, |st.locals|)
    ensures var (v, st1) := Eval(x.m, e, st);
      Run(x.m, x.code, |Code(e)|, At(x, pc, st)) == Conf(pc + |Code(e)|, st1, x.temps + [v], x.vbp)
  {
    ExprRuns(x.m, x.code, pc, e, st, x.temps, x.vbp);
  }

  lemma BranchSteps(x: Ctx, pc: nat, v: Value, st: Store)
    requires pc < |x.code|
    ensures x.code[pc].JumpFalse? ==>
      Step(x.m, x.code, Conf(pc, st, x.temps + [v], x.vbp)) == At(x, if x.m.truth(v) then pc + 1 else x.code[pc].t, st)
    ensures x.code[pc].JumpTrue? ==>
      Step(x.m, x.code, Conf(pc, st, x.temps + [v], x.vbp)) == At(x, if x.m.truth(v) then x.code[pc].t else pc + 1, st)
    ensures x.code[pc].Jump? ==> Step(x.m, x.code, At(x, pc, st)) == At(x, x.code[pc].t, st)
  {
    var stk := st.locals + (x.temps + [v]);
    assert stk[|stk| - 1] == v && stk[..|stk| - 1] == st.locals + x.temps;
  }

  /** Evaluating e and branching on it takes |Code(e)| + 1 steps. */
  lemma CondRuns(x: Ctx, pc: nat, e: Expr, i: Inst, st: Store)
    requires Stands(x.code, pc, Code(e) + [i]) && ExprFits(e, |st.locals|) && (i.JumpFalse? || i.JumpTrue?)
    ensures var (v, st1) := Eval(x.m, e, st);
      Run(x.m, x.code, |Code(e)| + 1, At(x, pc, st))
        == At(x, if x.m.truth(v) == i.JumpTrue? then i.t else pc + |Code(e)| + 1, st1)
  {
    hide Stands, Step, Conf, Run, Eval, Code, ExprFits;
    var n := |Code(e)|;
    StandsSplit(x.code, pc, Code(e), [i]);
    StandsAt(x.code, pc + n, [i], 0);
    StandsWithin(x.code, pc + n, [i]);
    EvalRuns(x, pc, e, st);
    var (v, st1) := Eval(x.m, e, st);
    BranchSteps(x, pc + n, v, st1);
    RunAdd(x.m, x.code, n, 1, At(x, pc, st));
    RunOne(x.m, x.code, Conf(pc + n, st1, x.temps + [v], x.vbp));
  }

  lemma JumpRuns(x: Ctx, pc: nat, t: int, st: Store)
    requires Stands(x.code, pc, [Jump(t)])
    ensures Run(x.m, x.code, 1, At(x, pc, st)) == At(x, t, st)
  {
    StandsAt(x.code, pc, [Jump(t)], 0);
    BranchSteps(x, pc, Nil, st);
    RunOne(x.m, x.code, At(x, pc, st));
  }

  // ---------- Where the parts stand ----------

  lemma SeqPlaced(x: Ctx, s: Stmt, b: nat)
    requires s.Seq? && Placed(x, s, b)
    ensures Placed(x, s.first, b) && Placed(x, s.rest, b + Len(s.first)) && Len(s) == Len(s.first) + Len(s.rest)
  {
    hide SCodeOf, Len, Accepted, Stands;
    var d1, d2 := |x.t1|, |x.t2|;
    SeqShape(s, b, d1, d2);
    FinalAdd(SCodeOf(s.first, b, d1, d2), SCodeOf(s.rest, b + Len(s.first), d1, d2), x.t1, x.t2);
    StandsSplit(x.code, b, Final(SCodeOf(s.first, b, d1, d2), x.t1, x.t2), Final(SCodeOf(s.rest, b + Len(s.first), d1, d2), x.t1, x.t2));
  }

  lemma IfPlaced(x: Ctx, s: Stmt, b: nat)
    requires s.If? && Placed(x, s, b)
    ensures var n := |Code(s.cond)|; var else0 := b + n + 1 + Len(s.then1) + 1;
      && b + Len(s) == else0 + Len(s.else0)
      && Stands(x.code, b, Code(s.cond) + [JumpFalse(else0)])
      && Placed(x, s.then1, b + n + 1)
      && Stands(x.code, else0 - 1, [Jump(b + Len(s))])
      && Placed(x, s.else0, else0)
  {
    hide SCodeOf, Len, Accepted, Stands, Code;
    var d1, d2 := |x.t1|, |x.t2|;
    IfShape(s, b, d1, d2);
    var n := |Code(s.cond)|;
    var else0 := b + n + 1 + Len(s.then1) + 1;
    var p0: SCode := Lift(Code(s.cond)) + [Plain(JumpFalse(else0))];
    var p1 := SCodeOf(s.then1, b + n + 1, d1, d2);
    var p2: SCode := [Plain(Jump(else0 + Len(s.else0)))];
    var p3 := SCodeOf(s.else0, else0, d1, d2);
    FinalAdd(p0 + p1 + p2, p3, x.t1, x.t2);
    FinalAdd(p0 + p1, p2, x.t1, x.t2);
    FinalAdd(p0, p1, x.t1, x.t2);
    assert Final(p0, x.t1, x.t2) == Code(s.cond) + [JumpFalse(else0)];
    assert Final(p2, x.t1, x.t2) == [Jump(b + Len(s))];
    var q0, q1, q2, q3 := Final(p0, x.t1, x.t2), Final(p1, x.t1, x.t2), Final(p2, x.t1, x.t2), Final(p3, x.t1, x.t2);
    StandsSplit(x.code, b, q0 + q1 + q2, q3);
    StandsSplit(x.code, b, q0 + q1, q2);
    StandsSplit(x.code, b, q0, q1);
  }

  /** The inside of a loop, whose exit is at b + Len(s) and whose continuation at jc. */
  function Inner(x: Ctx, s: Stmt, b: nat): Ctx
    requires s.Loop?
  {
    x.(t1 := x.t1 + [b + Len(s)], t2 := x.t2 + [LoopStart(s, b) + Len(s.body)])
  }

  function TestInsts(t: Option<Expr>, j1: nat): seq<Inst> {
    if t.Some? then Code(t.value) + [JumpTrue(j1)] else [Jump(j1)]
  }

  ghost predicate LoopPlaced(x: Ctx, s: Stmt, b: nat)
    requires s.Loop?
  {
    var j1 := LoopStart(s, b);
    var jc := j1 + Len(s.body);
    var jt := jc + Len(s.fini);
    && b + Len(s) == jt + TestLen(s.test) + 1
    && Placed(Inner(x, s, b), s.body, j1)
    && Placed(Inner(x, s, b), s.fini, jc)
    && Stands(x.code, jt, TestInsts(s.test, j1))
  }

  lemma LoopParts(x: Ctx, s: Stmt, b: nat)
    requires s.Loop? && Placed(x, s, b)
    ensures LoopPlaced(x, s, b) && Placed(x, s.init, b)
    ensures s.kind != Do ==> LoopStart(s, b) == b + Len(s.init) + 1
    ensures s.kind != Do ==> Stands(x.code, b + Len(s.init), [Jump(LoopStart(s, b) + Len(s.body) + Len(s.fini))])
    ensures s.kind == Do ==> LoopStart(s, b) == b + Len(s.init)
  {
    hide SCodeOf, Len, Accepted, Stands, Code, LoopCode, Tidy, TestLen, TestCode;
    var d1, d2 := |x.t1|, |x.t2|;
    LoopShape(s, b, d1, d2);
    var j1 := LoopStart(s, b);
    var jc := j1 + Len(s.body);
    var jt := jc + Len(s.fini);
    var c0, c1 := SCodeOf(s.init, b, d1, d2), LoopEntry(s, jt);
    var bd, fn := SCodeOf(s.body, j1, d1 + 1, d2 + 1), SCodeOf(s.fini, jc, d1 + 1, d2 + 1);
    var c3 := TestCode(s.test, j1);
    FinalAdd(c0 + c1 + Resolve(bd + fn, d1, b + Len(s), d2, jc), c3, x.t1, x.t2);
    FinalAdd(c0 + c1, Resolve(bd + fn, d1, b + Len(s), d2, jc), x.t1, x.t2);
    FinalAdd(c0, c1, x.t1, x.t2);
    BodyLevels(s, j1, jc, d1, d2);
    FinalResolve(bd + fn, x.t1, x.t2, b + Len(s), jc);
    var y := Inner(x, s, b);
    FinalAdd(bd, fn, y.t1, y.t2);
    FinalTest(s.test, j1, x.t1, x.t2);
    var q0, q1, q2, q3, q4 := Final(c0, x.t1, x.t2), Final(c1, x.t1, x.t2), Final(bd, y.t1, y.t2), Final(fn, y.t1, y.t2), Final(c3, x.t1, x.t2);
    StandsSplit(x.code, b, q0 + q1 + (q2 + q3), q4);
    StandsSplit(x.code, b, q0 + q1, q2 + q3);
    StandsSplit(x.code, b, q0, q1);
    StandsSplit(x.code, j1, q2, q3);
    assert s.kind != Do ==> q1 == [Jump(jt)];
  }

  lemma BodyLevels(s: Stmt, j1: nat, jc: nat, d1: nat, d2: nat)
    requires s.Loop? && Accepted(s.body, d1 + 1, d2 + 1) && Accepted(s.fini, d1 + 1, d2 + 1)
    ensures Levels(SCodeOf(s.body, j1, d1 + 1, d2 + 1) + SCodeOf(s.fini, jc, d1 + 1, d2 + 1), d1 + 1, d2 + 1)
  {
    hide SCodeOf, Len, Accepted, Inside;
    CodeTidy(s.body, j1, d1 + 1, d2 + 1);
    CodeTidy(s.fini, jc, d1 + 1, d2 + 1);
  }

  lemma FinalTest(t: Option<Expr>, j1: nat, t1: seq<nat>, t2: seq<nat>)
    ensures Final(TestCode(t, j1), t1, t2) == TestInsts(t, j1)
  {
    if t.Some? {
      FinalAdd(Lift(Code(t.value)), [Plain(JumpTrue(j1))], t1, t2);
      FinalLift(Code(t.value), t1, t2);
    }
  }

  // ---------- Straight statements ----------

  lemma AssignAgrees(x: Ctx, s: Stmt, b: nat, f: nat, st: Store)
    requires s.AssignStmt? && Placed(x, s, b) && Fits(s, |st.locals|)
    ensures Agrees(x, Len(s), At(x, b, st), Exec(x.m, s, f, st), b + Len(s), f)
  {
    FinalLift(AssignCode(s.ls, s.es), x.t1, x.t2);
    hide AssignCode, Stands, Conf, ListsFit;
    AssignRuns(x.m, x.code, b, s.ls, s.es, st, x.temps, x.vbp);
  }

  lemma ControlAgrees(x: Ctx, s: Stmt, b: nat, f: nat, st: Store)
    requires s.Control? && Placed(x, s, b)
    ensures Agrees(x, 1, At(x, b, st), Exec(x.m, s, f, st), b + Len(s), f)
  {
    var i := ControlCode(s.k, |x.t1|, |x.t2|);
    assert Final([i], x.t1, x.t2) == [FinalInst(i, x.t1, x.t2)];
    JumpRuns(x, b, FinalInst(i, x.t1, x.t2).t, st);
  }

  lemma ReturnPlaced(x: Ctx, s: Stmt, b: nat)
    requires s.ReturnStmt? && Placed(x, s, b)
    ensures var n := |CodeAll(s.es)|;
      && Len(s) == n + 2 && b + 1 + n < |x.code| && x.code[b] == Prog1 && x.code[b + 1 + n] == Return
      && Stands(x.code, b + 1, CodeAll(s.es))
  {
    var c := CodeAll(s.es);
    assert Len(s) == |c| + 2;
    assert Final(SCodeOf(s, b, |x.t1|, |x.t2|), x.t1, x.t2) == [Prog1] + c + [Return];
    hide SCodeOf, Final, Len, Stands, CodeAll;
    StandsWithin(x.code, b, [Prog1] + c + [Return]);
    StandsSplit(x.code, b, [Prog1] + c, [Return]);
    StandsSplit(x.code, b, [Prog1], c);
    StandsAt(x.code, b, [Prog1], 0);
    StandsAt(x.code, b + 1 + |c|, [Return], 0);
  }

  lemma ReturnAgrees(x: Ctx, s: Stmt, b: nat, f: nat, st: Store)
    requires s.ReturnStmt? && Placed(x, s, b) && Fits(s, |st.locals|)
    ensures Agrees(x, Len(s), At(x, b, st), Exec(x.m, s, f, st), b + Len(s), f)
  {
    hide Stands, Conf, Step, CodeAll, Placed, ExprFits, Run, EvalAll, Len;
    ReturnPlaced(x, s, b);
    var n := |CodeAll(s.es)|;
    var (vs, st1) := EvalAll(x.m, s.es, st);
    var mark := |st.locals + x.temps|;
    var c0 := At(x, b, st);
    ReturnSteps(x, b, n, vs, st, st1);
    AllRun(x.m, x.code, b + 1, s.es, st, x.temps, x.vbp + [mark]);
    RunOne(x.m, x.code, c0);
    RunAdd(x.m, x.code, 1, n, c0);
    RunAdd(x.m, x.code, 1 + n, 1, c0);
    RunOne(x.m, x.code, Conf(b + 1 + n, st1, x.temps + vs, x.vbp + [mark]));
  }

  lemma ReturnSteps(x: Ctx, b: nat, n: nat, vs: seq<Value>, st: Store, st1: Store)
    requires b + 1 + n < |x.code| && x.code[b] == Prog1 && x.code[b + 1 + n] == Return && |st1.locals| == |st.locals|
    ensures var mark := |st.locals + x.temps|;
      && Step(x.m, x.code, At(x, b, st)) == Conf(b + 1, st, x.temps, x.vbp + [mark])
      && Step(x.m, x.code, Conf(b + 1 + n, st1, x.temps + vs, x.vbp + [mark])) == Done(vs, st1.globals)
  {
    var mark := |st.locals + x.temps|;
    assert (st1.locals + (x.temps + vs))[mark..] == vs;
    assert (x.vbp + [mark])[|x.vbp + [mark]| - 1] == mark;
  }

  // ---------- Switch ----------

  /** The inside of a switch, whose exit is at b + Len(s). */
  function InnerSwitch(x: Ctx, s: Stmt, b: nat): Ctx
    requires s.Switch?
  {
    x.(t1 := x.t1 + [b + Len(s)])
  }

  ghost predicate CasesPlaced(x: Ctx, cs: Cases, b: nat, seen: set<Value>, dflt: bool) {
    && |x.t1| > 0 && CasesAccepted(cs, |x.t1|, |x.t2|, seen, dflt)
    && Stands(x.code, b, Final(CasesCode(cs, b, |x.t1|, |x.t2|, seen, dflt), x.t1, x.t2))
  }

  lemma SwitchPlaced(x: Ctx, s: Stmt, b: nat)
    requires s.Switch? && Placed(x, s, b)
    ensures var n := |Code(s.subject)|; var first := b + n + 5;
      && first + CasesLen(s.cases) == b + Len(s)
      && Stands(x.code, b, [Prog1]) && Stands(x.code, b + 1, Code(s.subject))
      && Stands(x.code, b + 1 + n, [PmAdj(1), PushSwitch(CaseMap(s.cases, first), DefaultAt(s.cases, first, b + Len(s))), Call, JumpN])
      && CasesPlaced(InnerSwitch(x, s, b), s.cases, first, {}, false)
  {
    hide SCodeOf, Len, Accepted, Stands, Code, CasesCode, CasesAccepted, CaseMap, DefaultAt;
    var d1, d2 := |x.t1|, |x.t2|;
    SwitchShape(s, b, d1, d2);
    var n := |Code(s.subject)|;
    var first := b + n + 5;
    var p0: SCode, p1, p2 := [Plain(Prog1)], Lift(Code(s.subject)), SwitchHead(s, b);
    var cc := CasesCode(s.cases, first, d1 + 1, d2, {}, false);
    FinalAdd(p0 + p1 + p2, ResolveExit(cc, d1, b + Len(s)), x.t1, x.t2);
    FinalAdd(p0 + p1, p2, x.t1, x.t2);
    FinalAdd(p0, p1, x.t1, x.t2);
    FinalLift(Code(s.subject), x.t1, x.t2);
    CasesLevels(s.cases, first, d1 + 1, d2);
    FinalResolveExit(cc, x.t1, x.t2, b + Len(s));
    var head := [PmAdj(1), PushSwitch(CaseMap(s.cases, first), DefaultAt(s.cases, first, b + Len(s))), Call, JumpN];
    assert Final(p0, x.t1, x.t2) == [Prog1] && Final(p2, x.t1, x.t2) == head;
    var q := Final(cc, x.t1 + [b + Len(s)], x.t2);
    StandsSplit(x.code, b, [Prog1] + Code(s.subject) + head, q);
    StandsSplit(x.code, b, [Prog1] + Code(s.subject), head);
    StandsSplit(x.code, b, [Prog1], Code(s.subject));
  }

  lemma CasesLevels(cs: Cases, b: nat, d1: nat, d2: nat)
    requires d1 > 0 && CasesAccepted(cs, d1, d2, {}, false)
    ensures Levels(CasesCode(cs, b, d1, d2, {}, false), d1, d2)
  {
    hide CasesCode, CasesAccepted, Inside;
    CasesTidy(cs, b, d1, d2, {}, false);
  }

  lemma CasePlaced(x: Ctx, cs: Cases, b: nat, seen: set<Value>, dflt: bool)
    requires cs.Case? && CasesPlaced(x, cs, b, seen, dflt)
    ensures CaseAt(x, cs.body, b)
    ensures CasesPlaced(x, cs.rest, b + Len(cs.body) + 1, seen + Values(cs.vals), dflt || cs.vals == [])
  {
    hide SCodeOf, Len, Accepted, Stands, CasesCode, CasesAccepted;
    var d1, d2 := |x.t1|, |x.t2|;
    CaseShape(cs, b, d1, d2, seen, dflt);
    var p0, p1 := SCodeOf(cs.body, b, d1, d2), [ToExit(d1 - 1)];
    var p2 := CasesCode(cs.rest, b + Len(cs.body) + 1, d1, d2, seen + Values(cs.vals), dflt || cs.vals == []);
    FinalAdd(p0 + p1, p2, x.t1, x.t2);
    FinalAdd(p0, p1, x.t1, x.t2);
    assert Final(p1, x.t1, x.t2) == [Jump(x.t1[|x.t1| - 1])];
    StandsSplit(x.code, b, Final(p0, x.t1, x.t2) + Final(p1, x.t1, x.t2), Final(p2, x.t1, x.t2));
    StandsSplit(x.code, b, Final(p0, x.t1, x.t2), Final(p1, x.t1, x.t2));
  }

  /** Where the case with body sel stands. */
  ghost predicate CaseAt(x: Ctx, sel: Stmt, a: nat) {
    |x.t1| > 0 && Placed(x, sel, a) && Stands(x.code, a + Len(sel), [Jump(x.t1[|x.t1| - 1])])
  }

  lemma {:induction false} FoundCase(x: Ctx, cs: Cases, b: nat, v: Value, seen: set<Value>, dflt: bool)
    requires CasesPlaced(x, cs, b, seen, dflt)
    ensures v in CaseMap(cs, b) <==> FindCase(cs, v).Some?
    ensures v in CaseMap(cs, b) ==> CaseMap(cs, b)[v] >= 0 && CaseAt(x, FindCase(cs, v).value, CaseMap(cs, b)[v])
    decreases cs
  {
    hide CasesPlaced, Placed, CaseAt;
    if cs.Case? {
      CasePlaced(x, cs, b, seen, dflt);
      FoundCase(x, cs.rest, b + Len(cs.body) + 1, v, seen + Values(cs.vals), dflt || cs.vals == []);
    }
  }

  lemma {:induction false} FoundDefault(x: Ctx, cs: Cases, b: nat, exit: nat, seen: set<Value>, dflt: bool)
    requires CasesPlaced(x, cs, b, seen, dflt)
    ensures FindDefault(cs).None? ==> DefaultAt(cs, b, exit) == exit
    ensures FindDefault(cs).Some? ==> CaseAt(x, FindDefault(cs).value, DefaultAt(cs, b, exit))
    decreases cs
  {
    hide CasesPlaced, Placed, CaseAt;
    if cs.Case? {
      CasePlaced(x, cs, b, seen, dflt);
      FoundDefault(x, cs.rest, b + Len(cs.body) + 1, exit, seen + Values(cs.vals), dflt || cs.vals == []);
    }
  }

  /** The switch head jumps to the selected case, or behind the switch if there is none. */
  lemma HeadSteps(x: Ctx, pc: nat, cases: map<Value, int>, dflt: int, v: Value, st: Store, mark: nat)
    requires pc + 4 <= |x.code| && x.code[pc] == PmAdj(1) && x.code[pc + 1] == PushSwitch(cases, dflt)
    requires x.code[pc + 2] == Call && x.code[pc + 3] == JumpN && mark == |st.locals + x.temps|
    ensures var c := Conf(pc, st, x.temps + [v], x.vbp + [mark]);
      Step(x.m, x.code, Step(x.m, x.code, Step(x.m, x.code, Step(x.m, x.code, c))))
        == At(x, if v in cases then cases[v] else dflt, st)
  {
    var t := if v in cases then cases[v] else dflt;
    var base := st.locals + x.temps;
    assert st.locals + (x.temps + [v]) == base + [v];
    hide Step;
    PmAdjStep(x, pc, base, v, st.globals);
    PushSwitchStep(x, pc + 1, base + [v], x.vbp + [mark], st.globals);
    CallStep(x, Running(pc + 2, base + [v] + [Callable(pc + 1)], x.vbp + [mark], st.globals), pc, base, v, t);
    JumpNStep(x, pc + 3, base, t, st.globals);
  }

  lemma PmAdjStep(x: Ctx, pc: nat, base: seq<Value>, v: Value, g: map<string, Value>)
    requires pc < |x.code| && x.code[pc] == PmAdj(1)
    ensures Step(x.m, x.code, Running(pc, base + [v], x.vbp + [|base|], g)) == Running(pc + 1, base + [v], x.vbp + [|base|], g)
  {
    var vbp := x.vbp + [|base|];
    assert vbp[|vbp| - 1] == |base| && vbp[..|vbp| - 1] == x.vbp;
  }

  lemma PushSwitchStep(x: Ctx, pc: nat, stk: seq<Value>, vbp: seq<nat>, g: map<string, Value>)
    requires pc < |x.code| && x.code[pc].PushSwitch?
    ensures Step(x.m, x.code, Running(pc, stk, vbp, g)) == Running(pc + 1, stk + [Callable(pc)], vbp, g)
  {
  }

  lemma JumpNStep(x: Ctx, pc: nat, base: seq<Value>, t: int, g: map<string, Value>)
    requires pc < |x.code| && x.code[pc] == JumpN
    ensures Step(x.m, x.code, Running(pc, base + [Int(t)], x.vbp, g)) == Running(t, base, x.vbp, g)
  {
    assert (base + [Int(t)])[..|base|] == base;
  }

  lemma CallStep(x: Ctx, c: Config, pc: nat, base: seq<Value>, v: Value, t: int)
    requires c.Running? && c.pc == pc + 2 && pc + 4 <= |x.code| && x.code[pc + 1].PushSwitch? && x.code[pc + 2] == Call
    requires c.stk == base + [v] + [Callable(pc + 1)] && c.vbp == x.vbp + [|base|] && t == Target(x.code[pc + 1], v)
    ensures Step(x.m, x.code, c) == Running(pc + 3, base + [Int(t)], x.vbp, c.globals)
  {
    var k := |c.stk|;
    assert c.vbp[|c.vbp| - 1] == |base| && c.vbp[..|c.vbp| - 1] == x.vbp;
    assert c.stk[..k - 1][k - 2 := Int(t)] == base + [Int(t)];
    assert (base + [Int(t)])[..|base| + 1] == base + [Int(t)];
  }

  lemma SwitchRuns(x: Ctx, s: Stmt, b: nat, st: Store)
    requires s.Switch? && Placed(x, s, b) && Fits(s, |st.locals|)
    ensures var (v, st1) := Eval(x.m, s.subject, st);
      var first := b + |Code(s.subject)| + 5;
      var cm := CaseMap(s.cases, first);
      Run(x.m, x.code, |Code(s.subject)| + 5, At(x, b, st))
        == At(x, if v in cm then cm[v] else DefaultAt(s.cases, first, b + Len(s)), st1)
  {
    hide Stands, Conf, Step, Run, Eval, Code, Placed, CaseMap, DefaultAt, Len;
    SwitchPlaced(x, s, b);
    var n := |Code(s.subject)|;
    var first := b + n + 5;
    var cm, da := CaseMap(s.cases, first), DefaultAt(s.cases, first, b + Len(s));
    var head := [PmAdj(1), PushSwitch(cm, da), Call, JumpN];
    var (v, st1) := Eval(x.m, s.subject, st);
    var mark := |st.locals + x.temps|;
    var c0 := At(x, b, st);
    StandsAt(x.code, b, [Prog1], 0);
    StandsWithin(x.code, b, [Prog1]);
    MarkStep(x, b, st);
    RunOne(x.m, x.code, c0);
    ExprRuns(x.m, x.code, b + 1, s.subject, st, x.temps, x.vbp + [mark]);
    RunAdd(x.m, x.code, 1, n, c0);
    StandsWithin(x.code, b + 1 + n, head);
    StandsAt(x.code, b + 1 + n, head, 0);
    StandsAt(x.code, b + 1 + n, head, 1);
    StandsAt(x.code, b + 1 + n, head, 2);
    StandsAt(x.code, b + 1 + n, head, 3);
    HeadSteps(x, b + 1 + n, cm, da, v, st1, mark);
    RunFour(x.m, x.code, Conf(b + 1 + n, st1, x.temps + [v], x.vbp + [mark]));
    RunAdd(x.m, x.code, 1 + n, 4, c0);
  }

  lemma MarkStep(x: Ctx, pc: nat, st: Store)
    requires pc < |x.code| && x.code[pc] == Prog1
    ensures Step(x.m, x.code, At(x, pc, st)) == Conf(pc + 1, st, x.temps, x.vbp + [|st.locals + x.temps|])
  {
  }

  lemma RunFour(m: Sem, code: seq<Inst>, c: Config)
    ensures Run(m, code, 4, c) == Step(m, code, Step(m, code, Step(m, code, Step(m, code, c))))
  {
    RunOne(m, code, Step(m, code, Step(m, code, Step(m, code, c))));
    assert Run(m, code, 3, Step(m, code, c)) == Run(m, code, 2, Step(m, code, Step(m, code, c)));
  }

  // ---------- The simulation ----------

  /** For every fuel, the code of s agrees with its meaning; n is the number of steps taken. */
  lemma {:induction false} StmtRuns(x: Ctx, s: Stmt, b: nat, f: nat, st: Store) returns (n: nat)
    requires Placed(x, s, b) && Fits(s, |st.locals|)
    ensures Agrees(x, n, At(x, b, st), Exec(x.m, s, f, st), b + Len(s), f)
    decreases f, s, 6
  {
    match s
    case Nop =>
      n := 0;
    case AssignStmt(_, _) =>
      AssignAgrees(x, s, b, f, st);
      n := Len(s);
    case Seq(_, _) =>
      n := SeqRuns(x, s, b, f, st);
    case Block(a) =>
      assert Placed(x, a, b);
      n := StmtRuns(x, a, b, f, st);
    case If(_, _, _) =>
      n := IfRuns(x, s, b, f, st);
    case Loop(_, _, _, _, _) =>
      n := LoopRuns(x, s, b, f, st);
    case Control(_) =>
      ControlAgrees(x, s, b, f, st);
      n := 1;
    case Switch(_, _) =>
      n := SwitchStmtRuns(x, s, b, f, st);
    case ReturnStmt(_) =>
      ReturnAgrees(x, s, b, f, st);
      n := Len(s);
  }

  lemma SeqRuns(x: Ctx, s: Stmt, b: nat, f: nat, st: Store) returns (n: nat)
    requires s.Seq? && Placed(x, s, b) && Fits(s, |st.locals|)
    ensures Agrees(x, n, At(x, b, st), Exec(x.m, s, f, st), b + Len(s), f)
    decreases f, s, 5
  {
    hide Placed, Len, Run;
    SeqPlaced(x, s, b);
    n := StmtRuns(x, s.first, b, f, st);
    var r := Exec(x.m, s.first, f, st);
    if r.Ended? && r.o == Normal {
      var k := StmtRuns(x, s.rest, b + Len(s.first), f, r.st);
      AgreesAfter(x, n, k, At(x, b, st), At(x, b + Len(s.first), r.st), Exec(x.m, s.rest, f, r.st), b + Len(s), f);
      n := n + k;
    }
  }

  lemma IfRuns(x: Ctx, s: Stmt, b: nat, f: nat, st: Store) returns (n: nat)
    requires s.If? && Placed(x, s, b) && Fits(s, |st.locals|)
    ensures Agrees(x, n, At(x, b, st), Exec(x.m, s, f, st), b + Len(s), f)
    decreases f, s, 5
  {
    hide Placed, Len, Run, Code, Stands, Eval, Conf, At;
    IfPlaced(x, s, b);
    var a := |Code(s.cond)| + 1;
    var else0 := b + a + Len(s.then1) + 1;
    CondRuns(x, b, s.cond, JumpFalse(else0), st);
    var (v, st1) := Eval(x.m, s.cond, st);
    if x.m.truth(v) {
      var k := StmtRuns(x, s.then1, b + a, f, st1);
      var r := Exec(x.m, s.then1, f, st1);
      if r.Ended? && r.o == Normal {
        JumpRuns(x, else0 - 1, b + Len(s), r.st);
        RunAdd(x.m, x.code, k, 1, At(x, b + a, st1));
        k := k + 1;
      }
      AgreesAfter(x, a, k, At(x, b, st), At(x, b + a, st1), r, b + Len(s), f);
      n := a + k;
    } else {
      var k := StmtRuns(x, s.else0, else0, f, st1);
      AgreesAfter(x, a, k, At(x, b, st), At(x, else0, st1), Exec(x.m, s.else0, f, st1), b + Len(s), f);
      n := a + k;
    }
  }

  lemma LoopRuns(x: Ctx, s: Stmt, b: nat, f: nat, st: Store) returns (n: nat)
    requires s.Loop? && Placed(x, s, b) && Fits(s, |st.locals|)
    ensures Agrees(x, n, At(x, b, st), Exec(x.m, s, f, st), b + Len(s), f)
    decreases f, s, 5
  {
    hide Placed, Len, Run, Stands, Conf, At, LoopPlaced;
    LoopParts(x, s, b);
    n := StmtRuns(x, s.init, b, f, st);
    var r := Exec(x.m, s.init, f, st);
    if r.Ended? && r.o == Normal {
      var j1 := LoopStart(s, b);
      if s.kind == Do {
        var k := BodyRuns(x, s, b, f, r.st);
        AgreesAfter(x, n, k, At(x, b, st), At(x, j1, r.st), LoopBody(x.m, s, f, r.st), b + Len(s), f);
        n := n + k;
      } else {
        var jt := j1 + Len(s.body) + Len(s.fini);
        JumpRuns(x, b + Len(s.init), jt, r.st);
        RunAdd(x.m, x.code, n, 1, At(x, b, st));
        var k := TestRuns(x, s, b, f, r.st);
        AgreesAfter(x, n + 1, k, At(x, b, st), At(x, jt, r.st), LoopTest(x.m, s, f, r.st), b + Len(s), f);
        n := n + 1 + k;
      }
    }
  }

  /** What a loop's body or fini did, seen from outside the loop. */
  lemma LeaveAgrees(x: Ctx, s: Stmt, b: nat, n: nat, c: Config, r: Result, end: int, f: nat)
    requires s.Loop? && Agrees(Inner(x, s, b), n, c, r, end, f)
    requires r.Ended? ==> r.o != Normal && r.o != Cont(0)
    ensures Agrees(x, n, c, LeaveLoop(r), b + Len(s), f)
  {
    hide Run, Conf;
  }

  lemma BodyRuns(x: Ctx, s: Stmt, b: nat, f: nat, st: Store) returns (n: nat)
    requires s.Loop? && LoopPlaced(x, s, b) && Fits(s, |st.locals|)
    ensures Agrees(x, n, At(x, LoopStart(s, b), st), LoopBody(x.m, s, f, st), b + Len(s), f)
    decreases f, s, 4
  {
    hide Placed, Len, Run, Stands, Conf;
    var y := Inner(x, s, b);
    var j1 := LoopStart(s, b);
    var jc := j1 + Len(s.body);
    n := StmtRuns(y, s.body, j1, f, st);
    var r := Exec(x.m, s.body, f, st);
    if r.Ended? && (r.o == Normal || r.o == Cont(0)) {
      var k := FiniRuns(x, s, b, f, r.st);
      AgreesAfter(x, n, k, At(x, j1, st), At(x, jc, r.st), LoopFini(x.m, s, f, r.st), b + Len(s), f);
      n := n + k;
    } else {
      LeaveAgrees(x, s, b, n, At(x, j1, st), r, jc, f);
    }
  }

  lemma FiniRuns(x: Ctx, s: Stmt, b: nat, f: nat, st: Store) returns (n: nat)
    requires s.Loop? && LoopPlaced(x, s, b) && Fits(s, |st.locals|)
    ensures Agrees(x, n, At(x, LoopStart(s, b) + Len(s.body), st), LoopFini(x.m, s, f, st), b + Len(s), f)
    decreases f, s, 3
  {
    hide Placed, Len, Run, Stands, Conf;
    var y := Inner(x, s, b);
    var jc := LoopStart(s, b) + Len(s.body);
    var jt := jc + Len(s.fini);
    n := StmtRuns(y, s.fini, jc, f, st);
    var r := Exec(x.m, s.fini, f, st);
    if r.Ended? && r.o == Normal {
      var k := TestRuns(x, s, b, f, r.st);
      AgreesAfter(x, n, k, At(x, jc, st), At(x, jt, r.st), LoopTest(x.m, s, f, r.st), b + Len(s), f);
      n := n + k;
    } else if r.Ended? && r.o == Cont(0) {
      AtIs(x, x, jc, r.st);
      if f > 0 {
        var k := FiniRuns(x, s, b, f - 1, r.st);
        AgreesAfterStep(x, n, k, At(x, jc, st), At(x, jc, r.st), LoopFini(x.m, s, f - 1, r.st), b + Len(s), f);
        n := n + k;
      }
    } else {
      LeaveAgrees(x, s, b, n, At(x, jc, st), r, jt, f);
    }
  }

  /** The test at jt: one pass evaluates it and either goes back to j1 or leaves. */
  lemma TestSteps(x: Ctx, s: Stmt, b: nat, st: Store) returns (n: nat)
    requires s.Loop? && LoopPlaced(x, s, b) && Fits(s, |st.locals|)
    ensures n > 0
    ensures var (t, st1) := TestLoop(x.m, s, st);
      Run(x.m, x.code, n, At(x, LoopStart(s, b) + Len(s.body) + Len(s.fini), st))
        == At(x, if t then LoopStart(s, b) else b + Len(s), st1)
  {
    hide Placed, Len, Run, Stands, Conf, At, Eval;
    var j1 := LoopStart(s, b);
    var jt := j1 + Len(s.body) + Len(s.fini);
    if s.test.Some? {
      CondRuns(x, jt, s.test.value, JumpTrue(j1), st);
      n := |Code(s.test.value)| + 1;
    } else {
      JumpRuns(x, jt, j1, st);
      n := 1;
    }
  }

  lemma TestRuns(x: Ctx, s: Stmt, b: nat, f: nat, st: Store) returns (n: nat)
    requires s.Loop? && LoopPlaced(x, s, b) && Fits(s, |st.locals|)
    ensures Agrees(x, n, At(x, LoopStart(s, b) + Len(s.body) + Len(s.fini), st), LoopTest(x.m, s, f, st), b + Len(s), f)
    decreases f, s, 2
  {
    hide Placed, Len, Run, Stands, Conf, LoopPlaced;
    var j1 := LoopStart(s, b);
    var c := At(x, j1 + Len(s.body) + Len(s.fini), st);
    n := TestSteps(x, s, b, st);
    var (t, st1) := TestLoop(x.m, s, st);
    AtIs(x, x, j1, st1);
    if t && f > 0 {
      var k := BodyRuns(x, s, b, f - 1, st1);
      AgreesAfterStep(x, n, k, c, At(x, j1, st1), LoopBody(x.m, s, f - 1, st1), b + Len(s), f);
      n := n + k;
    }
  }

  lemma LeaveSwitchAgrees(x: Ctx, s: Stmt, b: nat, n: nat, c: Config, r: Result, f: nat)
    requires s.Switch? && Agrees(InnerSwitch(x, s, b), n, c, r, b + Len(s), f)
    ensures Agrees(x, n, c, LeaveSwitch(r), b + Len(s), f)
  {
    hide Run, Conf;
  }

  /** The address the switch jumps to holds the selected case, followed by a jump to the exit. */
  lemma SelectedPlaced(x: Ctx, s: Stmt, b: nat, v: Value)
    requires s.Switch? && Placed(x, s, b)
    ensures var first := b + |Code(s.subject)| + 5;
      var cm := CaseMap(s.cases, first);
      var t: int := if v in cm then cm[v] else DefaultAt(s.cases, first, b + Len(s));
      match Selected(s.cases, v)
      case Some(sel) => t >= 0 && CaseAt(InnerSwitch(x, s, b), sel, t)
      case None => t == b + Len(s)
  {
    hide Placed, Len, Stands, CaseMap, DefaultAt, Code, CaseAt, CasesPlaced, FindCase, FindDefault;
    var first := b + |Code(s.subject)| + 5;
    SwitchPlaced(x, s, b);
    FoundCase(InnerSwitch(x, s, b), s.cases, first, v, {}, false);
    FoundDefault(InnerSwitch(x, s, b), s.cases, first, b + Len(s), {}, false);
  }

  lemma {:induction false} SelectedFits(cs: Cases, v: Value, nl: nat)
    requires CasesFit(cs, nl)
    ensures FindCase(cs, v).Some? ==> Fits(FindCase(cs, v).value, nl)
    ensures FindDefault(cs).Some? ==> Fits(FindDefault(cs).value, nl)
  {
    if cs.Case? { SelectedFits(cs.rest, v, nl); }
  }

  lemma SwitchStmtRuns(x: Ctx, s: Stmt, b: nat, f: nat, st: Store) returns (n: nat)
    requires s.Switch? && Placed(x, s, b) && Fits(s, |st.locals|)
    ensures Agrees(x, n, At(x, b, st), Exec(x.m, s, f, st), b + Len(s), f)
    decreases f, s, 5
  {
    hide Placed, Len, Run, Stands, Conf, CaseMap, DefaultAt, Code, Eval, LeaveSwitch, At, FindCase, FindDefault;
    var (v, st1) := Eval(x.m, s.subject, st);
    var a := |Code(s.subject)| + 5;
    var y := InnerSwitch(x, s, b);
    SwitchRuns(x, s, b, st);
    SelectedPlaced(x, s, b, v);
    SelectedFits(s.cases, v, |st.locals|);
    var sel := Selected(s.cases, v);
    if sel.Some? {
      var first := b + |Code(s.subject)| + 5;
      var t: nat := if v in CaseMap(s.cases, first) then CaseMap(s.cases, first)[v] else DefaultAt(s.cases, first, b + Len(s));
      var k := CaseRuns(y, s, b, sel.value, t, f, st1);
      var r := Exec(x.m, sel.value, f, st1);
      AtIs(x, y, t, st1);
      LeaveSwitchAgrees(x, s, b, k, At(x, t, st1), r, f);
      AgreesAfter(x, a, k, At(x, b, st), At(x, t, st1), LeaveSwitch(r), b + Len(s), f);
      n := a + k;
    } else {
      n := a;
    }
  }

  /** A case body followed by its jump to the exit of the switch. */
  lemma CaseRuns(y: Ctx, s: Stmt, b: nat, sel: Stmt, t: nat, f: nat, st: Store) returns (k: nat)
    requires sel < s && CaseAt(y, sel, t) && Fits(sel, |st.locals|) && y.t1[|y.t1| - 1] == b + Len(s)
    ensures Agrees(y, k, At(y, t, st), Exec(y.m, sel, f, st), b + Len(s), f)
    decreases f, s, 4
  {
    hide Placed, Len, Run, Stands, Conf, At;
    k := StmtRuns(y, sel, t, f, st);
    var r := Exec(y.m, sel, f, st);
    if r.Ended? && r.o == Normal {
      JumpRuns(y, t + Len(sel), b + Len(s), r.st);
      RunAdd(y.m, y.code, k, 1, At(y, t, st));
      k := k + 1;
    }
  }

  // ---------- Whole functions ----------

  /** The code of a function body: its code with no exits left to fill in, then HALT. */
  function FunctionCode(s: Stmt): seq<Inst>
    requires Accepted(s, 0, 0)
  {
    Final(SCodeOf(s, 0, 0, 0), [], []) + [Halt]
  }

  lemma PlainFinal(c: SCode, hi: nat)
    requires Tidy(c, 0, hi, 0, 0)
    ensures forall i :: 0 <= i < |c| ==> c[i] == Plain(Final(c, [], [])[i]) && TargetsIn(Final(c, [], [])[i], 0, hi)
    ensures TargetsIn(Halt, 0, hi)
  {
    forall i | 0 <= i < |c| ensures c[i] == Plain(Final(c, [], [])[i]) && TargetsIn(Final(c, [], [])[i], 0, hi) {
      assert c[i].Plain?;
    }
  }

  /** No placeholder target survives and no jump leaves the function's own code. */
  lemma JumpsStayInside(s: Stmt)
    requires Accepted(s, 0, 0)
    ensures forall i :: 0 <= i < |FunctionCode(s)| ==> TargetsIn(FunctionCode(s)[i], 0, |FunctionCode(s)| - 1)
    ensures forall i :: 0 <= i < Len(s) ==> SCodeOf(s, 0, 0, 0)[i] == Plain(FunctionCode(s)[i])
  {
    CodeTidy(s, 0, 0, 0);
    hide SCodeOf, Len, Accepted, TargetsIn, Final, Tidy;
    PlainFinal(SCodeOf(s, 0, 0, 0), Len(s));
  }

  /** What a caller sees of a finished function. */
  function Visible(r: Result): Option<Config>
  {
    match r
    case Ended(Normal, st) => Some(Done([], st.globals))
    case Ended(Ret(vs), st) => Some(Done(vs, st.globals))
    case _ => None
  }

  lemma FunctionRuns(m: Sem, s: Stmt, f: nat, st: Store) returns (n: nat)
    requires Accepted(s, 0, 0) && Fits(s, |st.locals|)
    ensures var r := Exec(m, s, f, st);
      && (r == OutOfFuel || Visible(r).Some?)
      && (Visible(r).Some? ==> Run(m, FunctionCode(s), n, Conf(0, st, [], [])) == Visible(r).value)
      && (r == OutOfFuel ==> n >= f && Run(m, FunctionCode(s), n, Conf(0, st, [], [])).Running?)
  {
    hide FunctionCode, Exec, SCodeOf, Final, Accepted, Fits, Placed, Run, Conf;
    var code := FunctionCode(s);
    var x := Ctx(m, code, [], [], [], []);
    BodyPlaced(m, s);
    n := StmtRuns(x, s, 0, f, st);
    var r := Exec(m, s, f, st);
    if r.Ended? && r.o == Normal {
      HaltRuns(x, Len(s), r.st);
      RunAdd(m, code, n, 1, At(x, 0, st));
      n := n + 1;
    }
  }

  lemma BodyPlaced(m: Sem, s: Stmt)
    requires Accepted(s, 0, 0)
    ensures Placed(Ctx(m, FunctionCode(s), [], [], [], []), s, 0)
    ensures |FunctionCode(s)| == Len(s) + 1 && FunctionCode(s)[Len(s)] == Halt
  {
    hide SCodeOf, Len, Accepted;
    var body := Final(SCodeOf(s, 0, 0, 0), [], []);
    assert FunctionCode(s)[..|body|] == body;
  }

  lemma HaltRuns(x: Ctx, pc: nat, st: Store)
    requires pc < |x.code| && x.code[pc] == Halt
    ensures Run(x.m, x.code, 1, At(x, pc, st)) == Done([], st.globals)
  {
    RunOne(x.m, x.code, At(x, pc, st));
  }

  /** The generated function stops with exactly the results its statements' meaning gives, and runs for ever
      if that meaning is never reached. */
  lemma LoweringPreservesMeaning(m: Sem, s: Stmt, st: Store, out: Config)
    requires Accepted(s, 0, 0) && Fits(s, |st.locals|) && !out.Running?
    ensures (exists n: nat :: Run(m, FunctionCode(s), n, Conf(0, st, [], [])) == out)
       <==> (exists f: nat :: Visible(Exec(m, s, f, st)) == Some(out))
  {
    hide FunctionCode, Run, Conf, Accepted, Fits, Exec;
    if f: nat :| Visible(Exec(m, s, f, st)) == Some(out) {
      var n := FunctionRuns(m, s, f, st);
      assert Run(m, FunctionCode(s), n, Conf(0, st, [], [])) == out;
    }
    if n: nat :| Run(m, FunctionCode(s), n, Conf(0, st, [], [])) == out {
      MachineStops(m, s, n, st, out);
    }
  }

  lemma MachineStops(m: Sem, s: Stmt, n: nat, st: Store, out: Config)
    requires Accepted(s, 0, 0) && Fits(s, |st.locals|) && !out.Running?
    requires Run(m, FunctionCode(s), n, Conf(0, st, [], [])) == out
    ensures Visible(Exec(m, s, n + 1, st)) == Some(out)
  {
    hide FunctionCode, Run, Conf, Accepted, Fits, Exec;
    var k := FunctionRuns(m, s, n + 1, st);
    StopsOnce(m, FunctionCode(s), n, k, Conf(0, st, [], []));
  }

  /** A machine that has stopped after n steps shows the same after any other number of steps at which it has stopped,
      and is not running after more. */
  lemma StopsOnce(m: Sem, code: seq<Inst>, n: nat, k: nat, c: Config)
    requires !Run(m, code, n, c).Running?
    ensures k >= n ==> Run(m, code, k, c) == Run(m, code, n, c)
    ensures !Run(m, code, k, c).Running? ==> Run(m, code, k, c) == Run(m, code, n, c)
  {
    if k >= n {
      RunAdd(m, code, n, k - n, c);
      RunStopped(m, code, k - n, Run(m, code, n, c));
    } else {
      RunAdd(m, code, k, n - k, c);
      if !Run(m, code, k, c).Running? { RunStopped(m, code, n - k, Run(m, code, k, c)); }
    }
  }
}
