/** What the structured meaning makes of small programs whose outcome the language fixes. */
module ScriptLaws {
  import opened Seqs
  import opened ScriptMachine
  import opened ScriptExpr
  import opened ScriptAssign
  import opened ScriptStmt
  import opened ScriptAccept

  lemma ReadBack(st: Store, x: Var, v: Value)
    requires VarFits(x, |st.locals|)
    ensures Read(Write(st, x, v), x) == v
  {
  }

  /** Operands are evaluated left before right and are not swapped: x++ o x uses the old and then the new x, ++x o x the
      new one twice, and -- is to ++ what subtracting is to adding. */
  lemma OperandsInOrder(m: Sem, o: Op2, x: Var, plus: bool, st: Store)
    requires VarFits(x, |st.locals|)
    ensures var v := Read(st, x); var w := m.op2(if plus then Add else Sub, v, Int(1));
      && Eval(m, Bin(o, Incr(x, plus, true), Get(x)), st) == (m.op2(o, v, w), Write(st, x, w))
      && Eval(m, Bin(o, Incr(x, plus, false), Get(x)), st) == (m.op2(o, w, w), Write(st, x, w))
      && Eval(m, Bin(o, Get(x), Incr(x, plus, false)), st) == (m.op2(o, v, w), Write(st, x, w))
  {
    ReadBack(st, x, m.op2(if plus then Add else Sub, Read(st, x), Int(1)));
    hide Read, Write;
  }

  /** The then part runs when the condition holds, the else part when it does not. */
  lemma IfChooses(m: Sem, v: Value, a: Stmt, b: Stmt, f: nat, st: Store)
    ensures m.truth(v) ==> Exec(m, If(Lit(v), a, b), f, st) == Exec(m, a, f, st)
    ensures !m.truth(v) ==> Exec(m, If(Lit(v), a, b), f, st) == Exec(m, b, f, st)
  {
    assert Eval(m, Lit(v), st) == (v, st);
  }

  /** In a switch without double values the case that lists v is selected wherever it stands, the default exactly when
      no case lists v, and nothing when there is no default either. */
  lemma SwitchPicks(cs: Cases, v: Value, i: nat)
    requires Distinct(cs)
    ensures var vs := CaseVals(cs);
      && (i < |vs| && v in vs[i] ==> Selected(cs, v) == NthBody(cs, i))
      && (v !in Flat(vs) && i < |vs| && vs[i] == [] ==> Selected(cs, v) == NthBody(cs, i))
      && (v !in Flat(vs) && [] !in vs ==> Selected(cs, v) == None)
  {
    Listed(cs, v, i);
    DefaultIs(cs, i);
  }

  lemma {:induction false} Listed(cs: Cases, v: Value, i: nat)
    requires NoDup(Flat(CaseVals(cs)))
    ensures v !in Flat(CaseVals(cs)) ==> FindCase(cs, v) == None
    ensures i < |CaseVals(cs)| && v in CaseVals(cs)[i] ==> FindCase(cs, v) == NthBody(cs, i) && NthBody(cs, i).Some?
    decreases cs
  {
    match cs
    case NoCases =>
    case Case(vals, body, rest) =>
      var vs := CaseVals(rest);
      assert CaseVals(cs) == [vals] + vs && CaseVals(cs)[1..] == vs;
      NoDupJoin(vals, Flat(vs));
      if i > 0 {
        Listed(rest, v, i - 1);
        if i - 1 < |vs| && v in vs[i - 1] { InFlat(vs, i - 1, v); }
      } else {
        Listed(rest, v, 0);
      }
  }

  lemma {:induction false} InFlat(vs: seq<seq<Value>>, i: nat, v: Value)
    requires i < |vs| && v in vs[i]
    ensures v in Flat(vs)
  {
    if i > 0 { InFlat(vs[1..], i - 1, v); }
  }

  lemma {:induction false} DefaultIs(cs: Cases, i: nat)
    requires OneDefault(CaseVals(cs))
    ensures [] !in CaseVals(cs) ==> FindDefault(cs) == None
    ensures i < |CaseVals(cs)| && CaseVals(cs)[i] == [] ==> FindDefault(cs) == NthBody(cs, i) && NthBody(cs, i).Some?
    decreases cs
  {
    match cs
    case NoCases =>
    case Case(vals, body, rest) =>
      var vs := CaseVals(cs);
      assert vs == [vals] + CaseVals(rest);
      forall a, b | 0 <= a < b < |CaseVals(rest)| ensures CaseVals(rest)[a] != [] || CaseVals(rest)[b] != [] {
        assert vs[a + 1] != [] || vs[b + 1] != [];
      }
      if i > 0 {
        assert vs[0] != [] || i >= |vs| || vs[i] != [];
        DefaultIs(rest, i - 1);
      } else {
        DefaultIs(rest, 0);
      }
  }

  /** for (;;) b */
  function Forever(b: Stmt): Stmt {
    Loop(For, Nop, None, Nop, b)
  }

  /** do b while (v) */
  function DoWhile(b: Stmt, v: Value): Stmt {
    Loop(Do, Nop, Some(Lit(v)), Nop, b)
  }

  lemma Once(m: Sem, b: Stmt, f: nat, st: Store)
    requires f > 0 && Exec(m, b, f - 1, st).Ended?
    ensures var r := Exec(m, b, f - 1, st);
      r.o != Normal && r.o != Cont(0) ==> Exec(m, Forever(b), f, st) == LeaveLoop(r)
  {
    var s := Forever(b);
    assert Exec(m, Nop, f, st) == Ended(Normal, st);
    assert Exec(m, s, f, st) == LoopTest(m, s, f, st);
    assert LoopTest(m, s, f, st) == LoopBody(m, s, f - 1, st);
  }

  /** One turn of a loop: test, body, fini, and the loop again without its init. */
  lemma Unrolled(m: Sem, kind: LoopKind, c: Expr, fini: Stmt, b: Stmt, f: nat, st: Store)
    requires kind != Do && f > 0
    requires Exec(m, b, f - 1, Eval(m, c, st).1).Ended?
    requires var r := Exec(m, b, f - 1, Eval(m, c, st).1); r.o == Normal && Exec(m, fini, f - 1, r.st).Ended?
    requires Exec(m, fini, f - 1, Exec(m, b, f - 1, Eval(m, c, st).1).st).o == Normal
    ensures var s := Loop(kind, Nop, Some(c), fini, b); var (v, st1) := Eval(m, c, st);
      Exec(m, s, f, st) ==
        if !m.truth(v) then Ended(Normal, st1)
        else Exec(m, s, f - 1, Exec(m, fini, f - 1, Exec(m, b, f - 1, st1).st).st)
  {
    var s := Loop(kind, Nop, Some(c), fini, b);
    var (v, st1) := Eval(m, c, st);
    var st2 := Exec(m, b, f - 1, st1).st;
    var st3 := Exec(m, fini, f - 1, st2).st;
    assert Exec(m, Nop, f, st) == Ended(Normal, st) && Exec(m, Nop, f - 1, st3) == Ended(Normal, st3);
    assert Exec(m, s, f, st) == LoopTest(m, s, f, st);
    assert LoopBody(m, s, f - 1, st1) == LoopFini(m, s, f - 1, st2) == LoopTest(m, s, f - 1, st3);
    assert Exec(m, s, f - 1, st3) == LoopTest(m, s, f - 1, st3);
  }

  ghost predicate GoesOn(r: Result) {
    r == OutOfFuel || (r.Ended? && (r.o == Normal || r.o == Cont(0)))
  }

  /** A body that always ends normally or with a continue is repeated without end. */
  lemma {:induction false} OnAndOn(m: Sem, b: Stmt, f: nat, st: Store)
    requires forall g: nat, t: Store :: g < f ==> GoesOn(Exec(m, b, g, t))
    ensures Exec(m, Forever(b), f, st) == OutOfFuel
    decreases f
  {
    var s := Forever(b);
    EntersTest(m, b, f, st);
    if f > 0 {
      var r := Exec(m, b, f - 1, st);
      assert GoesOn(r);
      assert LoopTest(m, s, f, st) == LoopBody(m, s, f - 1, st);
      if r.Ended? {
        OnAndOn(m, b, f - 1, r.st);
        EntersTest(m, b, f - 1, r.st);
        assert LoopBody(m, s, f - 1, st) == LoopFini(m, s, f - 1, r.st);
      }
    }
  }

  lemma EntersTest(m: Sem, b: Stmt, f: nat, st: Store)
    ensures Exec(m, Forever(b), f, st) == LoopTest(m, Forever(b), f, st) == LoopFini(m, Forever(b), f, st)
  {
    assert Exec(m, Nop, f, st) == Ended(Normal, st);
  }

  lemma DoOnce(m: Sem, b: Stmt, v: Value, f: nat, st: Store)
    requires !m.truth(v) && Exec(m, b, f, st).Ended?
    ensures var r := Exec(m, b, f, st);
      Exec(m, DoWhile(b, v), f, st) == if r.o == Normal || r.o == Cont(0) then Ended(Normal, r.st) else LeaveLoop(r)
  {
    var s := DoWhile(b, v);
    assert Exec(m, Nop, f, st) == Ended(Normal, st);
    assert Exec(m, s, f, st) == LoopBody(m, s, f, st);
    var r := Exec(m, b, f, st);
    if r.o == Normal || r.o == Cont(0) {
      assert Exec(m, Nop, f, r.st) == Ended(Normal, r.st);
      assert LoopBody(m, s, f, st) == LoopFini(m, s, f, r.st) == LoopTest(m, s, f, r.st);
      assert Eval(m, Lit(v), r.st) == (v, r.st);
      assert TestLoop(m, s, r.st) == (false, r.st);
    }
  }

  lemma SwitchControl(m: Sem, v: Value, k: ControlKind, f: nat, st: Store)
    ensures Exec(m, Switch(Lit(v), Case([], Control(k), NoCases)), f, st) == LeaveSwitch(Ended(ControlOutcome(k), st))
  {
    var cs := Case([], Control(k), NoCases);
    assert FindCase(NoCases, v) == None;
    assert Selected(cs, v) == Some(Control(k));
    assert Eval(m, Lit(v), st) == (v, st);
    assert Exec(m, Control(k), f, st) == Ended(ControlOutcome(k), st);
  }

  /** Where controls lead. break ends the innermost loop and break2 the one around it; continue goes on with the
      innermost, continue2 with the one around it, with its test. A loop that is only left or continued from within
      a loop of its own goes on for ever. */
  lemma ControlsReach(m: Sem, v: Value, f: nat, st: Store)
    requires !m.truth(v)
    ensures f >= 1 ==> Exec(m, Forever(Control(Break)), f, st) == Ended(Normal, st)
    ensures f >= 2 ==> Exec(m, Forever(Forever(Control(Break2))), f, st) == Ended(Normal, st)
    ensures Exec(m, Forever(Forever(Control(Break))), f, st) == OutOfFuel
    ensures Exec(m, Forever(Control(Continue)), f, st) == OutOfFuel
    ensures Exec(m, DoWhile(Control(Continue), v), f, st) == Ended(Normal, st)
    ensures f >= 1 ==> Exec(m, DoWhile(Forever(Control(Continue2)), v), f, st) == Ended(Normal, st)
    ensures Exec(m, Switch(Lit(v), Case([], Control(Break), NoCases)), f, st) == Ended(Normal, st)
    ensures Exec(m, Switch(Lit(v), Case([], Control(Continue), NoCases)), f, st) == Ended(Cont(0), st)
  {
    OnAndOn(m, Control(Continue), f, st);
    SwitchControl(m, v, Break, f, st);
    SwitchControl(m, v, Continue, f, st);
    DoOnce(m, Control(Continue), v, f, st);
    BreaksInner(m, f, st);
    if f >= 1 {
      Once(m, Control(Break), f, st);
      Once(m, Control(Continue2), f, st);
      DoOnce(m, Forever(Control(Continue2)), v, f, st);
    }
    if f >= 2 {
      Once(m, Control(Break2), f - 1, st);
      Once(m, Forever(Control(Break2)), f, st);
    }
  }

  lemma BreaksInner(m: Sem, f: nat, st: Store)
    ensures Exec(m, Forever(Forever(Control(Break))), f, st) == OutOfFuel
  {
    hide LoopTest, LoopBody, LoopFini;
    var b := Forever(Control(Break));
    forall g: nat, t: Store | g < f ensures GoesOn(Exec(m, b, g, t)) {
      if g > 0 { Once(m, Control(Break), g, t); } else { EntersTest(m, Control(Break), 0, t); NoFuel(m, Control(Break), t); }
    }
    OnAndOn(m, b, f, st);
  }

  lemma NoFuel(m: Sem, b: Stmt, st: Store)
    ensures LoopTest(m, Forever(b), 0, st) == OutOfFuel
  {
  }
}
