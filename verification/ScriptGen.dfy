/**
  The code generator: instructions are appended to aInsts, jumps whose target is not known yet are
  emitted with a placeholder and remembered in aLoop1 (exits) or aLoop2 (continuations), and patched
  when the loop or switch they leave is complete. The result is the code of ScriptStmt.
 */
module ScriptGen {
  import opened ScriptMachine
  import opened ScriptExpr
  import opened ScriptAssign
  import opened ScriptStmt
  import opened ScriptShape
  import opened ScriptSim

  /** Code as it stands in aInsts: symbolic jumps are still the placeholder 0. */
  function Raw(c: SCode): (r: seq<Inst>)
    ensures |r| == |c|
  {
    Final(c, [], [])
  }

  /** The jump lists m remember, beyond what l remembered, exactly the jumps of c (placed at base) to each level. */
  ghost predicate Remember1(l: seq<seq<nat>>, m: seq<seq<nat>>, c: SCode, base: nat) {
    |m| == |l| && forall k, p :: 0 <= k < |l| ==>
      (p in m[k] <==> p in l[k] || (base <= p < base + |c| && c[p - base] == ToExit(k)))
  }

  ghost predicate Remember2(l: seq<seq<nat>>, m: seq<seq<nat>>, c: SCode, base: nat) {
    |m| == |l| && forall k, p :: 0 <= k < |l| ==>
      (p in m[k] <==> p in l[k] || (base <= p < base + |c| && c[p - base] == ToNext(k)))
  }

  /** Generator state: instructions and the two stacks of jump lists. */
  datatype Gen = Gen(insts: seq<Inst>, l1: seq<seq<nat>>, l2: seq<seq<nat>>)

  /** From g to h, the code c was appended. */
  ghost predicate Emitted(g: Gen, h: Gen, c: SCode) {
    && h.insts == g.insts + Raw(c)
    && Remember1(g.l1, h.l1, c, |g.insts|)
    && Remember2(g.l2, h.l2, c, |g.insts|)
  }

  lemma EmittedNone(g: Gen)
    ensures Emitted(g, g, [])
  {
    assert g.insts + Raw([]) == g.insts;
  }

  lemma EmittedThen(g: Gen, h: Gen, k: Gen, a: SCode, b: SCode)
    requires Emitted(g, h, a) && Emitted(h, k, b)
    ensures Emitted(g, k, a + b)
  {
    FinalAdd(a, b, [], []);
    Remember1Then(g.l1, h.l1, k.l1, a, b, |g.insts|);
    Remember2Then(g.l2, h.l2, k.l2, a, b, |g.insts|);
  }

  lemma Remember1Then(l: seq<seq<nat>>, m: seq<seq<nat>>, n: seq<seq<nat>>, a: SCode, b: SCode, base: nat)
    requires Remember1(l, m, a, base) && Remember1(m, n, b, base + |a|)
    ensures Remember1(l, n, a + b, base)
  {
    forall k, p | 0 <= k < |l|
      ensures p in n[k] <==> p in l[k] || (base <= p < base + |a + b| && (a + b)[p - base] == ToExit(k)) {}
  }

  lemma Remember2Then(l: seq<seq<nat>>, m: seq<seq<nat>>, n: seq<seq<nat>>, a: SCode, b: SCode, base: nat)
    requires Remember2(l, m, a, base) && Remember2(m, n, b, base + |a|)
    ensures Remember2(l, n, a + b, base)
  {
    forall k, p | 0 <= k < |l|
      ensures p in n[k] <==> p in l[k] || (base <= p < base + |a + b| && (a + b)[p - base] == ToNext(k)) {}
  }

  /** Instructions without symbolic jumps leave the jump lists alone. */
  lemma EmittedPlain(g: Gen, h: Gen, c: seq<Inst>)
    requires h.insts == g.insts + c && h.l1 == g.l1 && h.l2 == g.l2
    ensures Emitted(g, h, Lift(c))
  {
    FinalLift(c, [], []);
  }

  lemma LiftOne(i: Inst)
    ensures Lift([i]) == [Plain(i)]
  {
  }

  /** insts with the instructions at the listed addresses turned into jumps to n. */
  ghost predicate Patched(a: seq<Inst>, b: seq<Inst>, at: seq<nat>, n: int) {
    |b| == |a| && forall p :: 0 <= p < |a| ==> b[p] == if p in at then Jump(n) else a[p]
  }

  class CodeGen {
    var aInsts: seq<Inst>
    var aLoop1: seq<seq<nat>>
    var aLoop2: seq<seq<nat>>

    ghost function State(): Gen
      reads this
    {
      Gen(aInsts, aLoop1, aLoop2)
    }

    constructor ()
      ensures State() == Gen([], [], [])
    {
      aInsts, aLoop1, aLoop2 := [], [], [];
    }

    method Emit(i: Inst)
      modifies this`aInsts
      ensures aInsts == old(aInsts) + [i]
      ensures Emitted(old(State()), State(), [Plain(i)])
    {
      aInsts := aInsts + [i];
      EmittedPlain(old(State()), State(), [i]);
      LiftOne(i);
    }

    /** set_loop1 and set_loop2: every remembered jump gets its target. */
    method Patch(at: seq<nat>, n: nat)
      requires forall p :: p in at ==> p < |aInsts| && aInsts[p].Jump?
      modifies this`aInsts
      ensures Patched(old(aInsts), aInsts, at, n)
    {
      for i := 0 to |at|
        invariant |aInsts| == |old(aInsts)|
        invariant forall p :: 0 <= p < |aInsts| ==> aInsts[p] == if p in at[..i] then Jump(n) else old(aInsts)[p]
      {
        assert at[i] in at;
        assert at[..i + 1] == at[..i] + [at[i]];
        aInsts := aInsts[at[i] := Jump(n)];
      }
      assert at[..|at|] == at;
    }

    method VisitExpr(e: Expr)
      modifies this`aInsts
      ensures aInsts == old(aInsts) + Code(e)
      decreases e
    {
      hide Emitted, CodeGen.State;
      match e
      case Lit(v) =>
        Emit(if v == Nil then PushNil(1) else PushConst(v));
      case IntLit(i) =>
        Emit(PushInt(Wrap32(i)));
      case Get(x) =>
        Emit(Load(x));
      case Un(o, e1) =>
        VisitExpr(e1);
        Emit(Unary(o));
        assert aInsts == old(aInsts) + (Code(e1) + [Unary(o)]);
      case Bin(o, e1, e2) =>
        VisitExpr(e1);
        VisitExpr(e2);
        Emit(Binary(o));
        assert aInsts == old(aInsts) + (Code(e1) + Code(e2) + [Binary(o)]);
      case Incr(x, plus, post) =>
        VisitIncr(x, plus, post);
    }

    /** ++ and --: the post form keeps the old value below the new one, the pre form the new value twice. */
    method VisitIncr(x: Var, plus: bool, post: bool)
      modifies this`aInsts
      ensures aInsts == old(aInsts) + Code(Incr(x, plus, post))
    {
      hide Emitted;
      Emit(Load(x));
      if post {
        Emit(GetStack(0));
        Emit(PushInt(1));
        Emit(Binary(if plus then Add else Sub));
      } else {
        Emit(PushInt(1));
        Emit(Binary(if plus then Add else Sub));
        Emit(GetStack(0));
      }
      Emit(StoreTo(x));
    }

    method VisitExprs(es: seq<Expr>)
      modifies this`aInsts
      ensures aInsts == old(aInsts) + CodeAll(es)
    {
      for i := 0 to |es|
        invariant aInsts + CodeAll(es[i..]) == old(aInsts) + CodeAll(es)
      {
        assert es[i..][0] == es[i] && es[i..][1..] == es[i + 1..];
        VisitExpr(es[i]);
      }
      assert es[|es|..] == [];
    }

    /** The left side of an assignment: stores in reverse order. */
    method VisitLValues(l: seq<LItem>)
      modifies this`aInsts
      ensures aInsts == old(aInsts) + Stores(l)
    {
      for i := |l| downto 0
        invariant aInsts == old(aInsts) + Stores(l[i..])
      {
        assert l[i..][0] == l[i] && l[i..][1..] == l[i + 1..];
        Emit(StoreItem(l[i]));
      }
      assert l[0..] == l;
    }

    /** The left side of an inner assignment of a chain, read back as values. */
    method VisitLoads(l: seq<LItem>)
      modifies this`aInsts
      ensures aInsts == old(aInsts) + Loads(l)
    {
      for i := 0 to |l|
        invariant aInsts + Loads(l[i..]) == old(aInsts) + Loads(l)
      {
        assert l[i..][0] == l[i] && l[i..][1..] == l[i + 1..];
        Emit(LoadItem(l[i]));
      }
      assert l[|l|..] == [];
    }

    method EmitAdjust(n1: nat, n2: nat)
      modifies this`aInsts
      ensures aInsts == old(aInsts) + Adjust(n1, n2)
    {
      if n1 > n2 {
        Emit(PushNil(n1 - n2));
      } else if n1 < n2 {
        Emit(SpAdj(n1 - n2));
      }
    }

    method VisitAssign(ls: seq<seq<LItem>>, es: seq<Expr>)
      requires ls != []
      modifies this`aInsts
      ensures aInsts == old(aInsts) + AssignCode(ls, es)
    {
      hide ChainCode, CodeAll;
      VisitExprs(es);
      FinishAssign(ls, |es|);
      ChainPrefix(ls, CodeAll(es), |es|);
    }

    /** The n2 values of the right side are on the stack: adjust, store, then assign the list before from this one. */
    method FinishAssign(ls: seq<seq<LItem>>, n2: nat)
      requires ls != []
      modifies this`aInsts
      ensures aInsts == old(aInsts) + ChainCode(ls, [], n2)
      decreases |ls|
    {
      hide Adjust, Stores, Loads;
      var l := ls[|ls| - 1];
      ghost var r := ChainCode(ls[..|ls| - 1], Loads(l), |l|);
      assert ChainCode(ls, [], n2) == [] + Adjust(|l|, n2) + Stores(l) + r;
      EmitAdjust(|l|, n2);
      VisitLValues(l);
      if |ls| > 1 {
        VisitLoads(l);
        FinishAssign(ls[..|ls| - 1], |l|);
        ChainPrefix(ls[..|ls| - 1], Loads(l), |l|);
      }
    }

    /** Visits a statement; false where the source raises an error instead. */
    method VisitStmt(s: Stmt) returns (ok: bool)
      requires NoEmptyAssign(s)
      modifies this
      ensures ok <==> Accepted(s, |old(aLoop1)|, |old(aLoop2)|)
      ensures ok ==> Emitted(old(State()), State(), SCodeOf(s, |old(aInsts)|, |old(aLoop1)|, |old(aLoop2)|))
      decreases s, 2
    {
      hide Emitted, Final, Code, CodeAll, AssignCode, Lift;
      match s
      case Nop =>
        EmittedNone(State());
        return true;
      case AssignStmt(ls, es) =>
        VisitAssign(ls, es);
        EmittedPlain(old(State()), State(), AssignCode(ls, es));
        return true;
      case Seq(a, b) =>
        ok := VisitStmt(a);
        if !ok { return false; }
        ghost var mid := State();
        EmittedSizes(old(State()), mid, SCodeOf(a, |old(aInsts)|, |old(aLoop1)|, |old(aLoop2)|));
        ok := VisitStmt(b);
        if !ok { return false; }
        EmittedSizes(mid, State(), SCodeOf(b, |mid.insts|, |mid.l1|, |mid.l2|));
        EmittedThen(old(State()), mid, State(), SCodeOf(a, |old(aInsts)|, |aLoop1|, |aLoop2|), SCodeOf(b, |mid.insts|, |aLoop1|, |aLoop2|));
      case Block(a) =>
        ok := VisitStmt(a);
      case If(_, _, _) =>
        ok := VisitIf(s);
      case Loop(_, _, _, _, _) =>
        ok := VisitLoop(s);
      case Control(k) =>
        ok := VisitControl(k);
      case Switch(_, _) =>
        ok := VisitSwitch(s);
      case ReturnStmt(es) =>
        Emit(Prog1);
        ghost var g1 := State();
        VisitExprs(es);
        ghost var g2 := State();
        EmittedPlain(g1, g2, CodeAll(es));
        Emit(Return);
        EmittedThen(old(State()), g1, g2, [Plain(Prog1)], Lift(CodeAll(es)));
        EmittedThen(old(State()), g2, State(), [Plain(Prog1)] + Lift(CodeAll(es)), [Plain(Return)]);
        return true;
    }

    /** Jumps to the exit or continuation of an enclosing loop; break3 is never recognised. */
    method VisitControl(k: ControlKind) returns (ok: bool)
      modifies this
      ensures ok <==> Accepted(Control(k), |old(aLoop1)|, |old(aLoop2)|)
      ensures ok <==> k != Break3 && Caught(ControlOutcome(k), |old(aLoop1)|, |old(aLoop2)|)
      ensures ok ==> Emitted(old(State()), State(), SCodeOf(Control(k), |old(aInsts)|, |old(aLoop1)|, |old(aLoop2)|))
    {
      ControlCaught(k, |aLoop1|, |aLoop2|);
      var p := |aInsts|;
      var n1, n2 := |aLoop1|, |aLoop2|;
      aInsts := aInsts + [Jump(0)];
      match k {
      case Break =>
        if n1 < 1 { return false; }
        aLoop1 := aLoop1[n1 - 1 := aLoop1[n1 - 1] + [p]];
        JumpRecorded1(old(State()), State(), n1 - 1);
      case Continue =>
        if n2 < 1 { return false; }
        aLoop2 := aLoop2[n2 - 1 := aLoop2[n2 - 1] + [p]];
        JumpRecorded2(old(State()), State(), n2 - 1);
      case Continue2 =>
        if n2 < 2 { return false; }
        aLoop2 := aLoop2[n2 - 2 := aLoop2[n2 - 2] + [p]];
        JumpRecorded2(old(State()), State(), n2 - 2);
      case Break2 =>
        if n1 < 2 { return false; }
        aLoop1 := aLoop1[n1 - 2 := aLoop1[n1 - 2] + [p]];
        JumpRecorded1(old(State()), State(), n1 - 2);
      case Break3 =>
        return false;
      }
      return true;
    }

    method VisitIf(s: Stmt) returns (ok: bool)
      requires s.If? && NoEmptyAssign(s)
      modifies this
      ensures ok <==> Accepted(s, |old(aLoop1)|, |old(aLoop2)|)
      ensures ok ==> Emitted(old(State()), State(), SCodeOf(s, |old(aInsts)|, |old(aLoop1)|, |old(aLoop2)|))
      decreases s, 0
    {
      hide SCodeOf, Len, Emitted, Code, Final;
      ghost var g0, d1, d2 := State(), |aLoop1|, |aLoop2|;
      VisitExpr(s.cond);
      var id1 := |aInsts|;
      aInsts := aInsts + [JumpFalse(-1)];
      ghost var g2 := State();
      ok := VisitStmt(s.then1);
      if !ok { return false; }
      ghost var c1 := SCodeOf(s.then1, id1 + 1, d1, d2);
      ghost var g3 := State();
      EmittedSizes(g2, g3, c1);
      var id2 := |aInsts|;
      aInsts := aInsts + [Jump(-1)];
      aInsts := aInsts[id1 := JumpFalse(|aInsts|)];
      var else0 := |aInsts|;
      ghost var g4 := State();
      ok := VisitStmt(s.else0);
      if !ok { return false; }
      ghost var c2 := SCodeOf(s.else0, else0, d1, d2);
      ghost var g5 := State();
      EmittedSizes(g4, g5, c2);
      aInsts := aInsts[id2 := Jump(|aInsts|)];
      assert Accepted(s, d1, d2);
      IfShape(s, |g0.insts|, d1, d2);
      IfEmitted(g0, g2, g3, g4, g5, State(), Code(s.cond), c1, c2);
      return true;
    }

    method VisitLoop(s: Stmt) returns (ok: bool)
      requires s.Loop? && NoEmptyAssign(s)
      modifies this
      ensures ok <==> Accepted(s, |old(aLoop1)|, |old(aLoop2)|)
      ensures ok ==> Emitted(old(State()), State(), SCodeOf(s, |old(aInsts)|, |old(aLoop1)|, |old(aLoop2)|))
      decreases s, 1
    {
      hide SCodeOf, Len, LoopCode, Emitted, Final, Resolve, TestCode, LoopInner;
      ghost var g0, d1, d2 := State(), |aLoop1|, |aLoop2|;
      ok := VisitStmt(s.init);
      if !ok { return false; }
      ghost var g1, c0 := State(), SCodeOf(s.init, |g0.insts|, d1, d2);
      EmittedSizes(g0, g1, c0);
      aLoop1, aLoop2 := aLoop1 + [[]], aLoop2 + [[]];
      if s.kind != Do {
        aInsts := aInsts + [Jump(0)];
      }
      var j1 := |aInsts|;
      ghost var g2 := State();
      var jc;
      ok, jc := VisitInner(s);
      if !ok { return false; }
      ghost var g4 := State();
      InnerIs(g2, g4, s, j1, d1, d2);
      EntryPatched(g1.insts, g2, g4, LoopInner(s, j1, d1, d2), LoopEntryInsts(s, |g4.insts|));
      if s.kind != Do {
        aInsts := aInsts[j1 - 1 := Jump(|aInsts|)];
      }
      VisitTest(s.test, j1);
      CloseLoop(jc, g1, g2, g4, LoopEntryInsts(s, |g4.insts|), TestInsts(s.test, j1), LoopInner(s, j1, d1, d2));
      LoopEmitted(g0, g1, g2, g4, State(), c0, LoopEntryInsts(s, |g4.insts|), LoopInner(s, j1, d1, d2), TestInsts(s.test, j1), |aInsts|, jc);
      assert Accepted(s, d1, d2);
      LoopAssembled(s, |g0.insts|, d1, d2);
      return true;
    }

    /** Body and fini, below one more exit and continuation. */
    method VisitInner(s: Stmt) returns (ok: bool, jc: nat)
      requires s.Loop? && NoEmptyAssign(s) && |aLoop1| > 0 && |aLoop2| > 0
      modifies this
      ensures ok <==> Accepted(s.body, |old(aLoop1)|, |old(aLoop2)|) && Accepted(s.fini, |old(aLoop1)|, |old(aLoop2)|)
      ensures ok ==> jc == |old(aInsts)| + Len(s.body)
      ensures ok ==> Emitted(old(State()), State(), LoopInner(s, |old(aInsts)|, |old(aLoop1)| - 1, |old(aLoop2)| - 1))
      decreases s, 0
    {
      hide SCodeOf, Len, Emitted, Final;
      ghost var g2, d1, d2 := State(), |aLoop1|, |aLoop2|;
      ok := VisitStmt(s.body);
      jc := |aInsts|;
      if !ok { return; }
      ghost var g3 := State();
      EmittedSizes(g2, g3, SCodeOf(s.body, |g2.insts|, d1, d2));
      ok := VisitStmt(s.fini);
      if !ok { return; }
      EmittedThen(g2, g3, State(), SCodeOf(s.body, |g2.insts|, d1, d2), SCodeOf(s.fini, jc, d1, d2));
    }

    /** set_loop1, set_loop2, and leaving the loop's scope. */
    method CloseLoop(jc: nat, ghost g1: Gen, ghost g2: Gen, ghost g4: Gen, ghost entry: seq<Inst>, ghost test: seq<Inst>, ghost c: SCode)
      requires g2.l1 == g1.l1 + [[]] && g2.l2 == g1.l2 + [[]] && |g2.insts| == |g1.insts| + |entry| && Emitted(g2, g4, c)
      requires aInsts == g1.insts + entry + Raw(c) + test && aLoop1 == g4.l1 && aLoop2 == g4.l2
      modifies this
      ensures |aInsts| == |old(aInsts)| && |g4.l1| > 0 && |g4.l2| > 0
      ensures State() == Gen(g1.insts + entry + Raw(Resolve(c, |g1.l1|, |aInsts|, |g1.l2|, jc)) + test,
                             g4.l1[..|g4.l1| - 1], g4.l2[..|g4.l2| - 1])
    {
      hide Emitted, Final, Resolve;
      var exit := |aInsts|;
      BodyLists(g1, g2, g4, c);
      Placeholders(g1.insts + entry, c, test, g4.l1[|g1.l1|]);
      Placeholders(g1.insts + entry, c, test, g4.l2[|g1.l2|]);
      Patch(aLoop1[|aLoop1| - 1], exit);
      ghost var a6 := aInsts;
      Patch(aLoop2[|aLoop2| - 1], jc);
      BodyPatched(g1.insts + entry, c, test, g4.l1[|g1.l1|], g4.l2[|g1.l2|], a6, aInsts, |g1.l1|, |g1.l2|, exit, jc);
      aLoop1, aLoop2 := aLoop1[..|aLoop1| - 1], aLoop2[..|aLoop2| - 1];
    }

    method VisitSwitch(s: Stmt) returns (ok: bool)
      requires s.Switch? && NoEmptyAssign(s)
      modifies this
      ensures ok <==> Accepted(s, |old(aLoop1)|, |old(aLoop2)|)
      ensures ok ==> Emitted(old(State()), State(), SCodeOf(s, |old(aInsts)|, |old(aLoop1)|, |old(aLoop2)|))
      decreases s, 1
    {
      hide SCodeOf, Len, Emitted, Code, Final, CasesCode, ResolveExit, FilledTable, SwitchInsts;
      ghost var g0, d1, d2 := State(), |aLoop1|, |aLoop2|;
      var id := EmitSwitchHead(s.subject);
      var first := |aInsts|;
      aLoop1 := aLoop1 + [[]];
      ghost var g1 := State();
      ok := VisitCases(s.cases, id, {}, false);
      if !ok { return false; }
      ghost var c := CasesCode(s.cases, first, d1 + 1, d2, {}, false);
      ghost var table := aInsts[id];
      HeadChanged(g0.insts, s.subject, table);
      EmittedSizes(g1.(insts := g1.insts[id := table]), State(), c);
      SwitchShape(s, |g0.insts|, d1, d2);
      CloseSwitch(id, g0, g1.(insts := g1.insts[id := table]), s.subject, table, c);
      assert Accepted(s, d1, d2);
      SwitchEmitted(g0, g1, g1.(insts := g1.insts[id := table]), State(), s, c, table);
      return true;
    }

    method EmitSwitchHead(e: Expr) returns (id: nat)
      modifies this`aInsts
      ensures aInsts == old(aInsts) + SwitchInsts(e, PushSwitch(map[], -1))
      ensures id == |old(aInsts)| + |Code(e)| + 2 && id < |aInsts| && aInsts[id] == PushSwitch(map[], -1)
    {
      hide Code;
      Emit(Prog1);
      VisitExpr(e);
      Emit(PmAdj(1));
      id := |aInsts|;
      Emit(PushSwitch(map[], -1));
      Emit(Call);
      Emit(JumpN);
    }

    /** set_loop1 for the exit of the switch, leaving its scope, and AddDefault with the exit. */
    method CloseSwitch(id: nat, ghost g0: Gen, ghost g1: Gen, ghost e: Expr, ghost table: Inst, ghost c: SCode)
      requires g1.l1 == g0.l1 + [[]] && g1.l2 == g0.l2 && g1.insts == g0.insts + SwitchInsts(e, table)
      requires Emitted(g1, State(), c) && table.PushSwitch? && id == |g0.insts| + |Code(e)| + 2
      modifies this
      ensures |aInsts| == |old(aInsts)| && |old(aLoop1)| == |g0.l1| + 1
      ensures State() == Gen(g0.insts + SwitchInsts(e, PushSwitch(table.cases, if table.dflt == -1 then |aInsts| else table.dflt))
                               + Raw(ResolveExit(c, |g0.l1|, |aInsts|)),
                             old(aLoop1)[..|g0.l1|], old(aLoop2))
    {
      hide Emitted, Final, ResolveExit, Code, SwitchInsts;
      ghost var g2, d1 := State(), |g0.l1|;
      var exit := |aInsts|;
      EmittedSizes(g1, g2, c);
      SwitchLists(g0, g1, g2, c);
      Placeholders(g1.insts, c, [], aLoop1[|aLoop1| - 1]);
      assert g1.insts + Raw(c) + [] == aInsts;
      Patch(aLoop1[|aLoop1| - 1], exit);
      ExitPatched(g1.insts, c, g2.l1[d1], aInsts, d1, exit);
      aLoop1 := aLoop1[..|aLoop1| - 1];
      TableIn(g0.insts, e, table, Raw(ResolveExit(c, d1, exit)), exit);
      // AddDefault does nothing if a default case was met.
      if aInsts[id].dflt == -1 {
        aInsts := aInsts[id := PushSwitch(aInsts[id].cases, exit)];
      }
    }

    /** The cases in order; id is where the switch's callable is pushed. */
    method VisitCases(cs: Cases, id: nat, ghost seen: set<Value>, ghost dflt: bool) returns (ok: bool)
      requires NoEmptyCases(cs) && |aLoop1| > 0 && id < |aInsts| && aInsts[id].PushSwitch?
      requires aInsts[id].cases.Keys == seen && (dflt <==> aInsts[id].dflt != -1)
      modifies this
      ensures ok <==> CasesAccepted(cs, |old(aLoop1)|, |old(aLoop2)|, seen, dflt)
      ensures ok ==> id < |aInsts| && aInsts[id] == FilledTable(old(aInsts)[id], cs, |old(aInsts)|, dflt)
      ensures ok ==> Emitted(old(State()).(insts := old(aInsts)[id := FilledTable(old(aInsts)[id], cs, |old(aInsts)|, dflt)]), State(),
                             CasesCode(cs, |old(aInsts)|, |old(aLoop1)|, |old(aLoop2)|, seen, dflt))
      decreases cs, 0
    {
      hide SCodeOf, Len, Emitted, Final;
      match cs {
      case NoCases =>
        EmittedNone(State());
        assert CaseMap(cs, |aInsts|) + aInsts[id].cases == aInsts[id].cases;
        assert aInsts[id := aInsts[id]] == aInsts;
        return true;
      case Case(vals, body, rest) =>
        ghost var g0, d1, d2 := State(), |aLoop1|, |aLoop2|;
        var b := |aInsts|;
        if vals == [] {
          if aInsts[id].dflt != -1 { return false; }
          aInsts := aInsts[id := PushSwitch(aInsts[id].cases, b)];
        } else {
          ok := AddCases(vals, id);
          if !ok { return false; }
        }
        ghost var g1 := State();
        ok := VisitStmt(body);
        if !ok { return false; }
        ghost var g2 := State();
        EmittedSizes(g1, g2, SCodeOf(body, b, d1, d2));
        aLoop1 := aLoop1[|aLoop1| - 1 := aLoop1[|aLoop1| - 1] + [|aInsts|]];
        aInsts := aInsts + [Jump(0)];
        ghost var g3 := State();
        JumpRecorded1(g2, g3, d1 - 1);
        EmittedThen(g1, g2, g3, SCodeOf(body, b, d1, d2), [ToExit(d1 - 1)]);
        ok := VisitCases(rest, id, seen + Values(vals), dflt || vals == []);
        if !ok { return false; }
        CaseJoined(g0, g1, g3, State(), cs, id, b, d1, d2, seen, dflt);
        return true;
      }
    }

    /** AddCase for each value: an error if the value is already in the table. */
    method AddCases(vals: seq<Value>, id: nat) returns (ok: bool)
      requires id < |aInsts| && aInsts[id].PushSwitch?
      modifies this`aInsts
      ensures ok <==> ValsNew(vals, old(aInsts)[id].cases.Keys)
      ensures ok ==> aInsts == old(aInsts)[id := WithCases(old(aInsts)[id], vals, |old(aInsts)|)]
    {
      ghost var i0, n := aInsts[id], |aInsts|;
      assert vals[0..] == vals;
      NoCasesYet(aInsts[id], vals, n);
      for i := 0 to |vals|
        invariant |aInsts| == n && aInsts == old(aInsts)[id := aInsts[id]]
        invariant aInsts[id] == WithCases(i0, vals[..i], n)
        invariant ValsNew(vals, i0.cases.Keys) <==> ValsNew(vals[i..], aInsts[id].cases.Keys)
      {
        hide ValsNew, WithCases;
        OneMoreCase(i0, aInsts[id], vals, i, n);
        if vals[i] in aInsts[id].cases {
          return false;
        }
        aInsts := aInsts[id := PushSwitch(aInsts[id].cases[vals[i] := |aInsts|], aInsts[id].dflt)];
      }
      assert vals[..|vals|] == vals;
      return true;
    }

    method VisitTest(t: Option<Expr>, j1: nat)
      modifies this`aInsts
      ensures aInsts == old(aInsts) + TestInsts(t, j1)
    {
      if t.Some? {
        VisitExpr(t.value);
        Emit(JumpTrue(j1));
      } else {
        Emit(Jump(j1));
      }
    }
  }

  lemma ChainPrefix(ls: seq<seq<LItem>>, rcode: seq<Inst>, n2: nat)
    requires ls != []
    ensures ChainCode(ls, rcode, n2) == rcode + ChainCode(ls, [], n2)
  {
    hide Adjust, Stores, Loads, ChainCode;
    ChainUnfold(ls, rcode, n2);
    ChainUnfold(ls, [], n2);
    var l := ls[|ls| - 1];
    var a, s, r := Adjust(|l|, n2), Stores(l), ChainCode(ls[..|ls| - 1], Loads(l), |l|);
    assert rcode + a + s + r == rcode + ([] + a + s + r);
  }

  lemma ChainUnfold(ls: seq<seq<LItem>>, rcode: seq<Inst>, n2: nat)
    requires ls != []
    ensures var l := ls[|ls| - 1];
      ChainCode(ls, rcode, n2) == rcode + Adjust(|l|, n2) + Stores(l) + ChainCode(ls[..|ls| - 1], Loads(l), |l|)
  {
  }

  /** An assignment statement names at least one list of targets. */
  predicate NoEmptyAssign(s: Stmt) {
    match s
    case AssignStmt(ls, _) => ls != []
    case Seq(a, b) => NoEmptyAssign(a) && NoEmptyAssign(b)
    case Block(a) => NoEmptyAssign(a)
    case If(_, a, b) => NoEmptyAssign(a) && NoEmptyAssign(b)
    case Loop(_, a, _, f, b) => NoEmptyAssign(a) && NoEmptyAssign(f) && NoEmptyAssign(b)
    case Switch(_, cs) => NoEmptyCases(cs)
    case _ => true
  }

  predicate NoEmptyCases(cs: Cases) {
    cs.Case? ==> NoEmptyAssign(cs.body) && NoEmptyCases(cs.rest)
  }

  lemma JumpRecorded1(g: Gen, h: Gen, k: nat)
    requires k < |g.l1| && h == Gen(g.insts + [Jump(0)], g.l1[k := g.l1[k] + [|g.insts|]], g.l2)
    ensures Emitted(g, h, [ToExit(k)])
  {
  }

  lemma JumpRecorded2(g: Gen, h: Gen, k: nat)
    requires k < |g.l2| && h == Gen(g.insts + [Jump(0)], g.l1, g.l2[k := g.l2[k] + [|g.insts|]])
    ensures Emitted(g, h, [ToNext(k)])
  {
  }

  /** Patching the two jumps of an if statement after its branches were emitted. */
  lemma IfEmitted(g0: Gen, g2: Gen, g3: Gen, g4: Gen, g5: Gen, h: Gen, cond: seq<Inst>, c1: SCode, c2: SCode)
    requires g2 == g0.(insts := g0.insts + cond + [JumpFalse(-1)])
    requires Emitted(g2, g3, c1)
    requires g4 == g3.(insts := (g3.insts + [Jump(-1)])[|g0.insts| + |cond| := JumpFalse(|g3.insts| + 1)])
    requires Emitted(g4, g5, c2)
    requires h == g5.(insts := g5.insts[|g3.insts| := Jump(|g5.insts|)])
    ensures Emitted(g0, h, Lift(cond) + [Plain(JumpFalse(|g3.insts| + 1))] + c1 + [Plain(Jump(|g5.insts|))] + c2)
  {
    var p0: SCode := Lift(cond) + [Plain(JumpFalse(|g3.insts| + 1))];
    var p2: SCode := [Plain(Jump(|g5.insts|))];
    // The same lists, had the jumps been emitted with their targets.
    var k2 := g0.(insts := g0.insts + (cond + [JumpFalse(|g3.insts| + 1)]));
    var k3 := g3.(insts := k2.insts + Raw(c1));
    var k4 := k3.(insts := k3.insts + [Jump(|g5.insts|)]);
    var k5 := g5.(insts := k4.insts + Raw(c2));
    EmittedPlain(g0, k2, cond + [JumpFalse(|g3.insts| + 1)]);
    assert Lift(cond + [JumpFalse(|g3.insts| + 1)]) == p0;
    assert Emitted(k2, k3, c1);
    EmittedPlain(k3, k4, [Jump(|g5.insts|)]);
    LiftOne(Jump(|g5.insts|));
    assert Emitted(k4, k5, c2);
    EmittedThen(g0, k2, k3, p0, c1);
    EmittedThen(g0, k3, k4, p0 + c1, p2);
    EmittedThen(g0, k4, k5, p0 + c1 + p2, c2);
    IfInsts(g0.insts, cond, Raw(c1), Raw(c2));
    assert h == k5;
  }

  lemma IfInsts(a: seq<Inst>, cond: seq<Inst>, r1: seq<Inst>, r2: seq<Inst>)
    ensures var n3 := |a| + |cond| + 1 + |r1|;
      var n5 := n3 + 1 + |r2|;
      ((((a + cond + [JumpFalse(-1)] + r1 + [Jump(-1)])[|a| + |cond| := JumpFalse(n3 + 1)]) + r2)[n3 := Jump(n5)])
        == a + (cond + [JumpFalse(n3 + 1)]) + r1 + [Jump(n5)] + r2
  {
  }

  lemma EmittedSizes(g: Gen, h: Gen, c: SCode)
    requires Emitted(g, h, c)
    ensures |h.insts| == |g.insts| + |c| && |h.l1| == |g.l1| && |h.l2| == |g.l2|
    ensures h.insts == g.insts + Raw(c)
  {
  }

  /** Body and fini code of a loop below d1 exits and d2 continuations. */
  function LoopInner(s: Stmt, j1: nat, d1: nat, d2: nat): SCode
    requires s.Loop? && Accepted(s.body, d1 + 1, d2 + 1) && Accepted(s.fini, d1 + 1, d2 + 1)
  {
    SCodeOf(s.body, j1, d1 + 1, d2 + 1) + SCodeOf(s.fini, j1 + Len(s.body), d1 + 1, d2 + 1)
  }

  function LoopEntryInsts(s: Stmt, jt: nat): seq<Inst>
    requires s.Loop?
  {
    if s.kind == Do then [] else [Jump(jt)]
  }

  lemma InnerIs(g2: Gen, g4: Gen, s: Stmt, j1: nat, d1: nat, d2: nat)
    requires s.Loop? && Accepted(s.body, d1 + 1, d2 + 1) && Accepted(s.fini, d1 + 1, d2 + 1)
    requires Emitted(g2, g4, LoopInner(s, j1, d1, d2)) && |g2.insts| == j1
    ensures |g4.insts| == j1 + Len(s.body) + Len(s.fini) && |g4.l1| == |g2.l1| && |g4.l2| == |g2.l2|
    ensures |LoopInner(s, j1, d1, d2)| == Len(s.body) + Len(s.fini)
  {
  }

  /** The jump into the loop's test gets its target once body and fini are emitted. */
  lemma EntryPatched(a1: seq<Inst>, g2: Gen, g4: Gen, c: SCode, entry: seq<Inst>)
    requires g2.insts == a1 + (if entry == [] then [] else [Jump(0)]) && |entry| <= 1 && Emitted(g2, g4, c)
    ensures entry == [] ==> g4.insts == a1 + entry + Raw(c)
    ensures entry != [] ==> g4.insts[|g2.insts| - 1 := entry[0]] == a1 + entry + Raw(c)
  {
    if entry != [] {
      assert (a1 + [Jump(0)] + Raw(c))[|a1| := entry[0]] == a1 + [entry[0]] + Raw(c);
      assert entry == [entry[0]];
    }
  }

  /** The innermost lists hold just the jumps of the loop's body and fini. */
  lemma BodyLists(g1: Gen, g2: Gen, g4: Gen, c: SCode)
    requires g2.l1 == g1.l1 + [[]] && g2.l2 == g1.l2 + [[]] && Emitted(g2, g4, c)
    ensures var d1, d2, j1 := |g1.l1|, |g1.l2|, |g2.insts|;
      && |g4.l1| == d1 + 1 && |g4.l2| == d2 + 1
      && (forall p :: p in g4.l1[d1] <==> j1 <= p < j1 + |c| && c[p - j1] == ToExit(d1))
      && (forall p :: p in g4.l2[d2] <==> j1 <= p < j1 + |c| && c[p - j1] == ToNext(d2))
  {
    assert g2.l1[|g1.l1|] == [] && g2.l2[|g1.l2|] == [];
  }

  lemma Placeholders(pre: seq<Inst>, c: SCode, test: seq<Inst>, at: seq<nat>)
    requires forall p :: p in at ==> |pre| <= p < |pre| + |c| && !c[p - |pre|].Plain?
    ensures forall p :: p in at ==> p < |pre + Raw(c) + test| && (pre + Raw(c) + test)[p] == Jump(0)
  {
    forall p | p in at ensures p < |pre + Raw(c) + test| && (pre + Raw(c) + test)[p] == Jump(0) {
      assert (pre + Raw(c) + test)[p] == Raw(c)[p - |pre|];
    }
  }

  lemma BodyPatched(pre: seq<Inst>, c: SCode, test: seq<Inst>, at1: seq<nat>, at2: seq<nat>,
      a6: seq<Inst>, a7: seq<Inst>, d1: nat, d2: nat, exit: nat, next: nat)
    requires forall p :: p in at1 <==> |pre| <= p < |pre| + |c| && c[p - |pre|] == ToExit(d1)
    requires forall p :: p in at2 <==> |pre| <= p < |pre| + |c| && c[p - |pre|] == ToNext(d2)
    requires Patched(pre + Raw(c) + test, a6, at1, exit) && Patched(a6, a7, at2, next)
    ensures a7 == pre + Raw(Resolve(c, d1, exit, d2, next)) + test
  {
    var b := pre + Raw(Resolve(c, d1, exit, d2, next)) + test;
    forall p | 0 <= p < |a7| ensures a7[p] == b[p] {
      if |pre| <= p < |pre| + |c| { assert (pre + Raw(c) + test)[p] == Raw(c)[p - |pre|]; }
    }
  }

  lemma LoopEmitted(g0: Gen, g1: Gen, g2: Gen, g4: Gen, h: Gen, init: SCode, entry: seq<Inst>, c: SCode, test: seq<Inst>, exit: nat, next: nat)
    requires Emitted(g0, g1, init)
    requires g2.l1 == g1.l1 + [[]] && g2.l2 == g1.l2 + [[]] && |g2.insts| == |g1.insts| + |entry| && Emitted(g2, g4, c)
    requires |g4.l1| > 0 && |g4.l2| > 0
    requires h == Gen(g1.insts + entry + Raw(Resolve(c, |g1.l1|, exit, |g1.l2|, next)) + test, g4.l1[..|g4.l1| - 1], g4.l2[..|g4.l2| - 1])
    ensures Emitted(g0, h, init + Lift(entry) + Resolve(c, |g1.l1|, exit, |g1.l2|, next) + Lift(test))
  {
    var rc := Resolve(c, |g1.l1|, exit, |g1.l2|, next);
    var k2 := g1.(insts := g1.insts + entry);
    var k3 := h.(insts := k2.insts + Raw(rc));
    EmittedPlain(g1, k2, entry);
    assert Emitted(k2, k3, rc) by { ResolvedLists(g1, g2, g4, c, exit, next); }
    EmittedPlain(k3, h, test);
    hide Emitted, Resolve;
    EmittedThen(g0, g1, k2, init, Lift(entry));
    EmittedThen(g0, k2, k3, init + Lift(entry), rc);
    EmittedThen(g0, k3, h, init + Lift(entry) + rc, Lift(test));
  }

  lemma ResolvedLists(g1: Gen, g2: Gen, g4: Gen, c: SCode, exit: nat, next: nat)
    requires g2.l1 == g1.l1 + [[]] && g2.l2 == g1.l2 + [[]] && Emitted(g2, g4, c)
    ensures |g4.l1| == |g1.l1| + 1 && |g4.l2| == |g1.l2| + 1
    ensures Remember1(g1.l1, g4.l1[..|g1.l1|], Resolve(c, |g1.l1|, exit, |g1.l2|, next), |g2.insts|)
    ensures Remember2(g1.l2, g4.l2[..|g1.l2|], Resolve(c, |g1.l1|, exit, |g1.l2|, next), |g2.insts|)
  {
  }

  lemma LoopAssembled(s: Stmt, b: nat, d1: nat, d2: nat)
    requires s.Loop? && Accepted(s, d1, d2)
    ensures var j1 := LoopStart(s, b); var jt := j1 + Len(s.body) + Len(s.fini);
      && j1 == b + Len(s.init) + |LoopEntryInsts(s, jt)|
      && b + Len(s) == jt + |TestInsts(s.test, j1)|
      && SCodeOf(s, b, d1, d2) == SCodeOf(s.init, b, d1, d2) + Lift(LoopEntryInsts(s, jt))
        + Resolve(LoopInner(s, j1, d1, d2), d1, b + Len(s), d2, j1 + Len(s.body)) + Lift(TestInsts(s.test, j1))
  {
    hide SCodeOf, Resolve, Len;
    LoopShape(s, b, d1, d2);
    var j1 := LoopStart(s, b);
    var jt := j1 + Len(s.body) + Len(s.fini);
    assert TestCode(s.test, j1) == Lift(TestInsts(s.test, j1));
    assert LoopEntry(s, jt) == Lift(LoopEntryInsts(s, jt));
  }

  function WithCases(i: Inst, vals: seq<Value>, b: nat): Inst
    requires i.PushSwitch?
  {
    PushSwitch(i.cases + (map v | v in vals :: b as int), i.dflt)
  }

  lemma NoCasesYet(i: Inst, vals: seq<Value>, n: nat)
    requires i.PushSwitch?
    ensures WithCases(i, vals[..0], n) == i
  {
    assert (map v | v in vals[..0] :: n as int) == map[];
  }

  lemma OneMoreCase(i0: Inst, t: Inst, vals: seq<Value>, i: nat, n: nat)
    requires i0.PushSwitch? && t.PushSwitch? && i < |vals| && t == WithCases(i0, vals[..i], n)
    ensures ValsNew(vals[i..], t.cases.Keys) <==> vals[i] !in t.cases && ValsNew(vals[i + 1..], t.cases.Keys + {vals[i]})
    ensures PushSwitch(t.cases[vals[i] := n], t.dflt) == WithCases(i0, vals[..i + 1], n)
    ensures t.cases[vals[i] := n].Keys == t.cases.Keys + {vals[i]}
  {
    assert vals[i..][0] == vals[i] && vals[i..][1..] == vals[i + 1..];
    assert vals[..i + 1] == vals[..i] + [vals[i]];
    assert t.cases[vals[i] := n] == WithCases(i0, vals[..i + 1], n).cases;
  }

  /** The switch table after the cases cs at address b have been entered. */
  function FilledTable(i: Inst, cs: Cases, b: nat, dflt: bool): (r: Inst)
    requires i.PushSwitch?
    ensures r.PushSwitch?
  {
    PushSwitch(CaseMap(cs, b) + i.cases, if !dflt && FindDefault(cs).Some? then DefaultAt(cs, b, 0) else i.dflt)
  }

  lemma CaseJoined(g0: Gen, g1: Gen, g3: Gen, h: Gen, cs: Cases, id: nat, b: nat, d1: nat, d2: nat, seen: set<Value>, dflt: bool)
    requires cs.Case? && d1 > 0 && CasesAccepted(cs, d1, d2, seen, dflt) && id < |g0.insts| == b && g0.insts[id].PushSwitch?
    requires g0.insts[id].cases.Keys == seen
    requires g1 == g0.(insts := g0.insts[id := if cs.vals == [] then PushSwitch(g0.insts[id].cases, b) else WithCases(g0.insts[id], cs.vals, b)])
    requires Emitted(g1, g3, SCodeOf(cs.body, b, d1, d2) + [ToExit(d1 - 1)])
    requires id < |g3.insts| && g3.insts[id] == g1.insts[id]
    requires Emitted(g3.(insts := g3.insts[id := FilledTable(g3.insts[id], cs.rest, |g3.insts|, dflt || cs.vals == [])]), h,
                     CasesCode(cs.rest, |g3.insts|, d1, d2, seen + Values(cs.vals), dflt || cs.vals == []))
    ensures |g3.insts| == b + Len(cs.body) + 1
    ensures FilledTable(g3.insts[id], cs.rest, |g3.insts|, dflt || cs.vals == []) == FilledTable(g0.insts[id], cs, b, dflt)
    ensures Emitted(g0.(insts := g0.insts[id := FilledTable(g0.insts[id], cs, b, dflt)]), h, CasesCode(cs, b, d1, d2, seen, dflt))
  {
    hide SCodeOf, FilledTable, CaseMap, DefaultAt, Emitted, Len, Accepted, CasesCode, CasesAccepted, WithCases;
    CaseShape(cs, b, d1, d2, seen, dflt);
    var c1 := SCodeOf(cs.body, b, d1, d2) + [ToExit(d1 - 1)];
    EmittedSizes(g1, g3, c1);
    var t := FilledTable(g0.insts[id], cs, b, dflt);
    TableJoined(g0.insts[id], cs, b, seen, dflt, d1, d2);
    var k1, k3 := g0.(insts := g0.insts[id := t]), g3.(insts := g3.insts[id := t]);
    EmittedElsewhere(g1, g3, c1, id, t);
    assert g1.insts[id := t] == k1.insts;
    EmittedThen(k1, k3, h, c1, CasesCode(cs.rest, b + Len(cs.body) + 1, d1, d2, seen + Values(cs.vals), dflt || cs.vals == []));
  }

  /** Changing an instruction that was there before changes nothing about what was emitted since. */
  lemma EmittedElsewhere(g: Gen, h: Gen, c: SCode, id: nat, t: Inst)
    requires Emitted(g, h, c) && id < |g.insts|
    ensures id < |h.insts| && Emitted(g.(insts := g.insts[id := t]), h.(insts := h.insts[id := t]), c)
  {
    assert (g.insts + Raw(c))[id := t] == g.insts[id := t] + Raw(c);
  }

  lemma TableJoined(i: Inst, cs: Cases, b: nat, seen: set<Value>, dflt: bool, d1: nat, d2: nat)
    requires cs.Case? && i.PushSwitch? && CasesAccepted(cs, d1, d2, seen, dflt) && i.cases.Keys == seen
    ensures var j := if cs.vals == [] then PushSwitch(i.cases, b) else WithCases(i, cs.vals, b);
      FilledTable(j, cs.rest, b + Len(cs.body) + 1, dflt || cs.vals == []) == FilledTable(i, cs, b, dflt)
  {
    ValsApart(cs.vals, seen);
    hide SCodeOf, Len, Accepted, CasesAccepted, ValsNew, CaseMap, DefaultAt, FindDefault;
    CaseMapJoined(i.cases, cs, b);
    DefaultJoined(cs, b);
    DefaultAny(cs.rest, b + Len(cs.body) + 1, 0, 0);
  }

  lemma CaseMapJoined(m: map<Value, int>, cs: Cases, b: nat)
    requires cs.Case? && forall v :: v in cs.vals ==> v !in m
    ensures CaseMap(cs.rest, b + Len(cs.body) + 1) + (m + (map v | v in cs.vals :: b as int)) == CaseMap(cs, b) + m
    ensures cs.vals == [] ==> CaseMap(cs.rest, b + Len(cs.body) + 1) + m == CaseMap(cs, b) + m
  {
    hide Len;
  }

  lemma DefaultJoined(cs: Cases, b: nat)
    requires cs.Case?
    ensures cs.vals == [] ==> FindDefault(cs).Some? && DefaultAt(cs, b, 0) == b
    ensures cs.vals != [] ==> FindDefault(cs) == FindDefault(cs.rest) && DefaultAt(cs, b, 0) == DefaultAt(cs.rest, b + Len(cs.body) + 1, 0)
  {
    hide Len;
  }

  lemma {:induction false} ValsApart(vals: seq<Value>, seen: set<Value>)
    requires ValsNew(vals, seen)
    ensures forall v :: v in vals ==> v !in seen
  {
    if vals != [] { ValsApart(vals[1..], seen + {vals[0]}); }
  }

  lemma {:induction false} DefaultAny(cs: Cases, b: nat, e1: nat, e2: nat)
    ensures FindDefault(cs).Some? ==> DefaultAt(cs, b, e1) == DefaultAt(cs, b, e2)
    ensures FindDefault(cs).None? ==> DefaultAt(cs, b, e1) == e1
  {
    if cs.Case? { DefaultAny(cs.rest, b + Len(cs.body) + 1, e1, e2); }
  }

  lemma SwitchLists(g0: Gen, g1: Gen, g2: Gen, c: SCode)
    requires g1.l1 == g0.l1 + [[]] && g1.l2 == g0.l2 && Emitted(g1, g2, c)
    ensures var d1, j := |g0.l1|, |g1.insts|;
      && |g2.l1| == d1 + 1 && g2.l2 == g2.l2
      && (forall p :: p in g2.l1[d1] <==> j <= p < j + |c| && c[p - j] == ToExit(d1))
  {
    assert g1.l1[|g0.l1|] == [];
  }

  function SwitchInsts(e: Expr, table: Inst): (r: seq<Inst>)
    ensures |r| == |Code(e)| + 5
  {
    [Prog1] + Code(e) + [PmAdj(1), table, Call, JumpN]
  }

  lemma HeadChanged(a: seq<Inst>, e: Expr, t: Inst)
    ensures (a + SwitchInsts(e, PushSwitch(map[], -1)))[|a| + |Code(e)| + 2 := t] == a + SwitchInsts(e, t)
  {
  }

  lemma TableIn(a: seq<Inst>, e: Expr, t: Inst, raw: seq<Inst>, exit: nat)
    requires t.PushSwitch?
    ensures var id := |a| + |Code(e)| + 2; var b := a + SwitchInsts(e, t) + raw;
      && id < |b| && b[id] == t
      && b[id := PushSwitch(t.cases, exit)] == a + SwitchInsts(e, PushSwitch(t.cases, exit)) + raw
    ensures PushSwitch(t.cases, t.dflt) == t
  {
  }

  lemma ExitPatched(pre: seq<Inst>, c: SCode, at1: seq<nat>, a7: seq<Inst>, d1: nat, exit: nat)
    requires forall p :: p in at1 <==> |pre| <= p < |pre| + |c| && c[p - |pre|] == ToExit(d1)
    requires Patched(pre + Raw(c), a7, at1, exit)
    ensures a7 == pre + Raw(ResolveExit(c, d1, exit))
  {
    var b := pre + Raw(ResolveExit(c, d1, exit));
    forall p | 0 <= p < |a7| ensures a7[p] == b[p] {
      if |pre| <= p { assert (pre + Raw(c))[p] == Raw(c)[p - |pre|]; }
    }
  }

  lemma SwitchEmitted(g0: Gen, g1: Gen, g1t: Gen, h: Gen, s: Stmt, c: SCode, table: Inst)
    requires s.Switch? && Accepted(s, |g0.l1|, |g0.l2|)
    requires CasesAccepted(s.cases, |g0.l1| + 1, |g0.l2|, {}, false)
    requires g1.l1 == g0.l1 + [[]] && g1.l2 == g0.l2 && |g1.insts| == |g0.insts| + |Code(s.subject)| + 5
    requires g1t.l1 == g1.l1 && g1t.l2 == g1.l2 && |g1t.insts| == |g1.insts|
    requires c == CasesCode(s.cases, |g1.insts|, |g0.l1| + 1, |g0.l2|, {}, false)
    requires exists g2 :: Emitted(g1t, g2, c) && |g2.l1| == |g0.l1| + 1 && h.l1 == g2.l1[..|g0.l1|] && h.l2 == g2.l2
    requires table == FilledTable(PushSwitch(map[], -1), s.cases, |g1.insts|, false)
    requires var exit := |g0.insts| + Len(s);
      h.insts == g0.insts + SwitchInsts(s.subject, PushSwitch(table.cases, if table.dflt == -1 then exit else table.dflt))
                 + Raw(ResolveExit(c, |g0.l1|, exit))
    ensures Emitted(g0, h, SCodeOf(s, |g0.insts|, |g0.l1|, |g0.l2|))
  {
    var b, d1, exit := |g0.insts|, |g0.l1|, |g0.insts| + Len(s);
    hide SCodeOf, Len, Accepted, Code, CasesCode, ResolveExit, CasesAccepted;
    var g2 :| Emitted(g1t, g2, c) && |g2.l1| == |g0.l1| + 1 && h.l1 == g2.l1[..|g0.l1|] && h.l2 == g2.l2;
    SwitchShape(s, b, d1, |g0.l2|);
    TableDefault(table, s.cases, |g1.insts|, exit);
    hide DefaultAt, FindDefault, CaseMap;
    var head := SwitchInsts(s.subject, PushSwitch(CaseMap(s.cases, |g1.insts|), DefaultAt(s.cases, |g1.insts|, exit)));
    var k := g0.(insts := g0.insts + head);
    EmittedPlain(g0, k, head);
    assert Lift(head) == [Plain(Prog1)] + Lift(Code(s.subject)) + SwitchHead(s, b);
    var rc := ResolveExit(c, d1, exit);
    ExitLists(g0, g1t, g2, c, exit);
    assert Emitted(k, h, rc);
    EmittedThen(g0, k, h, Lift(head), rc);
  }

  lemma TableDefault(table: Inst, cs: Cases, b: nat, exit: nat)
    requires table == FilledTable(PushSwitch(map[], -1), cs, b, false)
    ensures table.cases == CaseMap(cs, b) && (if table.dflt == -1 then exit else table.dflt) == DefaultAt(cs, b, exit)
  {
    assert CaseMap(cs, b) + map[] == CaseMap(cs, b);
    DefaultAny(cs, b, exit, 0);
    DefaultAny(cs, b, 0, exit);
  }

  lemma ExitLists(g0: Gen, g1: Gen, g2: Gen, c: SCode, exit: nat)
    requires g1.l1 == g0.l1 + [[]] && g1.l2 == g0.l2
    requires Remember1(g1.l1, g2.l1, c, |g1.insts|) && Remember2(g1.l2, g2.l2, c, |g1.insts|)
    ensures |g2.l1| == |g0.l1| + 1
    ensures Remember1(g0.l1, g2.l1[..|g0.l1|], ResolveExit(c, |g0.l1|, exit), |g1.insts|)
    ensures Remember2(g0.l2, g2.l2, ResolveExit(c, |g0.l1|, exit), |g1.insts|)
  {
  }

  /** parse: the code of a whole function, or false where the source raises an error. */
  method Generate(s: Stmt) returns (ok: bool, code: seq<Inst>)
    requires NoEmptyAssign(s)
    ensures ok <==> Accepted(s, 0, 0)
    ensures ok ==> code == FunctionCode(s)
  {
    hide SCodeOf, Emitted, Final;
    var g := new CodeGen();
    ok := g.VisitStmt(s);
    code := [];
    if ok {
      g.Emit(Halt);
      code := g.aInsts;
      EmittedSizes(Gen([], [], []), Gen(code[..|code| - 1], g.aLoop1, g.aLoop2), SCodeOf(s, 0, 0, 0));
    }
  }
}
