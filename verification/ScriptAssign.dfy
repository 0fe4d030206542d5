/** Multiple assignment: what it gives each variable, and that the emitted code does just that. */
module ScriptAssign {
  import opened ScriptMachine
  import opened ScriptExpr

  lemma ReadWrite(st: Store, x: Var, y: Var, v: Value)
    requires VarFits(x, |st.locals|) && VarFits(y, |st.locals|)
    ensures Read(Write(st, x, v), y) == if x == y then v else Read(st, y)
  {
  }

  /** Each variable on the left ends up with the value at its first position in the list, nil past the
      last value; every other variable keeps its value. */
  lemma {:induction false} AssignGivesIth(l: seq<LItem>, vs: seq<Value>, st: Store, y: Var)
    requires ItemsFit(l, |st.locals|) && VarFits(y, |st.locals|)
    ensures To(y) !in l ==> Read(Assign(l, vs, st), y) == Read(st, y)
    ensures forall i: nat :: i < |l| && l[i] == To(y) && (forall j :: 0 <= j < i ==> l[j] != To(y))
              ==> Read(Assign(l, vs, st), y) == Item(vs, i)
  {
    if l != [] {
      var ws := if vs == [] then [] else vs[1..];
      var st1 := Assign(l[1..], ws, st);
      assert ItemsFit(l[1..], |st.locals|) by {
        forall i | 0 <= i < |l[1..]| && l[1..][i].To? ensures VarFits(l[1..][i].x, |st.locals|) { assert l[1..][i] == l[i + 1]; }
      }
      AssignGivesIth(l[1..], ws, st, y);
      if l[0].To? { ReadWrite(st1, l[0].x, y, Item(vs, 0)); }
      forall i: nat | i < |l| && l[i] == To(y) && (forall j :: 0 <= j < i ==> l[j] != To(y))
        ensures Read(Assign(l, vs, st), y) == Item(vs, i)
      {
        if i > 0 {
          assert l[1..][i - 1] == To(y);
          forall j | 0 <= j < i - 1 ensures l[1..][j] != To(y) { assert l[1..][j] == l[j + 1]; }
          assert Item(ws, i - 1) == Item(vs, i);
          assert l[0] != To(y);
        }
      }
    }
  }

  /** A chain ls[0] = ls[1] = ... assigns everything right of ls[0] first, and then ls[0] from what the items of
      ls[1] hold: each variable of ls[0] gets what the item of ls[1] at its index holds, nil past its end. */
  lemma ChainGivesEach(ls: seq<seq<LItem>>, vs: seq<Value>, st: Store, y: Var)
    requires |ls| >= 2 && ItemsFit(ls[0], |st.locals|) && VarFits(y, |st.locals|)
    ensures var st1, r := AssignChain(ls[1..], vs, st), AssignChain(ls, vs, st);
      && (To(y) !in ls[0] ==> Read(r, y) == Read(st1, y))
      && forall i: nat :: i < |ls[0]| && ls[0][i] == To(y) && (forall j :: 0 <= j < i ==> ls[0][j] != To(y))
           ==> Read(r, y) == if i < |ls[1]| then ReadItem(st1, ls[1][i]) else Nil
  {
    var st1 := AssignChain(ls[1..], vs, st);
    ChainFront(ls, vs, st);
    AssignGivesIth(ls[0], ReadAll(st1, ls[1]), st1, y);
  }

  lemma ChainOne(l: seq<LItem>, vs: seq<Value>, st: Store)
    ensures AssignChain([l], vs, st) == Assign(l, vs, st)
  {
    var st1 := Assign(l, vs, st);
    assert [l][..0] == [];
    assert AssignChain([], ReadAll(st1, l), st1) == st1;
  }

  lemma {:induction false} ChainFront(ls: seq<seq<LItem>>, vs: seq<Value>, st: Store)
    requires |ls| >= 2
    ensures var st1 := AssignChain(ls[1..], vs, st); AssignChain(ls, vs, st) == Assign(ls[0], ReadAll(st1, ls[1]), st1)
    decreases |ls|
  {
    var l, rest := ls[|ls| - 1], ls[..|ls| - 1];
    var st1 := Assign(l, vs, st);
    assert ls[1..][|ls| - 2] == l && ls[1..][..|ls| - 2] == rest[1..];
    hide Assign, ReadAll;
    if |ls| == 2 {
      assert rest == [ls[0]] && ls[1..] == [l];
      ChainOne(ls[0], ReadAll(st1, l), st1);
      ChainOne(l, vs, st);
    } else {
      ChainFront(rest, ReadAll(st1, l), st1);
    }
  }

  // ---------- The code ----------

  lemma {:induction false} AllRun(m: Sem, code: seq<Inst>, pc: int, es: seq<Expr>, st: Store, temps: seq<Value>, vbp: seq<nat>)
    requires Stands(code, pc, CodeAll(es)) && forall i :: 0 <= i < |es| ==> ExprFits(es[i], |st.locals|)
    ensures var (vs, st1) := EvalAll(m, es, st);
      Run(m, code, |CodeAll(es)|, Conf(pc, st, temps, vbp)) == Conf(pc + |CodeAll(es)|, st1, temps + vs, vbp)
    decreases |es|
  {
    hide Step, Conf, Stands, ExprFits;
    if es == [] {
      assert temps + [] == temps;
    } else {
      var n := |Code(es[0])|;
      StandsSplit(code, pc, Code(es[0]), CodeAll(es[1..]));
      ExprRuns(m, code, pc, es[0], st, temps, vbp);
      var (v, st1) := Eval(m, es[0], st);
      AllRun(m, code, pc + n, es[1..], st1, temps + [v], vbp);
      var (vs, st2) := EvalAll(m, es[1..], st1);
      assert temps + [v] + vs == temps + ([v] + vs);
      RunAdd(m, code, n, |CodeAll(es[1..])|, Conf(pc, st, temps, vbp));
    }
  }

  /** vs cut or padded with nil to n values. */
  function Fit(vs: seq<Value>, n: nat): (r: seq<Value>)
    ensures |r| == n
  {
    if |vs| <= n then vs + Nils(n - |vs|) else vs[..n]
  }

  lemma AdjustRuns(m: Sem, code: seq<Inst>, pc: int, n: nat, st: Store, temps: seq<Value>, vs: seq<Value>, vbp: seq<nat>)
    requires Stands(code, pc, Adjust(n, |vs|))
    ensures Run(m, code, |Adjust(n, |vs|)|, Conf(pc, st, temps + vs, vbp))
         == Conf(pc + |Adjust(n, |vs|)|, st, temps + Fit(vs, n), vbp)
  {
    var stk := st.locals + (temps + vs);
    if n == |vs| {
      assert Fit(vs, n) == vs;
    } else {
      StandsAt(code, pc, Adjust(n, |vs|), 0);
      RunOne(m, code, Conf(pc, st, temps + vs, vbp));
      if n > |vs| {
        PushSteps(m, code, pc, st, temps + vs, vbp);
        assert temps + vs + Nils(n - |vs|) == temps + Fit(vs, n);
      } else {
        assert stk[..|stk| + (n - |vs|)] == st.locals + (temps + Fit(vs, n));
      }
    }
  }

  lemma {:induction false} AssignFit(l: seq<LItem>, vs: seq<Value>, st: Store)
    ensures Assign(l, Fit(vs, |l|), st) == Assign(l, vs, st)
  {
    if l != [] {
      var ws := if vs == [] then [] else vs[1..];
      AssignFit(l[1..], ws, st);
      assert Fit(vs, |l|)[1..] == Fit(ws, |l| - 1);
      assert Item(Fit(vs, |l|), 0) == Item(vs, 0);
    }
  }

  lemma ItemRuns(m: Sem, code: seq<Inst>, pc: int, l: LItem, v: Value, st: Store, temps: seq<Value>, vbp: seq<nat>)
    requires 0 <= pc < |code| && code[pc] == StoreItem(l) && (l.To? ==> VarFits(l.x, |st.locals|))
    ensures Step(m, code, Conf(pc, st, temps + [v], vbp))
         == Conf(pc + 1, if l.To? then Write(st, l.x, v) else st, temps, vbp)
  {
    if l.To? {
      StoreRuns(m, code, pc, l.x, v, st, temps, vbp);
    } else {
      var stk := st.locals + (temps + [v]);
      assert stk[..|stk| - 1] == st.locals + temps;
    }
  }

  lemma {:induction false} StoresRun(m: Sem, code: seq<Inst>, pc: int, l: seq<LItem>, vs: seq<Value>, st: Store, temps: seq<Value>, vbp: seq<nat>)
    requires Stands(code, pc, Stores(l)) && |vs| == |l| && ItemsFit(l, |st.locals|)
    ensures |Stores(l)| == |l|
    ensures Run(m, code, |l|, Conf(pc, st, temps + vs, vbp)) == Conf(pc + |l|, Assign(l, vs, st), temps, vbp)
  {
    hide Step, Conf, Stands, VarFits;
    if l == [] {
      assert temps + vs == temps;
    } else {
      TailFits(l, |st.locals|);
      StandsSplit(code, pc, Stores(l[1..]), [StoreItem(l[0])]);
      assert temps + vs == (temps + [vs[0]]) + vs[1..];
      StoresRun(m, code, pc, l[1..], vs[1..], st, temps + [vs[0]], vbp);
      var k := |l| - 1;
      var st1 := Assign(l[1..], vs[1..], st);
      StandsAt(code, pc + k, [StoreItem(l[0])], 0);
      StandsWithin(code, pc + k, [StoreItem(l[0])]);
      ItemRuns(m, code, pc + k, l[0], vs[0], st1, temps, vbp);
      RunAdd(m, code, k, 1, Conf(pc, st, temps + vs, vbp));
      RunOne(m, code, Conf(pc + k, st1, temps + [vs[0]], vbp));
    }
  }

  lemma TailFits(l: seq<LItem>, nl: nat)
    requires l != [] && ItemsFit(l, nl)
    ensures ItemsFit(l[1..], nl) && (l[0].To? ==> VarFits(l[0].x, nl))
  {
    forall i | 0 <= i < |l[1..]| && l[1..][i].To? ensures VarFits(l[1..][i].x, nl) { assert l[1..][i] == l[i + 1]; }
  }

  lemma {:induction false} LoadsRun(m: Sem, code: seq<Inst>, pc: int, l: seq<LItem>, st: Store, temps: seq<Value>, vbp: seq<nat>)
    requires Stands(code, pc, Loads(l)) && ItemsFit(l, |st.locals|)
    ensures |Loads(l)| == |l|
    ensures Run(m, code, |l|, Conf(pc, st, temps, vbp)) == Conf(pc + |l|, st, temps + ReadAll(st, l), vbp)
    decreases |l|
  {
    hide Step, Conf, Stands, VarFits;
    if l == [] {
      assert temps + ReadAll(st, l) == temps;
    } else {
      TailFits(l, |st.locals|);
      StandsSplit(code, pc, [LoadItem(l[0])], Loads(l[1..]));
      StandsAt(code, pc, [LoadItem(l[0])], 0);
      StandsWithin(code, pc, [LoadItem(l[0])]);
      if l[0].To? {
        LoadRuns(m, code, pc, l[0].x, st, temps, vbp);
      } else {
        PushSteps(m, code, pc, st, temps, vbp);
        assert Nils(1) == [Nil];
      }
      var v := ReadItem(st, l[0]);
      LoadsRun(m, code, pc + 1, l[1..], st, temps + [v], vbp);
      assert ReadAll(st, l) == [v] + ReadAll(st, l[1..]);
      assert temps + [v] + ReadAll(st, l[1..]) == temps + ReadAll(st, l);
      RunAdd(m, code, 1, |l| - 1, Conf(pc, st, temps, vbp));
      RunOne(m, code, Conf(pc, st, temps, vbp));
    }
  }

  ghost predicate ListsFit(ls: seq<seq<LItem>>, nl: nat) {
    forall i :: 0 <= i < |ls| ==> ItemsFit(ls[i], nl)
  }

  /** rcode leaves the values vs; the chain then stores them and leaves the stack as it was. */
  lemma {:induction false} ChainRuns(m: Sem, code: seq<Inst>, pc: int, ls: seq<seq<LItem>>, rcode: seq<Inst>,
      vs: seq<Value>, st0: Store, st: Store, temps: seq<Value>, vbp: seq<nat>)
    requires Stands(code, pc, ChainCode(ls, rcode, |vs|)) && ls != [] && ListsFit(ls, |st.locals|)
    requires Stands(code, pc, rcode) ==> Run(m, code, |rcode|, Conf(pc, st0, temps, vbp)) == Conf(pc + |rcode|, st, temps + vs, vbp)
    ensures Run(m, code, |ChainCode(ls, rcode, |vs|)|, Conf(pc, st0, temps, vbp))
         == Conf(pc + |ChainCode(ls, rcode, |vs|)|, AssignChain(ls, vs, st), temps, vbp)
    decreases |ls|
  {
    hide Step, Conf, Stands, ItemsFit, Run, Stores, Adjust, Loads;
    var l, rest := ls[|ls| - 1], ls[..|ls| - 1];
    var a, s, r := Adjust(|l|, |vs|), Stores(l), ChainCode(rest, Loads(l), |l|);
    StandsSplit(code, pc, rcode + a + s, r);
    StandsSplit(code, pc, rcode + a, s);
    StandsSplit(code, pc, rcode, a);
    var c := Conf(pc, st0, temps, vbp);
    var n1 := |rcode|;
    var n2 := n1 + |a|;
    var n3 := n2 + |s|;
    AdjustRuns(m, code, pc + n1, |l|, st, temps, vs, vbp);
    RunAdd(m, code, n1, |a|, c);
    StoresRun(m, code, pc + n2, l, Fit(vs, |l|), st, temps, vbp);
    AssignFit(l, vs, st);
    RunAdd(m, code, n2, |s|, c);
    var st1 := Assign(l, vs, st);
    if rest == [] {
      RunAdd(m, code, n3, 0, c);
      assert AssignChain(rest, ReadAll(st1, l), st1) == st1;
    } else {
      if Stands(code, pc + n3, Loads(l)) { LoadsRun(m, code, pc + n3, l, st1, temps, vbp); }
      assert |Loads(l)| == |l| by { LoadsLength(l); }
      ChainRuns(m, code, pc + n3, rest, Loads(l), ReadAll(st1, l), st1, st1, temps, vbp);
      RunAdd(m, code, n3, |r|, c);
    }
  }

  lemma LoadsLength(l: seq<LItem>)
    ensures |Loads(l)| == |l|
  {
  }

  /** An assignment statement's code evaluates the right side, performs the chain and restores the stack height. */
  lemma AssignRuns(m: Sem, code: seq<Inst>, pc: int, ls: seq<seq<LItem>>, es: seq<Expr>, st: Store, temps: seq<Value>, vbp: seq<nat>)
    requires Stands(code, pc, AssignCode(ls, es)) && ls != [] && ListsFit(ls, |st.locals|)
    requires forall i :: 0 <= i < |es| ==> ExprFits(es[i], |st.locals|)
    ensures var (vs, st1) := EvalAll(m, es, st);
      Run(m, code, |AssignCode(ls, es)|, Conf(pc, st, temps, vbp))
        == Conf(pc + |AssignCode(ls, es)|, AssignChain(ls, vs, st1), temps, vbp)
  {
    hide Step, Conf, Stands, ItemsFit, ExprFits, Run;
    var (vs, st1) := EvalAll(m, es, st);
    if Stands(code, pc, CodeAll(es)) { AllRun(m, code, pc, es, st, temps, vbp); }
    ChainRuns(m, code, pc, ls, CodeAll(es), vs, st, st1, temps, vbp);
  }
}
