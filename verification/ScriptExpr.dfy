/**
  Expressions and multiple assignment: their meaning on a store of variables, the stack code
  the generator emits for them, and the proof that the code has that meaning.
  Variables are already resolved to local slots (see module LocalScopes) or global names.
 */
module ScriptExpr {
  import opened ScriptMachine

  datatype Var = Local(slot: nat) | Global(name: string)

  datatype Expr =
    | Lit(v: Value)
    | IntLit(i: int)
    | Get(x: Var)
    | Un(o1: Op1, e: Expr)
    | Bin(o2: Op2, e1: Expr, e2: Expr)
    | Incr(x: Var, plus: bool, post: bool)

  /** An item on the left of an assignment; Skip is the nil placeholder that drops its value. */
  datatype LItem = To(x: Var) | Skip

  datatype Store = Store(locals: seq<Value>, globals: map<string, Value>)

  // ---------- Meaning ----------

  function Read(st: Store, x: Var): Value {
    match x
    case Local(p) => if 1 <= p <= |st.locals| then st.locals[p - 1] else Nil
    case Global(s) => Lookup(st.globals, s)
  }

  function Write(st: Store, x: Var, v: Value): (r: Store)
    ensures |r.locals| == |st.locals|
  {
    match x
    case Local(p) => if 1 <= p <= |st.locals| then st.(locals := st.locals[p - 1 := v]) else st
    case Global(s) => st.(globals := st.globals[s := v])
  }

  const INT32_SPAN: int := 0x1_0000_0000

  /** The parm field of an instruction is 32 bits wide. */
  function Wrap32(i: int): int {
    var r := i % INT32_SPAN;
    if r < 0x8000_0000 then r else r - INT32_SPAN
  }

  /** An integer literal means what is left of it in 32 bits. */
  function Eval(m: Sem, e: Expr, st: Store): (r: (Value, Store))
    ensures |r.1.locals| == |st.locals|
  {
    match e
    case Lit(v) => (v, st)
    case IntLit(i) => (Int(Wrap32(i)), st)
    case Get(x) => (Read(st, x), st)
    case Un(o, e1) => var (v, st1) := Eval(m, e1, st); (m.op1(o, v), st1)
    case Bin(o, e1, e2) =>
      var (v1, st1) := Eval(m, e1, st);
      var (v2, st2) := Eval(m, e2, st1);
      (m.op2(o, v1, v2), st2)
    case Incr(x, plus, post) =>
      var old1 := Read(st, x);
      var new1 := m.op2(if plus then Add else Sub, old1, Int(1));
      (if post then old1 else new1, Write(st, x, new1))
  }

  /** That is the literal itself exactly when it fits. */
  lemma LiteralSurvives(m: Sem, i: int, st: Store)
    ensures Eval(m, IntLit(i), st).0 == Int(i) <==> -0x8000_0000 <= i < 0x8000_0000
  {
  }

  /** Left to right. */
  function EvalAll(m: Sem, es: seq<Expr>, st: Store): (r: (seq<Value>, Store))
    ensures |r.0| == |es| && |r.1.locals| == |st.locals|
  {
    if es == [] then ([], st)
    else
      var (v, st1) := Eval(m, es[0], st);
      var (vs, st2) := EvalAll(m, es[1..], st1);
      ([v] + vs, st2)
  }

  function Item(vs: seq<Value>, i: nat): Value {
    if i < |vs| then vs[i] else Nil
  }

  /** Item i of the list receives value i, nil where the values run out; extra values are dropped. */
  function Assign(l: seq<LItem>, vs: seq<Value>, st: Store): (r: Store)
    ensures |r.locals| == |st.locals|
  {
    if l == [] then st
    else
      var st1 := Assign(l[1..], if vs == [] then [] else vs[1..], st);
      if l[0].To? then Write(st1, l[0].x, Item(vs, 0)) else st1
  }

  function ReadItem(st: Store, l: LItem): Value {
    if l.To? then Read(st, l.x) else Nil
  }

  function ReadAll(st: Store, l: seq<LItem>): seq<Value> {
    seq(|l|, i requires 0 <= i < |l| => ReadItem(st, l[i]))
  }

  /** l1 = l2 = ... = values: the last list first, then each list from the one to its right. */
  function AssignChain(ls: seq<seq<LItem>>, vs: seq<Value>, st: Store): (r: Store)
    ensures |r.locals| == |st.locals|
  {
    if ls == [] then st
    else
      var l := ls[|ls| - 1];
      var st1 := Assign(l, vs, st);
      AssignChain(ls[..|ls| - 1], ReadAll(st1, l), st1)
  }

  // ---------- Code ----------

  function Load(x: Var): Inst {
    match x case Local(p) => GetLocal(p) case Global(s) => GetTable(s)
  }

  function StoreTo(x: Var): Inst {
    match x case Local(p) => SetLocal(p) case Global(s) => SetTable(s)
  }

  function Code(e: Expr): seq<Inst> {
    match e
    case Lit(v) => [if v == Nil then PushNil(1) else PushConst(v)]
    case IntLit(i) => [PushInt(Wrap32(i))]
    case Get(x) => [Load(x)]
    case Un(o, e1) => Code(e1) + [Unary(o)]
    case Bin(o, e1, e2) => Code(e1) + Code(e2) + [Binary(o)]
    case Incr(x, plus, post) =>
      var op := Binary(if plus then Add else Sub);
      if post then [Load(x), GetStack(0), PushInt(1), op, StoreTo(x)]
      else [Load(x), PushInt(1), op, GetStack(0), StoreTo(x)]
  }

  function CodeAll(es: seq<Expr>): seq<Inst> {
    if es == [] then [] else Code(es[0]) + CodeAll(es[1..])
  }

  /** From n2 values on the stack to n1. */
  function Adjust(n1: nat, n2: nat): seq<Inst> {
    if n1 > n2 then [PushNil(n1 - n2)] else if n1 < n2 then [SpAdj(n1 - n2)] else []
  }

  function StoreItem(l: LItem): Inst {
    if l.To? then StoreTo(l.x) else SpAdj(-1)
  }

  /** Stores in reverse order: the last value is on top. */
  function Stores(l: seq<LItem>): seq<Inst> {
    if l == [] then [] else Stores(l[1..]) + [StoreItem(l[0])]
  }

  function LoadItem(l: LItem): Inst {
    if l.To? then Load(l.x) else PushNil(1)
  }

  function Loads(l: seq<LItem>): seq<Inst> {
    if l == [] then [] else [LoadItem(l[0])] + Loads(l[1..])
  }

  /** rcode leaves n2 values. */
  function ChainCode(ls: seq<seq<LItem>>, rcode: seq<Inst>, n2: nat): seq<Inst> {
    if ls == [] then []
    else
      var l := ls[|ls| - 1];
      rcode + Adjust(|l|, n2) + Stores(l) + ChainCode(ls[..|ls| - 1], Loads(l), |l|)
  }

  function AssignCode(ls: seq<seq<LItem>>, es: seq<Expr>): seq<Inst> {
    ChainCode(ls, CodeAll(es), |es|)
  }

  // ---------- Well-formedness: slots within the frame ----------

  predicate VarFits(x: Var, nl: nat) {
    x.Local? ==> 1 <= x.slot <= nl
  }

  predicate ExprFits(e: Expr, nl: nat) {
    match e
    case Lit(_) => true
    case IntLit(_) => true
    case Get(x) => VarFits(x, nl)
    case Un(_, e1) => ExprFits(e1, nl)
    case Bin(_, e1, e2) => ExprFits(e1, nl) && ExprFits(e2, nl)
    case Incr(x, _, _) => VarFits(x, nl)
  }

  predicate ItemsFit(l: seq<LItem>, nl: nat) {
    forall i :: 0 <= i < |l| && l[i].To? ==> VarFits(l[i].x, nl)
  }

  // ---------- The code has the meaning ----------

  /** The machine at address pc with the store's locals at the bottom of its stack and temps above them. */
  function Conf(pc: int, st: Store, temps: seq<Value>, vbp: seq<nat>): Config {
    Running(pc, st.locals + temps, vbp, st.globals)
  }

  lemma LoadRuns(m: Sem, code: seq<Inst>, pc: int, x: Var, st: Store, temps: seq<Value>, vbp: seq<nat>)
    requires 0 <= pc < |code| && code[pc] == Load(x) && VarFits(x, |st.locals|)
    ensures Step(m, code, Conf(pc, st, temps, vbp)) == Conf(pc + 1, st, temps + [Read(st, x)], vbp)
  {
    assert (st.locals + temps) + [Read(st, x)] == st.locals + (temps + [Read(st, x)]);
  }

  lemma StoreRuns(m: Sem, code: seq<Inst>, pc: int, x: Var, v: Value, st: Store, temps: seq<Value>, vbp: seq<nat>)
    requires 0 <= pc < |code| && code[pc] == StoreTo(x) && VarFits(x, |st.locals|)
    ensures Step(m, code, Conf(pc, st, temps + [v], vbp)) == Conf(pc + 1, Write(st, x, v), temps, vbp)
  {
    var stk := st.locals + (temps + [v]);
    assert stk[|stk| - 1] == v && stk[..|stk| - 1] == st.locals + temps;
    if x.Local? {
      assert stk[x.slot - 1 := v][..|stk| - 1] == st.locals[x.slot - 1 := v] + temps;
    }
  }

  /** Pushing and the operators work on the temporaries alone. */
  lemma TempSteps(m: Sem, code: seq<Inst>, pc: int, st: Store, temps: seq<Value>, vbp: seq<nat>, a: Value, b: Value)
    requires 0 <= pc < |code|
    ensures code[pc].Unary? ==>
      Step(m, code, Conf(pc, st, temps + [a], vbp)) == Conf(pc + 1, st, temps + [m.op1(code[pc].o1, a)], vbp)
    ensures code[pc].Binary? ==>
      Step(m, code, Conf(pc, st, temps + [a, b], vbp)) == Conf(pc + 1, st, temps + [m.op2(code[pc].o2, a, b)], vbp)
    ensures code[pc] == GetStack(0) ==>
      Step(m, code, Conf(pc, st, temps + [a], vbp)) == Conf(pc + 1, st, temps + [a, a], vbp)
  {
    var s1, s2 := st.locals + (temps + [a]), st.locals + (temps + [a, b]);
    assert s1[|s1| - 1] == a && s1[..|s1| - 1] == st.locals + temps;
    assert s2[|s2| - 1] == b && s2[|s2| - 2] == a && s2[..|s2| - 2] == st.locals + temps;
    assert s1 + [a] == st.locals + (temps + [a, a]);
    if code[pc].Unary? { assert st.locals + temps + [m.op1(code[pc].o1, a)] == st.locals + (temps + [m.op1(code[pc].o1, a)]); }
    if code[pc].Binary? { assert st.locals + temps + [m.op2(code[pc].o2, a, b)] == st.locals + (temps + [m.op2(code[pc].o2, a, b)]); }
  }

  lemma PushSteps(m: Sem, code: seq<Inst>, pc: int, st: Store, temps: seq<Value>, vbp: seq<nat>)
    requires 0 <= pc < |code|
    ensures code[pc].PushInt? ==> Step(m, code, Conf(pc, st, temps, vbp)) == Conf(pc + 1, st, temps + [Int(code[pc].i)], vbp)
    ensures code[pc].PushConst? ==> Step(m, code, Conf(pc, st, temps, vbp)) == Conf(pc + 1, st, temps + [code[pc].v], vbp)
    ensures code[pc].PushNil? ==> Step(m, code, Conf(pc, st, temps, vbp)) == Conf(pc + 1, st, temps + Nils(code[pc].n), vbp)
  {
    if code[pc].PushNil? {
      assert st.locals + temps + Nils(code[pc].n) == st.locals + (temps + Nils(code[pc].n));
    }
    forall v: Value ensures st.locals + temps + [v] == st.locals + (temps + [v]) {}
  }

  /** An expression's code leaves exactly its value on the stack and its effects in the store. */
  lemma {:induction false} ExprRuns(m: Sem, code: seq<Inst>, pc: int, e: Expr, st: Store, temps: seq<Value>, vbp: seq<nat>)
    requires Stands(code, pc, Code(e)) && ExprFits(e, |st.locals|)
    ensures var (v, st1) := Eval(m, e, st);
      Run(m, code, |Code(e)|, Conf(pc, st, temps, vbp)) == Conf(pc + |Code(e)|, st1, temps + [v], vbp)
    decreases e, 1
  {
    match e
    case Lit(v) =>
      StandsAt(code, pc, Code(e), 0);
      PushSteps(m, code, pc, st, temps, vbp);
      assert Nils(1) == [Nil];
      RunOne(m, code, Conf(pc, st, temps, vbp));
    case IntLit(i) =>
      StandsAt(code, pc, Code(e), 0);
      PushSteps(m, code, pc, st, temps, vbp);
      RunOne(m, code, Conf(pc, st, temps, vbp));
    case Get(x) =>
      StandsAt(code, pc, Code(e), 0);
      LoadRuns(m, code, pc, x, st, temps, vbp);
      RunOne(m, code, Conf(pc, st, temps, vbp));
    case Un(_, _) => UnRuns(m, code, pc, e, st, temps, vbp);
    case Bin(_, _, _) => BinRuns(m, code, pc, e, st, temps, vbp);
    case Incr(_, _, _) => IncrRuns(m, code, pc, e, st, temps, vbp);
  }

  lemma RunOne(m: Sem, code: seq<Inst>, c: Config)
    ensures Run(m, code, 1, c) == Step(m, code, c)
  {
    assert Run(m, code, 0, Step(m, code, c)) == Step(m, code, c);
  }

  lemma UnRuns(m: Sem, code: seq<Inst>, pc: int, e: Expr, st: Store, temps: seq<Value>, vbp: seq<nat>)
    requires e.Un? && Stands(code, pc, Code(e)) && ExprFits(e, |st.locals|)
    ensures var (v, st1) := Eval(m, e, st);
      Run(m, code, |Code(e)|, Conf(pc, st, temps, vbp)) == Conf(pc + |Code(e)|, st1, temps + [v], vbp)
    decreases e, 0
  {
    hide Step, Conf, Stands, Run;
    var n := |Code(e.e)|;
    assert Code(e) == Code(e.e) + [Unary(e.o1)];
    StandsSplit(code, pc, Code(e.e), [Unary(e.o1)]);
    StandsWithin(code, pc + n, [Unary(e.o1)]);
    ExprRuns(m, code, pc, e.e, st, temps, vbp);
    StandsAt(code, pc + n, [Unary(e.o1)], 0);
    var (v, st1) := Eval(m, e.e, st);
    TempSteps(m, code, pc + n, st1, temps, vbp, v, v);
    RunAdd(m, code, n, 1, Conf(pc, st, temps, vbp));
    RunOne(m, code, Conf(pc + n, st1, temps + [v], vbp));
  }

  lemma StandsWithin(code: seq<Inst>, pc: int, part: seq<Inst>)
    requires Stands(code, pc, part)
    ensures 0 <= pc && pc + |part| <= |code|
  {
  }

  lemma BinParts(code: seq<Inst>, pc: int, e: Expr, nl: nat)
    requires e.Bin? && Stands(code, pc, Code(e)) && ExprFits(e, nl)
    ensures Code(e) == Code(e.e1) + Code(e.e2) + [Binary(e.o2)] && ExprFits(e.e1, nl) && ExprFits(e.e2, nl)
    ensures Stands(code, pc, Code(e.e1)) && Stands(code, pc + |Code(e.e1)|, Code(e.e2))
    ensures var at := pc + |Code(e.e1)| + |Code(e.e2)|; 0 <= at < |code| && code[at] == Binary(e.o2)
  {
    hide Stands;
    var at := pc + |Code(e.e1)| + |Code(e.e2)|;
    StandsSplit(code, pc, Code(e.e1) + Code(e.e2), [Binary(e.o2)]);
    StandsSplit(code, pc, Code(e.e1), Code(e.e2));
    StandsAt(code, at, [Binary(e.o2)], 0);
    StandsWithin(code, at, [Binary(e.o2)]);
  }

  lemma BinRuns(m: Sem, code: seq<Inst>, pc: int, e: Expr, st: Store, temps: seq<Value>, vbp: seq<nat>)
    requires e.Bin? && Stands(code, pc, Code(e)) && ExprFits(e, |st.locals|)
    ensures var (v, st1) := Eval(m, e, st);
      Run(m, code, |Code(e)|, Conf(pc, st, temps, vbp)) == Conf(pc + |Code(e)|, st1, temps + [v], vbp)
    decreases e, 0
  {
    hide Step, Conf, Stands, Run, Code, ExprFits;
    BinParts(code, pc, e, |st.locals|);
    var n1, n2 := |Code(e.e1)|, |Code(e.e2)|;
    ExprRuns(m, code, pc, e.e1, st, temps, vbp);
    var (v1, st1) := Eval(m, e.e1, st);
    ExprRuns(m, code, pc + n1, e.e2, st1, temps + [v1], vbp);
    var (v2, st2) := Eval(m, e.e2, st1);
    TempSteps(m, code, pc + n1 + n2, st2, temps, vbp, v1, v2);
    assert temps + [v1] + [v2] == temps + [v1, v2];
    RunAdd(m, code, n1, n2, Conf(pc, st, temps, vbp));
    RunAdd(m, code, n1 + n2, 1, Conf(pc, st, temps, vbp));
    RunOne(m, code, Conf(pc + n1 + n2, st2, temps + [v1, v2], vbp));
  }

  lemma IncrRuns(m: Sem, code: seq<Inst>, pc: int, e: Expr, st: Store, temps: seq<Value>, vbp: seq<nat>)
    requires e.Incr? && Stands(code, pc, Code(e)) && ExprFits(e, |st.locals|)
    ensures var (v, st1) := Eval(m, e, st);
      Run(m, code, |Code(e)|, Conf(pc, st, temps, vbp)) == Conf(pc + |Code(e)|, st1, temps + [v], vbp)
  {
    forall i: nat | i < 5 ensures code[pc + i] == Code(e)[i] { StandsAt(code, pc, Code(e), i); }
    if e.post { PostRuns(m, code, pc, e, st, temps, vbp); } else { PreRuns(m, code, pc, e, st, temps, vbp); }
  }

  lemma PostRuns(m: Sem, code: seq<Inst>, pc: int, e: Expr, st: Store, temps: seq<Value>, vbp: seq<nat>)
    requires e.Incr? && e.post && VarFits(e.x, |st.locals|) && 0 <= pc && pc + 5 <= |code|
    requires forall i: nat :: i < 5 ==> code[pc + i] == Code(e)[i]
    ensures var (v, st1) := Eval(m, e, st);
      Run(m, code, 5, Conf(pc, st, temps, vbp)) == Conf(pc + 5, st1, temps + [v], vbp)
  {
    var v0 := Read(st, e.x);
    var v1 := m.op2(if e.plus then Add else Sub, v0, Int(1));
    var insts := Code(e);
    assert code[pc + 0] == insts[0] && code[pc + 1] == insts[1] && code[pc + 2] == insts[2] && code[pc + 3] == insts[3] && code[pc + 4] == insts[4];
    hide Step, Conf, Read, Write, VarFits;
    LoadRuns(m, code, pc, e.x, st, temps, vbp);
    TempSteps(m, code, pc + 1, st, temps, vbp, v0, v0);
    PushSteps(m, code, pc + 2, st, temps + [v0, v0], vbp);
    assert temps + [v0, v0] + [Int(1)] == (temps + [v0]) + [v0, Int(1)];
    TempSteps(m, code, pc + 3, st, temps + [v0], vbp, v0, Int(1));
    StoreRuns(m, code, pc + 4, e.x, v1, st, temps + [v0], vbp);
    RunFive(m, code, Conf(pc, st, temps, vbp));
  }

  lemma PreRuns(m: Sem, code: seq<Inst>, pc: int, e: Expr, st: Store, temps: seq<Value>, vbp: seq<nat>)
    requires e.Incr? && !e.post && VarFits(e.x, |st.locals|) && 0 <= pc && pc + 5 <= |code|
    requires forall i: nat :: i < 5 ==> code[pc + i] == Code(e)[i]
    ensures var (v, st1) := Eval(m, e, st);
      Run(m, code, 5, Conf(pc, st, temps, vbp)) == Conf(pc + 5, st1, temps + [v], vbp)
  {
    var v0 := Read(st, e.x);
    var v1 := m.op2(if e.plus then Add else Sub, v0, Int(1));
    var insts := Code(e);
    assert code[pc + 0] == insts[0] && code[pc + 1] == insts[1] && code[pc + 2] == insts[2] && code[pc + 3] == insts[3] && code[pc + 4] == insts[4];
    hide Step, Conf, Read, Write, VarFits;
    LoadRuns(m, code, pc, e.x, st, temps, vbp);
    PushSteps(m, code, pc + 1, st, temps + [v0], vbp);
    assert temps + [v0] + [Int(1)] == temps + [v0, Int(1)];
    TempSteps(m, code, pc + 2, st, temps, vbp, v0, Int(1));
    TempSteps(m, code, pc + 3, st, temps, vbp, v1, v1);
    assert temps + [v1, v1] == (temps + [v1]) + [v1];
    StoreRuns(m, code, pc + 4, e.x, v1, st, temps + [v1], vbp);
    RunFive(m, code, Conf(pc, st, temps, vbp));
  }

  lemma RunFive(m: Sem, code: seq<Inst>, c: Config)
    ensures Run(m, code, 5, c) == Step(m, code, Step(m, code, Step(m, code, Step(m, code, Step(m, code, c)))))
  {
    var c2 := Step(m, code, Step(m, code, c));
    RunOne(m, code, Step(m, code, Step(m, code, c2)));
    assert Run(m, code, 3, c2) == Run(m, code, 2, Step(m, code, c2));
  }
}
