/**
  Programs as they are written, with names for variables: what they mean by a stack of environments, how the
  generator resolves names to slots while it walks them, and the proof that the code it generates keeps that meaning.
 */
module ScriptNames {
  import opened ScriptMachine
  import opened ScriptExpr
  import opened ScriptAssign
  import opened ScriptStmt
  import opened ScriptSim
  import Q = Seqs
  import S = LocalScopes

  type Blocks = seq<S.Block>

  datatype NExpr =
    | NLit(v: Value)
    | NInt(i: int)
    | Name(s: string)
    | NUn(o1: Op1, e: NExpr)
    | NBin(o2: Op2, e1: NExpr, e2: NExpr)
    | NIncr(s: string, plus: bool, post: bool)

  /** The left of an assignment, None being the nil placeholder; loc declares the names in the innermost block. */
  datatype NList = NList(loc: bool, names: seq<Option<string>>)

  datatype NStmt =
    | NNop
    | NAssign(l: NList, more: seq<NList>, es: seq<NExpr>)
    | NSeq(first: NStmt, rest: NStmt)
    | NBlock(body: NStmt)
    | NIf(cond: NExpr, then1: NStmt, else0: NStmt)
    | NLoop(kind: LoopKind, init: NStmt, test: Option<NExpr>, fini: NStmt, body: NStmt)
    | NControl(k: ControlKind)
    | NSwitch(subject: NExpr, cases: NCases)
    | NReturn(es: seq<NExpr>)

  datatype NCases = NNoCases | NCase(vals: seq<Value>, body: NStmt, rest: NCases)

  // ---------- What is declared where ----------

  /** Stores are emitted from the right, so the last name is declared first. */
  function DeclareAll(bs: Blocks, names: seq<Option<string>>): (r: Blocks)
    requires bs != []
    ensures |r| == |bs|
  {
    if names == [] then bs
    else
      var r := DeclareAll(bs, names[1..]);
      if names[0].Some? then S.Declared(r, names[0].value) else r
  }

  function ListScope(bs: Blocks, l: NList): (r: Blocks)
    requires bs != []
    ensures |r| == |bs|
  {
    if l.loc then DeclareAll(bs, l.names) else bs
  }

  function ChainScope(bs: Blocks, ls: seq<NList>): (r: Blocks)
    requires bs != []
    ensures |r| == |bs|
    decreases |ls|
  {
    if ls == [] then bs else ChainScope(ListScope(bs, ls[|ls| - 1]), ls[..|ls| - 1])
  }

  /** The open blocks behind a statement, in the order the generator visits it; what it opens it has closed. */
  function Scope(bs: Blocks, n: NStmt): (r: Blocks)
    requires bs != []
    ensures |r| == |bs|
    decreases n
  {
    match n
    case NAssign(l, more, _) => ChainScope(bs, [l] + more)
    case NSeq(a, b) => Scope(Scope(bs, a), b)
    case NIf(_, a, b) => Scope(Scope(bs, a), b)
    case _ => bs
  }

  function CasesScope(bs: Blocks, cs: NCases): (r: Blocks)
    requires bs != []
    ensures |r| == |bs|
    decreases cs
  {
    match cs case NNoCases => bs case NCase(_, body, rest) => CasesScope(Scope(bs, body), rest)
  }

  function BodyScope(bs: Blocks, n: NStmt): (r: Blocks)
    requires bs != [] && n.NLoop?
    ensures |r| == |bs| + 1
  {
    Scope(S.Opened(bs), n.init)
  }

  function FiniScope(bs: Blocks, n: NStmt): (r: Blocks)
    requires bs != [] && n.NLoop?
    ensures |r| == |bs| + 1
  {
    Scope(BodyScope(bs, n), n.body)
  }

  /** A loop's test is emitted last and sees what init, body and fini declare. */
  function TestScope(bs: Blocks, n: NStmt): (r: Blocks)
    requires bs != [] && n.NLoop?
    ensures |r| == |bs| + 1
  {
    Scope(FiniScope(bs, n), n.fini)
  }

  // ---------- Resolving names ----------

  function VarOf(bs: Blocks, s: string): Var {
    var p := S.Lookup(bs, s);
    if p < 1 then Global(s) else Local(p)
  }

  function ResolveExpr(bs: Blocks, e: NExpr): Expr {
    match e
    case NLit(v) => Lit(v)
    case NInt(i) => IntLit(i)
    case Name(s) => Get(VarOf(bs, s))
    case NUn(o, e1) => Un(o, ResolveExpr(bs, e1))
    case NBin(o, e1, e2) => Bin(o, ResolveExpr(bs, e1), ResolveExpr(bs, e2))
    case NIncr(s, plus, post) => Incr(VarOf(bs, s), plus, post)
  }

  function ResolveExprs(bs: Blocks, es: seq<NExpr>): (r: seq<Expr>)
    ensures |r| == |es|
  {
    if es == [] then [] else [ResolveExpr(bs, es[0])] + ResolveExprs(bs, es[1..])
  }

  function ResolveItem(bs: Blocks, name: Option<string>): LItem {
    if name.Some? then To(VarOf(bs, name.value)) else Skip
  }

  function ResolveItems(bs: Blocks, names: seq<Option<string>>): (r: seq<LItem>)
    ensures |r| == |names|
  {
    if names == [] then [] else [ResolveItem(bs, names[0])] + ResolveItems(bs, names[1..])
  }

  function ResolveChain(bs: Blocks, ls: seq<NList>): (r: seq<seq<LItem>>)
    requires bs != []
    ensures |r| == |ls|
    decreases |ls|
  {
    if ls == [] then []
    else
      var l := ls[|ls| - 1];
      ResolveChain(ListScope(bs, l), ls[..|ls| - 1]) + [ResolveItems(ListScope(bs, l), l.names)]
  }

  function Resolve(bs: Blocks, n: NStmt): Stmt
    requires bs != []
    decreases n
  {
    match n
    case NNop => Nop
    case NAssign(l, more, es) => AssignStmt(ResolveChain(bs, [l] + more), ResolveExprs(bs, es))
    case NSeq(a, b) => Seq(Resolve(bs, a), Resolve(Scope(bs, a), b))
    case NBlock(a) => Block(Resolve(S.Opened(bs), a))
    case NIf(c, a, b) => If(ResolveExpr(bs, c), Resolve(bs, a), Resolve(Scope(bs, a), b))
    case NLoop(kind, a, t, f, b) =>
      var test := if t.Some? then Some(ResolveExpr(TestScope(bs, n), t.value)) else None;
      Loop(kind, Resolve(S.Opened(bs), a), test, Resolve(FiniScope(bs, n), f), Resolve(BodyScope(bs, n), b))
    case NControl(k) => Control(k)
    case NSwitch(c, cs) => Switch(ResolveExpr(S.Opened(bs), c), ResolveCases(S.Opened(bs), cs))
    case NReturn(es) => ReturnStmt(ResolveExprs(bs, es))
  }

  function ResolveCases(bs: Blocks, cs: NCases): Cases
    requires bs != []
    decreases cs
  {
    match cs
    case NNoCases => NoCases
    case NCase(vals, body, rest) => Case(vals, Resolve(bs, body), ResolveCases(Scope(bs, body), rest))
  }

  /** nLocal behind a statement, if it was k before: closing a block raises it to the block's last slot. */
  function NLocal(bs: Blocks, n: NStmt, k: nat): nat
    requires bs != []
    decreases n
  {
    match n
    case NSeq(a, b) => NLocal(Scope(bs, a), b, NLocal(bs, a, k))
    case NIf(_, a, b) => NLocal(Scope(bs, a), b, NLocal(bs, a, k))
    case NBlock(a) => Closed(Scope(S.Opened(bs), a), NLocal(S.Opened(bs), a, k))
    case NLoop(_, a, _, f, b) =>
      var k2 := NLocal(BodyScope(bs, n), b, NLocal(S.Opened(bs), a, k));
      Closed(TestScope(bs, n), NLocal(FiniScope(bs, n), f, k2))
    case NSwitch(_, cs) => Closed(CasesScope(S.Opened(bs), cs), NLocalCases(S.Opened(bs), cs, k))
    case _ => k
  }

  function NLocalCases(bs: Blocks, cs: NCases, k: nat): nat
    requires bs != []
    decreases cs
  {
    match cs
    case NNoCases => k
    case NCase(_, body, rest) => NLocalCases(Scope(bs, body), rest, NLocal(bs, body, k))
  }

  function Closed(bs: Blocks, k: nat): nat
    requires bs != []
  {
    S.Max(k, S.GetLocalNum(S.Top(bs)))
  }

  // ---------- Meaning by names ----------

  /** One environment per open block, and the globals. */
  datatype NState = NState(env: S.Env<Value>, globals: map<string, Value>)

  /** Unset: a variable was read whose declaration has been jumped over. */
  datatype NResult = NEnded(o: Outcome, st: NState) | NOutOfFuel | Unset

  function ReadName(bs: Blocks, s: string, st: NState): Option<Value>
    requires |st.env| == |bs|
  {
    if S.Owner(bs, s) < 0 then Some(Lookup(st.globals, s))
    else var e := st.env[S.OwnerIn(bs, s)]; if s in e then Some(e[s]) else None
  }

  function WriteName(bs: Blocks, s: string, v: Value, st: NState): (r: NState)
    requires |st.env| == |bs|
    ensures |r.env| == |bs|
  {
    if S.Owner(bs, s) < 0 then st.(globals := st.globals[s := v]) else st.(env := S.Assigned(bs, st.env, s, v))
  }

  function NEval(m: Sem, bs: Blocks, e: NExpr, st: NState): (r: Option<(Value, NState)>)
    requires |st.env| == |bs|
    ensures r.Some? ==> |r.value.1.env| == |bs|
  {
    match e
    case NLit(v) => Some((v, st))
    case NInt(i) => Some((Int(Wrap32(i)), st))
    case Name(s) => var v := ReadName(bs, s, st); if v.None? then None else Some((v.value, st))
    case NUn(o, e1) =>
      var r := NEval(m, bs, e1, st);
      if r.None? then None else Some((m.op1(o, r.value.0), r.value.1))
    case NBin(o, e1, e2) =>
      var r1 := NEval(m, bs, e1, st);
      if r1.None? then None
      else
        var r2 := NEval(m, bs, e2, r1.value.1);
        if r2.None? then None else Some((m.op2(o, r1.value.0, r2.value.0), r2.value.1))
    case NIncr(s, plus, post) =>
      var v := ReadName(bs, s, st);
      if v.None? then None
      else
        var new1 := m.op2(if plus then Add else Sub, v.value, Int(1));
        Some((if post then v.value else new1, WriteName(bs, s, new1, st)))
  }

  function NEvalAll(m: Sem, bs: Blocks, es: seq<NExpr>, st: NState): (r: Option<(seq<Value>, NState)>)
    requires |st.env| == |bs|
    ensures r.Some? ==> |r.value.1.env| == |bs| && |r.value.0| == |es|
  {
    if es == [] then Some(([], st))
    else
      var r1 := NEval(m, bs, es[0], st);
      if r1.None? then None
      else
        var r2 := NEvalAll(m, bs, es[1..], r1.value.1);
        if r2.None? then None else Some(([r1.value.0] + r2.value.0, r2.value.1))
  }

  function NAssignItems(bs: Blocks, names: seq<Option<string>>, vs: seq<Value>, st: NState): (r: NState)
    requires |st.env| == |bs|
    ensures |r.env| == |bs|
  {
    if names == [] then st
    else
      var st1 := NAssignItems(bs, names[1..], if vs == [] then [] else vs[1..], st);
      if names[0].Some? then WriteName(bs, names[0].value, Item(vs, 0), st1) else st1
  }

  function NReadItem(bs: Blocks, name: Option<string>, st: NState): Option<Value>
    requires |st.env| == |bs|
  {
    if name.Some? then ReadName(bs, name.value, st) else Some(Nil)
  }

  function NReadAll(bs: Blocks, names: seq<Option<string>>, st: NState): Option<seq<Value>>
    requires |st.env| == |bs|
  {
    if names == [] then Some([])
    else
      var v, vs := NReadItem(bs, names[0], st), NReadAll(bs, names[1..], st);
      if v.None? || vs.None? then None else Some([v.value] + vs.value)
  }

  function NAssignChain(bs: Blocks, ls: seq<NList>, vs: seq<Value>, st: NState): (r: Option<NState>)
    requires |st.env| == |bs| > 0
    ensures r.Some? ==> |r.value.env| == |bs|
    decreases |ls|
  {
    if ls == [] then Some(st)
    else
      var l := ls[|ls| - 1];
      var bs1 := ListScope(bs, l);
      var st1 := NAssignItems(bs1, l.names, vs, st);
      var back := NReadAll(bs1, l.names, st1);
      if back.None? then None else NAssignChain(bs1, ls[..|ls| - 1], back.value, st1)
  }

  function Enter(st: NState): (r: NState)
    ensures |r.env| == |st.env| + 1
  {
    st.(env := st.env + [map[]])
  }

  /** However a statement ends, the block around it is left. */
  function Leave(r: NResult): NResult
    requires r.NEnded? ==> r.st.env != []
  {
    if r.NEnded? then NEnded(r.o, r.st.(env := r.st.env[..|r.st.env| - 1])) else r
  }

  /** Jumping back to before a declaration ends the variable's life. */
  function Forget(bs: Blocks, st: NState): (r: NState)
    requires |st.env| == |bs| > 0
    ensures |r.env| == |bs|
  {
    st.(env := S.Forgotten(bs, st.env))
  }

  function LoopLeft(r: NResult): NResult
    requires r.NEnded? ==> r.o != Normal && r.o != Cont(0)
  {
    if !r.NEnded? then r
    else
      match r.o
      case Brk(d) => NEnded(if d == 0 then Normal else Brk(d - 1), r.st)
      case Cont(d) => NEnded(Cont(d - 1), r.st)
      case _ => r
  }

  function SwitchLeft(r: NResult): NResult {
    if r.NEnded? && r.o.Brk? then NEnded(if r.o.d == 0 then Normal else Brk(r.o.d - 1), r.st) else r
  }

  /** The case a switch selects, with the blocks open where it stands. */
  function NSelected(bs: Blocks, cs: NCases, v: Value): (r: Option<(Blocks, NStmt)>)
    requires bs != []
    ensures r.Some? ==> |r.value.0| == |bs| && r.value.1 < cs
  {
    if NFindCase(bs, cs, v).Some? then NFindCase(bs, cs, v) else NFindDefault(bs, cs)
  }

  function NFindCase(bs: Blocks, cs: NCases, v: Value): (r: Option<(Blocks, NStmt)>)
    requires bs != []
    ensures r.Some? ==> |r.value.0| == |bs| && r.value.1 < cs
    decreases cs
  {
    match cs
    case NNoCases => None
    case NCase(vals, body, rest) => if v in vals then Some((bs, body)) else NFindCase(Scope(bs, body), rest, v)
  }

  function NFindDefault(bs: Blocks, cs: NCases): (r: Option<(Blocks, NStmt)>)
    requires bs != []
    ensures r.Some? ==> |r.value.0| == |bs| && r.value.1 < cs
    decreases cs
  {
    match cs
    case NNoCases => None
    case NCase(vals, body, rest) => if vals == [] then Some((bs, body)) else NFindDefault(Scope(bs, body), rest)
  }

  function NExec(m: Sem, bs: Blocks, n: NStmt, f: nat, st: NState): (r: NResult)
    requires |st.env| == |bs| > 0
    ensures r.NEnded? ==> |r.st.env| == |bs|
    decreases f, n, 5
  {
    match n
    case NNop => NEnded(Normal, st)
    case NAssign(l, more, es) =>
      var r := NEvalAll(m, bs, es, st);
      if r.None? then Unset
      else
        var st1 := NAssignChain(bs, [l] + more, r.value.0, r.value.1);
        if st1.None? then Unset else NEnded(Normal, st1.value)
    case NSeq(a, b) =>
      var r := NExec(m, bs, a, f, st);
      if r.NEnded? && r.o == Normal then NExec(m, Scope(bs, a), b, f, r.st) else r
    case NBlock(a) => Leave(NExec(m, S.Opened(bs), a, f, Enter(st)))
    case NIf(c, a, b) =>
      var r := NEval(m, bs, c, st);
      if r.None? then Unset
      else if m.truth(r.value.0) then NExec(m, bs, a, f, r.value.1)
      else NExec(m, Scope(bs, a), b, f, r.value.1)
    case NLoop(kind, a, _, _, _) =>
      var r := NExec(m, S.Opened(bs), a, f, Enter(st));
      if !(r.NEnded? && r.o == Normal) then Leave(r)
      else if kind == Do then Leave(NLoopBody(m, bs, n, f, r.st))
      else Leave(NLoopTest(m, bs, n, f, r.st))
    case NControl(k) => NEnded(ControlOutcome(k), st)
    case NSwitch(c, cs) =>
      var r := NEval(m, S.Opened(bs), c, Enter(st));
      if r.None? then Unset
      else
        var sel := NSelected(S.Opened(bs), cs, r.value.0);
        if sel.None? then Leave(NEnded(Normal, r.value.1))
        else Leave(SwitchLeft(NExec(m, sel.value.0, sel.value.1, f, r.value.1)))
    case NReturn(es) =>
      var r := NEvalAll(m, bs, es, st);
      if r.None? then Unset else NEnded(Ret(r.value.0), r.value.1)
  }

  function NLoopBody(m: Sem, bs: Blocks, n: NStmt, f: nat, st: NState): (r: NResult)
    requires n.NLoop? && bs != [] && |st.env| == |bs| + 1
    ensures r.NEnded? ==> |r.st.env| == |bs| + 1
    decreases f, n, 4
  {
    var r := NExec(m, BodyScope(bs, n), n.body, f, Forget(BodyScope(bs, n), st));
    if r.NEnded? && (r.o == Normal || r.o == Cont(0)) then NLoopFini(m, bs, n, f, r.st) else LoopLeft(r)
  }

  function NLoopFini(m: Sem, bs: Blocks, n: NStmt, f: nat, st: NState): (r: NResult)
    requires n.NLoop? && bs != [] && |st.env| == |bs| + 1
    ensures r.NEnded? ==> |r.st.env| == |bs| + 1
    decreases f, n, 3
  {
    var r := NExec(m, FiniScope(bs, n), n.fini, f, Forget(FiniScope(bs, n), st));
    if r.NEnded? && r.o == Normal then NLoopTest(m, bs, n, f, r.st)
    else if r.NEnded? && r.o == Cont(0) then (if f == 0 then NOutOfFuel else NLoopFini(m, bs, n, f - 1, r.st))
    else LoopLeft(r)
  }

  function NTest(m: Sem, bs: Blocks, n: NStmt, st: NState): (r: Option<(bool, NState)>)
    requires n.NLoop? && bs != [] && |st.env| == |bs| + 1
    ensures r.Some? ==> |r.value.1.env| == |bs| + 1
  {
    if n.test.None? then Some((true, st))
    else
      var r := NEval(m, TestScope(bs, n), n.test.value, st);
      if r.None? then None else Some((m.truth(r.value.0), r.value.1))
  }

  function NLoopTest(m: Sem, bs: Blocks, n: NStmt, f: nat, st: NState): (r: NResult)
    requires n.NLoop? && bs != [] && |st.env| == |bs| + 1
    ensures r.NEnded? ==> |r.st.env| == |bs| + 1
    decreases f, n, 2
  {
    var r := NTest(m, bs, n, st);
    if r.None? then Unset
    else if !r.value.0 then NEnded(Normal, r.value.1)
    else if f == 0 then NOutOfFuel
    else NLoopBody(m, bs, n, f - 1, r.value.1)
  }

  // ---------- Scopes ----------

  lemma {:induction false} DeclareAllGrows(bs: Blocks, names: seq<Option<string>>)
    requires S.Stacked(bs)
    ensures S.Stacked(DeclareAll(bs, names)) && S.Grown(bs, DeclareAll(bs, names))
  {
    hide S.Stacked, S.Grown;
    NotEmpty(bs);
    if names == [] {
      GrownSame(bs);
    } else {
      DeclareAllGrows(bs, names[1..]);
      if names[0].Some? { DeclaresOne(bs, DeclareAll(bs, names[1..]), names[0].value); }
    }
  }

  lemma GrownSame(bs: Blocks)
    requires bs != []
    ensures S.Grown(bs, bs)
  {
  }

  lemma DeclaresOne(bs: Blocks, cs: Blocks, s: string)
    requires S.Stacked(cs) && S.Grown(bs, cs)
    ensures S.Stacked(S.Declared(cs, s)) && S.Grown(bs, S.Declared(cs, s))
  {
    S.DeclaredStacked(cs, s);
    S.DeclaredGrown(cs, s);
    S.GrownTrans(bs, cs, S.Declared(cs, s));
  }

  lemma ListGrows(bs: Blocks, l: NList)
    requires S.Stacked(bs)
    ensures S.Stacked(ListScope(bs, l)) && S.Grown(bs, ListScope(bs, l))
  {
    DeclareAllGrows(bs, l.names);
    GrownSame(bs);
  }

  lemma {:induction false} ChainGrows(bs: Blocks, ls: seq<NList>)
    requires S.Stacked(bs)
    ensures S.Stacked(ChainScope(bs, ls)) && S.Grown(bs, ChainScope(bs, ls))
    decreases |ls|
  {
    hide S.Stacked, S.Grown, ListScope;
    NotEmpty(bs);
    if ls == [] {
      GrownSame(bs);
    } else {
      var cs := ListScope(bs, ls[|ls| - 1]);
      ListGrows(bs, ls[|ls| - 1]);
      ChainGrows(cs, ls[..|ls| - 1]);
      S.GrownTrans(bs, cs, ChainScope(bs, ls));
    }
  }

  lemma NotEmpty(bs: Blocks)
    requires S.Stacked(bs)
    ensures bs != []
  {
  }

  /** A statement only adds variables to the innermost block. */
  lemma {:induction false} ScopeGrows(bs: Blocks, n: NStmt)
    requires S.Stacked(bs)
    ensures S.Stacked(Scope(bs, n)) && S.Grown(bs, Scope(bs, n))
    decreases n
  {
    hide S.Stacked, S.Grown, ChainScope;
    NotEmpty(bs);
    match n {
      case NAssign(l, more, _) => ChainGrows(bs, [l] + more);
      case NSeq(a, b) =>
        ScopeGrows(bs, a);
        ScopeGrows(Scope(bs, a), b);
        S.GrownTrans(bs, Scope(bs, a), Scope(bs, n));
      case NIf(_, a, b) =>
        ScopeGrows(bs, a);
        ScopeGrows(Scope(bs, a), b);
        S.GrownTrans(bs, Scope(bs, a), Scope(bs, n));
      case _ => GrownSame(bs);
    }
  }

  lemma TwoGrow(bs: Blocks, a: NStmt, b: NStmt)
    requires S.Stacked(bs)
    ensures S.Stacked(Scope(Scope(bs, a), b)) && S.Grown(bs, Scope(Scope(bs, a), b))
    ensures S.Stacked(Scope(bs, a)) && S.Grown(bs, Scope(bs, a)) && S.Grown(Scope(bs, a), Scope(Scope(bs, a), b))
  {
    hide S.Stacked, S.Grown, Scope;
    NotEmpty(bs);
    ScopeGrows(bs, a);
    ScopeGrows(Scope(bs, a), b);
    S.GrownTrans(bs, Scope(bs, a), Scope(Scope(bs, a), b));
  }

  lemma {:induction false} CasesGrow(bs: Blocks, cs: NCases)
    requires S.Stacked(bs)
    ensures S.Stacked(CasesScope(bs, cs)) && S.Grown(bs, CasesScope(bs, cs))
    decreases cs
  {
    hide S.Stacked, S.Grown, Scope;
    NotEmpty(bs);
    match cs {
      case NNoCases => GrownSame(bs);
      case NCase(_, body, rest) =>
        ScopeGrows(bs, body);
        CasesGrow(Scope(bs, body), rest);
        S.GrownTrans(bs, Scope(bs, body), CasesScope(bs, cs));
    }
  }

  lemma OpenedOk(bs: Blocks)
    requires S.Stacked(bs)
    ensures S.Stacked(S.Opened(bs)) && S.Opened(bs)[..|bs|] == bs
  {
    S.OpenedStacked(bs);
  }

  lemma LoopScopes(bs: Blocks, n: NStmt)
    requires S.Stacked(bs) && n.NLoop?
    ensures bs != [] && S.Stacked(S.Opened(bs)) && S.Opened(bs)[..|bs|] == bs
    ensures S.Stacked(BodyScope(bs, n)) && S.Stacked(FiniScope(bs, n)) && S.Stacked(TestScope(bs, n))
    ensures S.Grown(S.Opened(bs), BodyScope(bs, n)) && S.Grown(BodyScope(bs, n), FiniScope(bs, n))
    ensures S.Grown(FiniScope(bs, n), TestScope(bs, n)) && S.Grown(BodyScope(bs, n), TestScope(bs, n))
    ensures S.Grown(S.Opened(bs), TestScope(bs, n))
  {
    hide S.Stacked, S.Grown, Scope, S.Opened;
    NotEmpty(bs);
    OpenedOk(bs);
    ScopeGrows(S.Opened(bs), n.init);
    ScopeGrows(BodyScope(bs, n), n.body);
    ScopeGrows(FiniScope(bs, n), n.fini);
    S.GrownTrans(BodyScope(bs, n), FiniScope(bs, n), TestScope(bs, n));
    S.GrownTrans(S.Opened(bs), BodyScope(bs, n), TestScope(bs, n));
  }

  /** The slot a store gets when it is emitted, when only the names to its right are declared, is the one its name
      has when the whole list is. */
  lemma {:induction false} SlotWhenEmitted(bs: Blocks, names: seq<Option<string>>, i: nat)
    requires S.Stacked(bs) && i < |names| && names[i].Some?
    ensures bs != [] && names[i].value in S.Top(DeclareAll(bs, names)).variables
    ensures VarOf(DeclareAll(bs, names[i..]), names[i].value) == VarOf(DeclareAll(bs, names), names[i].value)
    decreases |names|
  {
    hide S.Stacked, S.Lookup, S.Grown;
    NotEmpty(bs);
    DeclareAllGrows(bs, names[1..]);
    var r := DeclareAll(bs, names[1..]);
    if i == 0 {
      assert names[0..] == names;
      S.DeclaredStacked(r, names[0].value);
    } else {
      SlotWhenEmitted(bs, names[1..], i - 1);
      assert names[1..][i - 1..] == names[i..];
      if names[0].Some? { S.DeclaredStacked(r, names[0].value); }
    }
  }

  // ---------- Every slot lies in the frame ----------

  /** A name resolves to a slot the open blocks reach. */
  lemma VarReached(bs: Blocks, s: string, w: nat)
    requires S.Stacked(bs) && S.GetLocalNum(S.Top(bs)) <= w
    ensures VarFits(VarOf(bs, s), w)
  {
    if S.Owner(bs, s) >= 0 {
      var i := S.OwnerIn(bs, s);
      var k := Q.Index(bs[i].variables, s);
      S.SlotsDistinct(bs, i, k, i, k);
    }
  }

  lemma {:induction false} ExprReached(bs: Blocks, e: NExpr, w: nat)
    requires S.Stacked(bs) && S.GetLocalNum(S.Top(bs)) <= w
    ensures ExprFits(ResolveExpr(bs, e), w)
  {
    hide S.Stacked, VarFits, VarOf;
    match e {
      case NLit(_) =>
      case NInt(_) =>
      case Name(s) => VarReached(bs, s, w);
      case NUn(_, e1) => ExprReached(bs, e1, w);
      case NBin(_, e1, e2) => ExprReached(bs, e1, w); ExprReached(bs, e2, w);
      case NIncr(s, _, _) => VarReached(bs, s, w);
    }
  }

  lemma {:induction false} ExprsReached(bs: Blocks, es: seq<NExpr>, w: nat)
    requires S.Stacked(bs) && S.GetLocalNum(S.Top(bs)) <= w
    ensures ExprsFit(ResolveExprs(bs, es), w)
  {
    hide S.Stacked, ExprFits, ResolveExpr;
    if es != [] {
      ExprReached(bs, es[0], w);
      ExprsReached(bs, es[1..], w);
    }
  }

  lemma {:induction false} ItemsReached(bs: Blocks, names: seq<Option<string>>, w: nat)
    requires S.Stacked(bs) && S.GetLocalNum(S.Top(bs)) <= w
    ensures ItemsFit(ResolveItems(bs, names), w)
  {
    hide S.Stacked, VarFits, VarOf;
    if names != [] {
      if names[0].Some? { VarReached(bs, names[0].value, w); }
      ItemsReached(bs, names[1..], w);
    }
  }

  lemma GrownTop(bs: Blocks, cs: Blocks, w: nat)
    requires S.Grown(bs, cs) && S.GetLocalNum(S.Top(cs)) <= w
    ensures S.GetLocalNum(S.Top(bs)) <= w
  {
  }

  lemma {:induction false} ChainReached(bs: Blocks, ls: seq<NList>, w: nat)
    requires S.Stacked(bs) && S.GetLocalNum(S.Top(ChainScope(bs, ls))) <= w
    ensures ListsFit(ResolveChain(bs, ls), w)
    decreases |ls|
  {
    hide S.Stacked, S.Grown, ItemsFit, ListScope, S.Top, S.GetLocalNum;
    NotEmpty(bs);
    if ls != [] {
      var l, rest := ls[|ls| - 1], ls[..|ls| - 1];
      var cs := ListScope(bs, l);
      ListGrows(bs, l);
      ChainGrows(cs, rest);
      GrownTop(cs, ChainScope(cs, rest), w);
      ItemsReached(cs, l.names, w);
      ChainReached(cs, rest, w);
    }
  }

  lemma {:induction false} NLocalGrows(bs: Blocks, n: NStmt, k: nat)
    requires bs != []
    ensures NLocal(bs, n, k) >= k
    decreases n
  {
    hide Scope;
    match n {
      case NSeq(a, b) => NLocalGrows(bs, a, k); NLocalGrows(Scope(bs, a), b, NLocal(bs, a, k));
      case NIf(_, a, b) => NLocalGrows(bs, a, k); NLocalGrows(Scope(bs, a), b, NLocal(bs, a, k));
      case NBlock(a) => NLocalGrows(S.Opened(bs), a, k);
      case NLoop(_, a, _, f, b) =>
        NLocalGrows(S.Opened(bs), a, k);
        var k1 := NLocal(S.Opened(bs), a, k);
        NLocalGrows(BodyScope(bs, n), b, k1);
        NLocalGrows(FiniScope(bs, n), f, NLocal(BodyScope(bs, n), b, k1));
      case NSwitch(_, cs) => NLocalCasesGrows(S.Opened(bs), cs, k);
      case _ =>
    }
  }

  lemma {:induction false} NLocalCasesGrows(bs: Blocks, cs: NCases, k: nat)
    requires bs != []
    ensures NLocalCases(bs, cs, k) >= k
    decreases cs
  {
    hide Scope;
    if cs.NCase? {
      NLocalGrows(bs, cs.body, k);
      NLocalCasesGrows(Scope(bs, cs.body), cs.rest, NLocal(bs, cs.body, k));
    }
  }

  /** The frame holds what has been closed so far and what is still open. */
  ghost predicate Room(bs: Blocks, k: nat, w: nat)
    requires bs != []
  {
    k <= w && S.GetLocalNum(S.Top(bs)) <= w
  }

  /** nLocal slots are enough for every instruction of the code. */
  lemma {:induction false} SlotsFit(bs: Blocks, n: NStmt, k: nat, w: nat)
    requires S.Stacked(bs) && Room(Scope(bs, n), NLocal(bs, n, k), w)
    ensures Fits(Resolve(bs, n), w)
    decreases n, 1
  {
    hide S.Stacked, S.Grown, ListsFit, ExprsFit, ExprFits, ResolveChain, ChainScope, S.Top, S.GetLocalNum;
    NotEmpty(bs);
    ScopeGrows(bs, n);
    GrownTop(bs, Scope(bs, n), w);
    match n {
      case NAssign(l, more, es) => ChainReached(bs, [l] + more, w); ExprsReached(bs, es, w);
      case NSeq(a, b) => TwoFit(bs, n, a, b, k, w);
      case NIf(c, a, b) => ExprReached(bs, c, w); TwoFit(bs, n, a, b, k, w);
      case NBlock(a) => OpenedOk(bs); SlotsFit(S.Opened(bs), a, k, w);
      case NLoop(_, _, _, _, _) => LoopSlotsFit(bs, n, k, w);
      case NSwitch(c, cs) =>
        OpenedOk(bs);
        CasesGrow(S.Opened(bs), cs);
        GrownTop(S.Opened(bs), CasesScope(S.Opened(bs), cs), w);
        ExprReached(S.Opened(bs), c, w);
        CasesSlotsFit(S.Opened(bs), cs, k, w);
      case NReturn(es) => ExprsReached(bs, es, w);
      case _ =>
    }
  }

  lemma TwoFit(bs: Blocks, n: NStmt, a: NStmt, b: NStmt, k: nat, w: nat)
    requires a < n && b < n && S.Stacked(bs) && Room(Scope(Scope(bs, a), b), NLocal(Scope(bs, a), b, NLocal(bs, a, k)), w)
    ensures Fits(Resolve(bs, a), w) && Fits(Resolve(Scope(bs, a), b), w)
    decreases n, 0
  {
    hide S.Stacked, S.Grown, Fits, Resolve, NLocal, Scope, S.Top, S.GetLocalNum;
    NotEmpty(bs);
    TwoGrow(bs, a, b);
    GrownTop(Scope(bs, a), Scope(Scope(bs, a), b), w);
    NLocalGrows(Scope(bs, a), b, NLocal(bs, a, k));
    SlotsFit(bs, a, k, w);
    SlotsFit(Scope(bs, a), b, NLocal(bs, a, k), w);
  }

  lemma LoopSlotsFit(bs: Blocks, n: NStmt, k: nat, w: nat)
    requires n.NLoop? && S.Stacked(bs) && NLocal(bs, n, k) <= w
    ensures Fits(Resolve(bs, n), w)
    decreases n, 0
  {
    hide S.Stacked, S.Grown, ExprFits, Scope;
    LoopScopes(bs, n);
    var k1 := NLocal(S.Opened(bs), n.init, k);
    var k2 := NLocal(BodyScope(bs, n), n.body, k1);
    NLocalGrows(BodyScope(bs, n), n.body, k1);
    NLocalGrows(FiniScope(bs, n), n.fini, k2);
    hide S.Top, S.GetLocalNum, S.Opened, NLocal;
    assert Room(TestScope(bs, n), NLocal(FiniScope(bs, n), n.fini, k2), w);
    GrownTop(FiniScope(bs, n), TestScope(bs, n), w);
    GrownTop(BodyScope(bs, n), TestScope(bs, n), w);
    SlotsFit(S.Opened(bs), n.init, k, w);
    SlotsFit(BodyScope(bs, n), n.body, k1, w);
    SlotsFit(FiniScope(bs, n), n.fini, k2, w);
    if n.test.Some? { ExprReached(TestScope(bs, n), n.test.value, w); }
  }

  lemma CasesSlotsFit(bs: Blocks, cs: NCases, k: nat, w: nat)
    requires S.Stacked(bs) && Room(CasesScope(bs, cs), NLocalCases(bs, cs, k), w)
    ensures CasesFit(ResolveCases(bs, cs), w)
    decreases cs, 0
  {
    hide S.Stacked, S.Grown, Resolve, NLocal, Scope, S.Top, S.GetLocalNum;
    NotEmpty(bs);
    if cs.NCase? {
      var bs1, k1 := Scope(bs, cs.body), NLocal(bs, cs.body, k);
      ScopeGrows(bs, cs.body);
      CasesGrow(bs1, cs.rest);
      GrownTop(bs1, CasesScope(bs1, cs.rest), w);
      NLocalCasesGrows(bs1, cs.rest, k1);
      SlotsFit(bs, cs.body, k, w);
      CasesSlotsFit(bs1, cs.rest, k1, w);
    }
  }

  // ---------- Slots hold what the environments say ----------

  ghost predicate Like(bs: Blocks, ns: NState, st: Store) {
    S.Agrees(bs, ns.env, st.locals) && ns.globals == st.globals
  }

  lemma ReadLike(bs: Blocks, s: string, ns: NState, st: Store)
    requires Like(bs, ns, st) && ReadName(bs, s, ns).Some?
    ensures Read(st, VarOf(bs, s)) == ReadName(bs, s, ns).value
  {
    if S.Owner(bs, s) >= 0 { S.LoadAgrees(bs, ns.env, st.locals, s); }
  }

  lemma WriteLike(bs: Blocks, s: string, v: Value, ns: NState, st: Store)
    requires S.Stacked(bs) && Like(bs, ns, st) && VarFits(VarOf(bs, s), |st.locals|)
    ensures Like(bs, WriteName(bs, s, v, ns), Write(st, VarOf(bs, s), v))
  {
    if S.Owner(bs, s) >= 0 { S.StoreAgrees(bs, ns.env, st.locals, s, v); }
  }

  lemma LikeSized(bs: Blocks, ns: NState, st: Store)
    requires Like(bs, ns, st)
    ensures |ns.env| == |bs|
  {
  }

  lemma {:induction false} EvalLike(m: Sem, bs: Blocks, e: NExpr, ns: NState, st: Store)
    requires S.Stacked(bs) && Like(bs, ns, st) && ExprFits(ResolveExpr(bs, e), |st.locals|)
    ensures |ns.env| == |bs|
    ensures var r := NEval(m, bs, e, ns); r.Some? ==>
      var (v, st1) := Eval(m, ResolveExpr(bs, e), st); v == r.value.0 && Like(bs, r.value.1, st1)
  {
    hide S.Stacked, Like, VarFits, VarOf, ReadName, WriteName, Read, Write;
    LikeSized(bs, ns, st);
    match e {
      case NLit(_) =>
      case NInt(_) =>
      case Name(s) => if ReadName(bs, s, ns).Some? { ReadLike(bs, s, ns, st); }
      case NUn(_, e1) => EvalLike(m, bs, e1, ns, st);
      case NBin(_, e1, e2) =>
        EvalLike(m, bs, e1, ns, st);
        var r1 := NEval(m, bs, e1, ns);
        if r1.Some? { EvalLike(m, bs, e2, r1.value.1, Eval(m, ResolveExpr(bs, e1), st).1); }
      case NIncr(s, plus, _) =>
        var v := ReadName(bs, s, ns);
        if v.Some? {
          ReadLike(bs, s, ns, st);
          WriteLike(bs, s, m.op2(if plus then Add else Sub, v.value, Int(1)), ns, st);
        }
    }
  }

  lemma {:induction false} EvalAllLike(m: Sem, bs: Blocks, es: seq<NExpr>, ns: NState, st: Store)
    requires S.Stacked(bs) && Like(bs, ns, st) && ExprsFit(ResolveExprs(bs, es), |st.locals|)
    ensures |ns.env| == |bs|
    ensures var r := NEvalAll(m, bs, es, ns); r.Some? ==>
      var (vs, st1) := EvalAll(m, ResolveExprs(bs, es), st); vs == r.value.0 && Like(bs, r.value.1, st1)
  {
    hide S.Stacked, Like, ExprFits, ResolveExpr;
    LikeSized(bs, ns, st);
    if es != [] {
      var rs := ResolveExprs(bs, es);
      assert rs[0] == ResolveExpr(bs, es[0]) && rs[1..] == ResolveExprs(bs, es[1..]);
      EvalLike(m, bs, es[0], ns, st);
      var r := NEval(m, bs, es[0], ns);
      if r.Some? { EvalAllLike(m, bs, es[1..], r.value.1, Eval(m, rs[0], st).1); }
    }
  }

  lemma {:induction false} AssignLike(bs: Blocks, names: seq<Option<string>>, vs: seq<Value>, ns: NState, st: Store)
    requires S.Stacked(bs) && Like(bs, ns, st) && ItemsFit(ResolveItems(bs, names), |st.locals|)
    ensures |ns.env| == |bs| && Like(bs, NAssignItems(bs, names, vs, ns), Assign(ResolveItems(bs, names), vs, st))
  {
    hide S.Stacked, Like, VarFits, VarOf, WriteName, Write;
    LikeSized(bs, ns, st);
    if names != [] {
      var rs := ResolveItems(bs, names);
      var vs1 := if vs == [] then [] else vs[1..];
      assert rs[0] == ResolveItem(bs, names[0]) && rs[1..] == ResolveItems(bs, names[1..]);
      TailFits(rs, |st.locals|);
      AssignLike(bs, names[1..], vs1, ns, st);
      if names[0].Some? {
        WriteLike(bs, names[0].value, Item(vs, 0), NAssignItems(bs, names[1..], vs1, ns), Assign(rs[1..], vs1, st));
      }
    }
  }

  lemma {:induction false} ReadAllLike(bs: Blocks, names: seq<Option<string>>, ns: NState, st: Store)
    requires Like(bs, ns, st)
    ensures |ns.env| == |bs|
    ensures NReadAll(bs, names, ns).Some? ==> NReadAll(bs, names, ns).value == ReadAll(st, ResolveItems(bs, names))
  {
    hide Like, VarOf, ReadName, Read;
    LikeSized(bs, ns, st);
    if names != [] && NReadAll(bs, names, ns).Some? {
      var rs := ResolveItems(bs, names);
      assert rs[0] == ResolveItem(bs, names[0]) && rs[1..] == ResolveItems(bs, names[1..]);
      if names[0].Some? { ReadLike(bs, names[0].value, ns, st); }
      ReadAllLike(bs, names[1..], ns, st);
      assert ReadAll(st, rs) == [ReadItem(st, rs[0])] + ReadAll(st, rs[1..]);
    }
  }

  lemma GrownLike(bs: Blocks, cs: Blocks, ns: NState, st: Store)
    requires S.Grown(bs, cs) && Like(bs, ns, st)
    ensures Like(cs, ns, st)
  {
    S.GrownAgrees(bs, cs, ns.env, st.locals);
  }

  lemma {:induction false} ChainLike(bs: Blocks, ls: seq<NList>, vs: seq<Value>, ns: NState, st: Store)
    requires S.Stacked(bs) && Like(bs, ns, st) && ListsFit(ResolveChain(bs, ls), |st.locals|)
    ensures bs != [] && |ns.env| == |bs|
    ensures var r := NAssignChain(bs, ls, vs, ns);
      r.Some? ==> Like(ChainScope(bs, ls), r.value, AssignChain(ResolveChain(bs, ls), vs, st))
    decreases |ls|
  {
    hide S.Stacked, S.Grown, Like, ItemsFit, ListScope, NAssignItems, NReadAll, Assign, ReadAll, ResolveItems;
    NotEmpty(bs);
    LikeSized(bs, ns, st);
    if ls != [] {
      var l, rest := ls[|ls| - 1], ls[..|ls| - 1];
      var cs := ListScope(bs, l);
      var rs := ResolveChain(bs, ls);
      assert rs[|ls| - 1] == ResolveItems(cs, l.names) && rs[..|ls| - 1] == ResolveChain(cs, rest);
      ListGrows(bs, l);
      GrownLike(bs, cs, ns, st);
      AssignLike(cs, l.names, vs, ns, st);
      var ns1, st1 := NAssignItems(cs, l.names, vs, ns), Assign(rs[|ls| - 1], vs, st);
      ReadAllLike(cs, l.names, ns1, st1);
      var back := NReadAll(cs, l.names, ns1);
      if back.Some? { ChainLike(cs, rest, back.value, ns1, st1); }
    }
  }

  // ---------- Statements ----------

  ghost predicate Matches(bs: Blocks, r: NResult, x: Result) {
    match r
    case Unset => true
    case NOutOfFuel => x == OutOfFuel
    case NEnded(o, ns) => x.Ended? && x.o == o && Like(bs, ns, x.st)
  }

  lemma GrownMatches(bs: Blocks, cs: Blocks, r: NResult, x: Result)
    requires S.Grown(bs, cs) && Matches(bs, r, x)
    ensures Matches(cs, r, x)
  {
    if r.NEnded? { GrownLike(bs, cs, r.st, x.st); }
  }

  lemma EnterLike(bs: Blocks, ns: NState, st: Store)
    requires S.Stacked(bs) && Like(bs, ns, st)
    ensures bs != [] && Like(S.Opened(bs), Enter(ns), st)
  {
    S.OpenAgrees(bs, ns.env, st.locals);
  }

  lemma LeaveMatches(bs: Blocks, cs: Blocks, r: NResult, x: Result)
    requires bs != [] && |cs| == |bs| + 1 && cs[..|bs|] == bs && Matches(cs, r, x)
    ensures r.NEnded? ==> r.st.env != []
    ensures Matches(bs, Leave(r), x)
  {
    if r.NEnded? { S.CloseAgrees(cs, r.st.env, x.st.locals); }
  }

  lemma GrownFront(bs: Blocks, cs: Blocks, ds: Blocks)
    requires S.Grown(cs, ds) && |cs| == |bs| + 1 && cs[..|bs|] == bs
    ensures |ds| == |bs| + 1 && ds[..|bs|] == bs
  {
  }

  /** What a statement does to slots is what it does to names, unless it reads a variable whose declaration was jumped over. */
  lemma {:induction false} StmtLike(m: Sem, bs: Blocks, n: NStmt, f: nat, ns: NState, st: Store)
    requires S.Stacked(bs) && Like(bs, ns, st) && Fits(Resolve(bs, n), |st.locals|)
    ensures bs != [] && |ns.env| == |bs| && Matches(Scope(bs, n), NExec(m, bs, n, f, ns), Exec(m, Resolve(bs, n), f, st))
    decreases f, n, 5
  {
    hide S.Stacked, S.Grown, Like, ExprFits, ExprsFit, ListsFit, ResolveExpr, ResolveExprs, ResolveChain, NEval, NEvalAll, NAssignChain,
      Eval, EvalAll, AssignChain, ChainScope, Fits, Resolve, NExec, Exec, Matches;
    NotEmpty(bs);
    LikeSized(bs, ns, st);
    match n {
      case NNop => SimpleLike(m, bs, n, f, ns, st);
      case NAssign(_, _, _) => SimpleLike(m, bs, n, f, ns, st);
      case NSeq(_, _) => SeqLike(m, bs, n, f, ns, st);
      case NBlock(_) => BlockLike(m, bs, n, f, ns, st);
      case NIf(_, _, _) => IfLike(m, bs, n, f, ns, st);
      case NLoop(_, _, _, _, _) => LoopLike(m, bs, n, f, ns, st);
      case NControl(_) => SimpleLike(m, bs, n, f, ns, st);
      case NSwitch(_, _) => SwitchLike(m, bs, n, f, ns, st);
      case NReturn(_) => SimpleLike(m, bs, n, f, ns, st);
    }
  }

  lemma SimpleLike(m: Sem, bs: Blocks, n: NStmt, f: nat, ns: NState, st: Store)
    requires S.Stacked(bs) && Like(bs, ns, st) && Fits(Resolve(bs, n), |st.locals|)
    requires n.NNop? || n.NAssign? || n.NControl? || n.NReturn?
    ensures bs != [] && |ns.env| == |bs| && Matches(Scope(bs, n), NExec(m, bs, n, f, ns), Exec(m, Resolve(bs, n), f, st))
  {
    hide S.Stacked, S.Grown, Like, ExprFits, ExprsFit, ListsFit, ResolveExpr, ResolveExprs, ResolveChain, NEval, NEvalAll, NAssignChain,
      Eval, EvalAll, AssignChain, ChainScope;
    NotEmpty(bs);
    LikeSized(bs, ns, st);
    if n.NAssign? || n.NReturn? {
      EvalAllLike(m, bs, n.es, ns, st);
      var r := NEvalAll(m, bs, n.es, ns);
      if n.NAssign? && r.Some? {
        ChainLike(bs, [n.l] + n.more, r.value.0, r.value.1, EvalAll(m, ResolveExprs(bs, n.es), st).1);
      }
    }
  }

  lemma SeqLike(m: Sem, bs: Blocks, n: NStmt, f: nat, ns: NState, st: Store)
    requires n.NSeq? && S.Stacked(bs) && Like(bs, ns, st) && Fits(Resolve(bs, n), |st.locals|)
    ensures bs != [] && |ns.env| == |bs| && Matches(Scope(bs, n), NExec(m, bs, n, f, ns), Exec(m, Resolve(bs, n), f, st))
    decreases f, n, 4
  {
    hide S.Stacked, S.Grown, Like;
    NotEmpty(bs);
    LikeSized(bs, ns, st);
    TwoGrow(bs, n.first, n.rest);
    StmtLike(m, bs, n.first, f, ns, st);
    var r, x := NExec(m, bs, n.first, f, ns), Exec(m, Resolve(bs, n.first), f, st);
    if r.NEnded? && r.o == Normal {
      StmtLike(m, Scope(bs, n.first), n.rest, f, r.st, x.st);
    } else {
      GrownMatches(Scope(bs, n.first), Scope(bs, n), r, x);
    }
  }

  lemma BlockLike(m: Sem, bs: Blocks, n: NStmt, f: nat, ns: NState, st: Store)
    requires n.NBlock? && S.Stacked(bs) && Like(bs, ns, st) && Fits(Resolve(bs, n), |st.locals|)
    ensures bs != [] && |ns.env| == |bs| && Matches(Scope(bs, n), NExec(m, bs, n, f, ns), Exec(m, Resolve(bs, n), f, st))
    decreases f, n, 4
  {
    hide S.Stacked, S.Grown, Like, Matches;
    NotEmpty(bs);
    LikeSized(bs, ns, st);
    var cs := S.Opened(bs);
    OpenedOk(bs);
    EnterLike(bs, ns, st);
    StmtLike(m, cs, n.body, f, Enter(ns), st);
    ScopeGrows(cs, n.body);
    GrownFront(bs, cs, Scope(cs, n.body));
    LeaveMatches(bs, Scope(cs, n.body), NExec(m, cs, n.body, f, Enter(ns)), Exec(m, Resolve(cs, n.body), f, st));
  }

  lemma IfLike(m: Sem, bs: Blocks, n: NStmt, f: nat, ns: NState, st: Store)
    requires n.NIf? && S.Stacked(bs) && Like(bs, ns, st) && Fits(Resolve(bs, n), |st.locals|)
    ensures bs != [] && |ns.env| == |bs| && Matches(Scope(bs, n), NExec(m, bs, n, f, ns), Exec(m, Resolve(bs, n), f, st))
    decreases f, n, 4
  {
    hide S.Stacked, S.Grown, Like, NEval, Eval, ResolveExpr, ExprFits;
    NotEmpty(bs);
    LikeSized(bs, ns, st);
    TwoGrow(bs, n.then1, n.else0);
    EvalLike(m, bs, n.cond, ns, st);
    var r, x := NEval(m, bs, n.cond, ns), Eval(m, ResolveExpr(bs, n.cond), st);
    if r.Some? {
      if m.truth(r.value.0) {
        StmtLike(m, bs, n.then1, f, r.value.1, x.1);
        GrownMatches(Scope(bs, n.then1), Scope(bs, n), NExec(m, bs, n.then1, f, r.value.1), Exec(m, Resolve(bs, n.then1), f, x.1));
      } else {
        GrownLike(bs, Scope(bs, n.then1), r.value.1, x.1);
        StmtLike(m, Scope(bs, n.then1), n.else0, f, r.value.1, x.1);
      }
    }
  }

  // ---------- Loops ----------

  lemma LoopLike(m: Sem, bs: Blocks, n: NStmt, f: nat, ns: NState, st: Store)
    requires n.NLoop? && S.Stacked(bs) && Like(bs, ns, st) && Fits(Resolve(bs, n), |st.locals|)
    ensures bs != [] && |ns.env| == |bs| && Matches(Scope(bs, n), NExec(m, bs, n, f, ns), Exec(m, Resolve(bs, n), f, st))
    decreases f, n, 4
  {
    hide S.Stacked, S.Grown, Like, ResolveExpr, ExprFits, Matches;
    NotEmpty(bs);
    LikeSized(bs, ns, st);
    LoopScopes(bs, n);
    EnterLike(bs, ns, st);
    var cs, ds := S.Opened(bs), TestScope(bs, n);
    GrownFront(bs, cs, ds);
    StmtLike(m, cs, n.init, f, Enter(ns), st);
    var r, x := NExec(m, cs, n.init, f, Enter(ns)), Exec(m, Resolve(cs, n.init), f, st);
    MatchesSame(BodyScope(bs, n), r, x);
    GrownMatches(BodyScope(bs, n), ds, r, x);
    if r.NEnded? && r.o == Normal {
      MatchesSame(ds, r, x);
      var s := Resolve(bs, n);
      if n.kind == Do {
        LoopBodyLike(m, bs, n, f, r.st, x.st);
        LeaveMatches(bs, ds, NLoopBody(m, bs, n, f, r.st), LoopBody(m, s, f, x.st));
      } else {
        LoopTestLike(m, bs, n, f, r.st, x.st);
        LeaveMatches(bs, ds, NLoopTest(m, bs, n, f, r.st), LoopTest(m, s, f, x.st));
      }
    } else if r != Unset {
      LeaveMatches(bs, ds, r, x);
    } else {
      UnsetMatches(bs, Exec(m, Resolve(bs, n), f, st));
    }
    ScopeOfLoop(bs, n);
  }

  lemma ScopeOfLoop(bs: Blocks, n: NStmt)
    requires bs != [] && n.NLoop?
    ensures Scope(bs, n) == bs
  {
  }

  lemma MatchesSame(bs: Blocks, r: NResult, x: Result)
    requires Matches(bs, r, x)
    ensures r == NOutOfFuel ==> x == OutOfFuel
    ensures r.NEnded? ==> x.Ended? && x.o == r.o && Like(bs, r.st, x.st)
  {
  }

  lemma ForgetLike(bs: Blocks, cs: Blocks, ns: NState, st: Store)
    requires S.Grown(bs, cs) && Like(cs, ns, st)
    ensures |ns.env| == |bs| > 0 && Like(bs, Forget(bs, ns), st)
  {
    S.ForgetAgrees(bs, cs, ns.env, st.locals);
  }

  lemma LoopLeftMatches(bs: Blocks, r: NResult, x: Result)
    requires Matches(bs, r, x) && (r.NEnded? ==> r.o != Normal && r.o != Cont(0)) && (x.Ended? && r != Unset ==> x.o != Normal && x.o != Cont(0))
    ensures r != Unset ==> Matches(bs, LoopLeft(r), LeaveLoop(x))
  {
    hide Like;
  }

  lemma LoopBodyLike(m: Sem, bs: Blocks, n: NStmt, f: nat, ns: NState, st: Store)
    requires n.NLoop? && S.Stacked(bs) && Fits(Resolve(bs, n), |st.locals|) && bs != [] && Like(TestScope(bs, n), ns, st)
    ensures |ns.env| == |bs| + 1 && Matches(TestScope(bs, n), NLoopBody(m, bs, n, f, ns), LoopBody(m, Resolve(bs, n), f, st))
    decreases f, n, 3
  {
    hide S.Stacked, S.Grown, Like, ResolveExpr, ExprFits, Matches, LoopLeft, LeaveLoop;
    LoopScopes(bs, n);
    LikeSized(TestScope(bs, n), ns, st);
    ForgetLike(BodyScope(bs, n), TestScope(bs, n), ns, st);
    StmtLike(m, BodyScope(bs, n), n.body, f, Forget(BodyScope(bs, n), ns), st);
    var r := NExec(m, BodyScope(bs, n), n.body, f, Forget(BodyScope(bs, n), ns));
    var x := Exec(m, Resolve(BodyScope(bs, n), n.body), f, st);
    GrownMatches(FiniScope(bs, n), TestScope(bs, n), r, x);
    MatchesSame(TestScope(bs, n), r, x);
    if r.NEnded? && (r.o == Normal || r.o == Cont(0)) {
      LoopFiniLike(m, bs, n, f, r.st, x.st);
    } else if r != Unset {
      LoopLeftMatches(TestScope(bs, n), r, x);
    } else {
      UnsetMatches(TestScope(bs, n), LoopBody(m, Resolve(bs, n), f, st));
      LeftUnset(r);
    }
  }

  lemma UnsetMatches(bs: Blocks, x: Result)
    ensures Matches(bs, Unset, x)
  {
  }

  lemma LeftUnset(r: NResult)
    requires r == Unset
    ensures LoopLeft(r) == Unset
  {
  }

  lemma LoopFiniLike(m: Sem, bs: Blocks, n: NStmt, f: nat, ns: NState, st: Store)
    requires n.NLoop? && S.Stacked(bs) && Fits(Resolve(bs, n), |st.locals|) && bs != [] && Like(TestScope(bs, n), ns, st)
    ensures |ns.env| == |bs| + 1 && Matches(TestScope(bs, n), NLoopFini(m, bs, n, f, ns), LoopFini(m, Resolve(bs, n), f, st))
    decreases f, n, 2
  {
    hide S.Stacked, S.Grown, Like, ResolveExpr, ExprFits, Matches, LoopLeft, LeaveLoop;
    LoopScopes(bs, n);
    LikeSized(TestScope(bs, n), ns, st);
    ForgetLike(FiniScope(bs, n), TestScope(bs, n), ns, st);
    StmtLike(m, FiniScope(bs, n), n.fini, f, Forget(FiniScope(bs, n), ns), st);
    var r := NExec(m, FiniScope(bs, n), n.fini, f, Forget(FiniScope(bs, n), ns));
    var x := Exec(m, Resolve(FiniScope(bs, n), n.fini), f, st);
    MatchesSame(TestScope(bs, n), r, x);
    if r.NEnded? && r.o == Normal {
      LoopTestLike(m, bs, n, f, r.st, x.st);
    } else if r.NEnded? && r.o == Cont(0) {
      if f > 0 { LoopFiniLike(m, bs, n, f - 1, r.st, x.st); } else { OutMatches(TestScope(bs, n)); }
    } else if r != Unset {
      LoopLeftMatches(TestScope(bs, n), r, x);
    } else {
      UnsetMatches(TestScope(bs, n), LoopFini(m, Resolve(bs, n), f, st));
      LeftUnset(r);
    }
  }

  lemma OutMatches(bs: Blocks)
    ensures Matches(bs, NOutOfFuel, OutOfFuel)
  {
  }

  lemma TestLike(m: Sem, bs: Blocks, n: NStmt, ns: NState, st: Store)
    requires n.NLoop? && S.Stacked(bs) && Fits(Resolve(bs, n), |st.locals|) && bs != [] && Like(TestScope(bs, n), ns, st)
    ensures |ns.env| == |bs| + 1
    ensures var r := NTest(m, bs, n, ns); r.Some? ==>
      var (t, st1) := TestLoop(m, Resolve(bs, n), st); t == r.value.0 && Like(TestScope(bs, n), r.value.1, st1)
  {
    hide S.Stacked, S.Grown, Like, ResolveExpr, ExprFits, NEval, Eval;
    LoopScopes(bs, n);
    LikeSized(TestScope(bs, n), ns, st);
    if n.test.Some? { EvalLike(m, TestScope(bs, n), n.test.value, ns, st); }
  }

  lemma LoopTestLike(m: Sem, bs: Blocks, n: NStmt, f: nat, ns: NState, st: Store)
    requires n.NLoop? && S.Stacked(bs) && Fits(Resolve(bs, n), |st.locals|) && bs != [] && Like(TestScope(bs, n), ns, st)
    ensures |ns.env| == |bs| + 1 && Matches(TestScope(bs, n), NLoopTest(m, bs, n, f, ns), LoopTest(m, Resolve(bs, n), f, st))
    decreases f, n, 1
  {
    hide S.Stacked, S.Grown, Like, NTest, TestLoop, Fits, Resolve, Scope;
    LikeSized(TestScope(bs, n), ns, st);
    TestLike(m, bs, n, ns, st);
    ResolveLoop(bs, n);
    var r := NTest(m, bs, n, ns);
    var s := Resolve(bs, n);
    if r.Some? && r.value.0 && f > 0 { LoopBodyLike(m, bs, n, f - 1, r.value.1, TestLoop(m, s, st).1); }
  }

  lemma ResolveLoop(bs: Blocks, n: NStmt)
    requires bs != [] && n.NLoop?
    ensures Resolve(bs, n).Loop?
  {
  }

  // ---------- Switches ----------

  lemma SwitchLike(m: Sem, bs: Blocks, n: NStmt, f: nat, ns: NState, st: Store)
    requires n.NSwitch? && S.Stacked(bs) && Like(bs, ns, st) && Fits(Resolve(bs, n), |st.locals|)
    ensures bs != [] && |ns.env| == |bs| && Matches(Scope(bs, n), NExec(m, bs, n, f, ns), Exec(m, Resolve(bs, n), f, st))
    decreases f, n, 4
  {
    hide S.Stacked, S.Grown, Like, NEval, Eval, ResolveExpr, ExprFits, Matches, CasesFit, ResolveCases, NSelected, Selected, CasesScope, SwitchLeft, LeaveSwitch, Leave;
    NotEmpty(bs);
    LikeSized(bs, ns, st);
    var cs := S.Opened(bs);
    OpenedOk(bs);
    EnterLike(bs, ns, st);
    EvalLike(m, cs, n.subject, Enter(ns), st);
    var r, x := NEval(m, cs, n.subject, Enter(ns)), Eval(m, ResolveExpr(cs, n.subject), st);
    if r.None? {
      UnsetMatches(bs, Exec(m, Resolve(bs, n), f, st));
    } else {
      CasesGrow(cs, n.cases);
      var ds := CasesScope(cs, n.cases);
      GrownFront(bs, cs, ds);
      SelectedLike(cs, n.cases, r.value.0, |st.locals|);
      var sel := NSelected(cs, n.cases, r.value.0);
      if sel.None? {
        GrownLike(cs, ds, r.value.1, x.1);
        NormalMatches(ds, r.value.1, x.1);
        LeaveMatches(bs, ds, NEnded(Normal, r.value.1), Ended(Normal, x.1));
      } else {
        var (es, body) := sel.value;
        GrownLike(cs, es, r.value.1, x.1);
        StmtLike(m, es, body, f, r.value.1, x.1);
        var r2, x2 := NExec(m, es, body, f, r.value.1), Exec(m, Resolve(es, body), f, x.1);
        GrownMatches(Scope(es, body), ds, r2, x2);
        SwitchLeftMatches(ds, r2, x2);
        LeaveMatches(bs, ds, SwitchLeft(r2), LeaveSwitch(x2));
      }
    }
  }

  lemma NormalMatches(bs: Blocks, ns: NState, st: Store)
    requires Like(bs, ns, st)
    ensures Matches(bs, NEnded(Normal, ns), Ended(Normal, st))
  {
  }

  lemma SwitchLeftMatches(bs: Blocks, r: NResult, x: Result)
    requires Matches(bs, r, x)
    ensures Matches(bs, SwitchLeft(r), LeaveSwitch(x))
  {
    hide Like;
  }

  /** The selected case is the resolved one, with blocks between those at the first case and those behind the last. */
  lemma SelectedLike(bs: Blocks, cs: NCases, v: Value, w: nat)
    requires S.Stacked(bs) && CasesFit(ResolveCases(bs, cs), w)
    ensures bs != []
    ensures var r, x := NSelected(bs, cs, v), Selected(ResolveCases(bs, cs), v);
      r.Some? == x.Some? && (r.Some? ==> CaseLike(bs, cs, r.value.0, r.value.1, x.value, w))
  {
    hide S.Stacked, S.Grown, Fits, Resolve, Scope, CasesScope, CaseLike;
    NotEmpty(bs);
    FindCaseLike(bs, cs, v, w);
    FindDefaultLike(bs, cs, w);
  }

  ghost predicate CaseLike(bs: Blocks, cs: NCases, es: Blocks, body: NStmt, s: Stmt, w: nat)
    requires bs != []
  {
    es != [] && S.Stacked(es) && S.Grown(bs, es) && s == Resolve(es, body) && Fits(s, w) && S.Grown(Scope(es, body), CasesScope(bs, cs))
  }

  lemma HeadLike(bs: Blocks, cs: NCases, w: nat)
    requires S.Stacked(bs) && CasesFit(ResolveCases(bs, cs), w) && cs.NCase?
    ensures bs != [] && CaseLike(bs, cs, bs, cs.body, Resolve(bs, cs.body), w)
    ensures S.Stacked(Scope(bs, cs.body)) && CasesFit(ResolveCases(Scope(bs, cs.body), cs.rest), w)
  {
    hide S.Stacked, S.Grown, Fits, Resolve, Scope;
    NotEmpty(bs);
    GrownSame(bs);
    ScopeGrows(bs, cs.body);
    CasesGrow(Scope(bs, cs.body), cs.rest);
  }

  lemma LaterLike(bs: Blocks, cs: NCases, es: Blocks, body: NStmt, s: Stmt, w: nat)
    requires S.Stacked(bs) && cs.NCase? && bs != [] && CaseLike(Scope(bs, cs.body), cs.rest, es, body, s, w)
    ensures CaseLike(bs, cs, es, body, s, w)
  {
    hide S.Stacked, S.Grown, Fits, Resolve, Scope;
    ScopeGrows(bs, cs.body);
    S.GrownTrans(bs, Scope(bs, cs.body), es);
  }

  lemma {:induction false} FindCaseLike(bs: Blocks, cs: NCases, v: Value, w: nat)
    requires S.Stacked(bs) && CasesFit(ResolveCases(bs, cs), w)
    ensures bs != []
    ensures var r, x := NFindCase(bs, cs, v), FindCase(ResolveCases(bs, cs), v);
      r.Some? == x.Some? && (r.Some? ==> CaseLike(bs, cs, r.value.0, r.value.1, x.value, w))
    decreases cs
  {
    hide S.Stacked, S.Grown, Fits, Resolve, Scope, CasesScope, CaseLike;
    NotEmpty(bs);
    if cs.NCase? {
      HeadLike(bs, cs, w);
      if v !in cs.vals {
        FindCaseLike(Scope(bs, cs.body), cs.rest, v, w);
        var r := NFindCase(Scope(bs, cs.body), cs.rest, v);
        if r.Some? {
          LaterLike(bs, cs, r.value.0, r.value.1, FindCase(ResolveCases(Scope(bs, cs.body), cs.rest), v).value, w);
        }
      }
    }
  }

  lemma {:induction false} FindDefaultLike(bs: Blocks, cs: NCases, w: nat)
    requires S.Stacked(bs) && CasesFit(ResolveCases(bs, cs), w)
    ensures bs != []
    ensures var r, x := NFindDefault(bs, cs), FindDefault(ResolveCases(bs, cs));
      r.Some? == x.Some? && (r.Some? ==> CaseLike(bs, cs, r.value.0, r.value.1, x.value, w))
    decreases cs
  {
    hide S.Stacked, S.Grown, Fits, Resolve, Scope, CasesScope, CaseLike;
    NotEmpty(bs);
    if cs.NCase? {
      HeadLike(bs, cs, w);
      if cs.vals != [] {
        FindDefaultLike(Scope(bs, cs.body), cs.rest, w);
        var r := NFindDefault(Scope(bs, cs.body), cs.rest);
        if r.Some? {
          LaterLike(bs, cs, r.value.0, r.value.1, FindDefault(ResolveCases(Scope(bs, cs.body), cs.rest)).value, w);
        }
      }
    }
  }

  // ---------- Whole functions ----------

  /** The function's outermost block; the generator opens one more for the body. */
  const FRAME: Blocks := [S.Block(0, [])]

  function Program(n: NStmt): Stmt {
    Resolve(FRAME, NBlock(n))
  }

  /** The code's nLocal. */
  function FrameSize(n: NStmt): nat {
    NLocal(FRAME, NBlock(n), 0)
  }

  function Meaning(m: Sem, n: NStmt, f: nat, globals: map<string, Value>): NResult {
    NExec(m, FRAME, NBlock(n), f, NState([map[]], globals))
  }

  function NVisible(r: NResult): Option<Config> {
    match r
    case NEnded(Normal, st) => Some(Done([], st.globals))
    case NEnded(Ret(vs), st) => Some(Done(vs, st.globals))
    case _ => None
  }

  lemma ProgramLike(m: Sem, n: NStmt, f: nat, st: Store)
    requires FrameSize(n) <= |st.locals|
    ensures Fits(Program(n), |st.locals|) && Matches(FRAME, Meaning(m, n, f, st.globals), Exec(m, Program(n), f, st))
  {
    assert S.Agrees(FRAME, [map[]], st.locals) && Scope(FRAME, NBlock(n)) == FRAME;
    hide NExec, Exec, Fits, Resolve, NLocal, Matches, Scope;
    SlotsFit(FRAME, NBlock(n), 0, |st.locals|);
    StmtLike(m, FRAME, NBlock(n), f, NState([map[]], st.globals), st);
  }

  lemma VisibleLike(bs: Blocks, r: NResult, x: Result)
    requires Matches(bs, r, x) && r != Unset
    ensures NVisible(r) == Visible(x)
  {
    hide S.Agrees;
  }

  /** A function whose meaning by names ends stops with just that; and if it stops, its meaning by names ends so, or a
      variable was read whose declaration had been jumped over. The slots may hold anything at the start. */
  lemma NamesKeepMeaning(m: Sem, n: NStmt, st: Store, out: Config)
    requires Accepted(Program(n), 0, 0) && FrameSize(n) <= |st.locals| && !out.Running?
    ensures (exists f: nat :: NVisible(Meaning(m, n, f, st.globals)) == Some(out))
        ==> exists k: nat :: Run(m, FunctionCode(Program(n)), k, Conf(0, st, [], [])) == out
    ensures (exists k: nat :: Run(m, FunctionCode(Program(n)), k, Conf(0, st, [], [])) == out)
        ==> exists f: nat :: Meaning(m, n, f, st.globals) == Unset || NVisible(Meaning(m, n, f, st.globals)) == Some(out)
  {
    hide FunctionCode, Run, Conf, Accepted, Fits, Exec, Meaning, Program, FrameSize, NVisible, Visible, Matches;
    ProgramLike(m, n, 0, st);
    LoweringPreservesMeaning(m, Program(n), st, out);
    if f: nat :| NVisible(Meaning(m, n, f, st.globals)) == Some(out) {
      SeenLike(m, n, f, st);
      assert Visible(Exec(m, Program(n), f, st)) == Some(out);
    }
    if k: nat :| Run(m, FunctionCode(Program(n)), k, Conf(0, st, [], [])) == out {
      MachineStops(m, Program(n), k, st, out);
      SeenLike(m, n, k + 1, st);
      assert Meaning(m, n, k + 1, st.globals) == Unset || NVisible(Meaning(m, n, k + 1, st.globals)) == Some(out);
    }
  }

  lemma SeenLike(m: Sem, n: NStmt, f: nat, st: Store)
    requires FrameSize(n) <= |st.locals|
    ensures Meaning(m, n, f, st.globals) == Unset || NVisible(Meaning(m, n, f, st.globals)) == Visible(Exec(m, Program(n), f, st))
    ensures Meaning(m, n, f, st.globals) == Unset ==> NVisible(Meaning(m, n, f, st.globals)) == None
  {
    hide Exec, Meaning, Program, FrameSize, Visible, Matches;
    ProgramLike(m, n, f, st);
    if Meaning(m, n, f, st.globals) != Unset { VisibleLike(FRAME, Meaning(m, n, f, st.globals), Exec(m, Program(n), f, st)); }
  }

  // ---------- When no declaration can be jumped over ----------

  /** Branches, loop bodies and cases declare only inside blocks of their own; direct says that n is none of these. */
  predicate DeclaresInBlocks(n: NStmt, direct: bool) {
    match n
    case NAssign(l, more, _) => direct || NoLocal([l] + more)
    case NSeq(a, b) => DeclaresInBlocks(a, direct) && DeclaresInBlocks(b, direct)
    case NBlock(a) => DeclaresInBlocks(a, true)
    case NIf(_, a, b) => DeclaresInBlocks(a, false) && DeclaresInBlocks(b, false)
    case NLoop(_, a, _, f, b) => DeclaresInBlocks(a, true) && DeclaresInBlocks(f, false) && DeclaresInBlocks(b, false)
    case NSwitch(_, cs) => CasesDeclareInBlocks(cs)
    case _ => true
  }

  predicate CasesDeclareInBlocks(cs: NCases) {
    cs.NCase? ==> DeclaresInBlocks(cs.body, false) && CasesDeclareInBlocks(cs.rest)
  }

  predicate NoLocal(ls: seq<NList>) {
    forall i :: 0 <= i < |ls| ==> !ls[i].loc
  }

  lemma {:induction false} NoLocalScope(bs: Blocks, ls: seq<NList>)
    requires bs != [] && NoLocal(ls)
    ensures ChainScope(bs, ls) == bs
    decreases |ls|
  {
    if ls != [] { NoLocalScope(bs, ls[..|ls| - 1]); }
  }

  lemma {:induction false} NothingDeclared(bs: Blocks, n: NStmt)
    requires bs != [] && DeclaresInBlocks(n, false)
    ensures Scope(bs, n) == bs
  {
    match n {
      case NAssign(l, more, _) => NoLocalScope(bs, [l] + more);
      case NSeq(a, b) => NothingDeclared(bs, a); NothingDeclared(bs, b);
      case NIf(_, a, b) => NothingDeclared(bs, a); NothingDeclared(bs, b);
      case _ =>
    }
  }

  /** All variables of open blocks have values. */
  ghost predicate Complete(bs: Blocks, env: S.Env<Value>) {
    |env| == |bs| && forall i, s :: 0 <= i < |bs| && s in bs[i].variables ==> s in env[i]
  }

  lemma ReadDefined(bs: Blocks, s: string, st: NState)
    requires Complete(bs, st.env)
    ensures ReadName(bs, s, st).Some?
  {
  }

  lemma WriteDefined(bs: Blocks, s: string, v: Value, st: NState)
    requires Complete(bs, st.env)
    ensures Complete(bs, WriteName(bs, s, v, st).env)
  {
  }

  lemma {:induction false} EvalDefined(m: Sem, bs: Blocks, e: NExpr, st: NState)
    requires Complete(bs, st.env)
    ensures NEval(m, bs, e, st).Some? && Complete(bs, NEval(m, bs, e, st).value.1.env)
  {
    hide ReadName, WriteName;
    assert |st.env| == |bs|;
    hide Complete;
    match e {
      case NLit(_) =>
      case NInt(_) =>
      case Name(s) => ReadDefined(bs, s, st);
      case NUn(_, e1) => EvalDefined(m, bs, e1, st);
      case NBin(_, e1, e2) => EvalDefined(m, bs, e1, st); EvalDefined(m, bs, e2, NEval(m, bs, e1, st).value.1);
      case NIncr(s, plus, _) =>
        ReadDefined(bs, s, st);
        WriteDefined(bs, s, m.op2(if plus then Add else Sub, ReadName(bs, s, st).value, Int(1)), st);
    }
  }

  lemma {:induction false} EvalAllDefined(m: Sem, bs: Blocks, es: seq<NExpr>, st: NState)
    requires Complete(bs, st.env)
    ensures NEvalAll(m, bs, es, st).Some? && Complete(bs, NEvalAll(m, bs, es, st).value.1.env)
  {
    assert |st.env| == |bs|;
    hide Complete, NEval;
    if es != [] {
      EvalDefined(m, bs, es[0], st);
      EvalAllDefined(m, bs, es[1..], NEval(m, bs, es[0], st).value.1);
    }
  }

  lemma WriteSets(bs: Blocks, s: string, v: Value, st: NState)
    requires |st.env| == |bs|
    ensures var r := WriteName(bs, s, v, st);
      && (forall i :: 0 <= i < |bs| ==> st.env[i].Keys <= r.env[i].Keys)
      && (S.Owner(bs, s) >= 0 ==> s in r.env[S.OwnerIn(bs, s)])
  {
  }

  /** An assigned name has a value, and none loses it. */
  lemma {:induction false} AssignSets(bs: Blocks, names: seq<Option<string>>, vs: seq<Value>, st: NState)
    requires |st.env| == |bs|
    ensures var r := NAssignItems(bs, names, vs, st);
      && (forall i :: 0 <= i < |bs| ==> st.env[i].Keys <= r.env[i].Keys)
      && (forall s :: Some(s) in names && S.Owner(bs, s) >= 0 ==> s in r.env[S.OwnerIn(bs, s)])
  {
    hide WriteName, S.Owner;
    if names != [] {
      var vs1 := if vs == [] then [] else vs[1..];
      AssignSets(bs, names[1..], vs1, st);
      if names[0].Some? { WriteSets(bs, names[0].value, Item(vs, 0), NAssignItems(bs, names[1..], vs1, st)); }
    }
  }

  lemma {:induction false} DeclaredNames(bs: Blocks, names: seq<Option<string>>, s: string)
    requires bs != [] && s in S.Top(DeclareAll(bs, names)).variables
    ensures s in S.Top(bs).variables || Some(s) in names
    ensures DeclareAll(bs, names)[..|bs| - 1] == bs[..|bs| - 1]
  {
    if names != [] {
      var r := DeclareAll(bs, names[1..]);
      DeclareFront(bs, names);
      if s in S.Top(r).variables { DeclaredNames(bs, names[1..], s); }
    }
  }

  lemma {:induction false} DeclareFront(bs: Blocks, names: seq<Option<string>>)
    requires bs != []
    ensures DeclareAll(bs, names)[..|bs| - 1] == bs[..|bs| - 1]
  {
    if names != [] { DeclareFront(bs, names[1..]); }
  }

  lemma ListDefined(bs: Blocks, l: NList, vs: seq<Value>, st: NState)
    requires bs != [] && Complete(bs, st.env)
    ensures Complete(ListScope(bs, l), NAssignItems(ListScope(bs, l), l.names, vs, st).env)
  {
    var cs := ListScope(bs, l);
    var r := NAssignItems(cs, l.names, vs, st);
    AssignSets(cs, l.names, vs, st);
    DeclareFront(bs, l.names);
    assert forall i :: 0 <= i < |bs| - 1 ==> cs[i] == cs[..|bs| - 1][i] && bs[i] == bs[..|bs| - 1][i];
    forall i, s | 0 <= i < |cs| && s in cs[i].variables ensures s in r.env[i] {
      if i < |bs| - 1 || s in bs[i].variables {
        assert s in bs[i].variables;
        assert s in st.env[i];
      } else {
        DeclaredNames(bs, l.names, s);
        assert S.Owner(cs, s) == |cs| - 1;
      }
    }
  }

  lemma {:induction false} ReadAllDefined(bs: Blocks, names: seq<Option<string>>, st: NState)
    requires Complete(bs, st.env)
    ensures NReadAll(bs, names, st).Some?
  {
    hide ReadName;
    if names != [] {
      if names[0].Some? { ReadDefined(bs, names[0].value, st); }
      ReadAllDefined(bs, names[1..], st);
    }
  }

  lemma {:induction false} ChainDefined(bs: Blocks, ls: seq<NList>, vs: seq<Value>, st: NState)
    requires bs != [] && Complete(bs, st.env)
    ensures NAssignChain(bs, ls, vs, st).Some? && Complete(ChainScope(bs, ls), NAssignChain(bs, ls, vs, st).value.env)
    decreases |ls|
  {
    assert |st.env| == |bs|;
    hide Complete, ListScope, NAssignItems, NReadAll;
    if ls != [] {
      var l := ls[|ls| - 1];
      var cs := ListScope(bs, l);
      ListDefined(bs, l, vs, st);
      var st1 := NAssignItems(cs, l.names, vs, st);
      ReadAllDefined(cs, l.names, st1);
      ChainDefined(cs, ls[..|ls| - 1], NReadAll(cs, l.names, st1).value, st1);
    }
  }

  lemma FewerComplete(bs: Blocks, cs: Blocks, env: S.Env<Value>)
    requires S.Grown(bs, cs) && Complete(cs, env)
    ensures Complete(bs, env)
  {
    forall i, s | 0 <= i < |bs| && s in bs[i].variables ensures s in env[i] { S.GrownBlock(bs, cs, i); }
  }

  /** Nothing unset was read, and what was open has values; at its end also what was declared. */
  ghost predicate Defined(bs: Blocks, cs: Blocks, r: NResult) {
    r != Unset && (r.NEnded? ==> Complete(bs, r.st.env) && (r.o == Normal ==> Complete(cs, r.st.env)))
  }

  lemma EnterDefined(bs: Blocks, st: NState)
    requires bs != [] && Complete(bs, st.env)
    ensures Complete(S.Opened(bs), Enter(st).env) && |Enter(st).env| == |bs| + 1
  {
  }

  lemma LeaveDefined(bs: Blocks, cs: Blocks, ds: Blocks, r: NResult)
    requires Defined(cs, ds, r) && |cs| == |bs| + 1 && cs[..|bs|] == bs
    ensures r.NEnded? ==> r.st.env != []
    ensures Defined(bs, bs, Leave(r))
  {
    if r.NEnded? {
      forall i, s | 0 <= i < |bs| && s in bs[i].variables ensures s in r.st.env[i] { assert cs[i] == bs[i]; }
    }
  }

  lemma ForgetDefined(bs: Blocks, st: NState)
    requires bs != [] && Complete(bs, st.env)
    ensures |st.env| == |bs| && Complete(bs, Forget(bs, st).env)
  {
  }

  lemma {:induction false} StmtDefined(m: Sem, bs: Blocks, n: NStmt, direct: bool, f: nat, st: NState)
    requires S.Stacked(bs) && Complete(bs, st.env) && DeclaresInBlocks(n, direct)
    ensures bs != [] && |st.env| == |bs| && Defined(bs, Scope(bs, n), NExec(m, bs, n, f, st))
    decreases f, n, 5
  {
    NotEmpty(bs);
    assert |st.env| == |bs|;
    hide S.Stacked, S.Grown, Complete, NEval, NEvalAll, NAssignChain, ChainScope, Defined, Scope, NExec;
    match n {
      case NSeq(_, _) => SeqDefined(m, bs, n, direct, f, st);
      case NBlock(_) => BlockDefined(m, bs, n, direct, f, st);
      case NIf(_, _, _) => IfDefined(m, bs, n, direct, f, st);
      case NLoop(_, _, _, _, _) => LoopDefined(m, bs, n, direct, f, st);
      case NSwitch(_, _) => SwitchDefined(m, bs, n, direct, f, st);
      case _ => SimpleDefined(m, bs, n, f, st);
    }
  }

  lemma SimpleDefined(m: Sem, bs: Blocks, n: NStmt, f: nat, st: NState)
    requires S.Stacked(bs) && Complete(bs, st.env) && (n.NNop? || n.NAssign? || n.NControl? || n.NReturn?)
    ensures bs != [] && |st.env| == |bs| && Defined(bs, Scope(bs, n), NExec(m, bs, n, f, st))
  {
    NotEmpty(bs);
    assert |st.env| == |bs|;
    hide S.Stacked, S.Grown, Complete, NEval, NEvalAll, NAssignChain, ChainScope;
    if n.NAssign? || n.NReturn? {
      EvalAllDefined(m, bs, n.es, st);
      if n.NAssign? {
        var r := NEvalAll(m, bs, n.es, st).value;
        var ls := [n.l] + n.more;
        ChainDefined(bs, ls, r.0, r.1);
        ChainGrows(bs, ls);
        FewerComplete(bs, ChainScope(bs, ls), NAssignChain(bs, ls, r.0, r.1).value.env);
      }
    }
  }

  lemma SeqDefined(m: Sem, bs: Blocks, n: NStmt, direct: bool, f: nat, st: NState)
    requires n.NSeq? && S.Stacked(bs) && Complete(bs, st.env) && DeclaresInBlocks(n, direct)
    ensures bs != [] && |st.env| == |bs| && Defined(bs, Scope(bs, n), NExec(m, bs, n, f, st))
    decreases f, n, 4
  {
    NotEmpty(bs);
    assert |st.env| == |bs|;
    hide S.Stacked, S.Grown, Complete;
    TwoGrow(bs, n.first, n.rest);
    StmtDefined(m, bs, n.first, direct, f, st);
    var r := NExec(m, bs, n.first, f, st);
    if r.NEnded? && r.o == Normal {
      StmtDefined(m, Scope(bs, n.first), n.rest, direct, f, r.st);
      var r2 := NExec(m, Scope(bs, n.first), n.rest, f, r.st);
      if r2.NEnded? { FewerComplete(bs, Scope(bs, n.first), r2.st.env); }
    }
  }

  lemma BlockDefined(m: Sem, bs: Blocks, n: NStmt, direct: bool, f: nat, st: NState)
    requires n.NBlock? && S.Stacked(bs) && Complete(bs, st.env) && DeclaresInBlocks(n, direct)
    ensures bs != [] && |st.env| == |bs| && Defined(bs, Scope(bs, n), NExec(m, bs, n, f, st))
    decreases f, n, 4
  {
    NotEmpty(bs);
    assert |st.env| == |bs|;
    hide S.Stacked, S.Grown, Complete, Defined;
    var cs := S.Opened(bs);
    OpenedOk(bs);
    EnterDefined(bs, st);
    StmtDefined(m, cs, n.body, true, f, Enter(st));
    LeaveDefined(bs, cs, Scope(cs, n.body), NExec(m, cs, n.body, f, Enter(st)));
  }

  lemma IfDefined(m: Sem, bs: Blocks, n: NStmt, direct: bool, f: nat, st: NState)
    requires n.NIf? && S.Stacked(bs) && Complete(bs, st.env) && DeclaresInBlocks(n, direct)
    ensures bs != [] && |st.env| == |bs| && Defined(bs, Scope(bs, n), NExec(m, bs, n, f, st))
    decreases f, n, 4
  {
    NotEmpty(bs);
    assert |st.env| == |bs|;
    hide S.Stacked, S.Grown, Complete, Defined, NEval;
    NothingDeclared(bs, n.then1);
    NothingDeclared(bs, n.else0);
    EvalDefined(m, bs, n.cond, st);
    var r := NEval(m, bs, n.cond, st).value;
    if m.truth(r.0) { StmtDefined(m, bs, n.then1, false, f, r.1); } else { StmtDefined(m, bs, n.else0, false, f, r.1); }
  }

  lemma LoopDefined(m: Sem, bs: Blocks, n: NStmt, direct: bool, f: nat, st: NState)
    requires n.NLoop? && S.Stacked(bs) && Complete(bs, st.env) && DeclaresInBlocks(n, direct)
    ensures bs != [] && |st.env| == |bs| && Defined(bs, Scope(bs, n), NExec(m, bs, n, f, st))
    decreases f, n, 4
  {
    NotEmpty(bs);
    assert |st.env| == |bs|;
    ScopeOfLoop(bs, n);
    hide S.Stacked, S.Grown, Complete, Defined, Scope;
    LoopScopes(bs, n);
    EnterDefined(bs, st);
    var cs, ds := S.Opened(bs), BodyScope(bs, n);
    StmtDefined(m, cs, n.init, true, f, Enter(st));
    var r := NExec(m, cs, n.init, f, Enter(st));
    DefinedIs(cs, ds, r);
    if r.NEnded? && r.o == Normal {
      GrownFront(bs, cs, ds);
      if n.kind == Do {
        LoopBodyDefined(m, bs, n, f, r.st);
        LeaveDefined(bs, ds, ds, NLoopBody(m, bs, n, f, r.st));
      } else {
        LoopTestDefined(m, bs, n, f, r.st);
        LeaveDefined(bs, ds, ds, NLoopTest(m, bs, n, f, r.st));
      }
    } else {
      LeaveDefined(bs, cs, ds, r);
    }
  }

  lemma DefinedIs(bs: Blocks, cs: Blocks, r: NResult)
    requires Defined(bs, cs, r)
    ensures r != Unset && (r.NEnded? ==> Complete(bs, r.st.env) && (r.o == Normal ==> Complete(cs, r.st.env)))
    ensures r.NEnded? && r.o != Normal && r.o != Cont(0) ==> Defined(bs, bs, LoopLeft(r))
    ensures !r.NEnded? ==> Defined(bs, bs, LoopLeft(r))
    ensures Defined(bs, bs, SwitchLeft(r)) || bs != cs
  {
    hide Complete;
  }

  lemma LoopSame(bs: Blocks, n: NStmt)
    requires n.NLoop? && bs != [] && DeclaresInBlocks(n, true)
    ensures FiniScope(bs, n) == BodyScope(bs, n) == TestScope(bs, n)
  {
    NothingDeclared(BodyScope(bs, n), n.body);
    NothingDeclared(FiniScope(bs, n), n.fini);
  }

  lemma LoopBodyDefined(m: Sem, bs: Blocks, n: NStmt, f: nat, st: NState)
    requires n.NLoop? && S.Stacked(bs) && bs != [] && Complete(BodyScope(bs, n), st.env) && DeclaresInBlocks(n, true)
    ensures |st.env| == |bs| + 1 && Defined(BodyScope(bs, n), BodyScope(bs, n), NLoopBody(m, bs, n, f, st))
    decreases f, n, 3
  {
    hide S.Stacked, S.Grown, Complete, Defined, Scope, LoopLeft;
    LoopScopes(bs, n);
    LoopSame(bs, n);
    var cs := BodyScope(bs, n);
    ForgetDefined(cs, st);
    StmtDefined(m, cs, n.body, false, f, Forget(cs, st));
    NothingDeclared(cs, n.body);
    var r := NExec(m, cs, n.body, f, Forget(cs, st));
    DefinedIs(cs, cs, r);
    if r.NEnded? && (r.o == Normal || r.o == Cont(0)) { LoopFiniDefined(m, bs, n, f, r.st); }
  }

  lemma LoopFiniDefined(m: Sem, bs: Blocks, n: NStmt, f: nat, st: NState)
    requires n.NLoop? && S.Stacked(bs) && bs != [] && Complete(BodyScope(bs, n), st.env) && DeclaresInBlocks(n, true)
    ensures |st.env| == |bs| + 1 && Defined(BodyScope(bs, n), BodyScope(bs, n), NLoopFini(m, bs, n, f, st))
    decreases f, n, 2
  {
    hide S.Stacked, S.Grown, Complete, Defined, Scope, LoopLeft;
    LoopScopes(bs, n);
    LoopSame(bs, n);
    var cs := BodyScope(bs, n);
    ForgetDefined(cs, st);
    StmtDefined(m, cs, n.fini, false, f, Forget(cs, st));
    NothingDeclared(cs, n.fini);
    var r := NExec(m, cs, n.fini, f, Forget(cs, st));
    DefinedIs(cs, cs, r);
    if r.NEnded? && r.o == Normal {
      LoopTestDefined(m, bs, n, f, r.st);
    } else if r.NEnded? && r.o == Cont(0) {
      if f > 0 { LoopFiniDefined(m, bs, n, f - 1, r.st); } else { OutDefined(cs); }
    }
  }

  lemma OutDefined(bs: Blocks)
    ensures Defined(bs, bs, NOutOfFuel)
  {
  }

  lemma LoopTestDefined(m: Sem, bs: Blocks, n: NStmt, f: nat, st: NState)
    requires n.NLoop? && S.Stacked(bs) && bs != [] && Complete(BodyScope(bs, n), st.env) && DeclaresInBlocks(n, true)
    ensures |st.env| == |bs| + 1 && Defined(BodyScope(bs, n), BodyScope(bs, n), NLoopTest(m, bs, n, f, st))
    decreases f, n, 1
  {
    hide S.Stacked, S.Grown, Complete, Scope, NEval;
    LoopScopes(bs, n);
    LoopSame(bs, n);
    var cs := BodyScope(bs, n);
    ForgetDefined(cs, st);
    if n.test.Some? { EvalDefined(m, cs, n.test.value, st); }
    var r := NTest(m, bs, n, st).value;
    if r.0 && f > 0 { LoopBodyDefined(m, bs, n, f - 1, r.1); }
  }

  lemma SwitchDefined(m: Sem, bs: Blocks, n: NStmt, direct: bool, f: nat, st: NState)
    requires n.NSwitch? && S.Stacked(bs) && Complete(bs, st.env) && DeclaresInBlocks(n, direct)
    ensures bs != [] && |st.env| == |bs| && Defined(bs, Scope(bs, n), NExec(m, bs, n, f, st))
    decreases f, n, 4
  {
    NotEmpty(bs);
    assert |st.env| == |bs|;
    hide S.Stacked, S.Grown, Complete, Defined, NEval, NSelected, SwitchLeft, Leave;
    var cs := S.Opened(bs);
    OpenedOk(bs);
    EnterDefined(bs, st);
    EvalDefined(m, cs, n.subject, Enter(st));
    var r := NEval(m, cs, n.subject, Enter(st)).value;
    SelectedDefined(cs, n.cases, r.0);
    var sel := NSelected(cs, n.cases, r.0);
    if sel.None? {
      NormalDefined(cs, r.1);
      LeaveDefined(bs, cs, cs, NEnded(Normal, r.1));
    } else {
      var body := sel.value.1;
      NothingDeclared(cs, body);
      StmtDefined(m, cs, body, false, f, r.1);
      DefinedIs(cs, cs, NExec(m, cs, body, f, r.1));
      LeaveDefined(bs, cs, cs, SwitchLeft(NExec(m, cs, body, f, r.1)));
    }
  }

  lemma NormalDefined(bs: Blocks, st: NState)
    requires Complete(bs, st.env)
    ensures Defined(bs, bs, NEnded(Normal, st))
  {
  }

  lemma SelectedDefined(bs: Blocks, cs: NCases, v: Value)
    requires bs != [] && CasesDeclareInBlocks(cs)
    ensures var r := NSelected(bs, cs, v); r.Some? ==> r.value.0 == bs && DeclaresInBlocks(r.value.1, false)
  {
    hide DeclaresInBlocks;
    FoundDefined(bs, cs, v);
  }

  lemma {:induction false} FoundDefined(bs: Blocks, cs: NCases, v: Value)
    requires bs != [] && CasesDeclareInBlocks(cs)
    ensures var r := NFindCase(bs, cs, v); r.Some? ==> r.value.0 == bs && DeclaresInBlocks(r.value.1, false)
    ensures var r := NFindDefault(bs, cs); r.Some? ==> r.value.0 == bs && DeclaresInBlocks(r.value.1, false)
    decreases cs
  {
    hide DeclaresInBlocks, Scope;
    if cs.NCase? {
      NothingDeclared(bs, cs.body);
      FoundDefined(bs, cs.rest, v);
    }
  }

  /** Such a function never reads an unset variable. */
  lemma NeverUnset(m: Sem, n: NStmt, f: nat, globals: map<string, Value>)
    requires DeclaresInBlocks(n, true)
    ensures Meaning(m, n, f, globals) != Unset
  {
    hide NExec, Scope;
    assert DeclaresInBlocks(NBlock(n), true);
    hide DeclaresInBlocks;
    StmtDefined(m, FRAME, NBlock(n), true, f, NState([map[]], globals));
  }

  /** The code of such a function stops with exactly the results its meaning by names gives, whatever its slots
      hold at the start. */
  lemma NamedLoweringPreservesMeaning(m: Sem, n: NStmt, st: Store, out: Config)
    requires Accepted(Program(n), 0, 0) && FrameSize(n) <= |st.locals| && DeclaresInBlocks(n, true) && !out.Running?
    ensures (exists k: nat :: Run(m, FunctionCode(Program(n)), k, Conf(0, st, [], [])) == out)
       <==> (exists f: nat :: NVisible(Meaning(m, n, f, st.globals)) == Some(out))
  {
    hide FunctionCode, Run, Conf, Accepted, Meaning, Program, FrameSize, NVisible, DeclaresInBlocks;
    NamesKeepMeaning(m, n, st, out);
    forall f: nat ensures Meaning(m, n, f, st.globals) != Unset { NeverUnset(m, n, f, st.globals); }
  }

  function LocalA(v: Value): NStmt {
    NBlock(NAssign(NList(true, [Some("a")]), [], [NLit(v)]))
  }

  function MaybeLocalX(): NStmt {
    NIf(NLit(Bool(false)), NAssign(NList(true, [Some("x")]), [], [NInt(1)]), NNop)
  }

  /** { { local a = v } if (false) local x = 1; return x } */
  function JumpsOver(v: Value): NStmt {
    NSeq(LocalA(v), NSeq(MaybeLocalX(), NReturn([Name("x")])))
  }

  function JumpsOverCode(v: Value): Stmt {
    Seq(Block(AssignStmt([[To(Local(1))]], [Lit(v)])),
      Seq(If(Lit(Bool(false)), AssignStmt([[To(Local(1))]], [IntLit(1)]), Nop), ReturnStmt([Get(Local(1))])))
  }

  /** Without that, a variable can show what a closed block left in its slot. */
  lemma {:induction false} JumpedOver(m: Sem, v: Value, f: nat, globals: map<string, Value>)
    requires !m.truth(Bool(false))
    ensures FrameSize(JumpsOver(v)) == 1 && Meaning(m, JumpsOver(v), f, globals) == Unset
    ensures Exec(m, Program(JumpsOver(v)), f, Store([Nil], globals)) == Ended(Ret([v]), Store([v], globals))
  {
    hide Resolve, Scope, NLocal, LocalA, MaybeLocalX, JumpsOver, JumpsOverCode, NExec, Meaning, FrameSize, Program;
    var bs := S.Opened(FRAME);
    ProgramIs(JumpsOver(v));
    SeqSlots(bs, v);
    BlockRuns(m, JumpsOverCode(v), f, Store([Nil], globals));
    CodeRuns(m, v, f, globals);
    MeaningIs(m, JumpsOver(v), f, globals);
    SeqUnset(m, bs, v, f, Enter(NState([map[]], globals)));
  }

  lemma {:induction false} BlockRuns(m: Sem, s: Stmt, f: nat, st: Store)
    ensures Exec(m, Block(s), f, st) == Exec(m, s, f, st)
  {
  }

  lemma {:induction false} ProgramIs(n: NStmt)
    ensures Program(n) == Block(Resolve(S.Opened(FRAME), n))
    ensures FrameSize(n) == Closed(Scope(S.Opened(FRAME), n), NLocal(S.Opened(FRAME), n, 0))
  {
  }

  lemma {:induction false} MeaningIs(m: Sem, n: NStmt, f: nat, globals: map<string, Value>)
    ensures Meaning(m, n, f, globals) == Leave(NExec(m, S.Opened(FRAME), n, f, Enter(NState([map[]], globals))))
  {
  }

  /** The only variable of the innermost block, if no slot lies below it, has slot 1. */
  lemma {:induction false} OneName(bs: Blocks, s: string, e: NExpr)
    requires bs != [] && S.Top(bs) == S.Block(0, [])
    ensures var l, cs := NList(true, [Some(s)]), bs[|bs| - 1 := S.Block(0, [s])];
      (ChainScope(bs, [l] + []) == cs && S.Owner(cs, s) == |bs| - 1 && VarOf(cs, s) == Local(1)
      && ResolveChain(bs, [l] + []) == [[To(Local(1))]] && ResolveExprs(bs, [e]) == [ResolveExpr(bs, e)])
  {
    var l, cs := NList(true, [Some(s)]), bs[|bs| - 1 := S.Block(0, [s])];
    assert [l] + [] == [l] && [l][..0] == [] && [Some(s)][1..] == [] && [e][1..] == [];
    assert DeclareAll(bs, []) == bs && [] + [s] == [s];
    assert S.Declared(bs, s) == cs;
    assert DeclareAll(bs, [Some(s)]) == cs;
    assert ListScope(bs, l) == cs;
    assert ChainScope(cs, []) == cs && ResolveChain(cs, []) == [];
    assert S.Top(cs) == S.Block(0, [s]) && Q.Index([s], s) == 0;
    assert ResolveItems(cs, []) == [];
    assert ResolveItems(cs, [Some(s)]) == [To(VarOf(cs, s))];
    assert ResolveExprs(bs, []) == [];
  }

  lemma {:induction false} LocalASlots(bs: Blocks, v: Value)
    requires bs != [] && S.Opened(bs) == bs + [S.Block(0, [])]
    ensures Resolve(bs, LocalA(v)) == Block(AssignStmt([[To(Local(1))]], [Lit(v)])) && Scope(bs, LocalA(v)) == bs
    ensures NLocal(bs, LocalA(v), 0) == 1
  {
    OneName(S.Opened(bs), "a", NLit(v));
    hide ChainScope, ResolveChain, ResolveExprs, S.Opened;
    var n := NAssign(NList(true, [Some("a")]), [], [NLit(v)]);
    assert Resolve(S.Opened(bs), n) == AssignStmt([[To(Local(1))]], [Lit(v)]);
    assert NLocal(S.Opened(bs), n, 0) == 0 && S.GetLocalNum(S.Top(Scope(S.Opened(bs), n))) == 1;
  }

  lemma {:induction false} XSlots(bs: Blocks)
    requires bs != [] && S.Top(bs) == S.Block(0, [])
    ensures var cs := bs[|bs| - 1 := S.Block(0, ["x"])];
      (Scope(bs, MaybeLocalX()) == cs && NLocal(bs, MaybeLocalX(), 1) == 1
      && Resolve(bs, MaybeLocalX()) == If(Lit(Bool(false)), AssignStmt([[To(Local(1))]], [IntLit(1)]), Nop)
      && Resolve(cs, NReturn([Name("x")])) == ReturnStmt([Get(Local(1))]))
  {
    var cs := bs[|bs| - 1 := S.Block(0, ["x"])];
    OneName(bs, "x", NInt(1));
    assert [Name("x")][1..] == [] && ResolveExprs(cs, []) == [];
    assert ResolveExprs(cs, [Name("x")]) == [Get(Local(1))];
    hide ChainScope, ResolveChain, ResolveExprs, VarOf;
    var n := NAssign(NList(true, [Some("x")]), [], [NInt(1)]);
    assert Resolve(bs, n) == AssignStmt([[To(Local(1))]], [IntLit(1)]) && Scope(bs, n) == cs && NLocal(bs, n, 1) == 1;
  }

  lemma {:induction false} SeqSlots(bs: Blocks, v: Value)
    requires bs != [] && S.Top(bs) == S.Block(0, []) && S.Opened(bs) == bs + [S.Block(0, [])]
    ensures Resolve(bs, JumpsOver(v)) == JumpsOverCode(v)
    ensures S.GetLocalNum(S.Top(Scope(bs, JumpsOver(v)))) == 1 && NLocal(bs, JumpsOver(v), 0) == 1
  {
    LocalASlots(bs, v);
    XSlots(bs);
    hide LocalA, MaybeLocalX, S.Opened;
    var rest := NSeq(MaybeLocalX(), NReturn([Name("x")]));
    assert Resolve(bs, rest) == Seq(Resolve(bs, MaybeLocalX()), Resolve(Scope(bs, MaybeLocalX()), NReturn([Name("x")])));
    assert NLocal(bs, rest, 1) == 1 && S.GetLocalNum(S.Top(Scope(bs, rest))) == 1;
  }

  lemma {:induction false} LocalARuns(m: Sem, bs: Blocks, v: Value, f: nat, st: NState)
    requires bs != [] && |st.env| == |bs| && S.Opened(bs) == bs + [S.Block(0, [])]
    ensures NExec(m, bs, LocalA(v), f, st) == NEnded(Normal, st)
  {
    var l, cs := NList(true, [Some("a")]), S.Opened(bs);
    OneName(cs, "a", NLit(v));
    var ds := cs[|bs| := S.Block(0, ["a"])];
    assert [l] + [] == [l] && [l][..0] == [] && [Some("a")][1..] == [] && [NLit(v)][1..] == [];
    assert ListScope(cs, l) == ds by { assert ChainScope(ds, []) == ds; }
    var st1 := Enter(st);
    var none: seq<Value> := [];
    assert [v] + none == [v];
    assert NEvalAll(m, cs, [], st1) == Some((none, st1));
    assert NEvalAll(m, cs, [NLit(v)], st1) == Some(([v], st1));
    var st2 := st1.(env := st.env + [map["a" := v]]);
    assert NAssignItems(ds, [], [], st1) == st1 && [v][1..] == [];
    assert NAssignItems(ds, [Some("a")], [v], st1) == st2;
    assert NReadAll(ds, [], st2) == Some([]);
    assert NReadAll(ds, [Some("a")], st2) == Some([v]);
    assert NAssignChain(ds, [], [v], st2) == Some(st2);
    assert NAssignChain(cs, [l], [v], st1) == Some(st2);
    assert st2.env[..|bs|] == st.env;
  }

  lemma {:induction false} XUnset(m: Sem, bs: Blocks, f: nat, st: NState)
    requires bs != [] && S.Top(bs) == S.Block(0, []) && |st.env| == |bs| && st.env[|bs| - 1] == map[] && !m.truth(Bool(false))
    ensures NExec(m, bs, MaybeLocalX(), f, st) == NEnded(Normal, st)
    ensures NExec(m, Scope(bs, MaybeLocalX()), NReturn([Name("x")]), f, st) == Unset
  {
    XSlots(bs);
    var cs := bs[|bs| - 1 := S.Block(0, ["x"])];
    OneName(bs, "x", NInt(1));
    assert ReadName(cs, "x", st) == None;
    assert NEval(m, cs, Name("x"), st) == None;
  }

  lemma {:induction false} SeqUnset(m: Sem, bs: Blocks, v: Value, f: nat, st: NState)
    requires bs != [] && S.Top(bs) == S.Block(0, []) && S.Opened(bs) == bs + [S.Block(0, [])]
    requires |st.env| == |bs| && st.env[|bs| - 1] == map[] && !m.truth(Bool(false))
    ensures NExec(m, bs, JumpsOver(v), f, st) == Unset
  {
    LocalASlots(bs, v);
    LocalARuns(m, bs, v, f, st);
    XUnset(m, bs, f, st);
    hide LocalA, MaybeLocalX, Resolve, NLocal;
  }

  lemma {:induction false} CodeRuns(m: Sem, v: Value, f: nat, globals: map<string, Value>)
    requires !m.truth(Bool(false))
    ensures Exec(m, JumpsOverCode(v), f, Store([Nil], globals)) == Ended(Ret([v]), Store([v], globals))
  {
    var first, rest := AssignStmt([[To(Local(1))]], [Lit(v)]), ReturnStmt([Get(Local(1))]);
    var skip := If(Lit(Bool(false)), AssignStmt([[To(Local(1))]], [IntLit(1)]), Nop);
    var st0, st1 := Store([Nil], globals), Store([v], globals);
    var l := [To(Local(1))];
    var none: seq<seq<LItem>> := [];
    OneValue(m, Lit(v), st0);
    OneValue(m, Get(Local(1)), st1);
    assert l[1..] == [] && Assign(l, [v], st0) == st1;
    assert [l][..0] == none && AssignChain(none, [v], st1) == st1;
    assert ReadAll(st1, l) == [v];
    assert AssignChain([l], [v], st0) == st1;
    hide EvalAll, AssignChain;
    assert Exec(m, Block(first), f, st0) == Ended(Normal, st1);
    assert Exec(m, skip, f, st1) == Ended(Normal, st1);
    assert Exec(m, rest, f, st1) == Ended(Ret([v]), st1);
  }

  lemma {:induction false} OneValue(m: Sem, e: Expr, st: Store)
    ensures EvalAll(m, [e], st) == ([Eval(m, e, st).0], Eval(m, e, st).1)
  {
    var none: seq<Value> := [];
    assert [e][1..] == [] && EvalAll(m, [], Eval(m, e, st).1) == (none, Eval(m, e, st).1);
    assert [Eval(m, e, st).0] + none == [Eval(m, e, st).0];
  }
}
