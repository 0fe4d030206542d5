/** What names mean in small programs whose outcome the language fixes: shadowing, and where a declaration is seen. */
module ScriptNameLaws {
  import opened ScriptMachine
  import opened ScriptExpr
  import opened ScriptStmt
  import opened ScriptNames
  import S = LocalScopes

  /** local s = e */
  function LocalIs(s: string, e: NExpr): NStmt {
    NAssign(NList(true, [Some(s)]), [], [e])
  }

  /** s = e */
  function SetTo(s: string, e: NExpr): NStmt {
    NAssign(NList(false, [Some(s)]), [], [e])
  }

  lemma OneEval(m: Sem, bs: Blocks, e: NExpr, v: Value, st: NState)
    requires |st.env| == |bs| && NEval(m, bs, e, st) == Some((v, st))
    ensures NEvalAll(m, bs, [e], st) == Some(([v], st))
  {
    var none: seq<Value> := [];
    assert [e][1..] == [] && [v] + none == [v];
    assert NEvalAll(m, bs, [], st) == Some((none, st));
  }

  /** Assigning one value to one name. */
  lemma OneAssigned(m: Sem, bs: Blocks, l: NList, e: NExpr, s: string, v: Value, f: nat, st: NState)
    requires |st.env| == |bs| > 0 && NEval(m, bs, e, st) == Some((v, st)) && l.names == [Some(s)]
    ensures var cs := ListScope(bs, l);
      && Scope(bs, NAssign(l, [], [e])) == cs
      && NExec(m, bs, NAssign(l, [], [e]), f, st) ==
        if ReadName(cs, s, WriteName(cs, s, v, st)).None? then Unset else NEnded(Normal, WriteName(cs, s, v, st))
  {
    OneEval(m, bs, e, v, st);
    var cs := ListScope(bs, l);
    var st1 := WriteName(cs, s, v, st);
    assert [l] + [] == [l] && [l][..0] == [] && l.names[1..] == [] && [v][1..] == [];
    assert ChainScope(cs, []) == cs;
    assert NAssignItems(cs, [], [], st) == st;
    assert NAssignItems(cs, l.names, [v], st) == st1;
    assert NReadAll(cs, [], st1) == Some([]);
    hide ReadName, WriteName, NEvalAll, ListScope;
    if ReadName(cs, s, st1).Some? { assert NAssignChain(cs, [], [ReadName(cs, s, st1).value], st1) == Some(st1); }
    assert NReadItem(cs, l.names[0], st1) == ReadName(cs, s, st1);
  }

  lemma WrittenIsRead(bs: Blocks, s: string, t: string, v: Value, st: NState)
    requires |st.env| == |bs|
    ensures ReadName(bs, t, WriteName(bs, s, v, st)) == if s == t then Some(v) else ReadName(bs, t, st)
  {
  }

  /** The only variable of a block just opened. */
  lemma Shadows(bs: Blocks, s: string, v: Value, st: NState)
    requires |st.env| == |bs| > 0
    ensures var cs := ListScope(S.Opened(bs), NList(true, [Some(s)]));
      |cs| == |bs| + 1 && WriteName(cs, s, v, Enter(st)) == st.(env := st.env + [map[s := v]])
  {
    var cs := S.Opened(bs);
    assert S.Top(cs).variables == [];
    assert [Some(s)][1..] == [] && DeclareAll(cs, []) == cs;
    var ds := S.Declared(cs, s);
    assert DeclareAll(cs, [Some(s)]) == ds;
    assert s in S.Top(ds).variables && S.Owner(ds, s) == |bs|;
    assert Enter(st).env[|bs|][s := v] == map[s := v];
    assert (st.env + [map[]])[|bs| := map[s := v]] == st.env + [map[s := v]];
  }

  lemma OutsideRead(bs: Blocks, s: string, st: NState)
    requires |st.env| == |bs| > 0
    ensures ReadName(S.Opened(bs), s, Enter(st)) == ReadName(bs, s, st)
  {
    var cs := S.Opened(bs);
    assert cs[..|cs| - 1] == bs;
    assert S.Owner(cs, s) == S.Owner(bs, s);
  }

  /** { local s = s; return s }: the right side still means the outer s, the left side and what follows the new one. */
  lemma RightSideFirst(m: Sem, bs: Blocks, s: string, f: nat, st: NState)
    requires |st.env| == |bs| > 0
    ensures NExec(m, bs, NBlock(NSeq(LocalIs(s, Name(s)), NReturn([Name(s)]))), f, st) ==
      if ReadName(bs, s, st).None? then Unset else NEnded(Ret([ReadName(bs, s, st).value]), st)
  {
    var cs, st1, l := S.Opened(bs), Enter(st), NList(true, [Some(s)]);
    OutsideRead(bs, s, st);
    var v := ReadName(bs, s, st);
    if v.None? {
      assert NEval(m, cs, Name(s), st1) == None;
      assert NEvalAll(m, cs, [Name(s)], st1) == None;
      assert NExec(m, cs, LocalIs(s, Name(s)), f, st1) == Unset;
    } else {
      var ds := ListScope(cs, l);
      Shadows(bs, s, v.value, st);
      WrittenIsRead(ds, s, s, v.value, st1);
      OneAssigned(m, cs, l, Name(s), s, v.value, f, st1);
      var st2 := st.(env := st.env + [map[s := v.value]]);
      OneEval(m, ds, Name(s), v.value, st2);
      hide ListScope, ReadName, WriteName, NEvalAll;
      assert NExec(m, ds, NReturn([Name(s)]), f, st2) == NEnded(Ret([v.value]), st2);
      assert st2.env[..|bs|] == st.env;
    }
  }

  /** { local s = v } is without effect outside, even on an outer s. */
  lemma DeclaredInside(m: Sem, bs: Blocks, s: string, v: Value, f: nat, st: NState)
    requires |st.env| == |bs| > 0
    ensures NExec(m, bs, NBlock(LocalIs(s, NLit(v))), f, st) == NEnded(Normal, st)
  {
    var l := NList(true, [Some(s)]);
    Shadows(bs, s, v, st);
    WrittenIsRead(ListScope(S.Opened(bs), l), s, s, v, Enter(st));
    OneAssigned(m, S.Opened(bs), l, NLit(v), s, v, f, Enter(st));
    assert (st.env + [map[s := v]])[..|bs|] == st.env;
    hide ListScope, ReadName, WriteName, NEvalAll;
  }

  /** { s = v } changes the s outside and nothing else. */
  lemma SetOutside(m: Sem, bs: Blocks, s: string, v: Value, f: nat, st: NState)
    requires |st.env| == |bs| > 0
    ensures exists r: NState :: (|r.env| == |bs|
      && NExec(m, bs, NBlock(SetTo(s, NLit(v))), f, st) == NEnded(Normal, r)
      && forall t :: ReadName(bs, t, r) == if t == s then Some(v) else ReadName(bs, t, st))
  {
    var l, cs := NList(false, [Some(s)]), S.Opened(bs);
    assert ListScope(cs, l) == cs;
    OneAssigned(m, cs, l, NLit(v), s, v, f, Enter(st));
    WrittenIsRead(cs, s, s, v, Enter(st));
    var r := WriteName(bs, s, v, st);
    assert WriteName(cs, s, v, Enter(st)) == Enter(r) by {
      assert cs[..|cs| - 1] == bs;
      assert S.Owner(cs, s) == S.Owner(bs, s);
    }
    forall t ensures ReadName(bs, t, r) == if t == s then Some(v) else ReadName(bs, t, st) {
      WrittenIsRead(bs, s, t, v, st);
    }
    hide ListScope, ReadName, WriteName, NEvalAll;
    assert Enter(r).env[..|bs|] == r.env;
  }

  /** do local s = v; while (s): the test sees the variable of the body, not an outer s. */
  lemma TestSeesBody(m: Sem, bs: Blocks, s: string, v: Value, f: nat, st: NState)
    requires |st.env| == |bs| > 0 && !m.truth(v)
    ensures NExec(m, bs, NLoop(Do, NNop, Some(Name(s)), NNop, LocalIs(s, NLit(v))), f, st) == NEnded(Normal, st)
  {
    var n := NLoop(Do, NNop, Some(Name(s)), NNop, LocalIs(s, NLit(v)));
    var l, cs, st1 := NList(true, [Some(s)]), S.Opened(bs), Enter(st);
    Shadows(bs, s, v, st);
    var ds := ListScope(cs, l);
    WrittenIsRead(ds, s, s, v, st1);
    OneAssigned(m, cs, l, NLit(v), s, v, f, st1);
    var st2 := st.(env := st.env + [map[s := v]]);
    assert BodyScope(bs, n) == cs && FiniScope(bs, n) == ds && TestScope(bs, n) == ds;
    assert Forget(cs, st1) == st1;
    assert Forget(ds, st2) == st2 by { KeptDeclared(bs, s, v, st); }
    hide ListScope, ReadName, WriteName, NEvalAll, Forget;
    assert NExec(m, cs, NNop, f, st1) == NEnded(Normal, st1) && NExec(m, ds, NNop, f, st2) == NEnded(Normal, st2);
    assert NTest(m, bs, n, st2) == Some((false, st2));
    assert NLoopFini(m, bs, n, f, st2) == NEnded(Normal, st2);
    assert NLoopBody(m, bs, n, f, st1) == NEnded(Normal, st2);
    assert st2.env[..|bs|] == st.env;
  }

  lemma KeptDeclared(bs: Blocks, s: string, v: Value, st: NState)
    requires |st.env| == |bs| > 0
    ensures var ds := ListScope(S.Opened(bs), NList(true, [Some(s)])); var st2 := st.(env := st.env + [map[s := v]]);
      |ds| == |bs| + 1 && Forget(ds, st2) == st2
  {
    var cs := S.Opened(bs);
    assert [Some(s)][1..] == [] && DeclareAll(cs, []) == cs;
    var ds := S.Declared(cs, s);
    assert DeclareAll(cs, [Some(s)]) == ds;
    var e := map[s := v];
    assert (map t | t in e && t in S.Top(ds).variables :: e[t]) == e;
    assert (st.env + [e])[|bs| := e] == st.env + [e];
  }
}
