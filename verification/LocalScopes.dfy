/**
  Block scopes: how find_local numbers the stack slots of local variables, that slots of all open
  blocks are distinct, that lookup follows the environment stack, and that nLocal covers them all.
 */
module LocalScopes {
  import opened Seqs

  /** syn_scope_block: variables in order of declaration; local_num slots below them belong to outer blocks. */
  datatype Block = Block(local_num: nat, variables: seq<string>)

  function GetLocalNum(b: Block): nat {
    b.local_num + |b.variables|
  }

  /** Slots count from 1. */
  function Slot(b: Block, id: nat): nat {
    id + b.local_num + 1
  }

  /** Each block starts where its parent ended when it was opened, and a parent does not grow meanwhile. */
  ghost predicate Stacked(bs: seq<Block>) {
    && bs != []
    && (forall i :: 0 <= i < |bs| ==> NoDup(bs[i].variables))
    && (forall i, j :: 0 <= i < j < |bs| ==> GetLocalNum(bs[i]) <= bs[j].local_num)
  }

  function Top(bs: seq<Block>): Block
    requires bs != []
  {
    bs[|bs| - 1]
  }

  function Max(a: nat, b: nat): nat {
    if a < b then b else a
  }

  /** Index of the innermost block that declares s, or -1. */
  function Owner(bs: seq<Block>, s: string): int
    decreases |bs|
  {
    if bs == [] then -1 else if s in Top(bs).variables then |bs| - 1 else Owner(bs[..|bs| - 1], s)
  }

  /** The slot that name s means, or -1. */
  function Lookup(bs: seq<Block>, s: string): int {
    if Owner(bs, s) < 0 then -1
    else var b := bs[OwnerIn(bs, s)]; Slot(b, Index(b.variables, s))
  }

  function OwnerIn(bs: seq<Block>, s: string): (i: nat)
    requires Owner(bs, s) >= 0
    ensures i < |bs| && s in bs[i].variables && i == Owner(bs, s)
  {
    OwnerIsInnermost(bs, s);
    Owner(bs, s)
  }

  /** Shadowing: the owner declares the name and no block inside it does. */
  lemma {:induction false} OwnerIsInnermost(bs: seq<Block>, s: string)
    ensures -1 <= Owner(bs, s) < |bs|
    ensures Owner(bs, s) >= 0 ==> s in bs[Owner(bs, s)].variables
    ensures forall i :: 0 <= i < |bs| && i > Owner(bs, s) ==> s !in bs[i].variables
    decreases |bs|
  {
    if bs != [] && s !in Top(bs).variables { OwnerIsInnermost(bs[..|bs| - 1], s); }
  }

  // ---------- Slots are distinct ----------

  /** Two different variables of open blocks never share a slot. */
  lemma SlotsDistinct(bs: seq<Block>, i: nat, a: nat, j: nat, b: nat)
    requires Stacked(bs) && i < |bs| && j < |bs| && a < |bs[i].variables| && b < |bs[j].variables|
    ensures Slot(bs[i], a) == Slot(bs[j], b) ==> i == j && a == b
    ensures 1 <= Slot(bs[i], a) <= GetLocalNum(Top(bs))
  {
    if i < |bs| - 1 { assert GetLocalNum(bs[i]) <= bs[|bs| - 1].local_num; }
  }

  /** A slot names at most one variable of the open blocks. */
  lemma LookupInjective(bs: seq<Block>, s: string, t: string)
    requires Stacked(bs) && Lookup(bs, s) >= 0 && Lookup(bs, s) == Lookup(bs, t)
    ensures s == t
  {
    var i, j := OwnerIn(bs, s), OwnerIn(bs, t);
    SlotsDistinct(bs, i, Index(bs[i].variables, s), j, Index(bs[j].variables, t));
  }

  // ---------- The generator's operations ----------

  function Opened(bs: seq<Block>): seq<Block>
    requires bs != []
  {
    bs + [Block(GetLocalNum(Top(bs)), [])]
  }

  /** The blocks after VAR_LOCAL lookup of s, which declares it in the innermost block unless it is there. */
  function Declared(bs: seq<Block>, s: string): seq<Block>
    requires bs != []
  {
    if s in Top(bs).variables then bs else bs[|bs| - 1 := Top(bs).(variables := Top(bs).variables + [s])]
  }

  lemma OpenedStacked(bs: seq<Block>)
    requires Stacked(bs)
    ensures Stacked(Opened(bs)) && GetLocalNum(Top(Opened(bs))) == GetLocalNum(Top(bs))
    ensures forall s :: Lookup(Opened(bs), s) == Lookup(bs, s)
  {
    var cs := Opened(bs);
    forall i | 0 <= i < |bs| ensures GetLocalNum(bs[i]) <= GetLocalNum(Top(bs)) {
      if i < |bs| - 1 { assert GetLocalNum(bs[i]) <= bs[|bs| - 1].local_num; }
    }
    forall s ensures Lookup(cs, s) == Lookup(bs, s) {
      assert cs[..|cs| - 1] == bs;
      assert Owner(cs, s) == Owner(bs, s);
    }
  }

  lemma DeclaredStacked(bs: seq<Block>, s: string)
    requires Stacked(bs)
    ensures Stacked(Declared(bs, s)) && |Declared(bs, s)| == |bs|
    ensures s in Top(Declared(bs, s)).variables
    ensures Lookup(Declared(bs, s), s) == Slot(Top(Declared(bs, s)), Index(Top(Declared(bs, s)).variables, s))
    ensures GetLocalNum(Top(bs)) <= GetLocalNum(Top(Declared(bs, s)))
    ensures forall t :: t != s ==> Lookup(Declared(bs, s), t) == Lookup(bs, t)
  {
    var cs, n := Declared(bs, s), |bs| - 1;
    if s !in Top(bs).variables {
      forall t | t != s ensures Lookup(cs, t) == Lookup(bs, t) {
        assert cs[..n] == bs[..n];
        assert t in Top(cs).variables <==> t in Top(bs).variables;
        assert Owner(cs, t) == Owner(bs, t);
        if t in Top(bs).variables { IndexKept(Top(bs).variables, s, t); }
      }
    }
  }

  lemma {:induction false} IndexKept(xs: seq<string>, s: string, t: string)
    requires t in xs
    ensures Index(xs + [s], t) == Index(xs, t)
  {
    if xs[0] != t {
      assert (xs + [s])[1..] == xs[1..] + [s];
      IndexKept(xs[1..], s, t);
    }
  }

  /** Closing a block brings back what its parent saw. */
  lemma ClosedStacked(bs: seq<Block>)
    requires Stacked(bs) && |bs| > 1
    ensures Stacked(bs[..|bs| - 1]) && GetLocalNum(Top(bs[..|bs| - 1])) <= GetLocalNum(Top(bs))
  {
    assert GetLocalNum(bs[|bs| - 2]) <= bs[|bs| - 1].local_num;
  }

  datatype Mode = VAR_LOCAL | VAR_DEFAULT

  /** syn_param's stack of blocks within one function. */
  class Scopes {
    var aBlock: seq<Block>
    var nLocal: nat

    ghost predicate Valid()
      reads this
    {
      Stacked(aBlock)
    }

    constructor ()
      ensures Valid() && aBlock == [Block(0, [])] && nLocal == 0
    {
      aBlock, nLocal := [Block(0, [])], 0;
    }

    method LockBlock()
      requires Valid()
      modifies this
      ensures Valid() && aBlock == Opened(old(aBlock)) && nLocal == old(nLocal)
    {
      OpenedStacked(aBlock);
      aBlock := aBlock + [Block(GetLocalNum(aBlock[|aBlock| - 1]), [])];
    }

    method UnlockBlock()
      requires Valid() && |aBlock| > 1
      modifies this
      ensures Valid() && aBlock == old(aBlock[..|aBlock| - 1])
      ensures nLocal == Max(old(nLocal), GetLocalNum(Top(old(aBlock))))
    {
      ClosedStacked(aBlock);
      var n := GetLocalNum(aBlock[|aBlock| - 1]);
      if n > nLocal {
        nLocal := n;
      }
      aBlock := aBlock[..|aBlock| - 1];
    }

    /** variables.find: the position of s, or -1. */
    static method Find(xs: seq<string>, s: string) returns (id: int)
      ensures id == if s in xs then Index(xs, s) else -1
    {
      for i := 0 to |xs|
        invariant s !in xs[..i]
      {
        if xs[i] == s {
          FirstIsIndex(xs, s, i);
          return i;
        }
        assert xs[..i + 1] == xs[..i] + [xs[i]];
      }
      assert xs[..|xs|] == xs;
      return -1;
    }

    /** find_local: the slot of s, from the innermost block outwards; VAR_LOCAL declares it in the innermost block. */
    method FindLocal(s: string, d: Mode) returns (id: int)
      requires Valid()
      modifies this`aBlock
      ensures Valid()
      ensures aBlock == if d == VAR_LOCAL then Declared(old(aBlock), s) else old(aBlock)
      ensures id == Lookup(aBlock, s)
      ensures d == VAR_LOCAL ==> id > 0 && s in Top(aBlock).variables
    {
      if d == VAR_DEFAULT {
        id := FindInnermost(s);
        return;
      }
      DeclaredStacked(aBlock, s);
      hide Stacked, Lookup;
      var b := aBlock[|aBlock| - 1];
      var k := Find(b.variables, s);
      if k < 0 {
        NewIndex(b.variables, s);
        k := |b.variables|;
        aBlock := aBlock[|aBlock| - 1 := b.(variables := b.variables + [s])];
      }
      return k + b.local_num + 1;
    }

    /** From the innermost block outwards. */
    method FindInnermost(s: string) returns (id: int)
      ensures id == Lookup(aBlock, s)
    {
      assert aBlock[..|aBlock|] == aBlock;
      for i := |aBlock| downto 0
        invariant Owner(aBlock, s) == Owner(aBlock[..i], s)
      {
        assert aBlock[..i + 1][..i] == aBlock[..i];
        var k := Find(aBlock[i].variables, s);
        if k >= 0 {
          return k + aBlock[i].local_num + 1;
        }
      }
      return -1;
    }
  }

  lemma {:induction false} FirstIsIndex(xs: seq<string>, s: string, i: nat)
    requires i < |xs| && xs[i] == s && s !in xs[..i]
    ensures s in xs && Index(xs, s) == i
  {
    if i > 0 {
      assert xs[0] == xs[..i][0];
      assert xs[1..][..i - 1] == xs[..i][1..];
      FirstIsIndex(xs[1..], s, i - 1);
    }
  }

  lemma NewIndex(xs: seq<string>, s: string)
    requires s !in xs
    ensures Index(xs + [s], s) == |xs|
  {
    assert (xs + [s])[..|xs|] == xs;
    FirstIsIndex(xs + [s], s, |xs|);
  }

  // ---------- nLocal covers every slot ----------

  datatype Op = Open | Close | Find(s: string, d: Mode)

  datatype State = State(aBlock: seq<Block>, nLocal: nat)

  /** A block can be closed only if it is not the function's outermost one. */
  predicate Enabled(st: State, op: Op) {
    st.aBlock != [] && (op == Close ==> |st.aBlock| > 1)
  }

  function After(st: State, op: Op): State
    requires Enabled(st, op)
  {
    match op
    case Open => st.(aBlock := Opened(st.aBlock))
    case Close => State(st.aBlock[..|st.aBlock| - 1], Max(st.nLocal, GetLocalNum(Top(st.aBlock))))
    case Find(s, d) => if d == VAR_LOCAL then st.(aBlock := Declared(st.aBlock, s)) else st
  }

  /** The slot an operation emits code for, or -1. */
  function Emitted(st: State, op: Op): int
    requires Enabled(st, op)
  {
    if op.Find? then Lookup(After(st, op).aBlock, op.s) else -1
  }

  ghost predicate Runs(st: State, ops: seq<Op>)
    decreases |ops|
  {
    ops == [] || (Enabled(st, ops[0]) && Runs(After(st, ops[0]), ops[1..]))
  }

  ghost function End(st: State, ops: seq<Op>): State
    requires Runs(st, ops)
    decreases |ops|
  {
    if ops == [] then st else End(After(st, ops[0]), ops[1..])
  }

  ghost function Slots(st: State, ops: seq<Op>): (r: seq<int>)
    requires Runs(st, ops)
    ensures |r| == |ops|
    decreases |ops|
  {
    if ops == [] then [] else [Emitted(st, ops[0])] + Slots(After(st, ops[0]), ops[1..])
  }

  lemma StepStacked(st: State, op: Op)
    requires Stacked(st.aBlock) && Enabled(st, op)
    ensures var r := After(st, op);
      && Stacked(r.aBlock) && st.nLocal <= r.nLocal
      && Max(st.nLocal, GetLocalNum(Top(st.aBlock))) <= Max(r.nLocal, GetLocalNum(Top(r.aBlock)))
      && Emitted(st, op) <= GetLocalNum(Top(r.aBlock))
  {
    match op {
      case Open => OpenedStacked(st.aBlock);
      case Close => ClosedStacked(st.aBlock);
      case Find(s, d) => if d == VAR_LOCAL { DeclaredStacked(st.aBlock, s); }
    }
    if op.Find? && Emitted(st, op) >= 0 {
      var bs := After(st, op).aBlock;
      var i := OwnerIn(bs, op.s);
      SlotsDistinct(bs, i, Index(bs[i].variables, op.s), i, Index(bs[i].variables, op.s));
    }
  }

  /** Every slot emitted so far is covered by nLocal or by the open blocks. */
  lemma {:induction false} SlotsCovered(st: State, ops: seq<Op>)
    requires Stacked(st.aBlock) && Runs(st, ops)
    ensures var r := End(st, ops);
      && Stacked(r.aBlock)
      && Max(st.nLocal, GetLocalNum(Top(st.aBlock))) <= Max(r.nLocal, GetLocalNum(Top(r.aBlock)))
      && forall i :: 0 <= i < |ops| ==> Slots(st, ops)[i] <= Max(r.nLocal, GetLocalNum(Top(r.aBlock)))
    decreases |ops|
  {
    if ops != [] {
      StepStacked(st, ops[0]);
      hide Stacked, Lookup;
      SlotsCovered(After(st, ops[0]), ops[1..]);
      var rest := Slots(After(st, ops[0]), ops[1..]);
      forall i | 0 <= i < |ops| ensures Slots(st, ops)[i] == if i == 0 then Emitted(st, ops[0]) else rest[i - 1] {}
    }
  }

  lemma {:induction false} LastClose(st: State, ops: seq<Op>)
    requires Stacked(st.aBlock) && Runs(st, ops) && ops != [] && ops[|ops| - 1] == Close
    ensures var r := End(st, ops); Stacked(r.aBlock) && GetLocalNum(Top(r.aBlock)) <= r.nLocal
    decreases |ops|
  {
    StepStacked(st, ops[0]);
    if |ops| == 1 {
      ClosedStacked(st.aBlock);
      assert ops[1..] == [];
    } else {
      LastClose(After(st, ops[0]), ops[1..]);
    }
  }

  /** Whenever a block has just been closed, the function's outermost one included, nLocal bounds every slot
      emitted in the function so far. */
  lemma NLocalBoundsAll(st: State, ops: seq<Op>)
    requires Stacked(st.aBlock) && Runs(st, ops) && ops != [] && ops[|ops| - 1] == Close
    ensures forall i :: 0 <= i < |ops| ==> Slots(st, ops)[i] <= End(st, ops).nLocal
  {
    hide Stacked;
    SlotsCovered(st, ops);
    LastClose(st, ops);
  }

  // ---------- No slot is wasted ----------

  /** The variables of the blocks. */
  function Variables(bs: seq<Block>): nat {
    if bs == [] then 0 else Variables(bs[..|bs| - 1]) + |Top(bs).variables|
  }

  /** Each block begins where the variables of the blocks around it end. */
  predicate Dense(bs: seq<Block>) {
    bs == [] || (Dense(bs[..|bs| - 1]) && Top(bs).local_num == Variables(bs[..|bs| - 1]))
  }

  lemma StepDense(st: State, op: Op)
    requires Dense(st.aBlock) && Enabled(st, op)
    ensures Dense(After(st, op).aBlock)
  {
    var bs := st.aBlock;
    match op {
      case Open => assert Opened(bs)[..|bs|] == bs;
      case Close =>
      case Find(s, d) => if d == VAR_LOCAL { assert Declared(bs, s)[..|bs| - 1] == bs[..|bs| - 1]; }
    }
  }

  /** The most variables that were open at once. */
  ghost function Peak(st: State, ops: seq<Op>): nat
    requires Runs(st, ops)
    decreases |ops|
  {
    if ops == [] then Variables(st.aBlock) else Max(Variables(st.aBlock), Peak(After(st, ops[0]), ops[1..]))
  }

  /** nLocal is never more than the most variables that were open at once. */
  lemma {:induction false} NLocalLeast(st: State, ops: seq<Op>)
    requires Dense(st.aBlock) && st.aBlock != [] && Runs(st, ops) && st.nLocal <= Variables(st.aBlock)
    ensures End(st, ops).nLocal <= Peak(st, ops)
  {
    Reached(st, ops, Variables(st.aBlock));
  }

  lemma {:induction false} Reached(st: State, ops: seq<Op>, seen: nat)
    requires Dense(st.aBlock) && st.aBlock != [] && Runs(st, ops) && st.nLocal <= seen && Variables(st.aBlock) <= seen
    ensures End(st, ops).nLocal <= Max(seen, Peak(st, ops))
    decreases |ops|
  {
    if ops != [] {
      var st2 := After(st, ops[0]);
      StepDense(st, ops[0]);
      assert GetLocalNum(Top(st.aBlock)) == Variables(st.aBlock);
      assert st2.nLocal <= seen && st2.aBlock != [];
      hide Dense, Variables;
      Reached(st2, ops[1..], Max(seen, Variables(st2.aBlock)));
      PeakAtLeast(st2, ops[1..]);
    }
  }

  lemma PeakAtLeast(st: State, ops: seq<Op>)
    requires Runs(st, ops)
    ensures Variables(st.aBlock) <= Peak(st, ops)
  {
    hide Variables;
  }

  // ---------- Scopes that grow ----------

  /** cs is bs with perhaps more variables in the innermost block; no slot moves. */
  ghost predicate Grown(bs: seq<Block>, cs: seq<Block>) {
    && bs != [] && |cs| == |bs| && cs[..|bs| - 1] == bs[..|bs| - 1]
    && Top(cs).local_num == Top(bs).local_num && Top(bs).variables <= Top(cs).variables
  }

  lemma GrownTrans(bs: seq<Block>, cs: seq<Block>, ds: seq<Block>)
    requires Grown(bs, cs) && Grown(cs, ds)
    ensures Grown(bs, ds)
  {
  }

  lemma DeclaredGrown(bs: seq<Block>, s: string)
    requires bs != []
    ensures Grown(bs, Declared(bs, s))
  {
  }

  lemma GrownBlock(bs: seq<Block>, cs: seq<Block>, i: nat)
    requires Grown(bs, cs) && i < |bs|
    ensures cs[i].local_num == bs[i].local_num && bs[i].variables <= cs[i].variables
  {
    if i < |bs| - 1 { assert cs[i] == cs[..|bs| - 1][i] == bs[..|bs| - 1][i]; }
  }

  lemma {:induction false} PrefixIndex(xs: seq<string>, ys: seq<string>, s: string)
    requires xs <= ys && s in xs
    ensures s in ys && Index(ys, s) == Index(xs, s)
  {
    if xs[0] != s {
      assert ys == xs + ys[|xs|..];
      PrefixIndex(xs[1..], ys[1..], s);
    }
  }

  // ---------- Values: the environment stack ----------

  /** What a program means by names: one environment per open block, innermost last. */
  type Env<V> = seq<map<string, V>>

  /** Assigning to a name changes the innermost environment of its owner. */
  function Assigned<V>(bs: seq<Block>, env: Env<V>, s: string, v: V): (r: Env<V>)
    requires |env| == |bs| && Owner(bs, s) >= 0
    ensures |r| == |env|
  {
    var i := OwnerIn(bs, s);
    env[i := env[i][s := v]]
  }

  /** Going back to where less was declared, the innermost environment forgets the rest. */
  function Forgotten<V>(bs: seq<Block>, env: Env<V>): (r: Env<V>)
    requires |env| == |bs| && bs != []
    ensures |r| == |env|
  {
    var e := env[|env| - 1];
    env[|env| - 1 := map s | s in e && s in Top(bs).variables :: e[s]]
  }

  /** The slots of block b hold the values of all its variables that have been assigned. */
  ghost predicate Held<V>(b: Block, e: map<string, V>, locals: seq<V>) {
    forall s :: s in e ==> s in b.variables && HeldAt(b, s, e[s], locals)
  }

  ghost predicate HeldAt<V>(b: Block, s: string, v: V, locals: seq<V>)
    requires s in b.variables
  {
    var p := Slot(b, Index(b.variables, s));
    p <= |locals| && locals[p - 1] == v
  }

  ghost predicate Agrees<V>(bs: seq<Block>, env: Env<V>, locals: seq<V>) {
    |env| == |bs| && forall i :: 0 <= i < |bs| ==> Held(bs[i], env[i], locals)
  }

  /** Storing to the slot of a name changes that variable and no other, shadowed ones of the same name included. */
  lemma StoreAgrees<V>(bs: seq<Block>, env: Env<V>, locals: seq<V>, s: string, v: V)
    requires Stacked(bs) && Agrees(bs, env, locals) && Owner(bs, s) >= 0 && Lookup(bs, s) <= |locals|
    ensures Lookup(bs, s) > 0 && Agrees(bs, Assigned(bs, env, s, v), locals[Lookup(bs, s) - 1 := v])
  {
    var i := OwnerIn(bs, s);
    var env2, locals2 := Assigned(bs, env, s, v), locals[Lookup(bs, s) - 1 := v];
    forall j | 0 <= j < |bs| ensures Held(bs[j], env2[j], locals2) {
      assert Held(bs[j], env[j], locals);
      forall t | t in env2[j] ensures t in bs[j].variables && HeldAt(bs[j], t, env2[j][t], locals2) {
        if !(j == i && t == s) {
          assert HeldAt(bs[j], t, env[j][t], locals);
          OtherSlot(bs, s, j, t);
        }
      }
    }
  }

  lemma OtherSlot(bs: seq<Block>, s: string, j: nat, t: string)
    requires Stacked(bs) && Owner(bs, s) >= 0 && j < |bs| && t in bs[j].variables && !(j == OwnerIn(bs, s) && t == s)
    ensures Slot(bs[j], Index(bs[j].variables, t)) != Lookup(bs, s)
  {
    var i := OwnerIn(bs, s);
    SlotsDistinct(bs, i, Index(bs[i].variables, s), j, Index(bs[j].variables, t));
  }

  /** Loading from the slot of an assigned name gives the value of its innermost variable. */
  lemma LoadAgrees<V>(bs: seq<Block>, env: Env<V>, locals: seq<V>, s: string)
    requires Agrees(bs, env, locals) && Owner(bs, s) >= 0 && s in env[OwnerIn(bs, s)]
    ensures 0 < Lookup(bs, s) <= |locals| && locals[Lookup(bs, s) - 1] == env[OwnerIn(bs, s)][s]
    ensures forall j :: OwnerIn(bs, s) < j < |bs| ==> s !in env[j]
  {
    OwnerIsInnermost(bs, s);
    assert HeldAt(bs[OwnerIn(bs, s)], s, env[OwnerIn(bs, s)][s], locals);
    forall j | OwnerIn(bs, s) < j < |bs| ensures s !in env[j] { assert Held(bs[j], env[j], locals); }
  }

  /** A fresh block leaves what is open as it is. */
  lemma OpenAgrees<V>(bs: seq<Block>, env: Env<V>, locals: seq<V>)
    requires bs != [] && Agrees(bs, env, locals)
    ensures Agrees(Opened(bs), env + [map[]], locals)
  {
    var cs, e := Opened(bs), env + [map[]];
    forall i | 0 <= i < |cs| ensures Held(cs[i], e[i], locals) {
      if i < |bs| { assert cs[i] == bs[i] && e[i] == env[i]; }
    }
  }

  /** Declaring variables moves no other. */
  lemma GrownAgrees<V>(bs: seq<Block>, cs: seq<Block>, env: Env<V>, locals: seq<V>)
    requires Grown(bs, cs) && Agrees(bs, env, locals)
    ensures Agrees(cs, env, locals)
  {
    forall i | 0 <= i < |cs| ensures Held(cs[i], env[i], locals) {
      GrownBlock(bs, cs, i);
      HeldGrown(bs[i], cs[i], env[i], locals);
    }
  }

  lemma HeldGrown<V>(b: Block, c: Block, e: map<string, V>, locals: seq<V>)
    requires Held(b, e, locals) && c.local_num == b.local_num && b.variables <= c.variables
    ensures Held(c, e, locals)
  {
    forall t | t in e ensures t in c.variables && HeldAt(c, t, e[t], locals) {
      assert HeldAt(b, t, e[t], locals);
      PrefixIndex(b.variables, c.variables, t);
    }
  }

  /** What is left agrees with the fewer variables. */
  lemma ForgetAgrees<V>(bs: seq<Block>, cs: seq<Block>, env: Env<V>, locals: seq<V>)
    requires Grown(bs, cs) && Agrees(cs, env, locals)
    ensures Agrees(bs, Forgotten(bs, env), locals)
  {
    hide Held, HeldAt;
    var n := |bs| - 1;
    forall i | 0 <= i < |bs| ensures Held(bs[i], Forgotten(bs, env)[i], locals) {
      assert Held(cs[i], env[i], locals);
      if i < n {
        assert cs[i] == cs[..n][i] && bs[i] == bs[..n][i];
      } else {
        HeldShrunk(bs[n], cs[n], env[n], locals);
      }
    }
  }

  lemma HeldShrunk<V>(b: Block, c: Block, e: map<string, V>, locals: seq<V>)
    requires Held(c, e, locals) && c.local_num == b.local_num && b.variables <= c.variables
    ensures Held(b, map s | s in e && s in b.variables :: e[s], locals)
  {
    forall t | t in e && t in b.variables ensures HeldAt(b, t, e[t], locals) {
      assert HeldAt(c, t, e[t], locals);
      PrefixIndex(b.variables, c.variables, t);
    }
  }

  /** Closing a block leaves the outer variables as they are. */
  lemma CloseAgrees<V>(bs: seq<Block>, env: Env<V>, locals: seq<V>)
    requires Agrees(bs, env, locals) && |bs| > 1
    ensures Agrees(bs[..|bs| - 1], env[..|bs| - 1], locals)
  {
    hide Held;
  }
}
