/**
  Which programs the generator refuses, said without following the generator: by the controls and switches that
  stand somewhere in the program, and the loops and switches around them.
 */
module ScriptAccept {
  import opened Seqs
  import opened ScriptMachine
  import opened ScriptExpr
  import opened ScriptStmt

  /** A step from a statement into one of its parts. */
  datatype Step = First | Rest | Inside | Then | Else | Init | Body | Fini | InCase(i: nat)

  function Part(s: Stmt, p: Step): (r: Option<Stmt>)
    ensures r.Some? ==> r.value < s
  {
    match p
    case First => if s.Seq? then Some(s.first) else None
    case Rest => if s.Seq? then Some(s.rest) else None
    case Inside => if s.Block? then Some(s.body) else None
    case Then => if s.If? then Some(s.then1) else None
    case Else => if s.If? then Some(s.else0) else None
    case Init => if s.Loop? then Some(s.init) else None
    case Body => if s.Loop? then Some(s.body) else None
    case Fini => if s.Loop? then Some(s.fini) else None
    case InCase(i) => if s.Switch? then NthBody(s.cases, i) else None
  }

  function NthBody(cs: Cases, i: nat): (r: Option<Stmt>)
    ensures r.Some? ==> r.value < cs
  {
    match cs
    case NoCases => None
    case Case(_, body, rest) => if i == 0 then Some(body) else NthBody(rest, i - 1)
  }

  /** The statement a path leads to. */
  function Find(s: Stmt, path: seq<Step>): Option<Stmt>
    decreases |path|
  {
    if path == [] then Some(s)
    else match Part(s, path[0]) case None => None case Some(t) => Find(t, path[1..])
  }

  /** The body and fini of a loop can be left and continued, the cases of a switch only left; init belongs to neither. */
  function ExitOf(p: Step): nat {
    if p.Body? || p.Fini? || p.InCase? then 1 else 0
  }

  function NextOf(p: Step): nat {
    if p.Body? || p.Fini? then 1 else 0
  }

  /** The loops and switches a path enters. */
  function Exits(path: seq<Step>): nat {
    if path == [] then 0 else ExitOf(path[0]) + Exits(path[1..])
  }

  /** The loops it enters. */
  function Nexts(path: seq<Step>): nat {
    if path == [] then 0 else NextOf(path[0]) + Nexts(path[1..])
  }

  /** The values of each case, the default case having none. */
  function CaseVals(cs: Cases): seq<seq<Value>> {
    match cs case NoCases => [] case Case(vals, _, rest) => [vals] + CaseVals(rest)
  }

  function Flat(vs: seq<seq<Value>>): seq<Value> {
    if vs == [] then [] else vs[0] + Flat(vs[1..])
  }

  ghost predicate OneDefault(vs: seq<seq<Value>>) {
    forall i, j :: 0 <= i < j < |vs| ==> vs[i] != [] || vs[j] != []
  }

  /** No value is listed twice, and there is at most one default case. */
  ghost predicate Distinct(cs: Cases) {
    NoDup(Flat(CaseVals(cs))) && OneDefault(CaseVals(cs))
  }

  /** What stands at the end of a path is no cause to refuse s, below d1 exits and d2 continuations. */
  ghost predicate FineAt(s: Stmt, d1: nat, d2: nat, path: seq<Step>) {
    match Find(s, path)
    case Some(Control(k)) => k != Break3 && Caught(ControlOutcome(k), d1 + Exits(path), d2 + Nexts(path))
    case Some(Switch(_, cs)) => Distinct(cs)
    case _ => true
  }

  // ---------- Cases ----------

  /** Distinct, and apart from what earlier cases used. */
  ghost predicate DistinctFrom(vs: seq<seq<Value>>, seen: set<Value>, dflt: bool) {
    && NoDup(Flat(vs)) && (forall v :: v in Flat(vs) ==> v !in seen)
    && OneDefault(vs) && (dflt ==> [] !in vs)
  }

  lemma {:induction false} ValsNewIs(vals: seq<Value>, seen: set<Value>)
    ensures ValsNew(vals, seen) <==> NoDup(vals) && forall v :: v in vals ==> v !in seen
    decreases |vals|
  {
    if vals != [] {
      var t := vals[1..];
      ValsNewIs(t, seen + {vals[0]});
      assert vals == [vals[0]] + t;
      if NoDup(t) && vals[0] !in t { NoDupPrepend(vals[0], t); }
      if NoDup(vals) { NoDupTail(vals); }
    }
  }

  lemma NoDupJoin(a: seq<Value>, b: seq<Value>)
    ensures NoDup(a + b) <==> NoDup(a) && NoDup(b) && forall v :: v in a ==> v !in b
  {
    var c := a + b;
    if NoDup(c) {
      forall i, j | 0 <= i < j < |a| ensures a[i] != a[j] { assert c[i] != c[j]; }
      forall i, j | 0 <= i < j < |b| ensures b[i] != b[j] { assert c[|a| + i] != c[|a| + j]; }
      forall i, j | 0 <= i < |a| && 0 <= j < |b| ensures a[i] != b[j] { assert c[i] != c[|a| + j]; }
    }
    if NoDup(a) && NoDup(b) && forall v :: v in a ==> v !in b {
      forall i, j | 0 <= i < j < |c| ensures c[i] != c[j] {
        if j < |a| { assert a[i] != a[j]; } else if i < |a| { assert a[i] in a && b[j - |a|] in b; }
      }
    }
  }

  lemma DefaultJoin(v: seq<Value>, vs: seq<seq<Value>>)
    ensures OneDefault([v] + vs) <==> OneDefault(vs) && (v == [] ==> [] !in vs)
  {
    var ws := [v] + vs;
    if OneDefault(ws) {
      forall i, j | 0 <= i < j < |vs| ensures vs[i] != [] || vs[j] != [] { assert ws[i + 1] == vs[i] && ws[j + 1] == vs[j]; }
      forall j | 0 <= j < |vs| && v == [] ensures vs[j] != [] { assert ws[0] == v && ws[j + 1] == vs[j]; }
    }
  }

  lemma DistinctJoin(vals: seq<Value>, vs: seq<seq<Value>>, seen: set<Value>, dflt: bool)
    ensures DistinctFrom([vals] + vs, seen, dflt)
       <==> ValsNew(vals, seen) && (vals == [] ==> !dflt) && DistinctFrom(vs, seen + Values(vals), dflt || vals == [])
  {
    assert ([vals] + vs)[1..] == vs;
    ValsNewIs(vals, seen);
    NoDupJoin(vals, Flat(vs));
    DefaultJoin(vals, vs);
    hide NoDup, OneDefault, ValsNew;
    assert Flat([vals] + vs) == vals + Flat(vs);
    assert [] in [vals] + vs <==> vals == [] || [] in vs;
  }

  /** Cases are accepted if their values are apart and each body is accepted. */
  lemma {:induction false} CasesIff(cs: Cases, d1: nat, d2: nat, seen: set<Value>, dflt: bool)
    ensures CasesAccepted(cs, d1, d2, seen, dflt)
       <==> DistinctFrom(CaseVals(cs), seen, dflt) && BodiesAccepted(cs, d1, d2)
  {
    hide DistinctFrom, ValsNew, Accepted, BodiesAccepted;
    match cs {
      case NoCases =>
        Nothing(seen, dflt);
        NoBodies(d1, d2);
      case Case(vals, _, rest) =>
        DistinctJoin(vals, CaseVals(rest), seen, dflt);
        CasesIff(rest, d1, d2, seen + Values(vals), dflt || vals == []);
        BodiesJoin(cs, d1, d2);
    }
  }

  ghost predicate BodiesAccepted(cs: Cases, d1: nat, d2: nat) {
    forall i: nat :: NthBody(cs, i).Some? ==> Accepted(NthBody(cs, i).value, d1, d2)
  }

  lemma NoBodies(d1: nat, d2: nat)
    ensures BodiesAccepted(NoCases, d1, d2)
  {
  }

  lemma BodiesJoin(cs: Cases, d1: nat, d2: nat)
    requires cs.Case?
    ensures BodiesAccepted(cs, d1, d2) <==> Accepted(cs.body, d1, d2) && BodiesAccepted(cs.rest, d1, d2)
  {
    hide Accepted;
    assert NthBody(cs, 0) == Some(cs.body);
    if BodiesAccepted(cs, d1, d2) {
      forall i: nat | NthBody(cs.rest, i).Some? ensures Accepted(NthBody(cs.rest, i).value, d1, d2) {
        assert NthBody(cs, i + 1) == NthBody(cs.rest, i);
      }
    }
    if Accepted(cs.body, d1, d2) && BodiesAccepted(cs.rest, d1, d2) {
      forall i: nat | NthBody(cs, i).Some? ensures Accepted(NthBody(cs, i).value, d1, d2) {
        if i > 0 { assert NthBody(cs, i) == NthBody(cs.rest, i - 1); }
      }
    }
  }

  lemma Nothing(seen: set<Value>, dflt: bool)
    ensures DistinctFrom([], seen, dflt)
  {
  }

  lemma DistinctIs(cs: Cases)
    ensures Distinct(cs) <==> DistinctFrom(CaseVals(cs), {}, false)
  {
  }

  // ---------- Statements ----------

  /** The parts of an accepted statement are accepted where they stand. */
  lemma PartAccepted(s: Stmt, d1: nat, d2: nat, p: Step)
    requires Accepted(s, d1, d2) && Part(s, p).Some?
    ensures Accepted(Part(s, p).value, d1 + ExitOf(p), d2 + NextOf(p))
  {
    var e1, e2 := d1 + ExitOf(p), d2 + NextOf(p);
    match s {
      case Seq(a, b) => assert e1 == d1 && e2 == d2 && Accepted(a, d1, d2) && Accepted(b, d1, d2);
      case Block(a) => assert e1 == d1 && e2 == d2 && Accepted(a, d1, d2);
      case If(_, a, b) => assert e1 == d1 && e2 == d2 && Accepted(a, d1, d2) && Accepted(b, d1, d2);
      case Loop(_, a, _, f, b) => assert Accepted(a, d1, d2) && Accepted(f, d1 + 1, d2 + 1) && Accepted(b, d1 + 1, d2 + 1);
      case Switch(_, cs) => CasesIff(cs, d1 + 1, d2, {}, false);
      case _ =>
    }
  }

  lemma {:induction false} AcceptedFine(s: Stmt, d1: nat, d2: nat, path: seq<Step>)
    requires Accepted(s, d1, d2)
    ensures FineAt(s, d1, d2, path)
    decreases |path|
  {
    hide Accepted, Part, Distinct;
    if path == [] {
      FineHere(s, d1, d2);
    } else if Part(s, path[0]).Some? {
      PartAccepted(s, d1, d2, path[0]);
      AcceptedFine(Part(s, path[0]).value, d1 + ExitOf(path[0]), d2 + NextOf(path[0]), path[1..]);
    }
  }

  lemma FineHere(s: Stmt, d1: nat, d2: nat)
    requires Accepted(s, d1, d2)
    ensures FineAt(s, d1, d2, [])
  {
    if s.Control? { ControlCaught(s.k, d1, d2); }
    if s.Switch? {
      CasesIff(s.cases, d1 + 1, d2, {}, false);
      DistinctIs(s.cases);
    }
  }

  /** Where a refused statement offends: itself, or a part that is refused. */
  lemma Offence(s: Stmt, d1: nat, d2: nat) returns (p: Option<Step>)
    requires !Accepted(s, d1, d2)
    ensures match p
      case None => !FineAt(s, d1, d2, [])
      case Some(p) => Part(s, p).Some? && !Accepted(Part(s, p).value, d1 + ExitOf(p), d2 + NextOf(p))
  {
    match s {
      case Seq(a, _) => p := Some(if !Accepted(a, d1, d2) then First else Rest);
      case Block(_) => p := Some(Inside);
      case If(_, a, _) => p := Some(if !Accepted(a, d1, d2) then Then else Else);
      case Loop(_, a, _, f, _) =>
        p := Some(if !Accepted(a, d1, d2) then Init else if !Accepted(f, d1 + 1, d2 + 1) then Fini else Body);
      case Control(k) =>
        ControlCaught(k, d1, d2);
        p := None;
      case Switch(_, cs) =>
        CasesIff(cs, d1 + 1, d2, {}, false);
        DistinctIs(cs);
        if Distinct(cs) {
          var i: nat :| NthBody(cs, i).Some? && !Accepted(NthBody(cs, i).value, d1 + 1, d2);
          p := Some(InCase(i));
        } else {
          p := None;
        }
    }
  }

  lemma {:induction false} Refused(s: Stmt, d1: nat, d2: nat) returns (path: seq<Step>)
    requires !Accepted(s, d1, d2)
    ensures !FineAt(s, d1, d2, path)
    decreases s
  {
    hide Accepted, Distinct;
    var p := Offence(s, d1, d2);
    if p.None? {
      path := [];
    } else {
      var rest := Refused(Part(s, p.value).value, d1 + ExitOf(p.value), d2 + NextOf(p.value));
      path := [p.value] + rest;
      assert path[1..] == rest;
    }
  }

  /** No control in s is break3 or names a level that the way to it does not provide. */
  ghost predicate ControlsCaught(s: Stmt, d1: nat, d2: nat) {
    forall path, k :: Find(s, path) == Some(Control(k)) ==>
      k != Break3 && Caught(ControlOutcome(k), d1 + Exits(path), d2 + Nexts(path))
  }

  /** No switch in s repeats a value or its default. */
  ghost predicate SwitchesDistinct(s: Stmt) {
    forall path, c, cs :: Find(s, path) == Some(Switch(c, cs)) ==> Distinct(cs)
  }

  lemma FineEverywhere(s: Stmt, d1: nat, d2: nat, path: seq<Step>)
    requires ControlsCaught(s, d1, d2) && SwitchesDistinct(s)
    ensures FineAt(s, d1, d2, path)
  {
    hide Distinct, Find, Caught, ControlOutcome, Exits, Nexts;
  }

  lemma {:induction false} FineTogether(s: Stmt, d1: nat, d2: nat)
    requires forall path :: FineAt(s, d1, d2, path)
    ensures ControlsCaught(s, d1, d2) && SwitchesDistinct(s)
  {
    hide Distinct, Find, Caught, ControlOutcome, Exits, Nexts;
    forall path, k | Find(s, path) == Some(Control(k))
      ensures k != Break3 && Caught(ControlOutcome(k), d1 + Exits(path), d2 + Nexts(path))
    {
      assert FineAt(s, d1, d2, path);
    }
    forall path, c, cs | Find(s, path) == Some(Switch(c, cs)) ensures Distinct(cs) {
      assert FineAt(s, d1, d2, path);
    }
  }

  /** A statement is refused only for a control somewhere in it that names a level the loops and switches around it do
      not provide, or is break3, or for a switch that repeats a value or the default; and always for these. */
  lemma AcceptedIff(s: Stmt, d1: nat, d2: nat)
    ensures Accepted(s, d1, d2) <==> ControlsCaught(s, d1, d2) && SwitchesDistinct(s)
  {
    hide Accepted, FineAt, ControlsCaught, SwitchesDistinct;
    if Accepted(s, d1, d2) {
      forall path ensures FineAt(s, d1, d2, path) { AcceptedFine(s, d1, d2, path); }
      FineTogether(s, d1, d2);
    } else {
      var path := Refused(s, d1, d2);
      if ControlsCaught(s, d1, d2) && SwitchesDistinct(s) { FineEverywhere(s, d1, d2, path); }
    }
  }
}
