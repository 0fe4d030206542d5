/**
  Statements: their structured meaning, and the code of a statement as a function, with the jumps
  that leave it (break, continue and their two-level forms) still symbolic.
 */
module ScriptStmt {
  import opened ScriptMachine
  import opened ScriptExpr
  import opened ScriptAssign

  datatype LoopKind = While | For | Do

  datatype ControlKind = Break | Continue | Break2 | Continue2 | Break3

  /** Nop also stands for a missing else, init or fini; Seq is a non-empty statement list. */
  datatype Stmt =
    | Nop
    | AssignStmt(ls: seq<seq<LItem>>, es: seq<Expr>)
    | Seq(first: Stmt, rest: Stmt)
    | Block(body: Stmt)
    | If(cond: Expr, then1: Stmt, else0: Stmt)
    | Loop(kind: LoopKind, init: Stmt, test: Option<Expr>, fini: Stmt, body: Stmt)
    | Control(k: ControlKind)
    | Switch(subject: Expr, cases: Cases)
    | ReturnStmt(es: seq<Expr>)

  /** A case without values is the default case. */
  datatype Cases = NoCases | Case(vals: seq<Value>, body: Stmt, rest: Cases)

  // ---------- Which statements the generator accepts ----------

  /** d1 counts the enclosing loops and switches, d2 the enclosing loops. */
  predicate ControlOk(k: ControlKind, d1: nat, d2: nat) {
    match k
    case Break => d1 >= 1
    case Break2 => d1 >= 2
    case Continue => d2 >= 1
    case Continue2 => d2 >= 2
    case Break3 => false
  }

  predicate Accepted(s: Stmt, d1: nat, d2: nat) {
    match s
    case Nop => true
    case AssignStmt(_, _) => true
    case Seq(a, b) => Accepted(a, d1, d2) && Accepted(b, d1, d2)
    case Block(a) => Accepted(a, d1, d2)
    case If(_, a, b) => Accepted(a, d1, d2) && Accepted(b, d1, d2)
    case Loop(_, a, _, f, b) => Accepted(a, d1, d2) && Accepted(f, d1 + 1, d2 + 1) && Accepted(b, d1 + 1, d2 + 1)
    case Control(k) => ControlOk(k, d1, d2)
    case Switch(_, cs) => CasesAccepted(cs, d1 + 1, d2, {}, false)
    case ReturnStmt(_) => true
  }

  /** No value twice, no second default; seen and dflt are what earlier cases used. */
  predicate CasesAccepted(cs: Cases, d1: nat, d2: nat, seen: set<Value>, dflt: bool) {
    match cs
    case NoCases => true
    case Case(vals, body, rest) =>
      && ValsNew(vals, seen)
      && (vals == [] ==> !dflt)
      && Accepted(body, d1, d2)
      && CasesAccepted(rest, d1, d2, seen + Values(vals), dflt || vals == [])
  }

  predicate ValsNew(vals: seq<Value>, seen: set<Value>) {
    vals == [] || (vals[0] !in seen && ValsNew(vals[1..], seen + {vals[0]}))
  }

  function Values(vals: seq<Value>): set<Value> {
    set v | v in vals
  }

  /** Slots lie in the function's frame. */
  ghost predicate Fits(s: Stmt, nl: nat) {
    match s
    case Nop => true
    case AssignStmt(ls, es) => ls != [] && ListsFit(ls, nl) && ExprsFit(es, nl)
    case Seq(a, b) => Fits(a, nl) && Fits(b, nl)
    case Block(a) => Fits(a, nl)
    case If(c, a, b) => ExprFits(c, nl) && Fits(a, nl) && Fits(b, nl)
    case Loop(_, a, t, f, b) => Fits(a, nl) && (t.Some? ==> ExprFits(t.value, nl)) && Fits(f, nl) && Fits(b, nl)
    case Control(_) => true
    case Switch(c, cs) => ExprFits(c, nl) && CasesFit(cs, nl)
    case ReturnStmt(es) => ExprsFit(es, nl)
  }

  ghost predicate CasesFit(cs: Cases, nl: nat) {
    cs.Case? ==> Fits(cs.body, nl) && CasesFit(cs.rest, nl)
  }

  predicate ExprsFit(es: seq<Expr>, nl: nat) {
    forall i :: 0 <= i < |es| ==> ExprFits(es[i], nl)
  }

  // ---------- Structured meaning ----------

  /** How a statement ends. Brk(d) leaves d + 1 loops or switches, Cont(d) continues the loop d levels out. */
  datatype Outcome = Normal | Brk(d: nat) | Cont(d: nat) | Ret(vs: seq<Value>)

  datatype Result = Ended(o: Outcome, st: Store) | OutOfFuel

  /** The body of a loop or switch seen from outside, apart from what that loop catches. */
  function LeaveLoop(r: Result): Result
    requires r.Ended? ==> r.o != Normal && r.o != Cont(0)
  {
    if r == OutOfFuel then r
    else
      match r.o
      case Brk(d) => Ended(if d == 0 then Normal else Brk(d - 1), r.st)
      case Cont(d) => Ended(Cont(d - 1), r.st)
      case _ => r
  }

  function LeaveSwitch(r: Result): Result {
    if r.Ended? && r.o.Brk? then Ended(if r.o.d == 0 then Normal else Brk(r.o.d - 1), r.st) else r
  }

  function ControlOutcome(k: ControlKind): Outcome {
    match k
    case Break => Brk(0)
    case Break2 => Brk(1)
    case Break3 => Brk(2)
    case Continue => Cont(0)
    case Continue2 => Cont(1)
  }

  /** There is a loop or switch to leave, or a loop to continue, among the d1 exits and d2 continuations around. */
  predicate Caught(o: Outcome, d1: nat, d2: nat) {
    match o
    case Brk(d) => d < d1
    case Cont(d) => d < d2
    case _ => true
  }

  /** A control is accepted if and only if what it means can be caught, and it is not break3. */
  lemma ControlCaught(k: ControlKind, d1: nat, d2: nat)
    ensures ControlOk(k, d1, d2) <==> k != Break3 && Caught(ControlOutcome(k), d1, d2)
  {
  }

  /** The statement a switch selects for value v: the case listing v, else the default. */
  function Selected(cs: Cases, v: Value): (r: Option<Stmt>)
    ensures r.Some? ==> r.value < cs
  {
    if FindCase(cs, v).Some? then FindCase(cs, v) else FindDefault(cs)
  }

  function FindCase(cs: Cases, v: Value): (r: Option<Stmt>)
    ensures r.Some? ==> r.value < cs
  {
    match cs
    case NoCases => None
    case Case(vals, body, rest) => if v in vals then Some(body) else FindCase(rest, v)
  }

  function FindDefault(cs: Cases): (r: Option<Stmt>)
    ensures r.Some? ==> r.value < cs
  {
    match cs
    case NoCases => None
    case Case(vals, body, rest) => if vals == [] then Some(body) else FindDefault(rest)
  }

  function Exec(m: Sem, s: Stmt, f: nat, st: Store): (r: Result)
    ensures r.Ended? ==> |r.st.locals| == |st.locals|
    decreases f, s, 5
  {
    match s
    case Nop => Ended(Normal, st)
    case AssignStmt(ls, es) => var (vs, st1) := EvalAll(m, es, st); Ended(Normal, AssignChain(ls, vs, st1))
    case Seq(a, b) =>
      var r := Exec(m, a, f, st);
      if r.Ended? && r.o == Normal then Exec(m, b, f, r.st) else r
    case Block(a) => Exec(m, a, f, st)
    case If(c, a, b) =>
      var (v, st1) := Eval(m, c, st);
      if m.truth(v) then Exec(m, a, f, st1) else Exec(m, b, f, st1)
    case Loop(kind, a, _, _, _) =>
      var r := Exec(m, a, f, st);
      if !(r.Ended? && r.o == Normal) then r
      else if kind == Do then LoopBody(m, s, f, r.st) else LoopTest(m, s, f, r.st)
    case Control(k) => Ended(ControlOutcome(k), st)
    case Switch(c, cs) =>
      var (v, st1) := Eval(m, c, st);
      var sel := Selected(cs, v);
      if sel.Some? then LeaveSwitch(Exec(m, sel.value, f, st1)) else Ended(Normal, st1)
    case ReturnStmt(es) => var (vs, st1) := EvalAll(m, es, st); Ended(Ret(vs), st1)
  }

  function LoopBody(m: Sem, s: Stmt, f: nat, st: Store): (r: Result)
    requires s.Loop?
    ensures r.Ended? ==> |r.st.locals| == |st.locals|
    decreases f, s, 4
  {
    var r := Exec(m, s.body, f, st);
    if r.Ended? && (r.o == Normal || r.o == Cont(0)) then LoopFini(m, s, f, r.st) else LeaveLoop(r)
  }

  /** A continue inside the fini statement of a for loop starts that statement again. */
  function LoopFini(m: Sem, s: Stmt, f: nat, st: Store): (r: Result)
    requires s.Loop?
    ensures r.Ended? ==> |r.st.locals| == |st.locals|
    decreases f, s, 3
  {
    var r := Exec(m, s.fini, f, st);
    if r.Ended? && r.o == Normal then LoopTest(m, s, f, r.st)
    else if r.Ended? && r.o == Cont(0) then (if f == 0 then OutOfFuel else LoopFini(m, s, f - 1, r.st))
    else LeaveLoop(r)
  }

  function TestLoop(m: Sem, s: Stmt, st: Store): (r: (bool, Store))
    requires s.Loop?
    ensures |r.1.locals| == |st.locals|
  {
    if s.test.None? then (true, st) else var (v, st1) := Eval(m, s.test.value, st); (m.truth(v), st1)
  }

  function LoopTest(m: Sem, s: Stmt, f: nat, st: Store): (r: Result)
    requires s.Loop?
    ensures r.Ended? ==> |r.st.locals| == |st.locals|
    decreases f, s, 2
  {
    var (t, st1) := TestLoop(m, s, st);
    if !t then Ended(Normal, st1)
    else if f == 0 then OutOfFuel
    else LoopBody(m, s, f - 1, st1)
  }

  // ---------- Code with symbolic exits ----------

  /** An instruction, or a jump to the exit of the loop or switch at level l of the exit stack (ToExit),
      or to the continuation of the loop at level l of the loop stack (ToNext). Level 0 is outermost. */
  datatype SInst = Plain(i: Inst) | ToExit(l: nat) | ToNext(l: nat)

  type SCode = seq<SInst>

  function Lift(c: seq<Inst>): (r: SCode)
    ensures |r| == |c|
  {
    seq(|c|, i requires 0 <= i < |c| => Plain(c[i]))
  }

  function ResolveInst(i: SInst, l1: nat, exit: int, l2: nat, next: int): SInst {
    match i
    case Plain(_) => i
    case ToExit(l) => if l == l1 then Plain(Jump(exit)) else i
    case ToNext(l) => if l == l2 then Plain(Jump(next)) else i
  }

  /** The jumps of level l1 go to exit and those of level l2 to next. */
  function Resolve(c: SCode, l1: nat, exit: int, l2: nat, next: int): (r: SCode)
    ensures |r| == |c|
  {
    seq(|c|, i requires 0 <= i < |c| => ResolveInst(c[i], l1, exit, l2, next))
  }

  function ResolveExit(c: SCode, l1: nat, exit: int): (r: SCode)
    ensures |r| == |c|
  {
    seq(|c|, i requires 0 <= i < |c| => if c[i] == ToExit(l1) then Plain(Jump(exit)) else c[i])
  }

  function ControlCode(k: ControlKind, d1: nat, d2: nat): SInst
    requires ControlOk(k, d1, d2)
  {
    match k
    case Break => ToExit(d1 - 1)
    case Break2 => ToExit(d1 - 2)
    case Continue => ToNext(d2 - 1)
    case Continue2 => ToNext(d2 - 2)
  }

  /** Number of instructions of a statement's code. */
  function Len(s: Stmt): nat {
    match s
    case Nop => 0
    case AssignStmt(ls, es) => |AssignCode(ls, es)|
    case Seq(a, b) => Len(a) + Len(b)
    case Block(a) => Len(a)
    case If(c, a, b) => |Code(c)| + 1 + Len(a) + 1 + Len(b)
    case Loop(kind, a, t, f, b) => Len(a) + (if kind == Do then 0 else 1) + Len(b) + Len(f) + TestLen(t) + 1
    case Control(_) => 1
    case Switch(c, cs) => |Code(c)| + 5 + CasesLen(cs)
    case ReturnStmt(es) => 1 + |CodeAll(es)| + 1
  }

  function TestLen(t: Option<Expr>): nat {
    if t.Some? then |Code(t.value)| else 0
  }

  function CasesLen(cs: Cases): nat {
    match cs case NoCases => 0 case Case(_, body, rest) => Len(body) + 1 + CasesLen(rest)
  }

  /** The code of s placed at address b below d1 exits and d2 continuations. */
  function SCodeOf(s: Stmt, b: nat, d1: nat, d2: nat): (r: SCode)
    requires Accepted(s, d1, d2)
    ensures |r| == Len(s)
    decreases s
  {
    match s
    case Nop => []
    case AssignStmt(ls, es) => Lift(AssignCode(ls, es))
    case Seq(a, b1) => SCodeOf(a, b, d1, d2) + SCodeOf(b1, b + Len(a), d1, d2)
    case Block(a) => SCodeOf(a, b, d1, d2)
    case If(c, a, b1) =>
      var n := |Code(c)|;
      var else0 := b + n + 1 + Len(a) + 1;
      Lift(Code(c)) + [Plain(JumpFalse(else0))] + SCodeOf(a, b + n + 1, d1, d2)
        + [Plain(Jump(else0 + Len(b1)))] + SCodeOf(b1, else0, d1, d2)
    case Loop(kind, a, t, f, b1) => LoopCode(s, b, d1, d2)
    case Control(k) => [ControlCode(k, d1, d2)]
    case Switch(c, cs) =>
      var n := |Code(c)|;
      var first := b + n + 5;
      var exit := first + CasesLen(cs);
      [Plain(Prog1)] + Lift(Code(c))
        + [Plain(PmAdj(1)), Plain(PushSwitch(CaseMap(cs, first), DefaultAt(cs, first, exit))), Plain(Call), Plain(JumpN)]
        + ResolveExit(CasesCode(cs, first, d1 + 1, d2, {}, false), d1, exit)
    case ReturnStmt(es) => [Plain(Prog1)] + Lift(CodeAll(es)) + [Plain(Return)]
  }

  function LoopStart(s: Stmt, b: nat): nat
    requires s.Loop?
  {
    b + Len(s.init) + if s.kind == Do then 0 else 1
  }

  function LoopCode(s: Stmt, b: nat, d1: nat, d2: nat): (r: SCode)
    requires s.Loop? && Accepted(s, d1, d2)
    ensures |r| == Len(s)
    decreases s, 0
  {
    var j1 := LoopStart(s, b);
    var jc := j1 + Len(s.body);
    var jt := jc + Len(s.fini);
    SCodeOf(s.init, b, d1, d2)
      + (if s.kind == Do then [] else [Plain(Jump(jt))])
      + Resolve(SCodeOf(s.body, j1, d1 + 1, d2 + 1) + SCodeOf(s.fini, jc, d1 + 1, d2 + 1), d1, b + Len(s), d2, jc)
      + TestCode(s.test, j1)
  }

  function TestCode(t: Option<Expr>, j1: nat): (r: SCode)
    ensures |r| == TestLen(t) + 1
  {
    if t.Some? then Lift(Code(t.value)) + [Plain(JumpTrue(j1))] else [Plain(Jump(j1))]
  }

  /** Case bodies in order, each followed by a jump to the switch's exit. */
  function CasesCode(cs: Cases, b: nat, d1: nat, d2: nat, ghost seen: set<Value>, ghost dflt: bool): (r: SCode)
    requires d1 > 0 && CasesAccepted(cs, d1, d2, seen, dflt)
    ensures |r| == CasesLen(cs)
    decreases cs
  {
    match cs
    case NoCases => []
    case Case(vals, body, rest) =>
      SCodeOf(body, b, d1, d2) + [ToExit(d1 - 1)]
        + CasesCode(rest, b + Len(body) + 1, d1, d2, seen + Values(vals), dflt || vals == [])
  }

  /** The address of each listed value's case. */
  function CaseMap(cs: Cases, b: nat): map<Value, int> {
    match cs
    case NoCases => map[]
    case Case(vals, body, rest) => CaseMap(rest, b + Len(body) + 1) + (map v | v in vals :: b as int)
  }

  function DefaultAt(cs: Cases, b: nat, exit: nat): nat {
    match cs
    case NoCases => exit
    case Case(vals, body, rest) => if vals == [] then b else DefaultAt(rest, b + Len(body) + 1, exit)
  }
}
