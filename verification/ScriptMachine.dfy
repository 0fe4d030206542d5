/** The stack machine that runs generated script code: the instructions the generator emits, one step each. */
module ScriptMachine {

  datatype Option<T> = None | Some(value: T)

  /** A callable is named by the address of the instruction that pushes it. */
  datatype Value = Nil | Bool(b: bool) | Int(i: int) | Obj(id: int) | Callable(at: nat)

  datatype Op1 = Neg | BitInv | Not

  datatype Op2 =
    | Add | Sub | Mul | Div | Mod | Gt | Lt | Ge | Le | Eq | Ne
    | And | Or | Xor | BitAnd | BitOr | BitXor | Cat | Pow | DotMul | DotDiv

  /** What operators and truth tests mean; every result below holds for any choice. */
  datatype Sem = Sem(op1: (Op1, Value) -> Value, op2: (Op2, Value, Value) -> Value, truth: Value -> bool)

  datatype Inst =
    | PushNil(n: nat)
    | PushInt(i: int)
    | PushConst(v: Value)
    | PushSwitch(cases: map<Value, int>, dflt: int)
    | SpAdj(d: int)
    | GetLocal(p: int)
    | SetLocal(p: int)
    | GetTable(s: string)
    | SetTable(s: string)
    | GetStack(d: int)
    | Unary(o1: Op1)
    | Binary(o2: Op2)
    | Prog1
    | Prog2
    | PmAdj(n: nat)
    | Call
    | Jump(t: int)
    | JumpN
    | JumpTrue(t: int)
    | JumpFalse(t: int)
    | Return
    | Halt

  /** stk holds the function's locals first (slot 1 at index 0), then temporaries; vbp the marks set by PROG1. */
  datatype Config =
    | Running(pc: int, stk: seq<Value>, vbp: seq<nat>, globals: map<string, Value>)
    | Done(ret: seq<Value>, globals: map<string, Value>)
    | Stuck

  function Nils(n: nat): seq<Value> {
    seq(n, _ => Nil)
  }

  function Lookup(g: map<string, Value>, s: string): Value {
    if s in g then g[s] else Nil
  }

  function Step(m: Sem, code: seq<Inst>, c: Config): Config {
    if !c.Running? then c
    else if !(0 <= c.pc < |code|) then Stuck
    else
      var k := |c.stk|;
      match code[c.pc]
      case PushNil(n) => Next(c, c.stk + Nils(n))
      case PushInt(i) => Next(c, c.stk + [Int(i)])
      case PushConst(v) => Next(c, c.stk + [v])
      case PushSwitch(_, _) => Next(c, c.stk + [Callable(c.pc)])
      case SpAdj(d) =>
        if d >= 0 then Next(c, c.stk + Nils(d)) else if k + d >= 0 then Next(c, c.stk[..k + d]) else Stuck
      case GetLocal(p) => if 1 <= p <= k then Next(c, c.stk + [c.stk[p - 1]]) else Stuck
      case SetLocal(p) => if 1 <= p < k then Next(c, c.stk[p - 1 := c.stk[k - 1]][..k - 1]) else Stuck
      case GetTable(s) => Next(c, c.stk + [Lookup(c.globals, s)])
      case SetTable(s) =>
        if k > 0 then Running(c.pc + 1, c.stk[..k - 1], c.vbp, c.globals[s := c.stk[k - 1]]) else Stuck
      case GetStack(d) => if 0 <= k - 1 + d < k then Next(c, c.stk + [c.stk[k - 1 + d]]) else Stuck
      case Unary(o) => if k > 0 then Next(c, c.stk[..k - 1] + [m.op1(o, c.stk[k - 1])]) else Stuck
      case Binary(o) => if k > 1 then Next(c, c.stk[..k - 2] + [m.op2(o, c.stk[k - 2], c.stk[k - 1])]) else Stuck
      case Prog1 => Running(c.pc + 1, c.stk, c.vbp + [k], c.globals)
      case Prog2 => if c.vbp != [] then Running(c.pc + 1, c.stk, c.vbp[..|c.vbp| - 1], c.globals) else Stuck
      case PmAdj(n) =>
        if c.vbp == [] || c.vbp[|c.vbp| - 1] > k then Stuck
        else
          var bp := c.vbp[|c.vbp| - 1];
          if k - bp >= n then Next(c, c.stk[..bp + n]) else Next(c, c.stk + Nils(n - (k - bp)))
      case Call => StepCall(code, c)
      case Jump(t) => c.(pc := t)
      case JumpN =>
        if k > 0 && c.stk[k - 1].Int? then Running(c.stk[k - 1].i, c.stk[..k - 1], c.vbp, c.globals) else Stuck
      case JumpTrue(t) =>
        if k > 0 then Running(if m.truth(c.stk[k - 1]) then t else c.pc + 1, c.stk[..k - 1], c.vbp, c.globals) else Stuck
      case JumpFalse(t) =>
        if k > 0 then Running(if m.truth(c.stk[k - 1]) then c.pc + 1 else t, c.stk[..k - 1], c.vbp, c.globals) else Stuck
      case Return =>
        if c.vbp != [] && c.vbp[|c.vbp| - 1] <= k then Done(c.stk[c.vbp[|c.vbp| - 1]..], c.globals) else Stuck
      case Halt => Done([], c.globals)
  }

  function Next(c: Config, stk: seq<Value>): Config
    requires c.Running?
  {
    c.(pc := c.pc + 1, stk := stk)
  }

  /** Calling the callable of a switch: its argument on top of the stack is replaced by the jump target,
      the results down to the last mark stay, and the mark is dropped. */
  function StepCall(code: seq<Inst>, c: Config): Config
    requires c.Running?
  {
    var k := |c.stk|;
    if k < 2 || c.vbp == [] || !c.stk[k - 1].Callable? then Stuck
    else
      var bp := c.vbp[|c.vbp| - 1];
      var at := c.stk[k - 1].at;
      if at >= |code| || !code[at].PushSwitch? || bp + 1 > k - 1 then Stuck
      else
        var args := c.stk[..k - 1][k - 2 := Int(Target(code[at], c.stk[k - 2]))];
        Running(c.pc + 1, args[..bp + 1], c.vbp[..|c.vbp| - 1], c.globals)
  }

  function Target(i: Inst, v: Value): int
    requires i.PushSwitch?
  {
    if v in i.cases then i.cases[v] else i.dflt
  }

  function Run(m: Sem, code: seq<Inst>, n: nat, c: Config): Config {
    if n == 0 then c else Run(m, code, n - 1, Step(m, code, c))
  }

  lemma {:induction false} RunAdd(m: Sem, code: seq<Inst>, a: nat, b: nat, c: Config)
    ensures Run(m, code, a + b, c) == Run(m, code, b, Run(m, code, a, c))
  {
    if a > 0 { RunAdd(m, code, a - 1, b, Step(m, code, c)); }
  }

  /** Once the machine has stopped it stays as it is. */
  lemma {:induction false} RunStopped(m: Sem, code: seq<Inst>, n: nat, c: Config)
    requires !c.Running?
    ensures Run(m, code, n, c) == c
  {
    if n > 0 { RunStopped(m, code, n - 1, c); }
  }

  /** The instructions part stand in code from address pc on. */
  predicate Stands(code: seq<Inst>, pc: int, part: seq<Inst>) {
    0 <= pc && pc + |part| <= |code| && code[pc..pc + |part|] == part
  }

  lemma StandsSplit(code: seq<Inst>, pc: int, a: seq<Inst>, b: seq<Inst>)
    requires Stands(code, pc, a + b)
    ensures Stands(code, pc, a) && Stands(code, pc + |a|, b)
  {
    var ab := code[pc..pc + |a + b|];
    assert code[pc..pc + |a|] == ab[..|a|];
    assert code[pc + |a|..pc + |a| + |b|] == ab[|a|..];
  }

  lemma StandsAt(code: seq<Inst>, pc: int, part: seq<Inst>, i: nat)
    requires Stands(code, pc, part) && i < |part|
    ensures code[pc + i] == part[i]
  {
    assert code[pc..pc + |part|][i] == part[i];
  }
}
