/** Mini-GPU IR: the statements of one kernel section and what they mean for one lane. */
module MiniIr {
  import opened Words
  import opened Isa
  import opened MaskStack

  datatype Operand = Val(name: string) | Lit(n: int)

  datatype UnaryOp = LoadGlobal | LoadShared | BitNot | Copy | FloatToInt | IntToFloat

  /** The right-hand side of an IR assignment. */
  datatype Rhs =
    | Arg(param: string)
    | Shared(symbol: string)
    | Const(n: int)
    | Thread(value: ThreadValue)
    | Unary(u: UnaryOp, fmt: Option<Format>, x: Operand)
    | Binary(arith: Arith, fmt: Option<Format>, x: Operand, y: Operand)
    | Unknown

  datatype Space = Global | SharedMem

  datatype Stmt =
    | Assign(dst: string, rhs: Rhs)
    | StoreTo(space: Space, fmt: Option<Format>, addr: Operand, value: Operand)
    | PredBegin(cond: Operand)
    | PredEnd
    | Barrier
    | Return
    | Mark(name: string)
    | Goto(target: string)
    | GotoZero(cond: Operand, target: string)
    | GotoNonzero(cond: Operand, target: string)

  predicate Straight(stmt: Stmt) {
    !stmt.Goto? && !stmt.GotoZero? && !stmt.GotoNonzero?
  }

  // ----- operands as text -----

  function RhsOperands(rhs: Rhs): seq<Operand> {
    match rhs
    case Unary(_, _, x) => [x]
    case Binary(_, _, x, y) => [x, y]
    case _ => []
  }

  function Operands(stmt: Stmt): seq<Operand> {
    match stmt
    case Assign(_, rhs) => RhsOperands(rhs)
    case StoreTo(_, _, addr, value) => [addr, value]
    case PredBegin(c) => [c]
    case GotoZero(c, _) => [c]
    case GotoNonzero(c, _) => [c]
    case _ => []
  }

  /** How many times a statement names a value as an operand. */
  function Mentions(stmt: Stmt, v: string): nat {
    var ops := Operands(stmt);
    (if |ops| > 0 && ops[0] == Val(v) then 1 else 0) + (if |ops| > 1 && ops[1] == Val(v) then 1 else 0)
  }

  function Count(stmts: seq<Stmt>, v: string): nat {
    if stmts == [] then 0 else Mentions(stmts[0], v) + Count(stmts[1..], v)
  }

  /** No assignment reads the value it defines. */
  predicate NoSelfUse(stmt: Stmt) {
    stmt.Assign? ==> Mentions(stmt, stmt.dst) == 0
  }

  // ----- names -----

  function UpperChar(c: char): char {
    if 'a' <= c <= 'z' then c - 'a' + 'A' else c
  }

  function Upper(s: string): (r: string)
    ensures |r| == |s| && forall i :: 0 <= i < |s| ==> r[i] == UpperChar(s[i])
  {
    seq(|s|, i requires 0 <= i < |s| => UpperChar(s[i]))
  }

  function ArgSymbol(param: string): string { "ARG_" + Upper(param) }

  function SharedSymbol(name: string): string { "SHARED_" + Upper(name) }

  const SPILL_BASE := "SHARED_SPILL_BASE"

  // ----- meaning -----

  /** One lane running IR: values by name, and the lane's masks and memory. */
  datatype IrLane = IrLane(
    env: map<string, Word>,
    mem: map<nat, Word>,
    active: bool,
    stack: seq<bool>,
    status: Status)

  function Eval(o: Operand, env: map<string, Word>): Option<Word> {
    match o
    case Lit(n) => Some(Wrap(n))
    case Val(v) => if v in env then Some(env[v]) else None
  }

  /** The address of one lane's copy of a spill slot. */
  function SpillAddr(m: Machine, slot: nat): nat {
    Effective(Wrap(Lookup(m.consts, SPILL_BASE) + Wrap(m.thread(ThreadIdx) + 4 * slot)), 0)
  }

  /** The words the compiler may use to spill this lane. */
  ghost predicate InSpillWindow(m: Machine, slots: nat, w: nat) {
    exists s :: 0 <= s < slots && SpillAddr(m, s) == w
  }

  ghost predicate Touches(m: Machine, slots: nat, fmt: Option<Format>, addr: Word) {
    InSpillWindow(m, slots, WordIndex(FormatOr(fmt, I32), Effective(addr, 0)))
  }

  /** The formats an operation computes in; an absent suffix means 32-bit integers. */
  function ArithResult(m: Machine, arith: Arith, fmt: Option<Format>, x: Word, y: Word): Option<Word> {
    Compute(m, arith, FormatOr(fmt, I32), x, y)
  }

  function UnaryResult(m: Machine, u: UnaryOp, fmt: Option<Format>, mem: map<nat, Word>, x: Word): Option<Word> {
    match u
    case LoadGlobal => Some(ReadMem(mem, FormatOr(fmt, I32), Effective(x, 0)))
    case LoadShared => Some(ReadMem(mem, FormatOr(fmt, I32), Effective(x, 0)))
    case BitNot => Some(Wrap(-1 - x))
    case Copy => Some(x)
    case FloatToInt => Some(m.ftoi(x))
    case IntToFloat => if IsFloat(FormatOr(fmt, I32)) then None else Some(m.itof(x))
  }

  function Bind(st: IrLane, dst: string, result: Option<Word>): IrLane {
    if result.None? then st.(status := Faulted) else st.(env := st.env[dst := result.value])
  }

  /** An assignment in an active lane; Raise when it reads an undefined value or touches the
      spill window, which no source program may do. */
  ghost function EvalAssign(m: Machine, slots: nat, dst: string, rhs: Rhs, st: IrLane): Outcome<IrLane> {
    match rhs
    case Arg(p) => Ok(Bind(st, dst, Some(Lookup(m.consts, ArgSymbol(p)))))
    case Shared(a) => Ok(Bind(st, dst, Some(Lookup(m.consts, SharedSymbol(a)))))
    case Const(n) => Ok(Bind(st, dst, Some(Wrap(n))))
    case Thread(t) => Ok(Bind(st, dst, Some(m.thread(t))))
    case Unary(u, fmt, x) =>
      var a := Eval(x, st.env);
      if a.None? || ((u.LoadGlobal? || u.LoadShared?) && Touches(m, slots, fmt, a.value)) then Raise
      else Ok(Bind(st, dst, UnaryResult(m, u, fmt, st.mem, a.value)))
    case Binary(op, fmt, x, y) =>
      var a, b := Eval(x, st.env), Eval(y, st.env);
      if a.None? || b.None? then Raise
      else Ok(Bind(st, dst, ArithResult(m, op, fmt, a.value, b.value)))
    case Unknown => Raise
  }

  ghost function IrStep(m: Machine, slots: nat, stmt: Stmt, st: IrLane): Outcome<IrLane> {
    if st.status != Running then Ok(st) else
    match stmt
    case Assign(dst, rhs) => if st.active then EvalAssign(m, slots, dst, rhs, st) else Ok(st)
    case StoreTo(_, fmt, addr, value) =>
      if !st.active then Ok(st) else
      var a, v := Eval(addr, st.env), Eval(value, st.env);
      if a.None? || v.None? || Touches(m, slots, fmt, a.value) then Raise
      else Ok(st.(mem := WriteMem(st.mem, FormatOr(fmt, I32), Effective(a.value, 0), v.value)))
    case PredBegin(c) =>
      var pushed := PushMask(st.stack, st.active);
      var cond := Eval(c, st.env);
      if st.active && cond.None? then Raise
      else if pushed.None? then Ok(st.(status := Faulted))
      else Ok(st.(stack := pushed.value, active := st.active && cond.value != 0))
    case PredEnd =>
      var popped := PopMask(st.stack);
      if popped.None? then Ok(st.(status := Faulted)) else Ok(st.(active := popped.value.0, stack := popped.value.1))
    case Return => Ok(st.(status := Exited))
    case _ => Ok(st)
  }

  ghost function IrRun(m: Machine, slots: nat, stmts: seq<Stmt>, st: IrLane): Outcome<IrLane> {
    if stmts == [] then Ok(st) else
    var next := IrStep(m, slots, stmts[0], st);
    if next.Raise? then Raise else IrRun(m, slots, stmts[1..], next.value)
  }

  lemma {:induction false} IrRunAppend(m: Machine, slots: nat, stmts: seq<Stmt>, more: seq<Stmt>, st: IrLane)
    ensures IrRun(m, slots, stmts + more, st) ==
      var r := IrRun(m, slots, stmts, st); if r.Raise? then Raise else IrRun(m, slots, more, r.value)
    decreases |stmts|
  {
    if stmts == [] {
      assert stmts + more == more;
    } else {
      var r := IrStep(m, slots, stmts[0], st);
      assert (stmts + more)[1..] == stmts[1..] + more;
      if r.Ok? { IrRunAppend(m, slots, stmts[1..], more, r.value); }
    }
  }

  /** A lane that has stopped stays as it is. */
  lemma {:induction false} StoppedRun(m: Machine, slots: nat, stmts: seq<Stmt>, st: IrLane)
    requires st.status != Running
    ensures IrRun(m, slots, stmts, st) == Ok(st)
    decreases |stmts|
  {
    hide EvalAssign, Touches;
    if stmts != [] { StoppedRun(m, slots, stmts[1..], st); }
  }
}
