/** The register allocator's state and its operations as functions. */
module Allocation {
  import opened Words
  import opened Isa
  import opened MiniIr

  /** value_regs is an ordered dictionary: `regs` is its content, `order` its key order. */
  datatype Alloc = Alloc(
    uses: map<string, int>,
    regs: map<string, Reg>,
    order: seq<string>,
    free: seq<Reg>,
    spilled: map<string, nat>,
    depths: map<string, nat>,
    persistent: set<string>,
    backed: set<string>,
    nextSlot: nat,
    scratch: seq<Reg>,
    pinned: set<string>,
    depth: nat,
    asm: seq<Line>)

  const SPILL_BASE_REG: Reg := 15
  const SPILL_ADDR_REG: Reg := 14
  const SCRATCH_REG: Reg := 13

  /** r0 .. r(n-1), in order. */
  function RegsBelow(n: nat): (r: seq<Reg>)
    ensures |r| == n && forall i :: 0 <= i < n ==> r[i] == i
  {
    if n == 0 then [] else RegsBelow(n - 1) + [n - 1]
  }

  function Fresh(uses: map<string, int>): Alloc {
    Alloc(uses, map[], [], RegsBelow(13), map[], map[], {}, {}, 0, [SCRATCH_REG], {}, 0, [])
  }

  function Emit(a: Alloc, lines: seq<Line>): Alloc {
    a.(asm := a.asm + lines)
  }

  function Uses(a: Alloc, v: string): int {
    if v in a.uses then a.uses[v] else 0
  }

  function Without(order: seq<string>, v: string): (r: seq<string>)
    ensures forall x :: x in r <==> x in order && x != v
  {
    if order == [] then []
    else if order[0] == v then Without(order[1..], v)
    else [order[0]] + Without(order[1..], v)
  }

  /** value_regs.pop(v). */
  function DropReg(a: Alloc, v: string): Alloc {
    a.(regs := a.regs - {v}, order := Without(a.order, v))
  }

  // ----- spill code -----

  function SpillSlot(a: Alloc, v: string): (Alloc, nat) {
    if v in a.spilled then (a, a.spilled[v])
    else (a.(spilled := a.spilled[v := a.nextSlot], nextSlot := a.nextSlot + 1), a.nextSlot)
  }

  function SpillAddrCode(slot: nat): seq<Line> {
    [LoadConst(SPILL_BASE_REG, Symbol(SPILL_BASE)), ReadThread(TIDX, SPILL_ADDR_REG)]
    + (if slot != 0 then [AluImm(ADDI, SPILL_ADDR_REG, SPILL_ADDR_REG, slot * 4)] else [])
    + [Alu(ADD, None, SPILL_ADDR_REG, SPILL_BASE_REG, SPILL_ADDR_REG)]
  }

  function SpillStore(a: Alloc, v: string, reg: Reg): Alloc {
    var (b, slot) := SpillSlot(a, v);
    Emit(b, SpillAddrCode(slot) + [Store(STS, None, SPILL_ADDR_REG, 0, reg)])
  }

  function SpillLoad(a: Alloc, reg: Reg, v: string): Alloc {
    var (b, slot) := SpillSlot(a, v);
    Emit(b, SpillAddrCode(slot) + [Load(LDS, None, reg, SPILL_ADDR_REG, 0)])
  }

  /** A value may be spilled when it is unpinned and was placed under the current lane mask. */
  predicate Spillable(a: Alloc, v: string) {
    v in a.regs && v !in a.pinned && (if v in a.depths then a.depths[v] else 0) == a.depth
  }

  /** The first spillable value in dictionary order. */
  function Victim(a: Alloc, order: seq<string>): Option<string> {
    if order == [] then None
    else if Spillable(a, order[0]) then Some(order[0])
    else Victim(a, order[1..])
  }

  function SpillOne(a: Alloc): Alloc {
    var victim := Victim(a, a.order);
    if victim.None? || victim.value !in a.regs then a else
    var reg := a.regs[victim.value];
    var b := SpillStore(DropReg(a, victim.value), victim.value, reg);
    b.(free := [reg] + b.free)
  }

  /** The state with a free register, if one can be had. */
  function Spare(a: Alloc): Alloc {
    if a.free == [] then SpillOne(a) else a
  }

  function Acquire(a: Alloc): Outcome<(Alloc, Reg)> {
    var b := Spare(a);
    if b.free == [] then Raise else Ok((b.(free := b.free[1..]), b.free[0]))
  }

  // ----- defining, using and releasing values -----

  function Settle(a: Alloc, v: string, reg: Reg): Alloc {
    a.(regs := a.regs[v := reg], order := Without(a.order, v) + [v], depths := a.depths[v := a.depth])
  }

  function IsSlot(v: string): bool { "%slot" <= v }

  function Back(a: Alloc, v: string): Alloc {
    a.(persistent := a.persistent + {v}, backed := a.backed + {v})
  }

  function Define(a: Alloc, v: string): Outcome<(Alloc, Reg)> {
    var b := if IsSlot(v) then Back(a, v) else a;
    if v in b.regs then Ok((Settle(b, v, b.regs[v]), b.regs[v]))
    else
      var c := if v in b.backed then b else b.(spilled := b.spilled - {v});
      var (d, reg) :- Acquire(c);
      Ok((Settle(d, v, reg), reg))
  }

  function Use(a: Alloc, v: string): Outcome<(Alloc, Reg)> {
    if v in a.regs then Ok((a, a.regs[v]))
    else if v in a.spilled then
      var (b, reg) :- Acquire(a);
      Ok((Settle(SpillLoad(b, reg, v), v, reg), reg))
    else Raise
  }

  /** Return v's register to the front of the free list. */
  function FreeReg(a: Alloc, v: string): Alloc {
    if v in a.regs then DropReg(a, v).(free := [a.regs[v]] + a.free) else a
  }

  function Release(a: Alloc, v: string): Alloc {
    if v in a.backed then
      var b := FreeReg(a, v);
      b.(depths := b.depths - {v})
    else if v in a.persistent then a
    else
      var b := a.(uses := a.uses[v := Uses(a, v) - 1]);
      if Uses(b, v) > 0 then b
      else
        var c := FreeReg(b, v);
        c.(spilled := c.spilled - {v}, depths := c.depths - {v})
  }

  function Pin(a: Alloc, v: string): Alloc { a.(pinned := a.pinned + {v}) }

  function Unpin(a: Alloc, v: string): Alloc { a.(pinned := a.pinned - {v}) }

  function EnterPredicate(a: Alloc): Alloc { a.(depth := a.depth + 1) }

  function ExitPredicate(a: Alloc): Alloc {
    var d := if a.depth > 0 then a.depth - 1 else 0;
    a.(depth := d, depths := map v | v in a.depths :: if a.depths[v] > d then d else a.depths[v])
  }

  // ----- operands -----

  function Fits14(n: int): bool { -0x2000 <= n < 0x2000 }

  function ByteOf(w: Word, k: nat): nat { w / Pow2(8 * k) % 0x100 }

  /** Shift one more byte of a literal into a register. */
  function ByteCode(reg: Reg, byte: nat): seq<Line> {
    [AluImm(SHLI, reg, reg, 8)] + if byte != 0 then [AluImm(ORI, reg, reg, byte)] else []
  }

  /** The k low bytes of a literal, most significant first. */
  function BytesCode(reg: Reg, w: Word, k: nat): seq<Line> {
    if k == 0 then [] else ByteCode(reg, ByteOf(w, k - 1)) + BytesCode(reg, w, k - 1)
  }

  function LiteralCode(reg: Reg, n: int): seq<Line> {
    if Fits14(n) then [MoveImm(reg, n)]
    else [MoveImm(reg, ByteOf(Wrap(n), 3))] + BytesCode(reg, Wrap(n), 3)
  }

  function OperandReg(a: Alloc, o: Operand): Outcome<(Alloc, Reg)> {
    match o
    case Val(v) => Use(a, v)
    case Lit(n) =>
      if a.scratch == [] then Raise
      else Ok((Emit(a.(scratch := a.scratch[1..]), LiteralCode(a.scratch[0], n)), a.scratch[0]))
  }

  function ReleaseOperand(a: Alloc, o: Operand, reg: Reg): Alloc {
    match o
    case Val(v) => Release(a, v)
    case Lit(_) => a.(scratch := [reg] + a.scratch)
  }

  function PinOperand(a: Alloc, o: Operand): Alloc { if o.Val? then Pin(a, o.name) else a }

  function UnpinOperand(a: Alloc, o: Operand): Alloc { if o.Val? then Unpin(a, o.name) else a }

  /** Both operands in registers at once; the first is pinned while the second is found. */
  function LoadPair(a: Alloc, x: Operand, y: Operand): Outcome<(Alloc, Reg, Reg)> {
    var (b, r1) :- OperandReg(a, x);
    var (c, r2) :- OperandReg(PinOperand(b, x), y);
    Ok((c, r1, r2))
  }

  function ReleasePair(a: Alloc, x: Operand, y: Operand, r1: Reg, r2: Reg): Alloc {
    ReleaseOperand(ReleaseOperand(UnpinOperand(a, x), x, r1), y, r2)
  }

  // ----- statements -----

  function ThreadOpcode(t: ThreadValue): Opcode {
    match t
    case GlobalTid => TID
    case ThreadIdx => TIDX
    case BlockIdx => BID
    case BlockDim => BDIM
    case GridDim => GDIM
  }

  function CompareOpcode(op: Arith): Option<Opcode> {
    match op
    case Lt => Some(SLT) case Le => Some(SLE) case Gt => Some(SGT)
    case Ge => Some(SGE) case Eq => Some(SEQ) case Ne => Some(SNE)
    case _ => None
  }

  function FloatOpcode(op: Arith): Option<Opcode> {
    match op
    case Add => Some(FADD) case Sub => Some(FSUB) case Mul => Some(FMUL) case Div => Some(FDIV)
    case _ => None
  }

  function IntegerOpcode(op: Arith): Option<Opcode> {
    match op
    case Add => Some(ADD) case Sub => Some(SUB) case Mul => Some(MUL) case Div => Some(DIV) case Mod => Some(MOD)
    case And => Some(AND) case Or => Some(OR) case Xor => Some(XOR) case Shl => Some(SHL) case Shr => Some(SHR)
    case _ => None
  }

  /** The opcode that computes an IR operation in a format; None when there is none. */
  function ValueOpcode(op: Arith, fmt: Option<Format>): Option<Opcode> {
    if CompareOpcode(op).Some? then CompareOpcode(op)
    else if IsFloat(FormatOr(fmt, I32)) then FloatOpcode(op)
    else IntegerOpcode(op)
  }

  function UnaryLine(u: UnaryOp, fmt: Option<Format>, rd: Reg, rs: Reg): Line {
    match u
    case LoadGlobal => Load(LDG, fmt, rd, rs, 0)
    case LoadShared => Load(LDS, fmt, rd, rs, 0)
    case BitNot => Move(NOT, rd, rs)
    case Copy => Move(MOV, rd, rs)
    case FloatToInt => Convert(FTOI, Some(FormatOr(fmt, FP32)), rd, rs)
    case IntToFloat => Convert(ITOF, Some(FormatOr(fmt, I32)), rd, rs)
  }

  /** The code that computes a right-hand side into rd. */
  function LowerRhs(a: Alloc, dst: string, rd: Reg, rhs: Rhs): Outcome<Alloc> {
    match rhs
    case Arg(p) =>
      var b := SpillStore(Emit(Back(a, dst), [LoadConst(rd, Symbol(ArgSymbol(p)))]), dst, rd);
      var c := DropReg(b, dst);
      Ok(c.(depths := c.depths - {dst}, free := [rd] + c.free))
    case Shared(s) => Ok(Emit(a, [LoadConst(rd, Symbol(SharedSymbol(s)))]))
    case Const(n) => Ok(Emit(a, LiteralCode(rd, n)))
    case Thread(t) => Ok(Emit(a, [ReadThread(ThreadOpcode(t), rd)]))
    case Unary(u, fmt, x) =>
      var (b, rs) :- OperandReg(a, x);
      Ok(ReleaseOperand(Emit(b, [UnaryLine(u, fmt, rd, rs)]), x, rs))
    case Binary(op, fmt, x, y) =>
      var opcode := ValueOpcode(op, fmt);
      if opcode.None? then Raise else
      var (b, r1, r2) :- LoadPair(a, x, y);
      Ok(ReleasePair(Emit(b, [Alu(opcode.value, fmt, rd, r1, r2)]), x, y, r1, r2))
    case Unknown => Raise
  }

  /** What runs after every assignment: memory-backed values go back to their slot. */
  function Finish(a: Alloc, dst: string): Alloc {
    var b :=
      if dst in a.backed && dst in a.regs then
        var reg := a.regs[dst];
        var c := SpillStore(DropReg(a, dst), dst, reg);
        c.(depths := c.depths - {dst}, free := [reg] + c.free)
      else a;
    Unpin(b, dst)
  }

  function LowerAssign(a: Alloc, dst: string, rhs: Rhs): Outcome<Alloc> {
    var (b, rd) :- Define(a, dst);
    var c :- LowerRhs(Pin(b, dst), dst, rd, rhs);
    Ok(Finish(c, dst))
  }

  function LowerStore(a: Alloc, space: Space, fmt: Option<Format>, addr: Operand, value: Operand): Outcome<Alloc> {
    var (b, r1, r2) :- LoadPair(a, addr, value);
    var line := Store(if space.Global? then STG else STS, fmt, r1, 0, r2);
    Ok(ReleasePair(Emit(b, [line]), addr, value, r1, r2))
  }

  /** The lines of a statement that tests one register. */
  function TestLines(stmt: Stmt, rs: Reg): seq<Line> {
    match stmt
    case PredBegin(_) => [Plain(PUSHM), Predicate(PRED, rs)]
    case GotoZero(_, l) => [Branch(BZ, rs, l)]
    case GotoNonzero(_, l) => [Branch(BNZ, rs, l)]
    case _ => []
  }

  function LowerTest(a: Alloc, cond: Operand, stmt: Stmt): Outcome<Alloc> {
    var (b, rs) :- OperandReg(a, cond);
    Ok(ReleaseOperand(Emit(b, TestLines(stmt, rs)), cond, rs))
  }

  function Lower(a: Alloc, stmt: Stmt): Outcome<Alloc> {
    match stmt
    case Assign(dst, rhs) => LowerAssign(a, dst, rhs)
    case StoreTo(space, fmt, addr, value) => LowerStore(a, space, fmt, addr, value)
    case PredBegin(c) =>
      var b :- LowerTest(a, c, stmt);
      Ok(EnterPredicate(b))
    case PredEnd => Ok(Emit(ExitPredicate(a), [Plain(POPM)]))
    case Barrier => Ok(Emit(a, [Plain(BAR)]))
    case Return => Ok(Emit(a, [Plain(EXIT)]))
    case Mark(l) => Ok(Emit(a, [LabelDef(l)]))
    case Goto(l) => Ok(Emit(a, [Jump(BRA, l)]))
    case GotoZero(c, l) => LowerTest(a, c, stmt)
    case GotoNonzero(c, l) => LowerTest(a, c, stmt)
  }

  // ----- sections -----

  function AddUse(uses: map<string, int>, o: Operand): map<string, int> {
    match o
    case Lit(_) => uses
    case Val(v) => uses[v := (if v in uses then uses[v] else 0) + 1]
  }

  function AddUses(uses: map<string, int>, ops: seq<Operand>): map<string, int> {
    if ops == [] then uses else AddUse(AddUses(uses, ops[..|ops| - 1]), ops[|ops| - 1])
  }

  /** The textual use counts of a section. */
  function CountUses(stmts: seq<Stmt>): map<string, int> {
    if stmts == [] then map[]
    else AddUses(CountUses(stmts[..|stmts| - 1]), Operands(stmts[|stmts| - 1]))
  }

  function LowerAll(a: Alloc, stmts: seq<Stmt>): Outcome<Alloc>
    decreases |stmts|
  {
    if stmts == [] then Ok(a) else
    var b :- Lower(a, stmts[0]);
    LowerAll(b, stmts[1..])
  }

  lemma {:induction false} LowerAllAppend(a: Alloc, stmts: seq<Stmt>, more: seq<Stmt>)
    ensures LowerAll(a, stmts + more)
            == match LowerAll(a, stmts) case Raise => Raise case Ok(b) => LowerAll(b, more)
    decreases |stmts|
  {
    hide Lower;
    if stmts == [] {
      assert stmts + more == more;
    } else {
      assert (stmts + more)[1..] == stmts[1..] + more;
      if Lower(a, stmts[0]).Ok? { LowerAllAppend(Lower(a, stmts[0]).value, stmts[1..], more); }
    }
  }
}
