/** The allocator only appends code, and apart from the mask statements none of it moves a mask. */
module EmittedCode {
  import opened Words
  import opened Isa
  import opened MiniIr
  import opened Allocation

  /** A label, or an instruction that only computes: it touches no mask, does not end the warp or
      start another kernel, and transfers no control. */
  predicate Ordinary(line: Line) {
    match line
    case LabelDef(_) => true
    case ReadThread(op, _) => ThreadMeaning(op).Some?
    case MoveImm(_, _) => true
    case LoadConst(_, c) => c.Symbol? && (IsArg(c.name) || IsShared(c.name))
    case Move(_, _, _) => true
    case Alu(_, _, _, _, _) => true
    case AluImm(op, _, _, _) => op == ADDI || op == SHLI || op == ORI
    case Convert(_, _, _, _) => true
    case Load(_, _, _, _, _) => true
    case Store(_, _, _, _, _) => true
    case _ => false
  }

  predicate MaskFree(code: seq<Line>) {
    forall line :: line in code ==> Ordinary(line)
  }

  /** The line that adds a slot's byte offset to its address. */
  function SlotLine(slot: nat): Line {
    AluImm(ADDI, SPILL_ADDR_REG, SPILL_ADDR_REG, slot * 4)
  }

  /** Code is only added, none of it mask code, and it addresses every new slot. */
  ghost predicate Appends(a: Alloc, b: Alloc) {
    && a.asm <= b.asm && MaskFree(b.asm[|a.asm|..])
    && a.nextSlot <= b.nextSlot
    && forall s :: a.nextSlot <= s < b.nextSlot && s > 0 ==> SlotLine(s) in b.asm
  }

  lemma AppendsTransitive(a: Alloc, b: Alloc, c: Alloc)
    requires Appends(a, b) && Appends(b, c)
    ensures Appends(a, c)
  {
    assert c.asm[|a.asm|..] == b.asm[|a.asm|..] + c.asm[|b.asm|..];
  }

  lemma SpillCodeMaskFree(slot: nat)
    ensures MaskFree(SpillAddrCode(slot))
  {
  }

  lemma {:induction false} BytesMaskFree(reg: Reg, w: Word, k: nat)
    ensures MaskFree(BytesCode(reg, w, k))
  {
    if k > 0 { BytesMaskFree(reg, w, k - 1); }
  }

  lemma LiteralMaskFree(reg: Reg, n: int)
    ensures MaskFree(LiteralCode(reg, n))
  {
    hide BytesCode, ByteOf;
    BytesMaskFree(reg, Wrap(n), 3);
  }

  lemma SpillStoreAppends(a: Alloc, v: string, reg: Reg)
    ensures Appends(a, SpillStore(a, v, reg))
  {
    SpillCodeMaskFree(SpillSlot(a, v).1);
  }

  lemma SpillLoadAppends(a: Alloc, reg: Reg, v: string)
    ensures Appends(a, SpillLoad(a, reg, v))
  {
    SpillCodeMaskFree(SpillSlot(a, v).1);
  }

  lemma SpareAppends(a: Alloc)
    ensures Appends(a, Spare(a))
  {
    hide SpillStore, Without;
    var victim := Victim(a, a.order);
    if a.free == [] && victim.Some? && victim.value in a.regs {
      SpillStoreAppends(DropReg(a, victim.value), victim.value, a.regs[victim.value]);
    }
  }

  lemma DefineAppends(a: Alloc, v: string)
    requires Define(a, v).Ok?
    ensures Appends(a, Define(a, v).value.0)
  {
    hide Spare, Without;
    var b := if IsSlot(v) then Back(a, v) else a;
    SpareAppends(if v in b.backed then b else b.(spilled := b.spilled - {v}));
  }

  lemma OperandAppends(a: Alloc, o: Operand)
    requires OperandReg(a, o).Ok?
    ensures Appends(a, OperandReg(a, o).value.0)
  {
    hide Spare, Without, SpillAddrCode, LiteralCode;
    if o.Lit? {
      LiteralMaskFree(a.scratch[0], o.n);
    } else if o.name !in a.regs {
      hide SpillLoad;
      var b := Spare(a);
      var c := b.(free := b.free[1..]);
      SpareAppends(a);
      SpillLoadAppends(c, b.free[0], o.name);
      AppendsTransitive(a, b, OperandReg(a, o).value.0);
    }
  }

  lemma ReleaseAppends(a: Alloc, o: Operand, r: Reg)
    ensures ReleaseOperand(a, o, r).asm == a.asm && ReleaseOperand(a, o, r).nextSlot == a.nextSlot
  {
  }

  lemma OneAppends(a: Alloc, x: Operand, lines: seq<Line>)
    requires OperandReg(a, x).Ok? && MaskFree(lines)
    ensures var (b, r) := OperandReg(a, x).value; Appends(a, ReleaseOperand(Emit(b, lines), x, r))
  {
    hide OperandReg, ReleaseOperand;
    var (b, r) := OperandReg(a, x).value;
    OperandAppends(a, x);
    AppendsTransitive(a, b, Emit(b, lines));
    ReleaseAppends(Emit(b, lines), x, r);
  }

  lemma PairAppends(a: Alloc, x: Operand, y: Operand, lines: seq<Line>)
    requires LoadPair(a, x, y).Ok? && MaskFree(lines)
    ensures var (c, r1, r2) := LoadPair(a, x, y).value;
      Appends(a, ReleasePair(Emit(c, lines), x, y, r1, r2))
  {
    hide OperandReg, ReleaseOperand;
    var b := OperandReg(a, x).value.0;
    var (c, r1, r2) := LoadPair(a, x, y).value;
    OperandAppends(a, x);
    OperandAppends(PinOperand(b, x), y);
    AppendsTransitive(a, b, c);
    AppendsTransitive(a, c, Emit(c, lines));
    var d := UnpinOperand(Emit(c, lines), x);
    ReleaseAppends(d, x, r1);
    ReleaseAppends(ReleaseOperand(d, x, r1), y, r2);
  }

  lemma SymbolsOrdinary(rd: Reg, name: string)
    ensures Ordinary(LoadConst(rd, Symbol(ArgSymbol(name)))) && Ordinary(LoadConst(rd, Symbol(SharedSymbol(name))))
  {
  }

  lemma RhsAppends(a: Alloc, dst: string, rd: Reg, rhs: Rhs)
    requires LowerRhs(a, dst, rd, rhs).Ok?
    ensures Appends(a, LowerRhs(a, dst, rd, rhs).value)
  {
    hide OperandReg, LoadPair, ReleaseOperand, ReleasePair, SpillStore, Without, LiteralCode;
    hide ArgSymbol, SharedSymbol, IsArg, IsShared;
    match rhs
    case Const(n) => LiteralMaskFree(rd, n);
    case Shared(s) => SymbolsOrdinary(rd, s);
    case Arg(p) =>
      SymbolsOrdinary(rd, p);
      var b := Emit(Back(a, dst), [LoadConst(rd, Symbol(ArgSymbol(p)))]);
      SpillStoreAppends(b, dst, rd);
      AppendsTransitive(a, b, SpillStore(b, dst, rd));
    case Unary(u, fmt, x) =>
      OneAppends(a, x, [UnaryLine(u, fmt, rd, OperandReg(a, x).value.1)]);
    case Binary(op, fmt, x, y) =>
      var (_, r1, r2) := LoadPair(a, x, y).value;
      PairAppends(a, x, y, [Alu(ValueOpcode(op, fmt).value, fmt, rd, r1, r2)]);
    case _ =>
  }

  lemma AssignAppends(a: Alloc, dst: string, rhs: Rhs)
    requires LowerAssign(a, dst, rhs).Ok?
    ensures Appends(a, LowerAssign(a, dst, rhs).value)
  {
    hide Define, LowerRhs, SpillStore, Without;
    var (b, rd) := Define(a, dst).value;
    var p := Pin(b, dst);
    var c := LowerRhs(p, dst, rd, rhs).value;
    DefineAppends(a, dst);
    RhsAppends(p, dst, rd, rhs);
    AppendsTransitive(a, b, c);
    if dst in c.backed && dst in c.regs {
      SpillStoreAppends(DropReg(c, dst), dst, c.regs[dst]);
    }
    AppendsTransitive(a, c, LowerAssign(a, dst, rhs).value);
  }

  /** Statements that are neither `pred_begin`, `pred_end`, `barrier` nor `return` emit no mask code. */
  lemma LowerAppends(a: Alloc, stmt: Stmt)
    requires Lower(a, stmt).Ok? && (stmt.Assign? || stmt.StoreTo? || stmt.Mark?)
    ensures Appends(a, Lower(a, stmt).value)
  {
    hide LowerAssign, LoadPair, ReleasePair;
    match stmt
    case Assign(dst, rhs) => AssignAppends(a, dst, rhs);
    case StoreTo(space, fmt, x, y) =>
      var (_, r1, r2) := LoadPair(a, x, y).value;
      PairAppends(a, x, y, [Store(if space.Global? then STG else STS, fmt, r1, 0, r2)]);
    case Mark(_) =>
  }

  // ----- spill slots and the immediates that address them -----

  /** Code is only added, and it addresses every new slot. */
  ghost predicate Codes(a: Alloc, b: Alloc) {
    && a.asm <= b.asm && a.nextSlot <= b.nextSlot
    && forall s :: a.nextSlot <= s < b.nextSlot && s > 0 ==> SlotLine(s) in b.asm
  }

  lemma LowerCodes(a: Alloc, stmt: Stmt)
    requires Lower(a, stmt).Ok?
    ensures Codes(a, Lower(a, stmt).value)
  {
    hide OperandReg, ReleaseOperand, LowerAssign, LowerStore;
    match stmt
    case Assign(_, _) => LowerAppends(a, stmt);
    case StoreTo(_, _, _, _) => LowerAppends(a, stmt);
    case PredBegin(x) => TestCodes(a, x, stmt);
    case GotoZero(x, _) => TestCodes(a, x, stmt);
    case GotoNonzero(x, _) => TestCodes(a, x, stmt);
    case _ =>
  }

  lemma TestCodes(a: Alloc, x: Operand, stmt: Stmt)
    requires LowerTest(a, x, stmt).Ok?
    ensures Codes(a, LowerTest(a, x, stmt).value)
  {
    hide OperandReg, ReleaseOperand;
    OperandAppends(a, x);
    var (b, r) := OperandReg(a, x).value;
    ReleaseAppends(Emit(b, TestLines(stmt, r)), x, r);
  }

  lemma {:induction false} LowerAllCodes(a: Alloc, stmts: seq<Stmt>)
    requires LowerAll(a, stmts).Ok?
    ensures Codes(a, LowerAll(a, stmts).value)
    decreases |stmts|
  {
    hide Lower;
    if stmts != [] {
      LowerCodes(a, stmts[0]);
      LowerAllCodes(Lower(a, stmts[0]).value, stmts[1..]);
    }
  }

  /** Every immediate fits the 14 bits the assembler has for it. */
  predicate Encodable(code: seq<Line>) {
    forall line :: line in code && line.AluImm? ==> Fits14(line.imm)
  }

  /** Code that assembles uses at most 2048 spill slots. */
  lemma EncodableSlots(uses: map<string, int>, stmts: seq<Stmt>)
    requires LowerAll(Fresh(uses), stmts).Ok? && Encodable(LowerAll(Fresh(uses), stmts).value.asm)
    ensures LowerAll(Fresh(uses), stmts).value.nextSlot <= 2048
  {
    hide LowerAll;
    LowerAllCodes(Fresh(uses), stmts);
    var b := LowerAll(Fresh(uses), stmts).value;
    assert b.nextSlot > 2048 ==> SlotLine(2048) in b.asm;
  }
}
