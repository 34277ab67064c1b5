/** The code the back end emits, as the assembler sees it. */
module CompiledText {
  import opened Words
  import opened Isa
  import opened MiniIr
  import opened Allocation
  import opened RegisterFile
  import opened EmittedCode
  import opened Compiler
  import opened Encoding
  import opened Assembler
  import opened AcceptedText
  import opened SectionLowering
  import CoreExecution

  /** A line the assembler has a word for, given its labels and symbols; only the address of a spill
      slot may be out of an immediate's range. */
  predicate Plausible(line: Line, slots: nat) {
    (line.LabelDef? || (Shaped(line) && RegistersFit(line))) && !line.CallKernel?
    && (ImmediatesFit(line) || exists s: nat :: s < slots && line == SlotLine(s))
  }

  ghost predicate AllPlausible(code: seq<Line>, slots: nat) {
    forall line :: line in code ==> Plausible(line, slots)
  }

  /** Only plausible code is added. */
  ghost predicate Adds(a: Alloc, b: Alloc) {
    a.asm <= b.asm && a.nextSlot <= b.nextSlot && AllPlausible(b.asm[|a.asm|..], b.nextSlot)
  }

  lemma AddsTransitive(a: Alloc, b: Alloc, c: Alloc)
    requires Adds(a, b) && Adds(b, c)
    ensures Adds(a, c)
  {
    hide Plausible;
    assert c.asm[|a.asm|..] == b.asm[|a.asm|..] + c.asm[|b.asm|..];
    forall line | line in b.asm[|a.asm|..] ensures Plausible(line, c.nextSlot) {
      PlausibleMore(line, b.nextSlot, c.nextSlot);
    }
  }

  lemma PlausibleMore(line: Line, slots: nat, more: nat)
    requires Plausible(line, slots) && slots <= more
    ensures Plausible(line, more)
  {
  }

  lemma EmitAdds(a: Alloc, b: Alloc, lines: seq<Line>)
    requires b.asm == a.asm + lines && a.nextSlot <= b.nextSlot && AllPlausible(lines, b.nextSlot)
    ensures Adds(a, b)
  {
    assert b.asm[|a.asm|..] == lines;
  }

  lemma SpillCodePlausible(slot: nat, slots: nat)
    requires slot < slots
    ensures AllPlausible(SpillAddrCode(slot), slots)
  {
    assert slot != 0 ==> SpillAddrCode(slot)[2] == SlotLine(slot);
  }

  lemma {:induction false} BytesPlausible(reg: Reg, w: Word, k: nat, slots: nat)
    requires reg < 14
    ensures AllPlausible(BytesCode(reg, w, k), slots)
  {
    if k > 0 {
      BytesPlausible(reg, w, k - 1, slots);
      assert ByteOf(w, k - 1) < 0x100;
    }
  }

  lemma LiteralPlausible(reg: Reg, n: int, slots: nat)
    requires reg < 14
    ensures AllPlausible(LiteralCode(reg, n), slots)
  {
    hide BytesCode;
    BytesPlausible(reg, Wrap(n), 3, slots);
    assert ByteOf(Wrap(n), 3) < 0x100;
  }

  lemma SpillStoreAdds(a: Alloc, v: string, reg: Reg)
    requires reg < 14 && (v in a.spilled ==> a.spilled[v] < a.nextSlot)
    ensures Adds(a, SpillStore(a, v, reg))
  {
    var (b, slot) := SpillSlot(a, v);
    SpillCodePlausible(slot, b.nextSlot);
    hide SpillAddrCode;
    EmitAdds(a, SpillStore(a, v, reg), SpillAddrCode(slot) + [Store(STS, None, SPILL_ADDR_REG, 0, reg)]);
  }

  lemma SpillLoadAdds(a: Alloc, reg: Reg, v: string)
    requires reg < 14 && (v in a.spilled ==> a.spilled[v] < a.nextSlot)
    ensures Adds(a, SpillLoad(a, reg, v))
  {
    var (b, slot) := SpillSlot(a, v);
    SpillCodePlausible(slot, b.nextSlot);
    hide SpillAddrCode;
    EmitAdds(a, SpillLoad(a, reg, v), SpillAddrCode(slot) + [Load(LDS, None, reg, SPILL_ADDR_REG, 0)]);
  }

  lemma SpareAdds(a: Alloc)
    requires WellFormed(a)
    ensures Adds(a, Spare(a))
  {
    hide WellFormed, SpillStore, Without, Adds;
    var victim := Victim(a, a.order);
    SameAdds(a, a);
    if a.free == [] && victim.Some? && victim.value in a.regs {
      var v := victim.value;
      Apart(a, v, v);
      SpillStoreAdds(DropReg(a, v), v, a.regs[v]);
      AddsAlike(DropReg(a, v), SpillStore(DropReg(a, v), v, a.regs[v]), a, Spare(a));
    }
  }

  lemma SameAdds(a: Alloc, b: Alloc)
    requires b.asm == a.asm && b.nextSlot == a.nextSlot
    ensures Adds(a, b)
  {
  }

  lemma AddsAlike(a: Alloc, b: Alloc, c: Alloc, d: Alloc)
    requires Adds(a, b) && c.asm == a.asm && c.nextSlot == a.nextSlot && d.asm == b.asm && d.nextSlot == b.nextSlot
    ensures Adds(c, d)
  {
  }

  /** A resident value's register is one of the thirteen. */
  lemma ResidentBelow(a: Alloc, v: string)
    requires WellFormed(a) && v in a.regs
    ensures a.regs[v] < 13
  {
  }

  lemma DefineAdds(a: Alloc, v: string)
    requires WellFormed(a) && Define(a, v).Ok?
    ensures Adds(a, Define(a, v).value.0) && Define(a, v).value.1 < 13
  {
    hide WellFormed, Spare, Without, Adds, IsSlot;
    DefineKeeps(a, v);
    ResidentBelow(Define(a, v).value.0, v);
    var b := if IsSlot(v) then Back(a, v) else a;
    var c := if v in b.backed then b else b.(spilled := b.spilled - {v});
    SameFile(a, b);
    ForgetSlotKeeps(b, v);
    SpareAdds(c);
    if v in a.regs {
      SameAdds(a, Define(a, v).value.0);
    } else {
      AddsAlike(c, Spare(c), a, Define(a, v).value.0);
    }
  }

  lemma OperandAdds(a: Alloc, o: Operand)
    requires WellFormed(a) && OperandReg(a, o).Ok? && a.scratch <= [SCRATCH_REG]
    ensures Adds(a, OperandReg(a, o).value.0) && OperandReg(a, o).value.1 < 14
  {
    hide WellFormed, Spare, Without, SpillLoad, LiteralCode, Adds, Plausible;
    OperandKeeps(a, o);
    var b := OperandReg(a, o).value.0;
    match o
    case Lit(n) =>
      assert a.scratch[0] == SCRATCH_REG;
      LiteralPlausible(a.scratch[0], n, a.nextSlot);
      EmitAdds(a, b, LiteralCode(a.scratch[0], n));
    case Val(v) =>
      ResidentBelow(b, v);
      if v in a.regs {
        SameAdds(a, b);
      } else {
        LoadAdds(a, v);
      }
  }

  lemma LoadAdds(a: Alloc, v: string)
    requires WellFormed(a) && v !in a.regs && Use(a, v).Ok? && Use(a, v).value.1 < 13
    ensures Adds(a, Use(a, v).value.0)
  {
    hide WellFormed, Spare, Without, SpillLoad, Adds;
    var b := Spare(a);
    var c := b.(free := b.free[1..]);
    SpareAdds(a);
    SpareKeeps(a);
    Apart(b, v, v);
    SpillLoadAdds(c, b.free[0], v);
    AddsAlike(c, SpillLoad(c, b.free[0], v), b, Use(a, v).value.0);
    AddsTransitive(a, b, Use(a, v).value.0);
  }

  lemma OneAdds(a: Alloc, x: Operand, lines: seq<Line>)
    requires WellFormed(a) && OperandReg(a, x).Ok? && a.scratch <= [SCRATCH_REG]
    requires AllPlausible(lines, 0)
    ensures var (b, r) := OperandReg(a, x).value; Adds(a, ReleaseOperand(Emit(b, lines), x, r))
  {
    hide WellFormed, OperandReg, ReleaseOperand, Adds, AllPlausible;
    var (b, r) := OperandReg(a, x).value;
    OperandAdds(a, x);
    ReleaseAppends(Emit(b, lines), x, r);
    EmitMore(b, ReleaseOperand(Emit(b, lines), x, r), lines);
    AddsTransitive(a, b, ReleaseOperand(Emit(b, lines), x, r));
  }

  lemma EmitMore(a: Alloc, b: Alloc, lines: seq<Line>)
    requires b.asm == a.asm + lines && a.nextSlot == b.nextSlot && AllPlausible(lines, 0)
    ensures Adds(a, b)
  {
    forall line | line in lines ensures Plausible(line, b.nextSlot) { PlausibleMore(line, 0, b.nextSlot); }
    EmitAdds(a, b, lines);
  }

  lemma PairAdds(a: Alloc, x: Operand, y: Operand, lines: seq<Line>)
    requires WellFormed(a) && LoadPair(a, x, y).Ok? && a.scratch <= [SCRATCH_REG]
    requires AllPlausible(lines, 0)
    ensures var (c, r1, r2) := LoadPair(a, x, y).value; Adds(a, ReleasePair(Emit(c, lines), x, y, r1, r2))
  {
    hide WellFormed, OperandReg, ReleaseOperand, Adds, AllPlausible;
    var b := OperandReg(a, x).value.0;
    var (c, r1, r2) := LoadPair(a, x, y).value;
    OperandKeeps(a, x);
    OperandAdds(a, x);
    SameFile(b, PinOperand(b, x));
    OperandAdds(PinOperand(b, x), y);
    AddsAlike(PinOperand(b, x), c, b, c);
    AddsTransitive(a, b, c);
    var d := UnpinOperand(Emit(c, lines), x);
    ReleaseAppends(d, x, r1);
    ReleaseAppends(ReleaseOperand(d, x, r1), y, r2);
    EmitMore(c, ReleasePair(Emit(c, lines), x, y, r1, r2), lines);
    AddsTransitive(a, c, ReleasePair(Emit(c, lines), x, y, r1, r2));
  }

  lemma PairSmall(a: Alloc, x: Operand, y: Operand)
    requires WellFormed(a) && LoadPair(a, x, y).Ok? && a.scratch <= [SCRATCH_REG]
    ensures LoadPair(a, x, y).value.1 < 14 && LoadPair(a, x, y).value.2 < 14
  {
    hide WellFormed, OperandReg;
    var b := OperandReg(a, x).value.0;
    OperandKeeps(a, x);
    OperandAdds(a, x);
    SameFile(b, PinOperand(b, x));
    OperandAdds(PinOperand(b, x), y);
  }

  lemma OpcodeShaped(op: Arith, fmt: Option<Format>, rd: Reg, r1: Reg, r2: Reg)
    requires ValueOpcode(op, fmt).Some?
    ensures Shaped(Alu(ValueOpcode(op, fmt).value, fmt, rd, r1, r2))
  {
  }

  lemma UnaryShaped(u: UnaryOp, fmt: Option<Format>, rd: Reg, rs: Reg)
    requires rd < 14 && rs < 14
    ensures AllPlausible([UnaryLine(u, fmt, rd, rs)], 0)
  {
  }

  lemma RhsAdds(a: Alloc, dst: string, rd: Reg, rhs: Rhs)
    requires WellFormed(a) && a.scratch <= [SCRATCH_REG] && rd < 14 && LowerRhs(a, dst, rd, rhs).Ok?
    ensures Adds(a, LowerRhs(a, dst, rd, rhs).value)
  {
    hide WellFormed, OperandReg, LoadPair, ReleaseOperand, ReleasePair, SpillStore, Without, LiteralCode, Adds;
    hide ArgSymbol, SharedSymbol, ValueOpcode, UnaryLine, AllPlausible;
    var b := LowerRhs(a, dst, rd, rhs).value;
    match rhs
    case Const(n) =>
      LiteralPlausible(rd, n, a.nextSlot);
      EmitAdds(a, b, LiteralCode(rd, n));
    case Shared(s) => LoadsPlausible(a, b, LoadConst(rd, Symbol(SharedSymbol(s))));
    case Thread(t) => LoadsPlausible(a, b, ReadThread(ThreadOpcode(t), rd));
    case Arg(p) => ArgAdds(a, dst, rd, rhs);
    case Unary(u, fmt, x) =>
      OperandAdds(a, x);
      UnaryShaped(u, fmt, rd, OperandReg(a, x).value.1);
      OneAdds(a, x, [UnaryLine(u, fmt, rd, OperandReg(a, x).value.1)]);
    case Binary(op, fmt, x, y) =>
      var (_, r1, r2) := LoadPair(a, x, y).value;
      PairSmall(a, x, y);
      OpcodeShaped(op, fmt, rd, r1, r2);
      OnePlausible(Alu(ValueOpcode(op, fmt).value, fmt, rd, r1, r2));
      PairAdds(a, x, y, [Alu(ValueOpcode(op, fmt).value, fmt, rd, r1, r2)]);
    case Unknown =>
  }

  lemma OnePlausible(line: Line)
    requires Shaped(line) && RegistersFit(line) && ImmediatesFit(line) && !line.CallKernel?
    ensures AllPlausible([line], 0)
  {
  }

  lemma LoadsPlausible(a: Alloc, b: Alloc, line: Line)
    requires line.LoadConst? || line.ReadThread?
    requires line.rd < 14 && if line.LoadConst? then line.constant.Symbol? else Shaped(line)
    requires b == Emit(a, [line])
    ensures Adds(a, b)
  {
    OnePlausible(line);
    EmitMore(a, b, [line]);
  }

  lemma ArgAdds(a: Alloc, dst: string, rd: Reg, rhs: Rhs)
    requires WellFormed(a) && rd < 14 && rhs.Arg?
    ensures Adds(a, LowerRhs(a, dst, rd, rhs).value)
  {
    hide WellFormed, SpillStore, Without, Adds, ArgSymbol;
    var b := Emit(Back(a, dst), [LoadConst(rd, Symbol(ArgSymbol(rhs.param)))]);
    var c := LowerRhs(a, dst, rd, rhs).value;
    LoadsPlausible(Back(a, dst), b, LoadConst(rd, Symbol(ArgSymbol(rhs.param))));
    AddsAlike(Back(a, dst), b, a, b);
    Apart(a, dst, dst);
    SpillStoreAdds(b, dst, rd);
    AddsAlike(b, SpillStore(b, dst, rd), b, c);
    AddsTransitive(a, b, c);
  }

  lemma AssignAdds(a: Alloc, dst: string, rhs: Rhs)
    requires Orderly(a, {}) && LowerAssign(a, dst, rhs).Ok?
    ensures Adds(a, LowerAssign(a, dst, rhs).value)
  {
    hide WellFormed, Define, LowerRhs, Without, Adds, Finish;
    var (b, rd) := Define(a, dst).value;
    var p := Pin(b, dst);
    var c := LowerRhs(p, dst, rd, rhs).value;
    DefineAdds(a, dst);
    DefineOrderly(a, dst);
    DefineFields(a, dst);
    RhsAdds(p, dst, rd, rhs);
    AddsAlike(p, c, b, c);
    AddsTransitive(a, b, c);
    if rhs.Arg? {
      ArgGone(p, dst, rd, rhs);
    } else {
      RhsOrderly(p, dst, rd, rhs);
    }
    FinishAdds(c, dst);
    AddsTransitive(a, c, Finish(c, dst));
  }

  lemma ArgGone(a: Alloc, dst: string, rd: Reg, rhs: Rhs)
    requires rhs.Arg?
    ensures dst !in LowerRhs(a, dst, rd, rhs).value.regs
  {
    hide Without, SpillAddrCode;
  }

  lemma FinishAdds(a: Alloc, dst: string)
    requires dst in a.regs ==> WellFormed(a)
    ensures Adds(a, Finish(a, dst))
  {
    hide WellFormed, SpillStore, Without, Adds;
    if dst in a.backed && dst in a.regs {
      Apart(a, dst, dst);
      SpillStoreAdds(DropReg(a, dst), dst, a.regs[dst]);
      AddsAlike(DropReg(a, dst), SpillStore(DropReg(a, dst), dst, a.regs[dst]), a, Finish(a, dst));
    } else {
      SameAdds(a, Finish(a, dst));
    }
  }

  lemma TestAdds(a: Alloc, stmt: Stmt, x: Operand)
    requires Orderly(a, {}) && LowerTest(a, x, stmt).Ok?
    ensures Adds(a, LowerTest(a, x, stmt).value)
  {
    hide WellFormed, OperandReg, ReleaseOperand, Adds;
    OperandAdds(a, x);
    var r := OperandReg(a, x).value.1;
    assert AllPlausible(TestLines(stmt, r), 0);
    OneAdds(a, x, TestLines(stmt, r));
  }

  /** Everything a statement adds is plausible. */
  lemma LowerAdds(a: Alloc, stmt: Stmt)
    requires Orderly(a, {}) && Lower(a, stmt).Ok?
    ensures Adds(a, Lower(a, stmt).value)
  {
    hide WellFormed, LoadPair, ReleasePair, LowerAssign, LowerTest, Adds, AllPlausible;
    var b := Lower(a, stmt).value;
    match stmt
    case Assign(dst, rhs) => AssignAdds(a, dst, rhs);
    case StoreTo(space, fmt, x, y) =>
      var (_, r1, r2) := LoadPair(a, x, y).value;
      PairSmall(a, x, y);
      OnePlausible(Store(if space.Global? then STG else STS, fmt, r1, 0, r2));
      PairAdds(a, x, y, [Store(if space.Global? then STG else STS, fmt, r1, 0, r2)]);
    case PredBegin(x) =>
      TestAdds(a, stmt, x);
      AddsAlike(a, LowerTest(a, x, stmt).value, a, b);
    case GotoZero(x, _) => TestAdds(a, stmt, x);
    case GotoNonzero(x, _) => TestAdds(a, stmt, x);
    case _ => PlainAdds(a, stmt);
  }

  lemma PlainAdds(a: Alloc, stmt: Stmt)
    requires stmt.PredEnd? || stmt.Barrier? || stmt.Return? || stmt.Mark? || stmt.Goto?
    ensures Adds(a, Lower(a, stmt).value)
  {
    var b := Lower(a, stmt).value;
    assert b.asm[|a.asm|..] == [b.asm[|a.asm|]];
  }

  lemma {:induction false} LowerAllAdds(a: Alloc, stmts: seq<Stmt>)
    requires Orderly(a, {}) && LowerAll(a, stmts).Ok?
    ensures Adds(a, LowerAll(a, stmts).value)
    decreases |stmts|
  {
    hide WellFormed, Lower, Adds, Orderly;
    if stmts == [] {
      SameAdds(a, a);
    } else {
      LowerAdds(a, stmts[0]);
      LowerOrderly(a, stmts[0]);
      LowerAllAdds(Lower(a, stmts[0]).value, stmts[1..]);
      AddsTransitive(a, Lower(a, stmts[0]).value, LowerAll(a, stmts).value);
    }
  }

  // ----- programs -----

  datatype Kernel = Kernel(name: string, section: seq<Stmt>)

  predicate Lowers(k: Kernel) {
    LowerAll(Fresh(CountUses(k.section)), k.section).Ok?
  }

  function Lowered(k: Kernel): Alloc
    requires Lowers(k)
  {
    LowerAll(Fresh(CountUses(k.section)), k.section).value
  }

  /** The kernels' code one after another, each under its directive. */
  function ProgramText(kernels: seq<Kernel>): seq<Line>
    requires forall k :: k in kernels ==> Lowers(k)
  {
    if kernels == [] then []
    else [KernelDir(kernels[0].name)] + Lowered(kernels[0]).asm + ProgramText(kernels[1..])
  }

  lemma {:induction false} LineOfKernel(kernels: seq<Kernel>, line: Line)
    requires (forall k :: k in kernels ==> Lowers(k)) && line in ProgramText(kernels)
    ensures line.KernelDir? || exists k :: k in kernels && line in Lowered(k).asm
    decreases |kernels|
  {
    hide Lowers, Lowered;
    var k := kernels[0];
    if line != KernelDir(k.name) && line !in Lowered(k).asm {
      LineOfKernel(kernels[1..], line);
    }
  }

  lemma {:induction false} KernelInText(kernels: seq<Kernel>, k: Kernel, line: Line)
    requires (forall k :: k in kernels ==> Lowers(k)) && k in kernels && line in Lowered(k).asm
    ensures line in ProgramText(kernels)
    decreases |kernels|
  {
    hide Lowers, Lowered;
    if k != kernels[0] { KernelInText(kernels[1..], k, line); }
  }

  lemma CodePlausible(k: Kernel)
    requires Lowers(k)
    ensures AllPlausible(Lowered(k).asm, Lowered(k).nextSlot)
  {
    hide LowerAll, AllPlausible;
    StartsCounted(k.section);
    LowerAllAdds(Fresh(CountUses(k.section)), k.section);
    assert Lowered(k).asm[0..] == Lowered(k).asm;
  }

  lemma PlausibleFits(line: Line, slots: nat)
    requires Plausible(line, slots) && slots <= 2048 && IsInstruction(line)
    ensures Shaped(line) && RegistersFit(line) && ImmediatesFit(line)
  {
  }

  /** Code is taken by the assembler line by line exactly when it spills to 2048 slots at most. */
  lemma SlotsDecide(k: Kernel)
    requires Lowers(k)
    ensures Lowered(k).nextSlot <= 2048 <==>
              forall line :: line in Lowered(k).asm && IsInstruction(line) ==>
                Shaped(line) && RegistersFit(line) && ImmediatesFit(line)
  {
    hide LowerAll, Plausible, Shaped, RegistersFit;
    CodePlausible(k);
    if Lowered(k).nextSlot <= 2048 {
      forall line | line in Lowered(k).asm && IsInstruction(line)
        ensures Shaped(line) && RegistersFit(line) && ImmediatesFit(line)
      {
        PlausibleFits(line, Lowered(k).nextSlot);
      }
    } else if forall line :: line in Lowered(k).asm && IsInstruction(line) ==> ImmediatesFit(line) {
      EncodableSlots(CountUses(k.section), k.section);
    }
  }

  /** A program of lowered kernels is accepted exactly when each kernel spills to 2048 slots at most,
      its branches lead to labels near enough, and its symbols are few enough to be numbered. */
  lemma ProgramAssembles(kernels: seq<Kernel>)
    requires forall k :: k in kernels ==> Lowers(k)
    ensures var text := ProgramText(kernels);
      Assemble(text).Ok? <==>
        && (forall k :: k in kernels ==> Lowered(k).nextSlot <= 2048)
        && (forall i :: 0 <= i < |text| && IsInstruction(text[i]) ==> Reaches(text, i) && Roomy(text, i))
  {
    hide Lowers, Lowered, ProgramText, Assemble, Shaped, RegistersFit, ImmediatesFit, Reaches, Roomy, IsInstruction;
    var text := ProgramText(kernels);
    AssemblesExactly(text);
    LinesFit(kernels);
    if forall line :: line in text && IsInstruction(line) ==>
         Shaped(line) && RegistersFit(line) && ImmediatesFit(line)
    {
      forall i | 0 <= i < |text| && IsInstruction(text[i])
        ensures Shaped(text[i]) && RegistersFit(text[i]) && ImmediatesFit(text[i])
      {
        assert text[i] in text;
      }
    }
  }

  lemma LinesFit(kernels: seq<Kernel>)
    requires forall k :: k in kernels ==> Lowers(k)
    ensures (forall k :: k in kernels ==> Lowered(k).nextSlot <= 2048) <==>
              forall line :: line in ProgramText(kernels) && IsInstruction(line) ==>
                Shaped(line) && RegistersFit(line) && ImmediatesFit(line)
  {
    hide Lowers, Lowered, ProgramText, Shaped, RegistersFit, ImmediatesFit;
    forall k | k in kernels
      ensures Lowered(k).nextSlot <= 2048 <==>
              forall line :: line in Lowered(k).asm && IsInstruction(line) ==>
                Shaped(line) && RegistersFit(line) && ImmediatesFit(line)
    {
      SlotsDecide(k);
    }
    forall k, line | k in kernels && line in Lowered(k).asm ensures line in ProgramText(kernels) {
      KernelInText(kernels, k, line);
    }
    forall line | line in ProgramText(kernels) && IsInstruction(line)
      ensures exists k :: k in kernels && line in Lowered(k).asm
    {
      LineOfKernel(kernels, line);
    }
  }

  /** A kernel whose section can be lowered and has no branches. */
  predicate Simple(k: Kernel) {
    FitsRegisters(START, k.section) && Branchless(k.section)
  }

  lemma SimpleLowers(k: Kernel)
    requires Simple(k)
    ensures Lowers(k)
  {
    hide FitsRegisters, LowerAll;
    SectionLowers(k.section);
  }

  lemma SimpleStraight(k: Kernel, line: Line)
    requires Simple(k) && Lowers(k) && line in Lowered(k).asm
    ensures CoreExecution.Straightforward(line)
  {
    hide FitsRegisters, LowerAll;
    var a := Fresh(CountUses(k.section));
    CoreExecution.SectionStraight(a, k.section);
    assert Lowered(k).asm[|a.asm|..] == Lowered(k).asm;
  }

  lemma NothingToReach(kernels: seq<Kernel>, i: nat)
    requires (forall k :: k in kernels ==> Simple(k) && Lowers(k)) && i < |ProgramText(kernels)|
    ensures Reaches(ProgramText(kernels), i)
  {
    hide Lowers, Lowered, Simple, ProgramText;
    var line := ProgramText(kernels)[i];
    assert line in ProgramText(kernels);
    LineOfKernel(kernels, line);
    if !line.KernelDir? {
      var k :| k in kernels && line in Lowered(k).asm;
      SimpleStraight(k, line);
    }
  }

  /** From IR to words without a premise on any intermediate result: kernels whose statements fit the
      registers and have no branches are lowered, and their text is accepted exactly when no kernel
      spills to more than 2048 slots or loads more symbols than there are numbers for. */
  lemma SimpleProgramAssembles(kernels: seq<Kernel>)
    requires forall k :: k in kernels ==> Simple(k)
    ensures forall k :: k in kernels ==> Lowers(k)
    ensures var text := ProgramText(kernels);
      Assemble(text).Ok? <==>
        && (forall k :: k in kernels ==> Lowered(k).nextSlot <= 2048)
        && (forall i :: 0 <= i < |text| && IsInstruction(text[i]) ==> Roomy(text, i))
  {
    hide Lowers, Lowered, Simple, ProgramText, Assemble, Reaches, Roomy, IsInstruction;
    forall k | k in kernels ensures Lowers(k) { SimpleLowers(k); }
    ProgramAssembles(kernels);
    forall i | 0 <= i < |ProgramText(kernels)| ensures Reaches(ProgramText(kernels), i) { NothingToReach(kernels, i); }
  }
}
