/** Lowering preserves meaning: the emitted code does to a lane what the IR section does. */
module BackEnd {
  import opened Words
  import opened Isa
  import opened MaskStack
  import opened MiniIr
  import opened Allocation
  import opened RegisterFile
  import opened LaneSimulation
  import opened Literals
  import opened EmittedCode

  // ----- operands -----

  /** An operand evaluates to w and can be read: a literal has the scratch register, an exempt
      value is in a register that holds w, and any other value is still needed. */
  ghost predicate Readable(m: Machine, start: Lane, a: Alloc, ir: IrLane, skip: set<string>, o: Operand, w: Word) {
    && Eval(o, ir.env) == Some(w)
    && (o.Val? ==>
          if o.name in skip then
            o.name in a.regs && o.name in a.pinned && a.regs[o.name] < 13
            && Lookup(At(m, start, a).regs, a.regs[o.name]) == w
          else Needed(a, o.name))
    && (o.Lit? ==> a.scratch == [SCRATCH_REG] || a.scratch == [])
  }

  lemma OperandLive(m: Machine, start: Lane, a: Alloc, ir: IrLane, skip: set<string>, o: Operand, w: Word)
    requires WellFormed(a) && Live(m, start, a, ir, skip) && Readable(m, start, a, ir, skip, o, w)
    requires forall p :: p in skip && p in a.regs ==> p in a.pinned
    requires OperandReg(a, o).Ok? && OperandReg(a, o).value.0.nextSlot <= MAX_SLOTS
    ensures var (b, r) := OperandReg(a, o).value;
      && Live(m, start, b, ir, skip) && r < 14
      && Lookup(At(m, start, b).regs, r) == w
      && (o.Lit? ==> r == SCRATCH_REG)
      && (o.Val? ==> Lookup(At(m, start, b).regs, SCRATCH_REG) == Lookup(At(m, start, a).regs, SCRATCH_REG))
  {
    hide WellFormed, Run, SpillAddr, MemAgree, LiteralCode, Use;
    if o.Val? {
      if o.name in skip { UseResident(a, o.name); } else { UseLive(m, start, a, ir, skip, o.name); }
    } else {
      var s := At(m, start, a);
      LiteralRun(m, s, SCRATCH_REG, o.n);
      RunAppend(m, a.asm, LiteralCode(SCRATCH_REG, o.n), start);
      var b := OperandReg(a, o).value.0;
      forall x | x in ir.env && x !in skip && Needed(b, x) ensures HeldAt(m, b, At(m, start, b), x, ir.env[x]) {
        Apart(a, x, x);
        assert HeldAt(m, a, s, x, ir.env[x]);
      }
    }
  }

  lemma UseResident(a: Alloc, v: string)
    requires v in a.regs
    ensures Use(a, v) == Ok((a, a.regs[v]))
  {
  }

  lemma OperandUntouched(m: Machine, start: Lane, a: Alloc, o: Operand, k: string)
    requires WellFormed(a) && OperandReg(a, o).Ok? && OperandReg(a, o).value.0.nextSlot <= MAX_SLOTS
    requires At(m, start, a).status == Running && At(m, start, a).active && k in a.regs && k in a.pinned
    requires o.Lit? ==> a.scratch == [SCRATCH_REG]
    ensures Untouched(m, start, a, OperandReg(a, o).value.0, k)
  {
    hide WellFormed, Run, SpillAddr, LiteralCode, Use;
    if o.Val? {
      UseUntouched(m, start, a, o.name, k);
    } else {
      Apart(a, k, k);
      LiteralRun(m, At(m, start, a), SCRATCH_REG, o.n);
      RunAppend(m, a.asm, LiteralCode(SCRATCH_REG, o.n), start);
    }
  }

  /** The first operand of a pair: the second can still be read, and both stay readable. */
  lemma FirstLive(m: Machine, start: Lane, a: Alloc, ir: IrLane, dst: string, skip: set<string>,
                  x: Operand, y: Operand, v: Word, w: Word)
    requires WellFormed(a) && Live(m, start, a, ir, skip) && a.pinned == skip <= {dst} && a.scratch == [SCRATCH_REG]
    requires dst in skip ==> dst in a.regs
    requires Readable(m, start, a, ir, skip, x, v) && Readable(m, start, a, ir, skip, y, w)
    requires OperandReg(a, x).Ok? && OperandReg(a, x).value.0.nextSlot <= MAX_SLOTS
    ensures var (b, r) := OperandReg(a, x).value; var p := PinOperand(b, x);
      && WellFormed(p) && Live(m, start, p, ir, skip) && Readable(m, start, p, ir, skip, y, w)
      && (x.Val? ==> x.name in p.regs && p.regs[x.name] == r && x.name in p.pinned && p.scratch == [SCRATCH_REG])
      && (x.Lit? ==> r == SCRATCH_REG && p.scratch == [])
      && r < 14 && Lookup(At(m, start, p).regs, r) == v
      && skip <= p.pinned && (dst in skip ==> Untouched(m, start, a, p, dst))
  {
    hide WellFormed, Run, SpillAddr, MemAgree, OperandReg, Held, Located;
    var b := OperandReg(a, x).value.0;
    OperandKeeps(a, x);
    SameFile(b, PinOperand(b, x));
    OperandLive(m, start, a, ir, skip, x, v);
    Unchanged(m, start, b, PinOperand(b, x), ir, skip);
    if dst in skip { OperandUntouched(m, start, a, x, dst); }
  }

  lemma PairLive(m: Machine, start: Lane, a: Alloc, ir: IrLane, dst: string, skip: set<string>,
                 x: Operand, y: Operand, v: Word, w: Word)
    requires WellFormed(a) && Live(m, start, a, ir, skip) && a.pinned == skip <= {dst} && a.scratch == [SCRATCH_REG]
    requires dst in skip ==> dst in a.regs
    requires Readable(m, start, a, ir, skip, x, v) && Readable(m, start, a, ir, skip, y, w)
    requires LoadPair(a, x, y).Ok? && LoadPair(a, x, y).value.0.nextSlot <= MAX_SLOTS
    ensures var (c, r1, r2) := LoadPair(a, x, y).value;
      && Live(m, start, c, ir, skip) && r1 < 14 && r2 < 14
      && Lookup(At(m, start, c).regs, r1) == v && Lookup(At(m, start, c).regs, r2) == w
      && (dst in skip ==> Untouched(m, start, a, c, dst))
  {
    hide WellFormed, SpillAddr, OperandReg, Matches, Readable, Located;
    var b := OperandReg(a, x).value.0;
    var p := PinOperand(b, x);
    OperandKeeps(a, x);
    SameFile(b, p);
    OperandKeeps(p, y);
    FirstLive(m, start, a, ir, dst, skip, x, y, v, w);
    if x.Lit? && y.Lit? { TwoLiterals(p, y); }
    StillRunning(m, start, p, ir, skip);
    OperandLive(m, start, p, ir, skip, y, w);
    if x.Val? { OperandUntouched(m, start, p, y, x.name); }
    if dst in skip { OperandUntouched(m, start, p, y, dst); }
  }

  lemma StillRunning(m: Machine, start: Lane, a: Alloc, ir: IrLane, skip: set<string>)
    requires Live(m, start, a, ir, skip)
    ensures At(m, start, a).status == Running && At(m, start, a).active
  {
  }

  lemma TwoLiterals(a: Alloc, o: Operand)
    requires o.Lit? && OperandReg(a, o).Ok?
    ensures a.scratch != []
  {
  }

  /** The relation reads registers, slots, counts, memory-backing and code only. */
  lemma Unchanged(m: Machine, start: Lane, a: Alloc, b: Alloc, ir: IrLane, skip: set<string>)
    requires b.regs == a.regs && b.spilled == a.spilled && b.backed == a.backed && b.uses == a.uses
    requires b.asm == a.asm && b.nextSlot == a.nextSlot
    requires Matches(m, start, a, ir, skip)
    ensures Matches(m, start, b, ir, skip)
  {
    hide Run, SpillAddr, MemAgree;
    var s := At(m, start, a);
    if s.status == Running {
      forall x | x in ir.env && x !in skip && Needed(b, x) ensures HeldAt(m, b, s, x, ir.env[x]) {
        assert HeldAt(m, a, s, x, ir.env[x]);
      }
    }
  }

  // ----- assignments in an active lane -----

  /** Code that writes rd, or faults, does what binding dst does. */
  lemma WriteMatches(m: Machine, start: Lane, a: Alloc, ir: IrLane, dst: string, lines: seq<Line>, result: Option<Word>)
    requires WellFormed(a) && Live(m, start, a, ir, {dst}) && dst in a.regs
    requires var s := At(m, start, a);
      var t := Run(m, lines, s);
      if result.None? then t == s.(status := Faulted)
      else Differ1(s, t, a.regs[dst]) && Lookup(t.regs, a.regs[dst]) == result.value
    ensures Matches(m, start, Emit(a, lines), Bind(ir, dst, result), {dst})
    ensures result.Some? ==> Lookup(At(m, start, Emit(a, lines)).regs, a.regs[dst]) == result.value
  {
    hide WellFormed, Run, SpillAddr, MemAgree;
    RunAppend(m, a.asm, lines, start);
    if result.Some? {
      var b, st := Emit(a, lines), Bind(ir, dst, result);
      forall x | x in st.env && x !in {dst} && Needed(b, x) ensures HeldAt(m, b, At(m, start, b), x, st.env[x]) {
        Apart(a, x, dst);
        assert HeldAt(m, a, At(m, start, a), x, ir.env[x]);
      }
    }
  }

  /** Nothing but the mask stack and EXIT moves a lane that is inactive or has stopped. */
  lemma {:induction false} Idle(m: Machine, code: seq<Line>, s: Lane)
    requires !(s.status == Running && s.active)
    requires MaskFree(code)
    ensures Run(m, code, s) == s
  {
    if code != [] {
      assert Ordinary(code[|code| - 1]);
      Idle(m, code[..|code| - 1], s);
    }
  }

  lemma MoreSlotsAgree(m: Machine, slots: nat, more: nat, mem: map<nat, Word>, lane: map<nat, Word>)
    requires MemAgree(m, slots, mem, lane) && slots <= more
    ensures MemAgree(m, more, mem, lane)
  {
    hide SpillAddr;
    forall w: nat | !InSpillWindow(m, more, w) ensures Lookup(lane, w) == Lookup(mem, w) {
      assert !InSpillWindow(m, slots, w);
    }
  }

  /** The end of an assignment: dst is in its register, or goes to its slot. */
  lemma ParkMatches(m: Machine, start: Lane, a: Alloc, ir: IrLane, dst: string)
    requires WellFormed(a) && Matches(m, start, a, ir, {dst}) && dst in a.regs
    requires ir.status == Running ==>
      ir.active && dst in ir.env && Lookup(At(m, start, a).regs, a.regs[dst]) == ir.env[dst]
    requires Park(a, dst).nextSlot <= MAX_SLOTS
    ensures Matches(m, start, Park(a, dst), ir, {})
  {
    hide WellFormed, Run, SpillAddr, SpillAddrCode, MemAgree, Without;
    var b := FreeReg(SpillStore(a, dst, a.regs[dst]), dst);
    if ir.status == Running {
      EvictLive(m, start, a, ir, {dst}, dst);
      Unchanged(m, start, b, Park(a, dst), ir, {});
    } else {
      var code := b.asm[|a.asm|..];
      assert b.asm == a.asm + code;
      SpillStoreAppends(a, dst, a.regs[dst]);
      RunAppend(m, a.asm, code, start);
      Idle(m, code, At(m, start, a));
      MoreSlotsAgree(m, a.nextSlot, b.nextSlot, ir.mem, At(m, start, a).mem);
    }
  }

  lemma FinishMatches(m: Machine, start: Lane, a: Alloc, ir: IrLane, dst: string)
    requires WellFormed(a) && Matches(m, start, a, ir, {dst}) && dst in a.regs
    requires ir.status == Running ==>
      ir.active && dst in ir.env && Lookup(At(m, start, a).regs, a.regs[dst]) == ir.env[dst]
    requires Finish(a, dst).nextSlot <= MAX_SLOTS
    ensures Matches(m, start, Finish(a, dst), ir, {})
  {
    hide WellFormed, Run, SpillAddr, SpillAddrCode, MemAgree, Without;
    if dst in a.backed {
      assert Finish(a, dst) == Park(a, dst);
      ParkMatches(m, start, a, ir, dst);
    } else {
      Unchanged(m, start, a, Finish(a, dst), ir, {dst});
    }
  }

  /** The end of an assignment whose destination was an operand and is released for good. */
  lemma FinishReleased(m: Machine, start: Lane, a: Alloc, ir: IrLane, dst: string)
    requires Matches(m, start, a, ir, {dst}) && dst !in a.regs
    ensures Matches(m, start, Finish(a, dst), ir, {dst})
    ensures !Needed(a, dst) ==> Matches(m, start, Finish(a, dst), ir, {})
    ensures At(m, start, Finish(a, dst)) == At(m, start, a) && Finish(a, dst).spilled == a.spilled
  {
    hide Run, SpillAddr, MemAgree;
    Unchanged(m, start, a, Finish(a, dst), ir, {dst});
  }

  // ----- what each emitted instruction computes -----

  lemma UnaryStep(m: Machine, s: Lane, u: UnaryOp, fmt: Option<Format>, rd: Reg, rs: Reg)
    requires s.status == Running && s.active
    ensures Step(m, UnaryLine(u, fmt, rd, rs), s)
      == WriteReg(s, rd, UnaryResult(m, u, fmt, s.mem, Lookup(s.regs, rs)))
  {
    hide ReadMem, WriteReg;
  }

  lemma BinaryStep(m: Machine, s: Lane, op: Arith, fmt: Option<Format>, rd: Reg, r1: Reg, r2: Reg)
    requires s.status == Running && s.active && ValueOpcode(op, fmt).Some?
    ensures Step(m, Alu(ValueOpcode(op, fmt).value, fmt, rd, r1, r2), s)
      == WriteReg(s, rd, ArithResult(m, op, fmt, Lookup(s.regs, r1), Lookup(s.regs, r2)))
  {
    hide Compute, WriteReg;
    OpcodeMeaning(op, fmt);
  }

  /** The chosen opcode computes the operation, in the operation's format. */
  lemma OpcodeMeaning(op: Arith, fmt: Option<Format>)
    ensures ValueOpcode(op, fmt).Some? ==>
      AluMeaning(ValueOpcode(op, fmt).value, fmt) == Some((op, FormatOr(fmt, I32)))
    ensures ValueOpcode(op, fmt).None? <==>
      IsFloat(FormatOr(fmt, I32)) && op in {Mod, And, Or, Xor, Shl, Shr}
  {
    hide CompareOpcode, FloatOpcode, IntegerOpcode, CompareMeaning, FloatMeaning, IntegerMeaning;
    TablesInverse(op);
  }

  /** The compiler's opcode tables, read back by the units that execute the opcodes. */
  lemma TablesInverse(op: Arith)
    ensures CompareOpcode(op).Some? ==> CompareMeaning(CompareOpcode(op).value) == Some(op)
    ensures FloatOpcode(op).Some? ==>
      CompareMeaning(FloatOpcode(op).value) == None && FloatMeaning(FloatOpcode(op).value) == Some(op)
    ensures IntegerOpcode(op).Some? ==>
      && CompareMeaning(IntegerOpcode(op).value) == None && FloatMeaning(IntegerOpcode(op).value) == None
      && IntegerMeaning(IntegerOpcode(op).value) == Some(op)
    ensures CompareOpcode(op).None? <==> IntegerOpcode(op).Some?
    ensures CompareOpcode(op).None? ==> (FloatOpcode(op).None? <==> op in {Mod, And, Or, Xor, Shl, Shr})
    ensures CompareOpcode(op).Some? ==> op !in {Mod, And, Or, Xor, Shl, Shr}
  {
  }

  lemma ThreadStep(m: Machine, s: Lane, t: ThreadValue, rd: Reg)
    requires s.status == Running && s.active
    ensures Step(m, ReadThread(ThreadOpcode(t), rd), s) == WriteReg(s, rd, Some(m.thread(t)))
  {
    hide WriteReg;
  }

  lemma ConstStep(m: Machine, s: Lane, rd: Reg, name: string)
    requires s.status == Running && s.active
    ensures Step(m, LoadConst(rd, Symbol(name)), s) == WriteReg(s, rd, Some(Lookup(m.consts, name)))
  {
    hide WriteReg;
  }

  lemma ReadAgree(m: Machine, slots: nat, more: nat, mem: map<nat, Word>, lane: map<nat, Word>,
                  fmt: Option<Format>, addr: Word)
    requires MemAgree(m, slots, mem, lane) && slots <= more && !Touches(m, more, fmt, addr)
    ensures var f, e := FormatOr(fmt, I32), Effective(addr, 0); ReadMem(mem, f, e) == ReadMem(lane, f, e)
  {
    hide SpillAddr, PlaceValue;
    assert !InSpillWindow(m, slots, WordIndex(FormatOr(fmt, I32), Effective(addr, 0)));
  }

  // ----- the assignment itself -----

  /** Every value the statement names is still counted. */
  ghost predicate Counted(a: Alloc, stmt: Stmt) {
    forall v :: v !in a.backed ==> Uses(a, v) >= Mentions(stmt, v)
  }

  lemma OperandsNeeded(a: Alloc, b: Alloc, stmt: Stmt)
    requires Counted(a, stmt) && b.uses == a.uses && a.backed <= b.backed
    ensures forall o :: o in Operands(stmt) && o.Val? ==> Needed(b, o.name)
  {
    forall o | o in Operands(stmt) && o.Val? ensures Needed(b, o.name) {
      assert Mentions(stmt, o.name) > 0;
    }
  }

  lemma FinishSlots(a: Alloc, dst: string)
    ensures a.nextSlot <= Finish(a, dst).nextSlot
  {
  }

  /** While the destination's register is out: it may be read as an operand, and then yields what
      the register holds. */
  ghost predicate Computing(m: Machine, start: Lane, a: Alloc, ir: IrLane, dst: string, rd: Reg) {
    && Orderly(a, {dst}) && a.pinned == {dst} && dst in a.regs && a.regs[dst] == rd < 13
    && Live(m, start, a, ir, {dst})
  }

  /** An operand that can be read then. */
  ghost predicate Ready(m: Machine, start: Lane, a: Alloc, ir: IrLane, dst: string, rd: Reg, o: Operand) {
    o.Val? ==>
      if o.name == dst then dst in ir.env && ir.env[dst] == Lookup(At(m, start, a).regs, rd)
      else Needed(a, o.name)
  }

  /** dst's slot, if it has one, holds in t what it holds in s. */
  predicate SameSlotWord(m: Machine, a: Alloc, s: Lane, t: Lane, dst: string) {
    dst in a.spilled ==> Lookup(t.mem, SpillAddr(m, a.spilled[dst])) == Lookup(s.mem, SpillAddr(m, a.spilled[dst]))
  }

  /** The result is in dst's register, and dst's slot, if it has one, has not been written. */
  ghost predicate Computed(m: Machine, start: Lane, a: Alloc, b: Alloc, st: IrLane, dst: string, rd: Reg) {
    && Matches(m, start, b, st, {dst})
    && (st.status == Running ==> st.active && dst in st.env && Lookup(At(m, start, b).regs, rd) == st.env[dst])
    && SameSlotWord(m, a, At(m, start, a), At(m, start, b), dst)
  }

  /** One operand loaded: its register holds its value, and dst still has its own. */
  lemma OneReady(m: Machine, start: Lane, a: Alloc, ir: IrLane, dst: string, rd: Reg, x: Operand, w: Word)
    requires Computing(m, start, a, ir, dst, rd) && Ready(m, start, a, ir, dst, rd, x) && Eval(x, ir.env) == Some(w)
    requires OperandReg(a, x).Ok? && OperandReg(a, x).value.0.nextSlot <= MAX_SLOTS
    ensures var (b, r) := OperandReg(a, x).value;
      && WellFormed(b) && Live(m, start, b, ir, {dst}) && dst in b.regs && b.regs[dst] == rd
      && Lookup(At(m, start, b).regs, r) == w && SameSlotWord(m, a, At(m, start, a), At(m, start, b), dst)
  {
    hide WellFormed, SpillAddr, MemAgree, OperandReg, Held, Run;
    OperandKeeps(a, x);
    OperandLive(m, start, a, ir, {dst}, x, w);
    OperandUntouched(m, start, a, x, dst);
  }

  lemma UnaryMatches(m: Machine, start: Lane, a: Alloc, ir: IrLane, slots: nat, dst: string, rd: Reg,
                     u: UnaryOp, fmt: Option<Format>, x: Operand)
    requires Computing(m, start, a, ir, dst, rd) && Ready(m, start, a, ir, dst, rd, x)
    requires EvalAssign(m, slots, dst, Unary(u, fmt, x), ir).Ok?
    requires LowerRhs(a, dst, rd, Unary(u, fmt, x)).Ok?
    requires LowerRhs(a, dst, rd, Unary(u, fmt, x)).value.nextSlot <= Min(slots, MAX_SLOTS)
    ensures Computed(m, start, a, LowerRhs(a, dst, rd, Unary(u, fmt, x)).value,
                     EvalAssign(m, slots, dst, Unary(u, fmt, x), ir).value, dst, rd)
  {
    hide WellFormed, SpillAddr, MemAgree, OperandReg, Step, UnaryLine, UnaryResult, ReleaseOperand, Held, Ready;
    var w := Eval(x, ir.env).value;
    var (b, rs) := OperandReg(a, x).value;
    var line := UnaryLine(u, fmt, rd, rs);
    var result := UnaryResult(m, u, fmt, ir.mem, w);
    ReleaseOperandFields(Emit(b, [line]), x, rs);
    OneReady(m, start, a, ir, dst, rd, x, w);
    var s := At(m, start, b);
    UnaryStep(m, s, u, fmt, rd, rs);
    RunTwo(m, line, line, s);
    RunAppend(m, b.asm, [line], start);
    UnaryAgree(m, b.nextSlot, slots, ir.mem, s.mem, u, fmt, w);
    WriteMatches(m, start, b, ir, dst, [line], result);
    ReleaseLive(m, start, Emit(b, [line]), Bind(ir, dst, result), {dst}, x, rs);
  }

  lemma UnaryAgree(m: Machine, slots: nat, more: nat, mem: map<nat, Word>, lane: map<nat, Word>,
                   u: UnaryOp, fmt: Option<Format>, w: Word)
    requires MemAgree(m, slots, mem, lane) && slots <= more
    requires u.LoadGlobal? || u.LoadShared? ==> !Touches(m, more, fmt, w)
    ensures UnaryResult(m, u, fmt, mem, w) == UnaryResult(m, u, fmt, lane, w)
  {
    hide MemAgree, Touches, ReadMem;
    if u.LoadGlobal? || u.LoadShared? { ReadAgree(m, slots, more, mem, lane, fmt, w); }
  }

  lemma ReleaseOperandFields(a: Alloc, o: Operand, r: Reg)
    ensures ReleaseOperand(a, o, r).asm == a.asm && ReleaseOperand(a, o, r).nextSlot == a.nextSlot
  {
    hide Release;
    if o.Val? { ReleaseFields(a, o.name); }
  }

  /** Both operands loaded: their registers hold their values, and dst still has its own. */
  lemma PairReady(m: Machine, start: Lane, a: Alloc, ir: IrLane, dst: string, rd: Reg,
                  x: Operand, y: Operand, v: Word, w: Word)
    requires Computing(m, start, a, ir, dst, rd)
    requires Ready(m, start, a, ir, dst, rd, x) && Ready(m, start, a, ir, dst, rd, y)
    requires Eval(x, ir.env) == Some(v) && Eval(y, ir.env) == Some(w)
    requires LoadPair(a, x, y).Ok? && LoadPair(a, x, y).value.0.nextSlot <= MAX_SLOTS
    ensures var (b, r1, r2) := LoadPair(a, x, y).value;
      var c := UnpinOperand(b, x);
      && WellFormed(c) && Live(m, start, c, ir, {dst}) && dst in c.regs && c.regs[dst] == rd
      && Lookup(At(m, start, c).regs, r1) == v && Lookup(At(m, start, c).regs, r2) == w
      && SameSlotWord(m, a, At(m, start, a), At(m, start, c), dst)
  {
    hide WellFormed, SpillAddr, MemAgree, OperandReg, LoadPair, Held, Run;
    var (b, r1, r2) := LoadPair(a, x, y).value;
    var c := UnpinOperand(b, x);
    LoadPairKeeps(a, x, y);
    PairLive(m, start, a, ir, dst, {dst}, x, y, v, w);
    Unchanged(m, start, b, c, ir, {dst});
    SameFile(b.(pinned := a.pinned), c);
  }

  lemma BinaryMatches(m: Machine, start: Lane, a: Alloc, ir: IrLane, slots: nat, dst: string, rd: Reg,
                      op: Arith, fmt: Option<Format>, x: Operand, y: Operand)
    requires Computing(m, start, a, ir, dst, rd)
    requires Ready(m, start, a, ir, dst, rd, x) && Ready(m, start, a, ir, dst, rd, y)
    requires EvalAssign(m, slots, dst, Binary(op, fmt, x, y), ir).Ok?
    requires LowerRhs(a, dst, rd, Binary(op, fmt, x, y)).Ok?
    requires LowerRhs(a, dst, rd, Binary(op, fmt, x, y)).value.nextSlot <= MAX_SLOTS
    ensures Computed(m, start, a, LowerRhs(a, dst, rd, Binary(op, fmt, x, y)).value,
                     EvalAssign(m, slots, dst, Binary(op, fmt, x, y), ir).value, dst, rd)
  {
    hide WellFormed, SpillAddr, MemAgree, OperandReg, LoadPair, Step, ValueOpcode, ArithResult, ReleaseOperand;
    hide Held, Ready;
    var v, w := Eval(x, ir.env).value, Eval(y, ir.env).value;
    var (b, r1, r2) := LoadPair(a, x, y).value;
    var line := Alu(ValueOpcode(op, fmt).value, fmt, rd, r1, r2);
    var result := ArithResult(m, op, fmt, v, w);
    PairSlots(a, x, y, line, r1, r2);
    PairReady(m, start, a, ir, dst, rd, x, y, v, w);
    var c := UnpinOperand(b, x);
    BinaryStep(m, At(m, start, c), op, fmt, rd, r1, r2);
    RunTwo(m, line, line, At(m, start, c));
    RunAppend(m, c.asm, [line], start);
    WriteMatches(m, start, c, ir, dst, [line], result);
    var d, st := Emit(c, [line]), Bind(ir, dst, result);
    assert d == UnpinOperand(Emit(b, [line]), x);
    var e := ReleaseOperand(d, x, r1);
    ReleaseLive(m, start, d, st, {dst}, x, r1);
    ReleaseLive(m, start, e, st, {dst}, y, r2);
    ReleaseOperandFields(d, x, r1);
    ReleaseOperandFields(e, y, r2);
  }

  lemma PairSlots(a: Alloc, x: Operand, y: Operand, line: Line, r1: Reg, r2: Reg)
    requires LoadPair(a, x, y).Ok? && LoadPair(a, x, y).value.1 == r1 && LoadPair(a, x, y).value.2 == r2
    ensures LoadPair(a, x, y).value.0.nextSlot
            == ReleasePair(Emit(LoadPair(a, x, y).value.0, [line]), x, y, r1, r2).nextSlot
  {
    hide LoadPair, ReleaseOperand;
    var d := UnpinOperand(Emit(LoadPair(a, x, y).value.0, [line]), x);
    ReleaseOperandFields(d, x, r1);
    ReleaseOperandFields(ReleaseOperand(d, x, r1), y, r2);
  }

  lemma ArgMatches(m: Machine, start: Lane, a: Alloc, ir: IrLane, dst: string, rd: Reg, p: string)
    requires Computing(m, start, a, ir, dst, rd)
    requires LowerRhs(a, dst, rd, Arg(p)).value.nextSlot <= MAX_SLOTS
    ensures var b := LowerRhs(a, dst, rd, Arg(p)).value;
      Matches(m, start, Finish(b, dst), Bind(ir, dst, Some(Lookup(m.consts, ArgSymbol(p)))), {})
  {
    hide WellFormed, SpillAddr, SpillAddrCode, MemAgree, Step, Without;
    var line, w := LoadConst(rd, Symbol(ArgSymbol(p))), Some(Lookup(m.consts, ArgSymbol(p)));
    var b := Back(a, dst);
    SameFile(a, b);
    ExemptLive(m, start, a, b, ir, dst, {dst});
    ConstStep(m, At(m, start, b), rd, ArgSymbol(p));
    RunTwo(m, line, line, At(m, start, b));
    WriteMatches(m, start, b, ir, dst, [line], w);
    var c := Emit(b, [line]);
    SameFile(b, c);
    ParkMatches(m, start, c, Bind(ir, dst, w), dst);
    assert Finish(LowerRhs(a, dst, rd, Arg(p)).value, dst) == Park(c, dst);
  }

  /** The right-hand sides that read no operand. */
  predicate Nullary(rhs: Rhs) {
    rhs.Shared? || rhs.Const? || rhs.Thread?
  }

  lemma NullaryMatches(m: Machine, start: Lane, a: Alloc, ir: IrLane, slots: nat, dst: string, rd: Reg, rhs: Rhs)
    requires Computing(m, start, a, ir, dst, rd) && Nullary(rhs)
    ensures var b, st := LowerRhs(a, dst, rd, rhs).value, EvalAssign(m, slots, dst, rhs, ir).value;
      && Matches(m, start, b, st, {dst})
      && st.active && dst in st.env && Lookup(At(m, start, b).regs, rd) == st.env[dst]
  {
    hide WellFormed, SpillAddr, MemAgree, Step, LiteralCode;
    var s := At(m, start, a);
    match rhs
    case Shared(n) =>
      var line := LoadConst(rd, Symbol(SharedSymbol(n)));
      ConstStep(m, s, rd, SharedSymbol(n));
      RunTwo(m, line, line, s);
      WriteMatches(m, start, a, ir, dst, [line], Some(Lookup(m.consts, SharedSymbol(n))));
    case Const(n) =>
      LiteralRun(m, s, rd, n);
      WriteMatches(m, start, a, ir, dst, LiteralCode(rd, n), Some(Wrap(n)));
    case Thread(t) =>
      var line := ReadThread(ThreadOpcode(t), rd);
      ThreadStep(m, s, t, rd);
      RunTwo(m, line, line, s);
      WriteMatches(m, start, a, ir, dst, [line], Some(m.thread(t)));
  }

  lemma UnknownRaises(a: Alloc, dst: string, rd: Reg)
    ensures LowerRhs(a, dst, rd, Unknown) == Raise
  {
  }

  /** The value an assignment finds when it reads its own destination: what the register the
      destination gets held before the statement. */
  function SelfRead(m: Machine, start: Lane, a: Alloc, dst: string): Word
    requires Define(a, dst).Ok?
  {
    Lookup(At(m, start, a).regs, Define(a, dst).value.1)
  }

  predicate SelfUse(dst: string, rhs: Rhs) {
    Mentions(Assign(dst, rhs), dst) > 0
  }

  /** The IR lane as the emitted code sees it while the right-hand side is computed. */
  function AsRead(m: Machine, start: Lane, a: Alloc, ir: IrLane, dst: string, rhs: Rhs): IrLane
    requires Define(a, dst).Ok?
  {
    if SelfUse(dst, rhs) then ir.(env := ir.env[dst := SelfRead(m, start, a, dst)]) else ir
  }

  /** A memory-backed value keeps its slot and what is in it. */
  ghost predicate SlotKept(m: Machine, start: Lane, a: Alloc, b: Alloc, v: string) {
    v in a.backed && v in a.spilled ==>
      && v in b.spilled && b.spilled[v] == a.spilled[v]
      && Lookup(At(m, start, b).mem, SpillAddr(m, a.spilled[v]))
         == Lookup(At(m, start, a).mem, SpillAddr(m, a.spilled[v]))
  }

  /** How an assignment ends: as the IR does, unless it reads a destination that lives in memory,
      which keeps its old slot instead. */
  ghost predicate EndsAs(m: Machine, start: Lane, a: Alloc, b: Alloc, st: IrLane, dst: string, rhs: Rhs) {
    if SelfUse(dst, rhs) && dst in b.backed then Matches(m, start, b, st, {dst}) && SlotKept(m, start, a, b, dst)
    else Matches(m, start, b, st, {})
  }

  lemma DefineReads(m: Machine, start: Lane, a: Alloc, ir: IrLane, dst: string, rhs: Rhs)
    requires Orderly(a, {}) && Live(m, start, a, ir, {})
    requires Define(a, dst).Ok? && Define(a, dst).value.0.nextSlot <= MAX_SLOTS
    ensures var (b, rd) := Define(a, dst).value;
      && Computing(m, start, Pin(b, dst), AsRead(m, start, a, ir, dst, rhs), dst, rd)
      && Lookup(At(m, start, b).regs, rd) == SelfRead(m, start, a, dst)
      && SlotKept(m, start, a, b, dst)
  {
    hide WellFormed, SpillAddr, MemAgree, Run, Define;
    var (b, rd) := Define(a, dst).value;
    DefineOrderly(a, dst);
    DefineLive(m, start, a, ir, dst);
    DefineUntouched(m, start, a, dst);
    var p, ir0 := Pin(b, dst), AsRead(m, start, a, ir, dst, rhs);
    Unchanged(m, start, b, p, ir, {dst});
    forall x | x in ir0.env && x !in {dst} && Needed(p, x) ensures HeldAt(m, p, At(m, start, p), x, ir0.env[x]) {
      assert HeldAt(m, p, At(m, start, p), x, ir.env[x]);
    }
  }

  /** Finding a register for the destination changes no value register and not its slot. */
  lemma DefineUntouched(m: Machine, start: Lane, a: Alloc, dst: string)
    requires Orderly(a, {}) && Define(a, dst).Ok? && Define(a, dst).value.0.nextSlot <= MAX_SLOTS
    requires At(m, start, a).status == Running && At(m, start, a).active
    ensures var b := Define(a, dst).value.0;
      && SameValues(At(m, start, a), At(m, start, b))
      && SlotKept(m, start, a, b, dst)
  {
    hide WellFormed, SpillAddr, Run, Spare, Without;
    var b := if IsSlot(dst) then Back(a, dst) else a;
    if dst !in b.regs {
      var c := if dst in b.backed then b else b.(spilled := b.spilled - {dst});
      SameFile(a, b);
      ForgetSlotKeeps(b, dst);
      SpareUntouched(m, start, c, dst);
    }
  }

  /** An assignment in an active lane does what the IR does, with its own destination, if it is an
      operand, read from the register it gets. Only a memory-backed destination read that way does
      not receive the result. */
  lemma AssignReads(m: Machine, start: Lane, a: Alloc, ir: IrLane, slots: nat, dst: string, rhs: Rhs)
    requires Orderly(a, {}) && Live(m, start, a, ir, {}) && Counted(a, Assign(dst, rhs))
    requires LowerAssign(a, dst, rhs).Ok? && LowerAssign(a, dst, rhs).value.nextSlot <= Min(slots, MAX_SLOTS)
    requires EvalAssign(m, slots, dst, rhs, AsRead(m, start, a, ir, dst, rhs)).Ok?
    ensures var b := LowerAssign(a, dst, rhs).value;
      var st := EvalAssign(m, slots, dst, rhs, AsRead(m, start, a, ir, dst, rhs)).value;
      EndsAs(m, start, a, b, st, dst, rhs)
  {
    hide SpillAddr, Live, Define, LowerRhs, Finish, AsRead, SelfRead, SlotKept, Computing, Ready, EndsAs, Orderly;
    var ir0 := AsRead(m, start, a, ir, dst, rhs);
    var (b, rd) := Define(a, dst).value;
    var p := Pin(b, dst);
    DefineFields(a, dst) by { OrderlyFile(a, {}); }
    FinishSlots(LowerRhs(p, dst, rd, rhs).value, dst);
    RhsSlots(p, dst, rd, rhs);
    DefineReads(m, start, a, ir, dst, rhs);
    OperandsReady(m, start, a, p, ir, dst, rd, rhs);
    SlotKeptPin(m, start, a, b, dst);
    RhsEnds(m, start, a, p, ir0, slots, dst, rd, rhs);
  }

  lemma OrderlyFile(a: Alloc, keep: set<string>)
    requires Orderly(a, keep)
    ensures WellFormed(a)
  {
  }

  lemma SlotKeptPin(m: Machine, start: Lane, a: Alloc, b: Alloc, v: string)
    requires SlotKept(m, start, a, b, v)
    ensures SlotKept(m, start, a, Pin(b, v), v)
  {
  }

  lemma RhsSlots(a: Alloc, dst: string, rd: Reg, rhs: Rhs)
    requires LowerRhs(a, dst, rd, rhs).Ok?
    ensures a.nextSlot <= LowerRhs(a, dst, rd, rhs).value.nextSlot
  {
    RhsAppends(a, dst, rd, rhs);
  }

  /** The right-hand side and the end of the assignment. */
  lemma RhsEnds(m: Machine, start: Lane, a: Alloc, p: Alloc, ir: IrLane, slots: nat, dst: string, rd: Reg, rhs: Rhs)
    requires Computing(m, start, p, ir, dst, rd)
    requires forall o :: o in RhsOperands(rhs) ==> Ready(m, start, p, ir, dst, rd, o)
    requires SlotKept(m, start, a, p, dst) && a.backed <= p.backed
    requires LowerRhs(p, dst, rd, rhs).Ok? && EvalAssign(m, slots, dst, rhs, ir).Ok?
    requires Finish(LowerRhs(p, dst, rd, rhs).value, dst).nextSlot <= Min(slots, MAX_SLOTS)
    ensures EndsAs(m, start, a, Finish(LowerRhs(p, dst, rd, rhs).value, dst),
                   EvalAssign(m, slots, dst, rhs, ir).value, dst, rhs)
  {
    hide SpillAddr, Matches, Live, LowerRhs, Finish, Ready, SlotKept, EndsAs, Orderly, Mentions, EvalAssign;
    hide Computed, Settled;
    var c, st := LowerRhs(p, dst, rd, rhs).value, EvalAssign(m, slots, dst, rhs, ir).value;
    FinishSlots(c, dst);
    match rhs
    case Arg(symbol) =>
      ArgEnds(m, start, a, p, ir, slots, dst, rd, symbol);
    case Unary(u, fmt, x) =>
      RhsOrderly(p, dst, rd, rhs);
      assert Ready(m, start, p, ir, dst, rd, RhsOperands(rhs)[0]);
      UnaryMatches(m, start, p, ir, slots, dst, rd, u, fmt, x);
      FinishReads(m, start, a, p, c, st, dst, rd, rhs);
    case Binary(op, fmt, x, y) =>
      RhsOrderly(p, dst, rd, rhs);
      assert Ready(m, start, p, ir, dst, rd, RhsOperands(rhs)[0]);
      assert Ready(m, start, p, ir, dst, rd, RhsOperands(rhs)[1]);
      BinaryMatches(m, start, p, ir, slots, dst, rd, op, fmt, x, y);
      FinishReads(m, start, a, p, c, st, dst, rd, rhs);
    case Unknown => assert false by { UnknownRaises(p, dst, rd); }
    case _ =>
      RhsOrderly(p, dst, rd, rhs);
      NoMentions(Assign(dst, rhs));
      NullaryEnds(m, start, a, p, ir, slots, dst, rd, rhs);
  }

  lemma ArgEnds(m: Machine, start: Lane, a: Alloc, p: Alloc, ir: IrLane, slots: nat, dst: string, rd: Reg,
                symbol: string)
    requires Computing(m, start, p, ir, dst, rd) && LowerRhs(p, dst, rd, Arg(symbol)).value.nextSlot <= MAX_SLOTS
    ensures EndsAs(m, start, a, Finish(LowerRhs(p, dst, rd, Arg(symbol)).value, dst),
                   EvalAssign(m, slots, dst, Arg(symbol), ir).value, dst, Arg(symbol))
  {
    hide SpillAddr, Matches, Live, Finish, EndsAs, SelfUse, WellFormed, Computing, SpillStore;
    ArgMatches(m, start, p, ir, dst, rd, symbol);
    NoOperands(m, start, a, Finish(LowerRhs(p, dst, rd, Arg(symbol)).value, dst),
               EvalAssign(m, slots, dst, Arg(symbol), ir).value, dst, Arg(symbol));
  }

  lemma NullaryEnds(m: Machine, start: Lane, a: Alloc, p: Alloc, ir: IrLane, slots: nat, dst: string, rd: Reg, rhs: Rhs)
    requires Computing(m, start, p, ir, dst, rd) && Nullary(rhs) && LowerRhs(p, dst, rd, rhs).Ok?
    requires Settled(p, LowerRhs(p, dst, rd, rhs).value, {dst})
    requires dst in LowerRhs(p, dst, rd, rhs).value.regs
    requires Finish(LowerRhs(p, dst, rd, rhs).value, dst).nextSlot <= MAX_SLOTS
    ensures EndsAs(m, start, a, Finish(LowerRhs(p, dst, rd, rhs).value, dst),
                   EvalAssign(m, slots, dst, rhs, ir).value, dst, rhs)
  {
    hide SpillAddr, Matches, Live, LowerRhs, Finish, EndsAs, SelfUse, WellFormed;
    var c, st := LowerRhs(p, dst, rd, rhs).value, EvalAssign(m, slots, dst, rhs, ir).value;
    NullaryMatches(m, start, p, ir, slots, dst, rd, rhs);
    FinishMatches(m, start, c, st, dst);
    NoOperands(m, start, a, Finish(c, dst), st, dst, rhs);
  }

  lemma NoOperands(m: Machine, start: Lane, a: Alloc, b: Alloc, st: IrLane, dst: string, rhs: Rhs)
    requires RhsOperands(rhs) == [] && Matches(m, start, b, st, {})
    ensures EndsAs(m, start, a, b, st, dst, rhs)
  {
  }

  lemma OperandsReady(m: Machine, start: Lane, a: Alloc, p: Alloc, ir: IrLane, dst: string, rd: Reg, rhs: Rhs)
    requires Define(a, dst).Ok? && Counted(a, Assign(dst, rhs)) && p.uses == a.uses && a.backed <= p.backed
    requires Lookup(At(m, start, p).regs, rd) == SelfRead(m, start, a, dst)
    ensures forall o :: o in RhsOperands(rhs) ==>
      Ready(m, start, p, AsRead(m, start, a, ir, dst, rhs), dst, rd, o)
  {
    hide Define;
    OperandsNeeded(a, p, Assign(dst, rhs));
  }

  lemma FinishReads(m: Machine, start: Lane, a: Alloc, p: Alloc, c: Alloc, st: IrLane, dst: string, rd: Reg, rhs: Rhs)
    requires Computed(m, start, p, c, st, dst, rd) && Settled(p, c, {dst})
    requires p.pinned == {dst} && dst in p.regs && p.regs[dst] == rd
    requires !SelfUse(dst, rhs) ==> dst in c.regs
    requires SelfUse(dst, rhs) && dst in c.backed ==> dst !in c.regs
    requires Finish(c, dst).nextSlot <= MAX_SLOTS
    requires SlotKept(m, start, a, p, dst) && a.backed <= p.backed
    ensures EndsAs(m, start, a, Finish(c, dst), st, dst, rhs)
  {
    hide WellFormed, SpillAddr, Run, SpillAddrCode, MemAgree, Without, Matches, SelfUse;
    if dst in c.regs {
      FinishMatches(m, start, c, st, dst);
    } else {
      FinishReleased(m, start, c, st, dst);
    }
  }

  /** In particular, an assignment that does not read its destination, or reads it while it has a
      register for good, does what the IR does. */
  lemma AssignMatches(m: Machine, start: Lane, a: Alloc, ir: IrLane, slots: nat, dst: string, rhs: Rhs)
    requires Orderly(a, {}) && Live(m, start, a, ir, {}) && Counted(a, Assign(dst, rhs))
    requires SafeSelfUse(a, Assign(dst, rhs))
    requires LowerAssign(a, dst, rhs).Ok? && LowerAssign(a, dst, rhs).value.nextSlot <= Min(slots, MAX_SLOTS)
    requires EvalAssign(m, slots, dst, rhs, ir).Ok?
    ensures Matches(m, start, LowerAssign(a, dst, rhs).value, EvalAssign(m, slots, dst, rhs, ir).value, {})
  {
    hide WellFormed, SpillAddr, MemAgree, LowerAssign, Run;
    if SelfUse(dst, rhs) {
      ReadsResident(m, start, a, ir, slots, dst, rhs);
      AssignOrderly(a, dst, rhs);
    }
    AssignReads(m, start, a, ir, slots, dst, rhs);
  }

  /** A resident destination is read as the value it has. */
  lemma ReadsResident(m: Machine, start: Lane, a: Alloc, ir: IrLane, slots: nat, dst: string, rhs: Rhs)
    requires Live(m, start, a, ir, {}) && Counted(a, Assign(dst, rhs)) && SelfUse(dst, rhs)
    requires dst in a.regs && dst !in a.backed && EvalAssign(m, slots, dst, rhs, ir).Ok?
    ensures Define(a, dst).Ok? && !rhs.Arg? && AsRead(m, start, a, ir, dst, rhs) == ir
  {
    hide Run, SpillAddr, MemAgree, Touches;
    assert Needed(a, dst) && dst in ir.env;
    assert HeldAt(m, a, At(m, start, a), dst, ir.env[dst]);
    assert ir.env[dst := ir.env[dst]] == ir.env;
  }

  // ----- stores -----

  lemma StoreStep(m: Machine, s: Lane, op: Opcode, fmt: Option<Format>, r1: Reg, r2: Reg)
    requires s.status == Running && s.active
    ensures Step(m, Store(op, fmt, r1, 0, r2), s)
      == s.(mem := WriteMem(s.mem, FormatOr(fmt, I32), Effective(Lookup(s.regs, r1), 0), Lookup(s.regs, r2)))
  {
    hide WriteMem;
  }

  /** The same store outside the spill window keeps agreement and leaves the slots alone. */
  lemma StoreAgrees(m: Machine, slots: nat, more: nat, mem: map<nat, Word>, lane: map<nat, Word>,
                    fmt: Option<Format>, addr: Word, v: Word)
    requires MemAgree(m, slots, mem, lane) && slots <= more && !Touches(m, more, fmt, addr)
    ensures var f, e := FormatOr(fmt, I32), Effective(addr, 0);
      && MemAgree(m, slots, WriteMem(mem, f, e, v), WriteMem(lane, f, e, v))
      && forall k :: 0 <= k < slots ==>
           Lookup(WriteMem(lane, f, e, v), SpillAddr(m, k)) == Lookup(lane, SpillAddr(m, k))
  {
    hide SpillAddr, PlaceValue;
    var w := WordIndex(FormatOr(fmt, I32), Effective(addr, 0));
    assert forall k :: 0 <= k < slots ==> SpillAddr(m, k) != w;
    assert !InSpillWindow(m, slots, w);
  }

  /** A store outside the spill window, done by the emitted line as the IR does it. */
  lemma EmitStoreLive(m: Machine, start: Lane, c: Alloc, ir: IrLane, slots: nat,
                      op: Opcode, fmt: Option<Format>, r1: Reg, r2: Reg, v: Word, w: Word)
    requires WellFormed(c) && Live(m, start, c, ir, {}) && c.nextSlot <= slots && !Touches(m, slots, fmt, v)
    requires Lookup(At(m, start, c).regs, r1) == v && Lookup(At(m, start, c).regs, r2) == w
    ensures Live(m, start, Emit(c, [Store(op, fmt, r1, 0, r2)]),
                 ir.(mem := WriteMem(ir.mem, FormatOr(fmt, I32), Effective(v, 0), w)), {})
  {
    hide WellFormed, SpillAddr, MemAgree, Step, Run, WriteMem, Touches;
    var s, line := At(m, start, c), Store(op, fmt, r1, 0, r2);
    StoreStep(m, s, op, fmt, r1, r2);
    RunOne(m, c.asm, line, start);
    StoreAgrees(m, c.nextSlot, slots, ir.mem, s.mem, fmt, v, w);
    var d := Emit(c, [line]);
    forall z | z in ir.env && Needed(d, z) ensures HeldAt(m, d, At(m, start, d), z, ir.env[z]) {
      Apart(c, z, z);
      assert HeldAt(m, c, s, z, ir.env[z]);
    }
  }

  lemma StoreMatches(m: Machine, start: Lane, a: Alloc, ir: IrLane, slots: nat,
                     space: Space, fmt: Option<Format>, x: Operand, y: Operand)
    requires Orderly(a, {}) && Live(m, start, a, ir, {}) && Counted(a, StoreTo(space, fmt, x, y))
    requires LowerStore(a, space, fmt, x, y).Ok?
    requires LowerStore(a, space, fmt, x, y).value.nextSlot <= Min(slots, MAX_SLOTS)
    requires IrStep(m, slots, StoreTo(space, fmt, x, y), ir).Ok?
    ensures Matches(m, start, LowerStore(a, space, fmt, x, y).value,
                    IrStep(m, slots, StoreTo(space, fmt, x, y), ir).value, {})
  {
    hide WellFormed, SpillAddr, MemAgree, OperandReg, LoadPair, Step, Run, ReleaseOperand, WriteMem, Touches;
    var v, w := Eval(x, ir.env).value, Eval(y, ir.env).value;
    var (b, r1, r2) := LoadPair(a, x, y).value;
    var line := Store(if space.Global? then STG else STS, fmt, r1, 0, r2);
    OperandsNeeded(a, a, StoreTo(space, fmt, x, y));
    PairOrderly(a, x, y, [line], {});
    LoadPairKeeps(a, x, y);
    PairLive(m, start, a, ir, "", {}, x, y, v, w);
    var st := IrStep(m, slots, StoreTo(space, fmt, x, y), ir).value;
    var c := UnpinOperand(b, x);
    Unchanged(m, start, b, c, ir, {});
    SameFile(b.(pinned := a.pinned), c);
    EmitStoreLive(m, start, c, ir, slots, line.op, fmt, r1, r2, v, w);
    var d := Emit(c, [line]);
    assert d == UnpinOperand(Emit(b, [line]), x);
    var e := ReleaseOperand(d, x, r1);
    ReleaseLive(m, start, d, st, {}, x, r1);
    ReleaseLive(m, start, e, st, {}, y, r2);
  }

  // ----- predicates -----

  lemma MaskSteps(m: Machine, s: Lane, rs: Reg)
    requires s.status == Running
    ensures var t := Run(m, [Plain(PUSHM), Predicate(PRED, rs)], s);
      var pushed := PushMask(s.stack, s.active);
      t == if pushed.None? then s.(status := Faulted)
           else s.(stack := pushed.value, active := s.active && Lookup(s.regs, rs) != 0)
  {
    hide PushMask;
    RunTwo(m, Plain(PUSHM), Predicate(PRED, rs), s);
  }

  /** Moving both mask stacks alike. */
  lemma MaskMatches(m: Machine, start: Lane, a: Alloc, b: Alloc, ir: IrLane, st: IrLane)
    requires Matches(m, start, a, ir, {}) && ir.status == Running
    requires st == ir.(active := st.active, stack := st.stack, status := st.status)
    requires At(m, start, b) == At(m, start, a).(active := st.active, stack := st.stack, status := st.status)
    requires b.regs == a.regs && b.spilled == a.spilled && b.backed == a.backed
    requires b.uses == a.uses && b.nextSlot == a.nextSlot
    ensures Matches(m, start, b, st, {})
  {
    hide Run, SpillAddr, MemAgree;
    forall x | x in st.env && Needed(b, x) ensures HeldAt(m, b, At(m, start, b), x, st.env[x]) {
      assert HeldAt(m, a, At(m, start, a), x, ir.env[x]);
    }
  }

  lemma PredBeginMatches(m: Machine, start: Lane, a: Alloc, ir: IrLane, slots: nat, c: Operand)
    requires Orderly(a, {}) && Live(m, start, a, ir, {}) && Counted(a, PredBegin(c))
    requires Lower(a, PredBegin(c)).Ok? && Lower(a, PredBegin(c)).value.nextSlot <= MAX_SLOTS
    requires IrStep(m, slots, PredBegin(c), ir).Ok?
    ensures Matches(m, start, Lower(a, PredBegin(c)).value, IrStep(m, slots, PredBegin(c), ir).value, {})
  {
    hide WellFormed, SpillAddr, MemAgree, OperandReg, ReleaseOperand, Step, Run, PushMask;
    var w := Eval(c, ir.env).value;
    var (b, rs) := OperandReg(a, c).value;
    var lines := [Plain(PUSHM), Predicate(PRED, rs)];
    OperandsNeeded(a, a, PredBegin(c));
    OneOrderly(a, c, lines, {});
    OperandKeeps(a, c);
    OperandLive(m, start, a, ir, {}, c, w);
    var s := At(m, start, b);
    MaskSteps(m, s, rs);
    RunAppend(m, b.asm, lines, start);
    var d, st := Emit(b, lines), IrStep(m, slots, PredBegin(c), ir).value;
    MaskMatches(m, start, b, d, ir, st);
    ReleaseLive(m, start, d, st, {}, c, rs);
    var e := ReleaseOperand(d, c, rs);
    Unchanged(m, start, e, EnterPredicate(e), st, {});
  }

  // ----- any lane, any statement -----

  /** Where the allocator keeps a value between statements. */
  datatype Home = InReg(reg: Reg) | InSlot(slot: nat) | Nowhere

  function HomeOf(a: Alloc, v: string): Home {
    if v in a.regs && v !in a.backed then InReg(a.regs[v])
    else if v in a.spilled then InSlot(a.spilled[v])
    else Nowhere
  }

  predicate HomeHolds(m: Machine, home: Home, s: Lane, w: Word) {
    match home
    case InReg(r) => Lookup(s.regs, r) == w
    case InSlot(k) => Lookup(s.mem, SpillAddr(m, k)) == w
    case Nowhere => false
  }

  lemma HeldAtHome(m: Machine, a: Alloc, s: Lane, v: string, w: Word)
    requires Orderly(a, {})
    ensures HeldAt(m, a, s, v, w) <==> HomeHolds(m, HomeOf(a, v), s, w)
  {
    hide WellFormed, SpillAddr;
  }

  /** A value the lane may have defined by now. */
  predicate Tracked(a: Alloc, v: string) {
    (IsSlot(v) ==> v in a.backed) && (Needed(a, v) ==> HomeOf(a, v) != Nowhere)
  }

  /** Lowering did not move the value, if it is still needed. */
  predicate HomeKept(a: Alloc, b: Alloc, v: string) {
    Tracked(a, v) && Needed(b, v) ==> Needed(a, v) && HomeOf(b, v) == HomeOf(a, v)
  }

  /** Stack slots are memory-backed from their first assignment on. */
  ghost predicate SlotsBacked(a: Alloc, env: map<string, Word>) {
    forall v :: v in env && IsSlot(v) ==> v in a.backed
  }

  lemma {:induction false} Stopped(m: Machine, code: seq<Line>, s: Lane)
    requires s.status != Running
    ensures Run(m, code, s) == s
  {
    if code != [] { Stopped(m, code[..|code| - 1], s); }
  }

  /** The statements whose code depends on the lane's mask. */
  predicate Masked(stmt: Stmt) {
    stmt.Assign? || stmt.StoreTo? || stmt.PredBegin?
  }

  /** An idle lane runs a statement's code without moving, but for the mask stack. */
  lemma IdleRuns(m: Machine, start: Lane, a: Alloc, ir: IrLane, slots: nat, stmt: Stmt)
    requires Masked(stmt) && Lower(a, stmt).Ok? && IrStep(m, slots, stmt, ir).Ok?
    requires ir.status == Running && !ir.active
    requires var s := At(m, start, a); s.status == Running && !s.active && s.stack == ir.stack
    ensures var st := IrStep(m, slots, stmt, ir).value;
      && At(m, start, Lower(a, stmt).value) == At(m, start, a).(stack := st.stack, status := st.status)
      && st == ir.(stack := st.stack, status := st.status)
  {
    hide Run, LowerAssign, LowerStore, OperandReg, ReleaseOperand, EvalAssign, Touches;
    if stmt.PredBegin? {
      var (c, rs) := OperandReg(a, stmt.cond).value;
      var lines := [Plain(PUSHM), Predicate(PRED, rs)];
      OperandAppends(a, stmt.cond);
      AppendsRun(m, start, a, c);
      MaskSteps(m, At(m, start, a), rs);
      RunAppend(m, c.asm, lines, start);
      ReleaseAppends(Emit(c, lines), stmt.cond, rs);
    } else {
      LowerAppends(a, stmt);
      AppendsRun(m, start, a, Lower(a, stmt).value);
    }
  }

  lemma AppendsRun(m: Machine, start: Lane, a: Alloc, b: Alloc)
    requires Appends(a, b)
    requires !(At(m, start, a).status == Running && At(m, start, a).active)
    ensures At(m, start, b) == At(m, start, a)
  {
    assert b.asm == a.asm + b.asm[|a.asm|..];
    RunAppend(m, a.asm, b.asm[|a.asm|..], start);
    Idle(m, b.asm[|a.asm|..], At(m, start, a));
  }

  /** An idle lane keeps the relation when no value it has defined and still needs is moved. */
  lemma IdleMatches(m: Machine, start: Lane, a: Alloc, ir: IrLane, slots: nat, stmt: Stmt)
    requires Orderly(a, {}) && Matches(m, start, a, ir, {}) && ir.status == Running && !ir.active
    requires SlotsBacked(a, ir.env) && Masked(stmt) && Lower(a, stmt).Ok? && IrStep(m, slots, stmt, ir).Ok?
    requires forall v :: v in ir.env ==> HomeKept(a, Lower(a, stmt).value, v)
    ensures Matches(m, start, Lower(a, stmt).value, IrStep(m, slots, stmt, ir).value, {})
  {
    hide WellFormed, Run, SpillAddr, MemAgree, Lower, IrStep, HeldAt, Orderly;
    var b, st := Lower(a, stmt).value, IrStep(m, slots, stmt, ir).value;
    LowerOrderly(a, stmt);
    IdleRuns(m, start, a, ir, slots, stmt);
    MoreSlotsAgree(m, a.nextSlot, b.nextSlot, ir.mem, At(m, start, a).mem);
    var s, t := At(m, start, a), At(m, start, b);
    forall x | x in st.env && Needed(b, x) ensures HeldAt(m, b, t, x, st.env[x]) {
      HeldAtHome(m, a, s, x, st.env[x]);
      HeldAtHome(m, b, t, x, st.env[x]);
      assert Needed(a, x) ==> HeldAt(m, a, s, x, ir.env[x]);
    }
  }

  /** And only then: if lowering moves such a value, some idle lane loses it. */
  lemma MovedHomeBreaks(m: Machine, slots: nat, a: Alloc, stmt: Stmt, v: string) returns (start: Lane, ir: IrLane)
    requires Orderly(a, {}) && a.asm == [] && Masked(stmt) && Lower(a, stmt).Ok?
    requires Lower(a, stmt).value.nextSlot <= MAX_SLOTS && !HomeKept(a, Lower(a, stmt).value, v)
    ensures Matches(m, start, a, ir, {}) && ir.status == Running && !ir.active
    ensures ir.env.Keys == {v} && SlotsBacked(a, ir.env) && IrStep(m, slots, stmt, ir).Ok?
    ensures !Matches(m, start, Lower(a, stmt).value, IrStep(m, slots, stmt, ir).value, {})
  {
    hide WellFormed, SpillAddr, MemAgree, Lower, IrStep, HeldAt, Orderly, Run, HomeOf;
    var b := Lower(a, stmt).value;
    LowerOrderly(a, stmt);
    var one: Word := 1;
    var home := HomeOf(a, v);
    start := Lane(if Needed(a, v) && home.InReg? then map[home.reg := one] else map[],
                  if Needed(a, v) && home.InSlot? then map[SpillAddr(m, home.slot) := one] else map[],
                  false, [], Running);
    ir := IrLane(map[v := one], start.mem, false, [], Running);
    SameMemAgrees(m, a.nextSlot, start.mem);
    RunNothing(m, start);
    assert At(m, start, a) == start;
    HeldAtHome(m, a, start, v, one);
    IdleSteps(m, slots, stmt, ir);
    IdleRuns(m, start, a, ir, slots, stmt);
    var t := At(m, start, b);
    HeldAtHome(m, b, t, v, one);
    SlotsBelow(a, v);
    SlotsBelow(b, v);
    if HomeOf(b, v).InSlot? && home.InSlot? && SpillAddr(m, HomeOf(b, v).slot) == SpillAddr(m, home.slot) {
      SpillAddrInjective(m, HomeOf(b, v).slot, home.slot);
    }
    assert !HomeHolds(m, HomeOf(b, v), t, one);
    NotHeld(m, start, b, IrStep(m, slots, stmt, ir).value, v);
  }

  lemma NotHeld(m: Machine, start: Lane, b: Alloc, st: IrLane, v: string)
    requires v in st.env && st.status == Running && Needed(b, v) && !HeldAt(m, b, At(m, start, b), v, st.env[v])
    ensures !Matches(m, start, b, st, {})
  {
  }

  lemma SlotsBelow(a: Alloc, v: string)
    requires Orderly(a, {})
    ensures HomeOf(a, v).InSlot? ==> HomeOf(a, v).slot < a.nextSlot
  {
  }

  lemma SameMemAgrees(m: Machine, slots: nat, mem: map<nat, Word>)
    ensures MemAgree(m, slots, mem, mem)
  {
  }

  /** An idle lane with a free mask-stack entry never faults or raises in these statements. */
  lemma IdleSteps(m: Machine, slots: nat, stmt: Stmt, ir: IrLane)
    requires Masked(stmt) && ir.status == Running && !ir.active && |ir.stack| < MASK_STACK_DEPTH
    ensures IrStep(m, slots, stmt, ir).Ok?
    ensures IrStep(m, slots, stmt, ir).value.status == Running && IrStep(m, slots, stmt, ir).value.env == ir.env
  {
    hide EvalAssign, Touches;
  }

  lemma StoppedMatches(m: Machine, start: Lane, a: Alloc, ir: IrLane, stmt: Stmt)
    requires Orderly(a, {}) && Matches(m, start, a, ir, {}) && ir.status != Running && Lower(a, stmt).Ok?
    ensures Matches(m, start, Lower(a, stmt).value, ir, {})
  {
    hide WellFormed, Run, SpillAddr, MemAgree, Lower;
    var b := Lower(a, stmt).value;
    LowerOrderly(a, stmt);
    LowerCodes(a, stmt);
    var code := b.asm[|a.asm|..];
    assert b.asm == a.asm + code;
    RunAppend(m, a.asm, code, start);
    Stopped(m, code, At(m, start, a));
    MoreSlotsAgree(m, a.nextSlot, b.nextSlot, ir.mem, At(m, start, a).mem);
  }

  /** The remaining statements, which emit one line that no mask guards. */
  predicate MaskStmt(stmt: Stmt) {
    stmt.PredEnd? || stmt.Barrier? || stmt.Return? || stmt.Mark?
  }

  function MaskLine(stmt: Stmt): Line {
    match stmt
    case PredEnd => Plain(POPM)
    case Return => Plain(EXIT)
    case Mark(name) => LabelDef(name)
    case _ => Plain(BAR)
  }

  lemma MaskLineStep(m: Machine, s: Lane, slots: nat, stmt: Stmt, ir: IrLane)
    requires MaskStmt(stmt) && s.status == Running == ir.status && s.stack == ir.stack && s.active == ir.active
    ensures IrStep(m, slots, stmt, ir).Ok?
    ensures var st := IrStep(m, slots, stmt, ir).value;
      && Step(m, MaskLine(stmt), s) == s.(active := st.active, stack := st.stack, status := st.status)
      && st == ir.(active := st.active, stack := st.stack, status := st.status)
  {
    hide Step, IrStep;
    if stmt.PredEnd? { PopLineStep(m, s, slots, ir); } else { PlainLineStep(m, s, slots, stmt, ir); }
  }

  lemma PopLineStep(m: Machine, s: Lane, slots: nat, ir: IrLane)
    requires s.status == Running == ir.status && s.stack == ir.stack && s.active == ir.active
    ensures IrStep(m, slots, PredEnd, ir).Ok?
    ensures var st := IrStep(m, slots, PredEnd, ir).value;
      && Step(m, Plain(POPM), s) == s.(active := st.active, stack := st.stack, status := st.status)
      && st == ir.(active := st.active, stack := st.stack, status := st.status)
  {
  }

  lemma PlainLineStep(m: Machine, s: Lane, slots: nat, stmt: Stmt, ir: IrLane)
    requires MaskStmt(stmt) && !stmt.PredEnd?
    requires s.status == Running == ir.status && s.stack == ir.stack && s.active == ir.active
    ensures IrStep(m, slots, stmt, ir).Ok?
    ensures var st := IrStep(m, slots, stmt, ir).value;
      && Step(m, MaskLine(stmt), s) == s.(active := st.active, stack := st.stack, status := st.status)
      && st == ir.(active := st.active, stack := st.stack, status := st.status)
  {
    hide Execute, EvalAssign, Touches, WriteMem, PushMask, PopMask, Eval;
  }

  lemma MaskStmtMatches(m: Machine, start: Lane, a: Alloc, ir: IrLane, slots: nat, stmt: Stmt)
    requires Matches(m, start, a, ir, {}) && ir.status == Running && MaskStmt(stmt)
    requires IrStep(m, slots, stmt, ir).Ok?
    ensures Matches(m, start, Lower(a, stmt).value, IrStep(m, slots, stmt, ir).value, {})
  {
    hide Run, SpillAddr, MemAgree, Step, IrStep, Held;
    var b := if stmt.PredEnd? then ExitPredicate(a) else a;
    RunOne(m, a.asm, MaskLine(stmt), start);
    MaskLineStep(m, At(m, start, a), slots, stmt, ir);
    assert Lower(a, stmt).value == Emit(b, [MaskLine(stmt)]);
    MaskMatches(m, start, a, Emit(b, [MaskLine(stmt)]), ir, IrStep(m, slots, stmt, ir).value);
  }

  /** One statement, whatever the lane's mask: if the lane is inactive, lowering must not have
      moved a value that it has defined and that is still needed. */
  lemma LowerMatches(m: Machine, start: Lane, a: Alloc, ir: IrLane, slots: nat, stmt: Stmt)
    requires Orderly(a, {}) && Matches(m, start, a, ir, {}) && SlotsBacked(a, ir.env)
    requires Straight(stmt) && SafeSelfUse(a, stmt) && Counted(a, stmt)
    requires Lower(a, stmt).Ok? && Lower(a, stmt).value.nextSlot <= Min(slots, MAX_SLOTS)
    requires IrStep(m, slots, stmt, ir).Ok?
    requires ir.status == Running && !ir.active ==>
      forall v :: v in ir.env ==> HomeKept(a, Lower(a, stmt).value, v)
    ensures Matches(m, start, Lower(a, stmt).value, IrStep(m, slots, stmt, ir).value, {})
  {
    hide WellFormed, Run, SpillAddr, MemAgree, HomeKept, LowerAssign, LowerStore, EvalAssign, Touches;
    hide OperandReg, ReleaseOperand, Orderly;
    if ir.status != Running {
      StoppedMatches(m, start, a, ir, stmt);
    } else if MaskStmt(stmt) {
      MaskStmtMatches(m, start, a, ir, slots, stmt);
    } else if !ir.active {
      IdleMatches(m, start, a, ir, slots, stmt);
    } else {
      match stmt
      case Assign(dst, rhs) => AssignMatches(m, start, a, ir, slots, dst, rhs);
      case StoreTo(space, fmt, x, y) => StoreMatches(m, start, a, ir, slots, space, fmt, x, y);
      case PredBegin(c) => PredBeginMatches(m, start, a, ir, slots, c);
    }
  }

  // ----- branches -----

  /** Up to its branch line, a conditional branch's code does nothing the IR does not, and the branch
      tests a register that holds the IR's condition. */
  lemma BranchReads(m: Machine, start: Lane, a: Alloc, ir: IrLane, c: Operand, stmt: Stmt, w: Word)
    requires Orderly(a, {}) && Live(m, start, a, ir, {}) && Counted(a, stmt)
    requires (stmt.GotoZero? || stmt.GotoNonzero?) && stmt.cond == c && Eval(c, ir.env) == Some(w)
    requires Lower(a, stmt).Ok? && Lower(a, stmt).value.nextSlot <= MAX_SLOTS
    ensures var b, (d, rs) := Lower(a, stmt).value, OperandReg(a, c).value;
      && b.asm == d.asm + [Branch(if stmt.GotoZero? then BZ else BNZ, rs, stmt.target)]
      && Live(m, start, b.(asm := d.asm), ir, {}) && Lookup(At(m, start, d).regs, rs) == w
  {
    hide WellFormed, SpillAddr, MemAgree, OperandReg, ReleaseOperand, Held, Run;
    var (d, rs) := OperandReg(a, c).value;
    OperandsNeeded(a, a, stmt);
    OperandKeeps(a, c);
    ReleaseIgnoresCode(d, c, rs, TestLines(stmt, rs));
    OperandLive(m, start, a, ir, {}, c, w);
    ReleaseLive(m, start, d, ir, {}, c, rs);
    Unchanged(m, start, ReleaseOperand(d, c, rs), Lower(a, stmt).value.(asm := d.asm), ir, {});
  }

  /** What a release does to the parts of the state the relation reads. */
  lemma ReleaseShape(a: Alloc, v: string)
    ensures var b := Release(a, v);
      var gone := v !in a.backed && v !in a.persistent && Uses(a, v) <= 1;
      && b.regs == (if v in a.backed || gone then a.regs - {v} else a.regs)
      && b.spilled == (if gone then a.spilled - {v} else a.spilled)
      && b.uses == (if v in a.backed || v in a.persistent then a.uses else a.uses[v := Uses(a, v) - 1])
      && b.backed == a.backed && b.nextSlot == a.nextSlot && b.asm == a.asm
  {
    hide Without;
  }

  lemma ReleaseIgnoresCode(a: Alloc, o: Operand, r: Reg, lines: seq<Line>)
    ensures var b, c := ReleaseOperand(a, o, r), ReleaseOperand(Emit(a, lines), o, r);
      && c.regs == b.regs && c.spilled == b.spilled && c.backed == b.backed && c.uses == b.uses
      && c.nextSlot == b.nextSlot == a.nextSlot && c.asm == a.asm + lines && b.asm == a.asm
  {
    hide Release;
    if o.Val? {
      ReleaseShape(a, o.name);
      ReleaseShape(Emit(a, lines), o.name);
    }
  }
}
