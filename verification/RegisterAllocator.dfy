/** The register allocator and the lowering of IR sections, as they update their state in place. */
module RegisterAllocator {
  import opened Words
  import opened Isa
  import opened MiniIr
  import opened Allocation
  import opened RegisterFile
  import opened RegisterSupply
  import opened SectionLowering

  class Allocator {
    var remainingUses: map<string, int>
    var valueRegs: map<string, Reg>
    var regOrder: seq<string>
    var freeRegs: seq<Reg>
    var spilledValues: map<string, nat>
    var valueDepths: map<string, nat>
    var persistentValues: set<string>
    var memoryBacked: set<string>
    var nextSpillSlot: nat
    var scratchRegs: seq<Reg>
    var pinnedValues: set<string>
    var predDepth: nat
    var asm: seq<Line>

    function View(): Alloc
      reads this
    {
      Alloc(remainingUses, valueRegs, regOrder, freeRegs, spilledValues, valueDepths, persistentValues,
            memoryBacked, nextSpillSlot, scratchRegs, pinnedValues, predDepth, asm)
    }

    constructor (uses: map<string, int>)
      ensures View() == Fresh(uses)
    {
      remainingUses := uses;
      valueRegs := map[];
      regOrder := [];
      freeRegs := RegsBelow(13);
      spilledValues := map[];
      valueDepths := map[];
      persistentValues, memoryBacked, pinnedValues := {}, {}, {};
      nextSpillSlot := 0;
      scratchRegs := [SCRATCH_REG];
      predDepth := 0;
      asm := [];
    }

    // ----- spill code -----

    method SpillSlotOf(v: string) returns (slot: nat)
      modifies this
      ensures (View(), slot) == SpillSlot(old(View()), v)
    {
      if v in spilledValues {
        return spilledValues[v];
      }
      slot := nextSpillSlot;
      nextSpillSlot := nextSpillSlot + 1;
      spilledValues := spilledValues[v := slot];
    }

    method EmitSpillAddr(slot: nat)
      modifies this`asm
      ensures asm == old(asm) + SpillAddrCode(slot)
    {
      asm := asm + [LoadConst(SPILL_BASE_REG, Symbol(SPILL_BASE))];
      asm := asm + [ReadThread(TIDX, SPILL_ADDR_REG)];
      if slot != 0 {
        asm := asm + [AluImm(ADDI, SPILL_ADDR_REG, SPILL_ADDR_REG, slot * 4)];
      }
      asm := asm + [Alu(ADD, None, SPILL_ADDR_REG, SPILL_BASE_REG, SPILL_ADDR_REG)];
    }

    method EmitSpillStore(v: string, reg: Reg)
      modifies this
      ensures View() == SpillStore(old(View()), v, reg)
    {
      var slot := SpillSlotOf(v);
      EmitSpillAddr(slot);
      asm := asm + [Store(STS, None, SPILL_ADDR_REG, 0, reg)];
    }

    method EmitSpillLoad(reg: Reg, v: string)
      modifies this
      ensures View() == SpillLoad(old(View()), reg, v)
    {
      var slot := SpillSlotOf(v);
      EmitSpillAddr(slot);
      asm := asm + [Load(LDS, None, reg, SPILL_ADDR_REG, 0)];
    }

    method PopReg(v: string)
      modifies this
      ensures View() == DropReg(old(View()), v)
    {
      regOrder := Without(regOrder, v);
      valueRegs := valueRegs - {v};
    }

    /** Move the first spillable value, in dictionary order, to its slot. */
    method SpillOneValue()
      modifies this
      ensures View() == SpillOne(old(View()))
    {
      var candidate: Option<string> := None;
      var i := 0;
      while i < |regOrder| && candidate.None?
        invariant i <= |regOrder|
        invariant Victim(View(), regOrder) == if candidate.Some? then candidate else Victim(View(), regOrder[i..])
        invariant View() == old(View())
        decreases |regOrder| - i, candidate.None?
      {
        var v := regOrder[i];
        var depth := if v in valueDepths then valueDepths[v] else 0;
        if v in valueRegs && v !in pinnedValues && depth == predDepth {
          candidate := Some(v);
        } else {
          i := i + 1;
        }
      }
      if candidate.Some? && candidate.value in valueRegs {
        var reg := valueRegs[candidate.value];
        PopReg(candidate.value);
        EmitSpillStore(candidate.value, reg);
        freeRegs := [reg] + freeRegs;
      }
    }

    method AcquireValueReg() returns (reg: Outcome<Reg>)
      modifies this
      ensures match Acquire(old(View()))
        case Raise => reg == Raise
        case Ok((a, r)) => reg == Ok(r) && View() == a
    {
      if freeRegs == [] {
        SpillOneValue();
      }
      if freeRegs == [] {
        return Raise;
      }
      reg := Ok(freeRegs[0]);
      freeRegs := freeRegs[1..];
    }

    method SettleIn(v: string, reg: Reg)
      modifies this
      ensures View() == Settle(old(View()), v, reg)
    {
      valueRegs := valueRegs[v := reg];
      regOrder := Without(regOrder, v) + [v];
      valueDepths := valueDepths[v := predDepth];
    }

    // ----- defining, using and releasing values -----

    method DefineValue(v: string) returns (reg: Outcome<Reg>)
      modifies this
      ensures match Define(old(View()), v)
        case Raise => reg == Raise
        case Ok((a, r)) => reg == Ok(r) && View() == a
    {
      if IsSlot(v) {
        persistentValues := persistentValues + {v};
        memoryBacked := memoryBacked + {v};
      }
      if v in valueRegs {
        var oldReg := valueRegs[v];
        SettleIn(v, oldReg);
        return Ok(oldReg);
      }
      if v !in memoryBacked {
        spilledValues := spilledValues - {v};
      }
      reg := AcquireValueReg();
      if reg.Ok? {
        SettleIn(v, reg.value);
      }
    }

    method UseValue(v: string) returns (reg: Outcome<Reg>)
      modifies this
      ensures match Use(old(View()), v)
        case Raise => reg == Raise
        case Ok((a, r)) => reg == Ok(r) && View() == a
    {
      if v in valueRegs {
        return Ok(valueRegs[v]);
      }
      if v !in spilledValues {
        return Raise;
      }
      reg := AcquireValueReg();
      if reg.Ok? {
        EmitSpillLoad(reg.value, v);
        SettleIn(v, reg.value);
      }
    }

    method FreeRegOf(v: string)
      modifies this
      ensures View() == FreeReg(old(View()), v)
    {
      if v in valueRegs {
        var reg := valueRegs[v];
        PopReg(v);
        freeRegs := [reg] + freeRegs;
      }
    }

    method ReleaseAfterUse(v: string)
      modifies this
      ensures View() == Release(old(View()), v)
    {
      if v in memoryBacked {
        FreeRegOf(v);
        valueDepths := valueDepths - {v};
        return;
      }
      if v in persistentValues {
        return;
      }
      remainingUses := remainingUses[v := Uses(View(), v) - 1];
      if remainingUses[v] > 0 {
        return;
      }
      FreeRegOf(v);
      spilledValues := spilledValues - {v};
      valueDepths := valueDepths - {v};
    }

    method ExitPredicateScope()
      modifies this
      ensures View() == ExitPredicate(old(View()))
    {
      if predDepth > 0 {
        predDepth := predDepth - 1;
      }
      var d := predDepth;
      valueDepths := map v | v in valueDepths :: if valueDepths[v] > d then d else valueDepths[v];
    }

    // ----- operands -----

    method EmitByte(reg: Reg, byte: nat)
      modifies this`asm
      ensures asm == old(asm) + ByteCode(reg, byte)
    {
      asm := asm + [AluImm(SHLI, reg, reg, 8)];
      if byte != 0 {
        asm := asm + [AluImm(ORI, reg, reg, byte)];
      }
    }

    method EmitBytes(reg: Reg, w: Word)
      modifies this`asm
      ensures asm == old(asm) + BytesCode(reg, w, 3)
    {
      hide ByteOf, ByteCode, Pow2;
      var k: nat := 3;
      while k > 0
        invariant 0 <= k <= 3
        invariant old(asm) + BytesCode(reg, w, 3) == asm + BytesCode(reg, w, k)
      {
        k := k - 1;
        EmitByte(reg, ByteOf(w, k));
      }
    }

    /** Build a literal: one MOVI when it fits, byte by byte otherwise. */
    method EmitLoadImmediate(reg: Reg, n: int)
      modifies this`asm
      ensures asm == old(asm) + LiteralCode(reg, n)
    {
      hide ByteOf, BytesCode;
      if Fits14(n) {
        asm := asm + [MoveImm(reg, n)];
        return;
      }
      asm := asm + [MoveImm(reg, ByteOf(Wrap(n), 3))];
      EmitBytes(reg, Wrap(n));
    }

    method OperandRegister(o: Operand) returns (reg: Outcome<Reg>)
      modifies this
      ensures match OperandReg(old(View()), o)
        case Raise => reg == Raise
        case Ok((a, r)) => reg == Ok(r) && View() == a
    {
      if o.Val? {
        reg := UseValue(o.name);
        return;
      }
      if scratchRegs == [] {
        return Raise;
      }
      var scratch := scratchRegs[0];
      scratchRegs := scratchRegs[1..];
      EmitLoadImmediate(scratch, o.n);
      reg := Ok(scratch);
    }

    method ReleaseAnOperand(o: Operand, reg: Reg)
      modifies this
      ensures View() == ReleaseOperand(old(View()), o, reg)
    {
      if o.Val? {
        ReleaseAfterUse(o.name);
      } else {
        scratchRegs := [reg] + scratchRegs;
      }
    }

    method LoadTwo(x: Operand, y: Operand) returns (r1: Outcome<Reg>, r2: Outcome<Reg>)
      modifies this
      ensures match LoadPair(old(View()), x, y)
        case Raise => r1 == Raise || r2 == Raise
        case Ok((a, a1, a2)) => r1 == Ok(a1) && r2 == Ok(a2) && View() == a
    {
      r2 := Raise;
      r1 := OperandRegister(x);
      if r1.Ok? {
        if x.Val? {
          pinnedValues := pinnedValues + {x.name};
        }
        r2 := OperandRegister(y);
      }
    }

    method ReleaseTwo(x: Operand, y: Operand, r1: Reg, r2: Reg)
      modifies this
      ensures View() == ReleasePair(old(View()), x, y, r1, r2)
    {
      if x.Val? {
        pinnedValues := pinnedValues - {x.name};
      }
      ReleaseAnOperand(x, r1);
      ReleaseAnOperand(y, r2);
    }

    // ----- statements -----

    method LowerRightHandSide(dst: string, rd: Reg, rhs: Rhs) returns (ok: bool)
      modifies this
      ensures match LowerRhs(old(View()), dst, rd, rhs)
        case Raise => !ok
        case Ok(a) => ok && View() == a
    {
      hide SpillStore, DropReg, LiteralCode, OperandReg, LoadPair, ReleaseOperand, ReleasePair, ValueOpcode;
      match rhs {
        case Arg(p) =>
          persistentValues := persistentValues + {dst};
          memoryBacked := memoryBacked + {dst};
          asm := asm + [LoadConst(rd, Symbol(ArgSymbol(p)))];
          EmitSpillStore(dst, rd);
          PopReg(dst);
          valueDepths := valueDepths - {dst};
          freeRegs := [rd] + freeRegs;
        case Shared(s) =>
          asm := asm + [LoadConst(rd, Symbol(SharedSymbol(s)))];
        case Const(n) =>
          EmitLoadImmediate(rd, n);
        case Thread(t) =>
          asm := asm + [ReadThread(ThreadOpcode(t), rd)];
        case Unary(u, fmt, x) =>
          var rs := OperandRegister(x);
          if rs.Raise? { return false; }
          asm := asm + [UnaryLine(u, fmt, rd, rs.value)];
          ReleaseAnOperand(x, rs.value);
        case Binary(op, fmt, x, y) =>
          var opcode := ValueOpcode(op, fmt);
          if opcode.None? { return false; }
          var r1, r2 := LoadTwo(x, y);
          if r1.Raise? || r2.Raise? { return false; }
          asm := asm + [Alu(opcode.value, fmt, rd, r1.value, r2.value)];
          ReleaseTwo(x, y, r1.value, r2.value);
        case Unknown =>
          return false;
      }
      ok := true;
    }

    method FinishAssignment(dst: string)
      modifies this
      ensures View() == Finish(old(View()), dst)
    {
      if dst in memoryBacked && dst in valueRegs {
        var reg := valueRegs[dst];
        PopReg(dst);
        EmitSpillStore(dst, reg);
        valueDepths := valueDepths - {dst};
        freeRegs := [reg] + freeRegs;
      }
      pinnedValues := pinnedValues - {dst};
    }

    method LowerAssignment(dst: string, rhs: Rhs) returns (ok: bool)
      modifies this
      ensures match LowerAssign(old(View()), dst, rhs)
        case Raise => !ok
        case Ok(a) => ok && View() == a
    {
      var rd := DefineValue(dst);
      if rd.Raise? { return false; }
      pinnedValues := pinnedValues + {dst};
      ok := LowerRightHandSide(dst, rd.value, rhs);
      if ok {
        FinishAssignment(dst);
      }
    }

    method LowerOneOperand(cond: Operand, stmt: Stmt) returns (ok: bool)
      modifies this
      ensures match LowerTest(old(View()), cond, stmt)
        case Raise => !ok
        case Ok(a) => ok && View() == a
    {
      var rs := OperandRegister(cond);
      if rs.Raise? { return false; }
      asm := asm + TestLines(stmt, rs.value);
      ReleaseAnOperand(cond, rs.value);
      ok := true;
    }

    method LowerStatement(stmt: Stmt) returns (ok: bool)
      modifies this
      ensures match Lower(old(View()), stmt)
        case Raise => !ok
        case Ok(a) => ok && View() == a
      ensures Orderly(old(View()), {}) ==>
                (ok <==> && !NoSuchOperation(stmt) && !TwoLiterals(stmt) && !Unplaced(old(View()), stmt)
                         && |Names(stmt) + Around(old(View()))| <= 13)
    {
      ghost var before := View();
      hide LowerAssign, LoadPair, ReleasePair, LowerTest;
      hide Orderly, NoSuchOperation, TwoLiterals, Unplaced, Names, Around;
      ok := true;
      match stmt {
        case Assign(dst, rhs) => ok := LowerAssignment(dst, rhs);
        case StoreTo(space, fmt, addr, value) =>
          var r1, r2 := LoadTwo(addr, value);
          ok := r1.Ok? && r2.Ok?;
          if ok {
            asm := asm + [Store(if space.Global? then STG else STS, fmt, r1.value, 0, r2.value)];
            ReleaseTwo(addr, value, r1.value, r2.value);
          }
        case PredBegin(c) =>
          ok := LowerOneOperand(c, stmt);
          if ok { predDepth := predDepth + 1; }
        case PredEnd =>
          ExitPredicateScope();
          asm := asm + [Plain(POPM)];
        case Barrier => asm := asm + [Plain(BAR)];
        case Return => asm := asm + [Plain(EXIT)];
        case Mark(l) => asm := asm + [LabelDef(l)];
        case Goto(l) => asm := asm + [Jump(BRA, l)];
        case GotoZero(c, _) => ok := LowerOneOperand(c, stmt);
        case GotoNonzero(c, _) => ok := LowerOneOperand(c, stmt);
      }
      if Orderly(before, {}) { LowerNeedsThirteen(before, stmt); }
    }
  }

  /** Count the textual uses of every value of a section. */
  method ValueOperands(section: seq<Stmt>) returns (uses: map<string, int>)
    ensures uses == CountUses(section)
  {
    uses := map[];
    for i := 0 to |section|
      invariant uses == CountUses(section[..i])
    {
      var ops := Operands(section[i]);
      ghost var before := uses;
      for j := 0 to |ops|
        invariant uses == AddUses(before, ops[..j])
      {
        uses := AddUse(uses, ops[j]);
        assert ops[..j + 1][..j] == ops[..j];
      }
      assert ops[..|ops|] == ops;
      assert section[..i + 1][..i] == section[..i];
    }
    assert section[..|section|] == section;
  }

  /** Lower one section with a fresh allocator. */
  method LowerSection(section: seq<Stmt>) returns (asm: Outcome<seq<Line>>)
    ensures match LowerAll(Fresh(CountUses(section)), section)
      case Raise => asm == Raise
      case Ok(a) => asm == Ok(a.asm)
    ensures FitsRegisters(START, section) ==> asm.Ok?
  {
    hide FitsRegisters, Lower, CountUses;
    if FitsRegisters(START, section) { SectionLowers(section); }
    var uses := ValueOperands(section);
    var allocator := new Allocator(uses);
    var i := 0;
    while i < |section|
      invariant i <= |section|
      invariant LowerAll(Fresh(uses), section) == LowerAll(allocator.View(), section[i..])
    {
      var ok := allocator.LowerStatement(section[i]);
      if !ok {
        return Raise;
      }
      i := i + 1;
    }
    asm := Ok(allocator.asm);
  }
}
