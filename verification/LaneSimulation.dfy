/** How allocator states describe a lane that runs the code emitted so far. */
module LaneSimulation {
  import opened Words
  import opened Isa
  import opened MiniIr
  import opened Allocation
  import opened RegisterFile

  /** Slots beyond this need an ADDI immediate the 14-bit encoding does not have. */
  const MAX_SLOTS := 2048

  /** The lane after the code emitted so far. */
  function At(m: Machine, start: Lane, a: Alloc): Lane {
    Run(m, a.asm, start)
  }

  /** The lane holds w wherever the allocator says v is. */
  predicate HeldAt(m: Machine, a: Alloc, s: Lane, v: string, w: Word) {
    && Located(a, v)
    && (v in a.backed ==> v in a.spilled)
    && (v in a.regs ==> Lookup(s.regs, a.regs[v]) == w)
    && (v in a.spilled && (v !in a.regs || v in a.backed) ==>
          Lookup(s.mem, SpillAddr(m, a.spilled[v])) == w)
  }

  ghost predicate Held(m: Machine, a: Alloc, s: Lane, env: map<string, Word>, skip: set<string>) {
    forall v :: v in env && v !in skip && Needed(a, v) ==> HeldAt(m, a, s, v, env[v])
  }

  ghost predicate MemAgree(m: Machine, slots: nat, mem: map<nat, Word>, lane: map<nat, Word>) {
    forall w: nat :: !InSpillWindow(m, slots, w) ==> Lookup(lane, w) == Lookup(mem, w)
  }

  /** The simulation relation: same progress, same memory outside the spill window, and every
      value still needed where the allocator says it is; values in `skip` are exempt. */
  ghost predicate Matches(m: Machine, start: Lane, a: Alloc, ir: IrLane, skip: set<string>) {
    var s := At(m, start, a);
    && s.status == ir.status
    && MemAgree(m, a.nextSlot, ir.mem, s.mem)
    && (s.status == Running ==>
          s.active == ir.active && s.stack == ir.stack && Held(m, a, s, ir.env, skip))
  }

  ghost predicate Live(m: Machine, start: Lane, a: Alloc, ir: IrLane, skip: set<string>) {
    Matches(m, start, a, ir, skip) && ir.status == Running && ir.active
  }

  // ----- spill addresses -----

  lemma SpillAddrResidue(m: Machine, slot: nat)
    ensures SpillAddr(m, slot) == (Lookup(m.consts, SPILL_BASE) + m.thread(ThreadIdx) + 4 * slot) % ADDRESS_SPACE
  {
    var b, t := Lookup(m.consts, SPILL_BASE), m.thread(ThreadIdx) + 4 * slot;
    WrapResidue(b + Wrap(t));
    WrapResidue(b + t);
    var q := t / WORD_MODULUS;
    ResiduePeriod(b + Wrap(t), q * ADDRESS_SPACE);
  }

  lemma ResidueDiffers(base: nat, a: nat, b: nat)
    requires a < ADDRESS_SPACE && b < ADDRESS_SPACE && a != b
    ensures (base + a) % ADDRESS_SPACE != (base + b) % ADDRESS_SPACE
  {
  }

  lemma SpillAddrInjective(m: Machine, s: nat, t: nat)
    requires s < MAX_SLOTS && t < MAX_SLOTS && SpillAddr(m, s) == SpillAddr(m, t)
    ensures s == t
  {
    hide SpillAddr;
    SpillAddrResidue(m, s);
    SpillAddrResidue(m, t);
    if s != t {
      ResidueDiffers(Lookup(m.consts, SPILL_BASE) + m.thread(ThreadIdx), 4 * s, 4 * t);
    }
  }

  lemma AddressSteps(m: Machine, s: Lane, slot: nat)
    requires s.status == Running && s.active
    ensures var tid := m.thread(ThreadIdx);
      && Step(m, ReadThread(TIDX, SPILL_ADDR_REG),
           Step(m, LoadConst(SPILL_BASE_REG, Symbol(SPILL_BASE)), s))
         == s.(regs := s.regs[SPILL_BASE_REG := Lookup(m.consts, SPILL_BASE)][SPILL_ADDR_REG := tid])
  {
  }

  lemma AddStep(m: Machine, s: Lane, rd: Reg, r1: Reg, r2: Reg)
    requires s.status == Running && s.active
    ensures Step(m, Alu(ADD, None, rd, r1, r2), s)
      == s.(regs := s.regs[rd := Wrap(Lookup(s.regs, r1) + Lookup(s.regs, r2))])
  {
  }

  lemma OffsetStep(m: Machine, s: Lane, r: Reg, n: int)
    requires s.status == Running && s.active
    ensures Step(m, AluImm(ADDI, r, r, n), s) == s.(regs := s.regs[r := Wrap(Lookup(s.regs, r) + n)])
  {
  }

  /** The address code leaves the slot's address in the address register and nothing else. */
  lemma SpillAddrRun(m: Machine, s: Lane, slot: nat)
    requires s.status == Running && s.active
    ensures var t := Run(m, SpillAddrCode(slot), s);
      && t == s.(regs := t.regs)
      && (forall r: Reg :: r < 14 ==> Lookup(t.regs, r) == Lookup(s.regs, r))
      && Effective(Lookup(t.regs, SPILL_ADDR_REG), 0) == SpillAddr(m, slot)
  {
    hide Step, Run;
    var l1 := LoadConst(SPILL_BASE_REG, Symbol(SPILL_BASE));
    var l2 := ReadThread(TIDX, SPILL_ADDR_REG);
    var l3 := AluImm(ADDI, SPILL_ADDR_REG, SPILL_ADDR_REG, slot * 4);
    var l4 := Alu(ADD, None, SPILL_ADDR_REG, SPILL_BASE_REG, SPILL_ADDR_REG);
    var t2 := Run(m, [l1, l2], s);
    RunTwo(m, l1, l2, s);
    AddressSteps(m, s, slot);
    var mid := if slot != 0 then [l3] else [];
    var t3 := Run(m, mid, t2);
    RunTwo(m, l3, l4, t2);
    RunNothing(m, t2);
    OffsetStep(m, t2, SPILL_ADDR_REG, slot * 4);
    RunAppend(m, [l1, l2], mid, s);
    RunOne(m, [l1, l2] + mid, l4, s);
    AddStep(m, t3, SPILL_ADDR_REG, SPILL_BASE_REG, SPILL_ADDR_REG);
    assert Lookup(t3.regs, SPILL_ADDR_REG) == Wrap(m.thread(ThreadIdx) + 4 * slot);
  }

  lemma WordStore(m: Machine, s: Lane, op: Opcode, r: Reg, value: Reg)
    requires s.status == Running && s.active
    ensures Step(m, Store(op, None, r, 0, value), s)
      == s.(mem := s.mem[Effective(Lookup(s.regs, r), 0) := Lookup(s.regs, value)])
  {
    hide WriteMem;
    WholeWordAccess(s.mem, Effective(Lookup(s.regs, r), 0), Lookup(s.regs, value));
  }

  lemma WordLoad(m: Machine, s: Lane, op: Opcode, rd: Reg, r: Reg)
    requires s.status == Running && s.active
    ensures Step(m, Load(op, None, rd, r, 0), s)
      == s.(regs := s.regs[rd := Lookup(s.mem, Effective(Lookup(s.regs, r), 0))])
  {
    hide ReadMem;
    WholeWordAccess(s.mem, Effective(Lookup(s.regs, r), 0), 0);
  }

  /** Two lanes that differ in compiler registers only. */
  predicate SameValues(s: Lane, t: Lane) {
    && t == s.(regs := t.regs, mem := t.mem)
    && forall r: Reg :: r < 14 ==> Lookup(t.regs, r) == Lookup(s.regs, r)
  }

  /** Spill code stores the register in the value's slot and touches no value register. */
  lemma SpillStoreRun(m: Machine, start: Lane, a: Alloc, v: string, reg: Reg)
    requires At(m, start, a).status == Running && At(m, start, a).active && reg < 14
    ensures var s, b := At(m, start, a), SpillStore(a, v, reg);
      var t := At(m, start, b);
      && SameValues(s, t)
      && t.mem == s.mem[SpillAddr(m, b.spilled[v]) := Lookup(s.regs, reg)]
  {
    hide Step, SpillAddrCode, SpillAddr;
    var s := At(m, start, a);
    var (b, slot) := SpillSlot(a, v);
    var code, store := SpillAddrCode(slot), Store(STS, None, SPILL_ADDR_REG, 0, reg);
    SpillAddrRun(m, s, slot);
    RunAppend(m, a.asm, code, start);
    RunOne(m, a.asm + code, store, start);
    assert a.asm + (code + [store]) == a.asm + code + [store];
    WordStore(m, Run(m, code, s), STS, SPILL_ADDR_REG, reg);
  }

  /** Reload code copies the slot into the register and touches no other value register. */
  lemma SpillLoadRun(m: Machine, start: Lane, a: Alloc, reg: Reg, v: string)
    requires At(m, start, a).status == Running && At(m, start, a).active && v in a.spilled
    ensures var s, b := At(m, start, a), SpillLoad(a, reg, v);
      var t := At(m, start, b);
      && b == a.(asm := b.asm)
      && t == s.(regs := t.regs)
      && Lookup(t.regs, reg) == Lookup(s.mem, SpillAddr(m, a.spilled[v]))
      && forall r: Reg :: r < 14 && r != reg ==> Lookup(t.regs, r) == Lookup(s.regs, r)
  {
    hide Step, SpillAddrCode, SpillAddr;
    var s := At(m, start, a);
    var slot := a.spilled[v];
    var code, load := SpillAddrCode(slot), Load(LDS, None, reg, SPILL_ADDR_REG, 0);
    SpillAddrRun(m, s, slot);
    RunAppend(m, a.asm, code, start);
    RunOne(m, a.asm + code, load, start);
    assert a.asm + (code + [load]) == a.asm + code + [load];
    WordLoad(m, Run(m, code, s), LDS, reg, SPILL_ADDR_REG);
  }

  // ----- what the allocator's own traffic leaves alone -----

  /** k keeps its register, if pinned, and its slot, and neither content has changed. */
  ghost predicate Untouched(m: Machine, start: Lane, a: Alloc, b: Alloc, k: string) {
    var s, t := At(m, start, a), At(m, start, b);
    && (k in a.regs && k in a.pinned ==>
          k in b.regs && b.regs[k] == a.regs[k] && Lookup(t.regs, a.regs[k]) == Lookup(s.regs, a.regs[k]))
    && (k in a.spilled && (k in a.regs ==> k in a.pinned) ==>
          && k in b.spilled && b.spilled[k] == a.spilled[k]
          && Lookup(t.mem, SpillAddr(m, a.spilled[k])) == Lookup(s.mem, SpillAddr(m, a.spilled[k])))
  }

  lemma EvictUntouched(m: Machine, start: Lane, a: Alloc, v: string, k: string)
    requires WellFormed(a) && v in a.regs && (v == k ==> v !in a.pinned)
    requires SpillStore(a, v, a.regs[v]).nextSlot <= MAX_SLOTS
    requires At(m, start, a).status == Running && At(m, start, a).active
    ensures Untouched(m, start, a, FreeReg(SpillStore(a, v, a.regs[v]), v), k)
    ensures SameValues(At(m, start, a), At(m, start, FreeReg(SpillStore(a, v, a.regs[v]), v)))
  {
    hide SpillAddr, Run, SpillStore, WellFormed, Without;
    var b := SpillStore(a, v, a.regs[v]);
    Apart(a, v, v);
    Apart(a, k, v);
    SpillStoreRun(m, start, a, v, a.regs[v]);
    SpillStoreFields(a, v, a.regs[v]);
    SpillStoreKeeps(a, v, a.regs[v]);
    Apart(b, k, v);
    if k != v && k in a.spilled && SpillAddr(m, a.spilled[k]) == SpillAddr(m, b.spilled[v]) {
      SpillAddrInjective(m, a.spilled[k], b.spilled[v]);
    }
  }

  lemma SpareUntouched(m: Machine, start: Lane, a: Alloc, k: string)
    requires WellFormed(a) && Spare(a).nextSlot <= MAX_SLOTS
    requires At(m, start, a).status == Running && At(m, start, a).active
    ensures Untouched(m, start, a, Spare(a), k)
    ensures SameValues(At(m, start, a), At(m, start, Spare(a)))
  {
    hide SpillAddr, Run, SpillAddrCode, WellFormed, Without, Untouched, SameValues;
    var victim := Victim(a, a.order);
    if a.free == [] && victim.Some? && victim.value in a.regs {
      VictimSpillable(a, a.order);
      assert Spare(a) == FreeReg(SpillStore(a, victim.value, a.regs[victim.value]), victim.value);
      EvictUntouched(m, start, a, victim.value, k);
    } else {
      SameUntouched(m, start, a, k);
    }
  }

  lemma SameUntouched(m: Machine, start: Lane, a: Alloc, k: string)
    ensures Untouched(m, start, a, a, k) && SameValues(At(m, start, a), At(m, start, a))
  {
    hide SpillAddr, Run;
  }

  lemma UseUntouched(m: Machine, start: Lane, a: Alloc, v: string, k: string)
    requires WellFormed(a) && Use(a, v).Ok? && Use(a, v).value.0.nextSlot <= MAX_SLOTS
    requires At(m, start, a).status == Running && At(m, start, a).active
    requires k in a.regs ==> k in a.pinned
    ensures Untouched(m, start, a, Use(a, v).value.0, k)
  {
    hide SpillAddr, Run, SpillAddrCode, WellFormed, Spare, Without;
    if v !in a.regs {
      var b := Spare(a);
      SpareKeeps(a);
      SpareFields(a);
      SpareUntouched(m, start, a, k);
      var reg := b.free[0];
      Apart(b, k, k);
      SpillLoadRun(m, start, b.(free := b.free[1..]), reg, v);
    }
  }

  // ----- the simulation survives the allocator's own traffic -----

  lemma SlotStoreAgrees(m: Machine, slots: nat, more: nat, mem: map<nat, Word>, lane: map<nat, Word>, k: nat, w: Word)
    requires MemAgree(m, slots, mem, lane) && slots <= more && k < more
    ensures MemAgree(m, more, mem, lane[SpillAddr(m, k) := w])
  {
    hide SpillAddr;
    forall x: nat | !InSpillWindow(m, more, x) ensures Lookup(lane[SpillAddr(m, k) := w], x) == Lookup(mem, x) {
      assert SpillAddr(m, k) != x;
      assert !InSpillWindow(m, slots, x);
    }
  }

  /** Storing v in its slot leaves every other value where it was. */
  lemma EvictHeldAt(m: Machine, a: Alloc, c: Alloc, s: Lane, t: Lane, v: string, x: string, w: Word)
    requires v in a.regs && x != v && HeldAt(m, a, s, x, w)
    requires c.regs == a.regs - {v} && c.backed == a.backed && v in c.spilled && c.spilled[v] < MAX_SLOTS
    requires x in a.regs ==> a.regs[x] < 13
    requires x in a.spilled ==>
      x in c.spilled && a.spilled[x] == c.spilled[x] != c.spilled[v] && c.spilled[x] < MAX_SLOTS
    requires SameValues(s, t) && t.mem == s.mem[SpillAddr(m, c.spilled[v]) := Lookup(s.regs, a.regs[v])]
    ensures HeldAt(m, c, t, x, w)
  {
    hide SpillAddr;
    if x in a.spilled && SpillAddr(m, a.spilled[x]) == SpillAddr(m, c.spilled[v]) {
      SpillAddrInjective(m, a.spilled[x], c.spilled[v]);
      assert false;
    }
  }

  /** Storing a resident value in its slot and giving its register back. */
  lemma EvictLive(m: Machine, start: Lane, a: Alloc, ir: IrLane, skip: set<string>, v: string)
    requires WellFormed(a) && Live(m, start, a, ir, skip) && v in a.regs
    requires v in skip ==> v in ir.env && Lookup(At(m, start, a).regs, a.regs[v]) == ir.env[v]
    requires SpillStore(a, v, a.regs[v]).nextSlot <= MAX_SLOTS
    ensures Live(m, start, FreeReg(SpillStore(a, v, a.regs[v]), v), ir, skip - {v})
    ensures Lookup(At(m, start, SpillStore(a, v, a.regs[v])).regs, SCRATCH_REG)
            == Lookup(At(m, start, a).regs, SCRATCH_REG)
  {
    hide SpillAddr, Run, SpillAddrCode, WellFormed, MemAgree, Without, Held;
    var b := SpillStore(a, v, a.regs[v]);
    var c := FreeReg(b, v);
    Apart(a, v, v);
    SpillStoreRun(m, start, a, v, a.regs[v]);
    SpillStoreKeeps(a, v, a.regs[v]);
    Apart(b, v, v);
    var s, t := At(m, start, a), At(m, start, c);
    SlotStoreAgrees(m, a.nextSlot, b.nextSlot, ir.mem, s.mem, b.spilled[v], Lookup(s.regs, a.regs[v]));
    EvictHeld(m, a, b, c, s, t, v, ir.env, skip);
  }

  lemma EvictHeld(m: Machine, a: Alloc, b: Alloc, c: Alloc, s: Lane, t: Lane, v: string, env: map<string, Word>,
                  skip: set<string>)
    requires WellFormed(a) && WellFormed(b) && v in a.regs && Held(m, a, s, env, skip)
    requires b == SpillStore(a, v, a.regs[v]) && c == FreeReg(b, v) && b.nextSlot <= MAX_SLOTS
    requires v in skip ==> v in env && Lookup(s.regs, a.regs[v]) == env[v]
    requires SameValues(s, t) && t.mem == s.mem[SpillAddr(m, c.spilled[v]) := Lookup(s.regs, a.regs[v])]
    ensures Held(m, c, t, env, skip - {v})
  {
    hide SpillAddr, SpillAddrCode, WellFormed, Without;
    Apart(b, v, v);
    forall x | x in env && x !in skip - {v} && Needed(c, x) ensures HeldAt(m, c, t, x, env[x]) {
      assert x !in skip ==> HeldAt(m, a, s, x, env[x]);
      if x != v { Apart(a, x, v); Apart(b, x, v); EvictHeldAt(m, a, c, s, t, v, x, env[x]); }
    }
  }

  /** Finding a spare register: at most one unpinned value moves to its slot. */
  lemma SpareLive(m: Machine, start: Lane, a: Alloc, ir: IrLane, skip: set<string>)
    requires WellFormed(a) && Live(m, start, a, ir, skip)
    requires forall v :: v in skip && v in a.regs ==> v in a.pinned
    requires Spare(a).nextSlot <= MAX_SLOTS
    ensures Live(m, start, Spare(a), ir, skip)
    ensures Lookup(At(m, start, Spare(a)).regs, SCRATCH_REG) == Lookup(At(m, start, a).regs, SCRATCH_REG)
  {
    hide SpillAddr, Run, SpillAddrCode, WellFormed, Matches, Without;
    var victim := Victim(a, a.order);
    if a.free == [] && victim.Some? && victim.value in a.regs {
      var v, b := victim.value, Spare(a);
      VictimSpillable(a, a.order);
      assert b == FreeReg(SpillStore(a, v, a.regs[v]), v);
      EvictLive(m, start, a, ir, skip, v);
      assert skip - {v} == skip;
    }
  }

  /** Reading a value: it is found, or reloaded into a spare register. */
  lemma UseLive(m: Machine, start: Lane, a: Alloc, ir: IrLane, skip: set<string>, v: string)
    requires WellFormed(a) && Live(m, start, a, ir, skip) && v in ir.env && v !in skip && Needed(a, v)
    requires forall p :: p in skip && p in a.regs ==> p in a.pinned
    requires Use(a, v).Ok? && Use(a, v).value.0.nextSlot <= MAX_SLOTS
    ensures var (b, reg) := Use(a, v).value;
      && Live(m, start, b, ir, skip) && reg < 13
      && Lookup(At(m, start, b).regs, reg) == ir.env[v]
      && Lookup(At(m, start, b).regs, SCRATCH_REG) == Lookup(At(m, start, a).regs, SCRATCH_REG)
  {
    hide SpillAddr, Run, SpillAddrCode, WellFormed, MemAgree, Spare, Without;
    Apart(a, v, v);
    assert HeldAt(m, a, At(m, start, a), v, ir.env[v]);
    if v !in a.regs {
      var b := Spare(a);
      SpareLive(m, start, a, ir, skip);
      SpareKeeps(a);
      SpareFields(a);
      var reg := b.free[0];
      var c := b.(free := b.free[1..]);
      var e := Settle(SpillLoad(c, reg, v), v, reg);
      assert Use(a, v) == Ok((e, reg));
      UseKeeps(a, v);
      Apart(e, v, v);
      SpillLoadRun(m, start, c, reg, v);
      assert HeldAt(m, b, At(m, start, b), v, ir.env[v]);
      forall x | x in ir.env && x !in skip && Needed(e, x) ensures HeldAt(m, e, At(m, start, e), x, ir.env[x]) {
        Apart(b, x, v);
        assert HeldAt(m, b, At(m, start, b), x, ir.env[x]);
      }
    }
  }

  /** Naming a value to be defined: it gets a register, and is exempt until it is written. */
  lemma DefineLive(m: Machine, start: Lane, a: Alloc, ir: IrLane, v: string)
    requires WellFormed(a) && Live(m, start, a, ir, {})
    requires Define(a, v).Ok? && Define(a, v).value.0.nextSlot <= MAX_SLOTS
    ensures Live(m, start, Define(a, v).value.0, ir, {v}) && Define(a, v).value.1 < 13
  {
    hide WellFormed, Matches, Spare, Without, IsSlot, Run, Located;
    var b := if IsSlot(v) then Back(a, v) else a;
    SameFile(a, b);
    DefineKeeps(a, v);
    Apart(Define(a, v).value.0, v, v);
    if v in b.regs {
      ExemptLive(m, start, a, Settle(b, v, b.regs[v]), ir, v, {});
    } else {
      var c := if v in b.backed then b else b.(spilled := b.spilled - {v});
      ForgetSlotKeeps(b, v);
      ExemptLive(m, start, a, c, ir, v, {});
      SpareLive(m, start, c, ir, {v});
      SpareFields(c);
      var d := Spare(c);
      ExemptLive(m, start, d, Settle(d.(free := d.free[1..]), v, d.free[0]), ir, v, {v});
    }
  }

  /** Changing what the allocator says about v alone only exempts v. */
  lemma ExemptLive(m: Machine, start: Lane, a: Alloc, b: Alloc, ir: IrLane, v: string, skip: set<string>)
    requires Live(m, start, a, ir, skip) && skip <= {v}
    requires b.asm == a.asm && b.nextSlot == a.nextSlot
    requires forall x :: x != v ==> (x in b.regs <==> x in a.regs) && (x in a.regs ==> b.regs[x] == a.regs[x])
    requires forall x :: x != v ==>
      (x in b.spilled <==> x in a.spilled) && (x in a.spilled ==> b.spilled[x] == a.spilled[x])
    requires forall x :: x != v ==> (x in b.backed <==> x in a.backed)
    requires b.uses == a.uses
    ensures Live(m, start, b, ir, {v})
  {
    hide SpillAddr, Run, MemAgree;
    forall x | x in ir.env && x !in {v} && Needed(b, x) ensures HeldAt(m, b, At(m, start, b), x, ir.env[x]) {
      assert HeldAt(m, a, At(m, start, a), x, ir.env[x]);
    }
  }

  /** Releasing a value keeps everything still needed. */
  lemma ReleaseLive(m: Machine, start: Lane, a: Alloc, ir: IrLane, skip: set<string>, o: Operand, r: Reg)
    requires Matches(m, start, a, ir, skip)
    ensures Matches(m, start, ReleaseOperand(a, o, r), ir, skip)
  {
    hide SpillAddr, Run, MemAgree, Release;
    if o.Val? {
      var b := Release(a, o.name);
      ReleaseForgets(a, o.name);
      ReleaseFields(a, o.name);
      var s := At(m, start, a);
      if s.status == Running {
        forall x | x in ir.env && x !in skip && Needed(b, x) ensures HeldAt(m, b, s, x, ir.env[x]) {
          assert HeldAt(m, a, s, x, ir.env[x]);
        }
      }
    }
  }

  lemma ReleaseFields(a: Alloc, v: string)
    ensures var b := Release(a, v);
      b.asm == a.asm && b.nextSlot == a.nextSlot && b.backed == a.backed
  {
  }
}
