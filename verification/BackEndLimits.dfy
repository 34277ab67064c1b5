/** Where the back end's guarantee ends, by concrete programs. */
module BackEndLimits {
  import opened Words
  import opened Isa
  import opened MiniIr
  import opened Allocation
  import opened LaneSimulation
  import opened Literals
  import opened EmittedCode
  import opened BackEnd
  import opened Compiler

  function Board(): Machine {
    Machine(map[SPILL_BASE := 0x4000], (t: ThreadValue) => 0,
            (op: Arith, f: Format, x: Word, y: Word) => None,
            (x: Word) => x, (x: Word) => x)
  }

  const ONE_LANE := Lane(map[], map[], true, [], Running)

  /** The compiled section, run on the board. */
  function Compiled(section: seq<Stmt>): Outcome<Lane> {
    var a :- LowerAll(Fresh(CountUses(section)), section);
    Ok(Run(Board(), a.asm, ONE_LANE))
  }

  // ----- thirteen constants fill the register file -----

  function Name(i: nat): (v: string)
    requires i < 26
    ensures |v| == 3 && v[2] as int == 'a' as int + i
  {
    "%t" + ['a' + i as char]
  }

  function Fill(n: nat): seq<Stmt>
    requires n <= 13
  {
    if n == 0 then [] else Fill(n - 1) + [Assign(Name(n - 1), Const(n))]
  }

  function FillRegs(n: nat): map<string, Reg>
    requires n <= 13
    ensures forall i: nat :: i < 26 ==> (Name(i) in FillRegs(n) <==> i < n)
  {
    if n == 0 then map[] else FillRegs(n - 1)[Name(n - 1) := n - 1]
  }

  function FillOrder(n: nat): (r: seq<string>)
    requires n <= 13
    ensures |r| == n && forall i :: 0 <= i < n ==> r[i] == Name(i)
  {
    if n == 0 then [] else FillOrder(n - 1) + [Name(n - 1)]
  }

  function FillDepths(n: nat): map<string, nat>
    requires n <= 13
  {
    if n == 0 then map[] else FillDepths(n - 1)[Name(n - 1) := 0]
  }

  function FillCode(n: nat): seq<Line>
    requires n <= 13
  {
    if n == 0 then [] else FillCode(n - 1) + [MoveImm(n - 1, n)]
  }

  function FillLane(n: nat): map<Reg, Word>
    requires n <= 13
  {
    if n == 0 then map[] else FillLane(n - 1)[n - 1 := n]
  }

  function FillEnv(n: nat): map<string, Word>
    requires n <= 13
  {
    if n == 0 then map[] else FillEnv(n - 1)[Name(n - 1) := n]
  }

  function Filled(u: map<string, int>, n: nat): Alloc
    requires n <= 13
  {
    Alloc(u, FillRegs(n), FillOrder(n), RegsBelow(13)[n..], map[], FillDepths(n), {}, {}, 0, [SCRATCH_REG], {}, 0,
          FillCode(n))
  }

  lemma {:induction false} WithoutAbsent(order: seq<string>, v: string)
    requires v !in order
    ensures Without(order, v) == order
  {
    if order != [] { WithoutAbsent(order[1..], v); }
  }

  /** A constant in a new temporary, with a register free. */
  lemma ConstLowers(a: Alloc, v: string, k: nat)
    requires a.free != [] && v !in a.regs && v !in a.order && !IsSlot(v) && v !in a.backed && k < 0x2000
    requires v !in a.spilled && v !in a.pinned
    ensures Lower(a, Assign(v, Const(k)))
            == Ok(a.(regs := a.regs[v := a.free[0]], order := a.order + [v], free := a.free[1..],
                     depths := a.depths[v := a.depth], asm := a.asm + [MoveImm(a.free[0], k)]))
  {
    WithoutAbsent(a.order, v);
    assert a.(spilled := a.spilled - {v}) == a;
    var b := Settle(a.(free := a.free[1..]), v, a.free[0]);
    assert Define(a, v) == Ok((b, a.free[0]));
    hide Define, IsSlot;
    assert Unpin(Pin(b, v), v) == b;
  }

  lemma FillStep(u: map<string, int>, n: nat)
    requires n < 13
    ensures Lower(Filled(u, n), Assign(Name(n), Const(n + 1))) == Ok(Filled(u, n + 1))
  {
    hide Lower;
    var a, v := Filled(u, n), Name(n);
    assert !IsSlot(v) by { assert "%slot"[1] != v[1]; }
    assert a.free[0] == n && a.free[1..] == RegsBelow(13)[n + 1..];
    ConstLowers(a, v, n + 1);
  }

  lemma {:induction false} FillAll(u: map<string, int>, n: nat)
    requires n <= 13
    ensures LowerAll(Fresh(u), Fill(n)) == Ok(Filled(u, n))
    ensures Run(Board(), FillCode(n), ONE_LANE) == ONE_LANE.(regs := FillLane(n))
    ensures IrRun(Board(), 1, Fill(n), StartOf(ONE_LANE)) == Ok(StartOf(ONE_LANE).(env := FillEnv(n)))
  {
    hide Lower, Step, IrStep;
    if n == 0 {
      assert RegsBelow(13)[0..] == RegsBelow(13);
    } else {
      FillAll(u, n - 1);
      FillStep(u, n - 1);
      var last := [Assign(Name(n - 1), Const(n))];
      LowerAllAppend(Fresh(u), Fill(n - 1), last);
      IrRunAppend(Board(), 1, Fill(n - 1), last, StartOf(ONE_LANE));
      RunOne(Board(), FillCode(n - 1), MoveImm(n - 1, n), ONE_LANE);
      FillStepRuns(n);
      FillStepMeans(n);
    }
  }

  lemma FillStepRuns(n: nat)
    requires 0 < n <= 13
    ensures Step(Board(), MoveImm(n - 1, n), ONE_LANE.(regs := FillLane(n - 1))) == ONE_LANE.(regs := FillLane(n))
  {
    hide Step, Board;
    MoveImmStep(Board(), ONE_LANE.(regs := FillLane(n - 1)), n - 1, n);
  }

  lemma FillStepMeans(n: nat)
    requires 0 < n <= 13
    ensures IrStep(Board(), 1, Assign(Name(n - 1), Const(n)), StartOf(ONE_LANE).(env := FillEnv(n - 1)))
      == Ok(StartOf(ONE_LANE).(env := FillEnv(n)))
  {
    hide Board, Name;
  }

  // ----- a lane that drops out of a predicate -----

  /** Fourteen constants spill the first one; under a predicate every lane fails, a store reloads
      it into the register of the fourteenth; after the predicate it is stored again. */
  const AFTER_FILL: seq<Stmt> := [
    Assign(Name(13), Const(14)),
    StoreTo(Global, None, Lit(100), Val(Name(13))),
    PredBegin(Lit(0)),
    StoreTo(Global, None, Lit(101), Val(Name(0))),
    PredEnd,
    StoreTo(Global, None, Lit(102), Val(Name(0)))]

  /** The allocator between these statements, as far as they read it: `holder` is the value
      in r0, the register they share. */
  predicate Sharing(a: Alloc, u: map<string, int>, holder: Option<string>, depth: nat) {
    && a.backed == {} && a.persistent == {} && a.pinned == {} && a.scratch == [SCRATCH_REG] && a.depth == depth
    && a.spilled == map[Name(0) := 0]
    && Uses(a, Name(0)) == Uses(Fresh(u), Name(0)) && Uses(a, Name(13)) <= 1
    && (if holder.Some? then a.free == [] && holder.value in a.regs && a.regs[holder.value] == 0
        else a.free == [0] && Name(13) !in a.regs)
    && (holder != Some(Name(0)) ==> Name(0) !in a.regs)
  }

  const SPILL_CODE := SpillAddrCode(0) + [Store(STS, None, SPILL_ADDR_REG, 0, 0)]
  const RELOAD_CODE := SpillAddrCode(0) + [Load(LDS, None, 0, SPILL_ADDR_REG, 0)]

  const CODE_0: seq<Line> := SPILL_CODE + [MoveImm(0, 14)]
  const CODE_1: seq<Line> := [MoveImm(SCRATCH_REG, 100), Store(STG, None, SCRATCH_REG, 0, 0)]
  const ENTER_CODE: seq<Line> := [MoveImm(SCRATCH_REG, 0), Plain(PUSHM), Predicate(PRED, SCRATCH_REG)]
  const MASKED_CODE: seq<Line> := [MoveImm(SCRATCH_REG, 101)] + RELOAD_CODE + [Store(STG, None, SCRATCH_REG, 0, 0)]
  const CODE_2: seq<Line> := ENTER_CODE + MASKED_CODE + [Plain(POPM)]
  const CODE_3: seq<Line> := [MoveImm(SCRATCH_REG, 102), Store(STG, None, SCRATCH_REG, 0, 0)]

  lemma FirstSpillable(u: map<string, int>)
    ensures Spillable(Filled(u, 13), Name(0)) && Filled(u, 13).regs[Name(0)] == 0
  {
    FirstStays(13);
  }

  lemma {:induction false} FirstStays(n: nat)
    requires 0 < n <= 13
    ensures Name(0) in FillDepths(n) && FillDepths(n)[Name(0)] == 0 && FillRegs(n)[Name(0)] == 0
  {
    if n > 1 { FirstStays(n - 1); }
  }

  lemma DefineFourteenth(u: map<string, int>) returns (b: Alloc)
    requires Uses(Fresh(u), Name(13)) == 1 && Uses(Fresh(u), Name(0)) == 2
    ensures Lower(Filled(u, 13), AFTER_FILL[0]) == Ok(b)
    ensures Sharing(b, u, Some(Name(13)), 0)
    ensures b.asm == FillCode(13) + CODE_0
  {
    hide SpillAddrCode, Without, FillCode, FillOrder, FillDepths, FillRegs;
    assert Name(0) != Name(13);
    hide Name, Define;
    var e := SpareFirst(u);
    b := Lower(Filled(u, 13), AFTER_FILL[0]).value;
  }

  /** Defining a temporary when the first value in order has to make room. */
  lemma FirstMakesRoom(a: Alloc, x: string, v: string) returns (e: Alloc)
    requires a.order != [] && a.order[0] == x && Spillable(a, x) && a.regs[x] == 0 && a.free == []
    requires v !in a.regs && v != x && !IsSlot(v) && v !in a.backed && a.spilled == map[] && a.nextSlot == 0
    ensures Define(a, v) == Ok((e, 0))
    ensures e.asm == a.asm + SPILL_CODE && e.spilled == map[x := 0] && e.regs == (a.regs - {x})[v := 0]
    ensures e == a.(regs := e.regs, order := e.order, spilled := e.spilled, depths := e.depths, nextSlot := 1,
                    asm := e.asm)
  {
    hide SpillAddrCode, Without;
    assert a.(spilled := a.spilled - {v}) == a;
    e := Define(a, v).value.0;
  }

  lemma SpareFirst(u: map<string, int>) returns (e: Alloc)
    ensures Define(Filled(u, 13), Name(13)) == Ok((e, 0))
    ensures e.asm == FillCode(13) + SPILL_CODE && e.spilled == map[Name(0) := 0]
    ensures e.regs == (FillRegs(13) - {Name(0)})[Name(13) := 0]
    ensures e == Filled(u, 13).(regs := e.regs, order := e.order, spilled := e.spilled, depths := e.depths,
                                nextSlot := 1, asm := e.asm)
  {
    hide FillCode, FillOrder, FillDepths, FillRegs, Define, Spillable, SPILL_CODE;
    assert Name(0) != Name(13);
    FirstSpillable(u);
    assert !IsSlot(Name(13)) by { assert "%slot"[1] != Name(13)[1]; }
    assert RegsBelow(13)[13..] == [];
    hide Name;
    e := FirstMakesRoom(Filled(u, 13), Name(0), Name(13));
  }

  lemma StoreFourteenth(a: Alloc, u: map<string, int>) returns (b: Alloc)
    requires Sharing(a, u, Some(Name(13)), 0)
    ensures Lower(a, AFTER_FILL[1]) == Ok(b) && Sharing(b, u, None, 0)
    ensures b.asm == a.asm + CODE_1
  {
    assert Name(0) != Name(13);
    hide Lower, Name, Release;
    ResidentStore(a, 100, Name(13));
    b := Release(Emit(a, CODE_1), Name(13));
    LastUse(Emit(a, CODE_1), Name(13));
    assert a.spilled - {Name(13)} == a.spilled;
  }

  /** The last use of a temporary gives its register back. */
  lemma LastUse(a: Alloc, v: string)
    requires v in a.regs && v !in a.backed && v !in a.persistent && Uses(a, v) <= 1
    ensures var b := Release(a, v);
      && b.uses == a.uses[v := Uses(a, v) - 1] && b.regs == a.regs - {v} && b.free == [a.regs[v]] + a.free
      && b == a.(uses := b.uses, regs := b.regs, order := b.order, free := b.free, spilled := a.spilled - {v},
                 depths := b.depths)
  {
    hide Without;
  }

  /** Storing a value that is in a register at a literal address. */
  lemma ResidentStore(a: Alloc, n: int, v: string)
    requires v in a.regs && a.scratch == [SCRATCH_REG] && 0 <= n < 0x2000
    ensures var code := [MoveImm(SCRATCH_REG, n), Store(STG, None, SCRATCH_REG, 0, a.regs[v])];
            Lower(a, StoreTo(Global, None, Lit(n), Val(v))) == Ok(Release(Emit(a, code), v))
  {
    hide Release;
    var loaded := Emit(a.(scratch := []), [MoveImm(SCRATCH_REG, n)]);
    assert a.scratch[1..] == [];
    assert LoadPair(a, Lit(n), Val(v)) == Ok((loaded, SCRATCH_REG, a.regs[v]));
    var store := Store(STG, None, SCRATCH_REG, 0, a.regs[v]);
    assert loaded.asm + [store] == a.asm + [MoveImm(SCRATCH_REG, n), store];
    assert [SCRATCH_REG] + loaded.scratch == a.scratch;
    assert LowerStore(a, Global, None, Lit(n), Val(v))
        == Ok(ReleasePair(Emit(loaded, [store]), Lit(n), Val(v), SCRATCH_REG, a.regs[v]));
  }

  lemma EnterFalse(a: Alloc, u: map<string, int>) returns (b: Alloc)
    requires Sharing(a, u, None, 0)
    ensures Lower(a, AFTER_FILL[2]) == Ok(b) && Sharing(b, u, None, 1)
    ensures b.asm == a.asm + ENTER_CODE
  {
    b := Lower(a, AFTER_FILL[2]).value;
  }

  lemma ReloadUnderMask(a: Alloc, u: map<string, int>) returns (b: Alloc)
    requires Sharing(a, u, None, 1) && Uses(Fresh(u), Name(0)) == 2
    ensures Lower(a, AFTER_FILL[3]) == Ok(b)
    ensures Name(0) in b.regs && b.regs[Name(0)] == 0 && b.scratch == [SCRATCH_REG]
    ensures b.backed == {} && b.persistent == {}
    ensures b.asm == a.asm + MASKED_CODE
  {
    hide SpillAddrCode, Name, Without, LoadPair;
    var c := ReloadPair(a, 101, Name(0));
    b := Lower(a, AFTER_FILL[3]).value;
  }

  /** The operands of that store: its literal address, then the reloaded value. */
  lemma ReloadPair(a: Alloc, n: int, v: string) returns (c: Alloc)
    requires v !in a.regs && a.spilled == map[v := 0] && a.free == [0] && a.scratch == [SCRATCH_REG] && 0 <= n < 0x2000
    ensures LoadPair(a, Lit(n), Val(v)) == Ok((c, SCRATCH_REG, 0))
    ensures c.regs == a.regs[v := 0] && c.asm == a.asm + ([MoveImm(SCRATCH_REG, n)] + RELOAD_CODE)
    ensures c == a.(regs := c.regs, order := c.order, free := [], depths := c.depths, asm := c.asm, scratch := [])
  {
    hide Use, RELOAD_CODE;
    var loaded := Emit(a.(scratch := a.scratch[1..]), [MoveImm(SCRATCH_REG, n)]);
    assert OperandReg(a, Lit(n)) == Ok((loaded, SCRATCH_REG));
    c := Reloaded(loaded, v);
    assert loaded.asm + RELOAD_CODE == a.asm + ([MoveImm(SCRATCH_REG, n)] + RELOAD_CODE);
  }

  lemma Reloaded(a: Alloc, v: string) returns (b: Alloc)
    requires v !in a.regs && a.spilled == map[v := 0] && a.free == [0]
    ensures Use(a, v) == Ok((b, 0)) && b.regs == a.regs[v := 0] && b.asm == a.asm + RELOAD_CODE
    ensures b == a.(regs := b.regs, order := b.order, free := [], depths := b.depths, asm := b.asm)
  {
    hide SpillAddrCode, Without;
    b := Use(a, v).value.0;
  }

  lemma StoreAgain(a: Alloc) returns (b: Alloc)
    requires Name(0) in a.regs && a.regs[Name(0)] == 0 && a.scratch == [SCRATCH_REG]
    requires a.backed == {} && a.persistent == {}
    ensures LowerAll(a, AFTER_FILL[4..]) == Ok(b)
    ensures b.asm == a.asm + [Plain(POPM)] + CODE_3
  {
    var c := Lower(a, AFTER_FILL[4]).value;
    ResidentStore(c, 102, Name(0));
    hide Lower;
    b := Release(Emit(c, CODE_3), Name(0));
    assert AFTER_FILL[4..][1..] == [AFTER_FILL[5]];
    assert LowerAll(c, [AFTER_FILL[5]]) == Ok(b);
  }

  predicate Fourteen(s: Lane) {
    s.status == Running && s.active && s.stack == [] && Lookup(s.regs, 0) == 14
  }

  lemma SpillRuns(s: Lane)
    requires s.status == Running && s.active && s.stack == []
    ensures Fourteen(Run(Board(), SPILL_CODE + [MoveImm(0, 14)], s))
  {
    hide Step, SpillAddrCode;
    var m := Board();
    SpillAddrRun(m, s, 0);
    RunOne(m, SpillAddrCode(0), Store(STS, None, SPILL_ADDR_REG, 0, 0), s);
    WordStore(m, Run(m, SpillAddrCode(0), s), STS, SPILL_ADDR_REG, 0);
    RunOne(m, SPILL_CODE, MoveImm(0, 14), s);
    MoveImmStep(m, Run(m, SPILL_CODE, s), 0, 14);
  }

  /** A literal address, then a store of r0. */
  lemma StoreRuns(s: Lane, address: int)
    requires Fourteen(s) && 0 <= address < 0x1000
    ensures var t := Run(Board(), [MoveImm(SCRATCH_REG, address), Store(STG, None, SCRATCH_REG, 0, 0)], s);
      Fourteen(t) && Lookup(t.mem, address) == 14
  {
    hide Step;
    var m := Board();
    RunTwo(m, MoveImm(SCRATCH_REG, address), Store(STG, None, SCRATCH_REG, 0, 0), s);
    MoveImmStep(m, s, SCRATCH_REG, address);
    WordStore(m, Step(m, MoveImm(SCRATCH_REG, address), s), STG, SCRATCH_REG, 0);
  }

  /** A false predicate around reload code leaves the lane's registers alone. */
  lemma MaskedReload(s: Lane)
    requires Fourteen(s)
    ensures Fourteen(Run(Board(), [MoveImm(SCRATCH_REG, 0), Plain(PUSHM), Predicate(PRED, SCRATCH_REG)]
      + ([MoveImm(SCRATCH_REG, 101)] + RELOAD_CODE + [Store(STG, None, SCRATCH_REG, 0, 0)]) + [Plain(POPM)], s))
  {
    hide Step, SpillAddrCode;
    var m := Board();
    var zero := [MoveImm(SCRATCH_REG, 0)];
    var mask := [Plain(PUSHM), Predicate(PRED, SCRATCH_REG)];
    var body := [MoveImm(SCRATCH_REG, 101)] + RELOAD_CODE + [Store(STG, None, SCRATCH_REG, 0, 0)];
    RunTwo(m, MoveImm(SCRATCH_REG, 0), MoveImm(SCRATCH_REG, 0), s);
    MoveImmStep(m, s, SCRATCH_REG, 0);
    var s1 := Run(m, zero, s);
    MaskSteps(m, s1, SCRATCH_REG);
    var s2 := Run(m, mask, s1);
    SpillCodeMaskFree(0);
    Idle(m, body, s2);
    MaskLineStep(m, s2, 0, PredEnd, IrLane(map[], map[], false, s2.stack, Running));
    RunAppend(m, zero, mask, s);
    assert zero + mask == [MoveImm(SCRATCH_REG, 0), Plain(PUSHM), Predicate(PRED, SCRATCH_REG)];
    RunAppend(m, zero + mask, body, s);
    RunOne(m, zero + mask + body, Plain(POPM), s);
  }

  const DROP_OUT := Fill(13) + AFTER_FILL

  lemma AfterFillCode(u: map<string, int>)
    requires Uses(Fresh(u), Name(13)) == 1 && Uses(Fresh(u), Name(0)) == 2
    ensures var a := LowerAll(Filled(u, 13), AFTER_FILL);
      a.Ok? && a.value.asm == FillCode(13) + CODE_0 + CODE_1 + CODE_2 + CODE_3
  {
    hide *;
    var a1 := DefineFourteenth(u);
    var a2 := StoreFourteenth(a1, u);
    var a3 := EnterFalse(a2, u);
    var a4 := ReloadUnderMask(a3, u);
    var a6 := StoreAgain(a4);
    AfterFillLowers(Filled(u, 13), a1, a2, a3, a4);
    MaskedParts();
    assert a4.asm + [Plain(POPM)] == FillCode(13) + CODE_0 + CODE_1 + CODE_2;
  }

  lemma MaskedParts()
    ensures CODE_2 == ENTER_CODE + MASKED_CODE + [Plain(POPM)]
  {
  }

  lemma DropOutCode()
    ensures var a := LowerAll(Fresh(CountUses(DROP_OUT)), DROP_OUT);
      a.Ok? && a.value.asm == FillCode(13) + CODE_0 + CODE_1 + CODE_2 + CODE_3
  {
    hide LowerAll, Fill, Filled, Uses, FillCode;
    var u := CountUses(DROP_OUT);
    FillAll(u, 13);
    LowerAllAppend(Fresh(u), Fill(13), AFTER_FILL);
    DropOutCounts();
    AfterFillCode(u);
  }

  lemma RunFive(m: Machine, s: Lane, p0: seq<Line>, p1: seq<Line>, p2: seq<Line>, p3: seq<Line>, p4: seq<Line>)
    ensures Run(m, p0 + p1 + p2 + p3 + p4, s) == Run(m, p4, Run(m, p3, Run(m, p2, Run(m, p1, Run(m, p0, s)))))
  {
    hide Run;
    RunAppend(m, p0, p1, s);
    RunAppend(m, p0 + p1, p2, s);
    RunAppend(m, p0 + p1 + p2, p3, s);
    RunAppend(m, p0 + p1 + p2 + p3, p4, s);
  }

  lemma DropOutCompiled()
    ensures var s := Compiled(DROP_OUT); s.Ok? && Lookup(s.value.mem, 102) == 14
  {
    hide Run, LowerAll, FillLane, FillCode, Fill, Board, Fourteen, CountUses;
    hide CODE_0, CODE_1, CODE_2, CODE_3, DROP_OUT;
    FillAll(map[], 13);
    DropOutCode();
    RunFive(Board(), ONE_LANE, FillCode(13), CODE_0, CODE_1, CODE_2, CODE_3);
    AfterFillRuns(ONE_LANE.(regs := FillLane(13)));
  }

  lemma AfterFillRuns(s: Lane)
    requires s.status == Running && s.active && s.stack == []
    ensures var m := Board();
      Lookup(Run(m, CODE_3, Run(m, CODE_2, Run(m, CODE_1, Run(m, CODE_0, s)))).mem, 102) == 14
  {
    hide Run, SpillAddrCode, Board, Fourteen;
    var m := Board();
    SpillRuns(s);
    StoreRuns(Run(m, CODE_0, s), 100);
    MaskedReload(Run(m, CODE_1, Run(m, CODE_0, s)));
    StoreRuns(Run(m, CODE_2, Run(m, CODE_1, Run(m, CODE_0, s))), 102);
  }

  lemma AfterFillLowers(a0: Alloc, a1: Alloc, a2: Alloc, a3: Alloc, a4: Alloc)
    requires Lower(a0, AFTER_FILL[0]) == Ok(a1) && Lower(a1, AFTER_FILL[1]) == Ok(a2)
    requires Lower(a2, AFTER_FILL[2]) == Ok(a3) && Lower(a3, AFTER_FILL[3]) == Ok(a4)
    ensures LowerAll(a0, AFTER_FILL) == LowerAll(a4, AFTER_FILL[4..])
  {
    hide Lower;
    assert AFTER_FILL[1..][1..] == AFTER_FILL[2..];
    assert AFTER_FILL[2..][1..] == AFTER_FILL[3..];
    assert AFTER_FILL[3..][1..] == AFTER_FILL[4..];
    assert LowerAll(a0, AFTER_FILL) == LowerAll(a1, AFTER_FILL[1..]);
    assert LowerAll(a1, AFTER_FILL[1..]) == LowerAll(a2, AFTER_FILL[2..]);
    assert LowerAll(a2, AFTER_FILL[2..]) == LowerAll(a3, AFTER_FILL[3..]);
  }

  lemma {:induction false} FillCounts(n: nat, v: string)
    requires n <= 13
    ensures Count(Fill(n), v) == 0
  {
    if n > 0 {
      FillCounts(n - 1, v);
      CountAppend(Fill(n - 1), [Assign(Name(n - 1), Const(n))], v);
    }
  }

  lemma DropOutCounts()
    ensures var a := Fresh(CountUses(DROP_OUT)); Uses(a, Name(13)) == 1 && Uses(a, Name(0)) == 2
  {
    hide Fill, AFTER_FILL, Count, CountUses;
    CountUsesCounts(DROP_OUT, Name(13));
    CountUsesCounts(DROP_OUT, Name(0));
    CountAppend(Fill(13), AFTER_FILL, Name(13));
    CountAppend(Fill(13), AFTER_FILL, Name(0));
    FillCounts(13, Name(13));
    FillCounts(13, Name(0));
    AfterFillCounts(Name(13));
    AfterFillCounts(Name(0));
    assert Name(0) != Name(13);
  }

  lemma AfterFillCounts(v: string)
    ensures Count(AFTER_FILL, v) == (if v == Name(13) then 1 else 0) + (if v == Name(0) then 2 else 0)
  {
    assert Name(0) != Name(13);
    hide Name, Count;
    CountSix(AFTER_FILL, v);
  }

  lemma CountSix(stmts: seq<Stmt>, v: string)
    requires |stmts| == 6
    ensures Count(stmts, v) == Mentions(stmts[0], v) + Mentions(stmts[1], v) + Mentions(stmts[2], v)
                               + Mentions(stmts[3], v) + Mentions(stmts[4], v) + Mentions(stmts[5], v)
  {
    hide Count, Mentions;
    assert stmts[0..] == stmts && stmts[6..] == [];
    CountFrom(stmts, 0, v);
    CountFrom(stmts, 1, v);
    CountFrom(stmts, 2, v);
    CountFrom(stmts, 3, v);
    CountFrom(stmts, 4, v);
    CountFrom(stmts, 5, v);
    CountNothing(v);
  }

  lemma CountFrom(stmts: seq<Stmt>, i: nat, v: string)
    requires i < |stmts|
    ensures Count(stmts[i..], v) == Mentions(stmts[i], v) + Count(stmts[i + 1..], v)
  {
    assert stmts[i..][1..] == stmts[i + 1..];
  }

  lemma CountNothing(v: string)
    ensures Count([], v) == 0
  {
  }

  lemma LowWordsClear(addr: Word)
    requires addr < 0x4000
    ensures !Touches(Board(), 1, None, addr)
  {
    assert SpillAddr(Board(), 0) == 0x4000;
  }

  lemma {:induction false} FillEnvFirst(n: nat)
    requires 0 < n <= 13
    ensures Name(0) in FillEnv(n) && FillEnv(n)[Name(0)] == 1
  {
    if n > 1 { FillEnvFirst(n - 1); }
  }

  lemma IrStoreStep(st: IrLane, addr: Word, v: string)
    requires st.status == Running && st.active && v in st.env && addr < 0x4000
    ensures IrStep(Board(), 1, StoreTo(Global, None, Lit(addr), Val(v)), st)
            == Ok(st.(mem := st.mem[addr := st.env[v]]))
  {
    hide WriteMem, Touches;
    LowWordsClear(addr);
    WholeWordAccess(st.mem, addr, st.env[v]);
  }

  lemma IrOtherSteps(st: IrLane, v: string, n: Word)
    requires st.status == Running && st.active && st.stack == []
    ensures IrStep(Board(), 1, Assign(v, Const(n)), st) == Ok(st.(env := st.env[v := n]))
    ensures var out := st.(active := false, stack := [true]);
      && IrStep(Board(), 1, PredBegin(Lit(0)), st) == Ok(out)
      && IrStep(Board(), 1, StoreTo(Global, None, Lit(101), Val(Name(0))), out) == Ok(out)
      && IrStep(Board(), 1, PredEnd, out) == Ok(st)
  {
    assert [] + [true] == [true];
  }

  lemma AfterFillMeaning(s0: IrLane)
    requires s0.status == Running && s0.active && s0.stack == [] && Name(0) in s0.env && s0.env[Name(0)] == 1
    ensures var r := IrRun(Board(), 1, AFTER_FILL, s0);
      r.Ok? && r.value.status == Running && Lookup(r.value.mem, 102) == 1
  {
    hide IrStep, IrRun;
    var m := Board();
    IrOtherSteps(s0, Name(13), 14);
    var s1 := s0.(env := s0.env[Name(13) := 14]);
    IrStoreStep(s1, 100, Name(13));
    var s2 := s1.(mem := s1.mem[100 := 14]);
    IrOtherSteps(s2, Name(13), 14);
    var s3 := s2.(active := false, stack := [true]);
    IrStoreStep(s2, 102, Name(0));
    IrRunSix(m, AFTER_FILL, s0, s1, s2, s3, s3, s2, s2.(mem := s2.mem[102 := 1]));
  }

  lemma DropOutMeaning()
    ensures var r := IrRun(Board(), 1, DROP_OUT, StartOf(ONE_LANE));
      r.Ok? && r.value.status == Running && Lookup(r.value.mem, 102) == 1
  {
    hide IrRun, FillEnv, Fill;
    FillAll(map[], 13);
    FillEnvFirst(13);
    IrRunAppend(Board(), 1, Fill(13), AFTER_FILL, StartOf(ONE_LANE));
    AfterFillMeaning(StartOf(ONE_LANE).(env := FillEnv(13)));
  }

  lemma IrRunSix(m: Machine, p: seq<Stmt>, s0: IrLane, s1: IrLane, s2: IrLane, s3: IrLane, s4: IrLane,
                 s5: IrLane, s6: IrLane)
    requires |p| == 6
    requires IrStep(m, 1, p[0], s0) == Ok(s1) && IrStep(m, 1, p[1], s1) == Ok(s2) && IrStep(m, 1, p[2], s2) == Ok(s3)
    requires IrStep(m, 1, p[3], s3) == Ok(s4) && IrStep(m, 1, p[4], s4) == Ok(s5) && IrStep(m, 1, p[5], s5) == Ok(s6)
    ensures IrRun(m, 1, p, s0) == Ok(s6)
  {
    hide IrStep;
    assert p[1..][1..] == p[2..] && p[2..][1..] == p[3..] && p[3..][1..] == p[4..];
    assert p[4..][1..] == p[5..] && p[5..][1..] == [];
    assert IrRun(m, 1, p[5..], s5) == Ok(s6);
    assert IrRun(m, 1, p[3..], s3) == IrRun(m, 1, p[4..], s4) == IrRun(m, 1, p[5..], s5);
    assert IrRun(m, 1, p, s0) == IrRun(m, 1, p[1..], s1) == IrRun(m, 1, p[2..], s2) == IrRun(m, 1, p[3..], s3);
  }

  /** Meaning preservation fails for a lane that drops out of a predicate in which a spilled
      value is reloaded: the value is taken to be in a register this lane never loaded. */
  lemma DroppedLaneGetsWrongValue()
    ensures forall stmt :: stmt in DROP_OUT ==> Straight(stmt) && NoSelfUse(stmt)
    ensures IrRun(Board(), 1, DROP_OUT, StartOf(ONE_LANE)).Ok? && Compiled(DROP_OUT).Ok?
    ensures Lookup(IrRun(Board(), 1, DROP_OUT, StartOf(ONE_LANE)).value.mem, 102) == 1
    ensures Lookup(Compiled(DROP_OUT).value.mem, 102) == 14
    ensures !InSpillWindow(Board(), 1, 102)
  {
    hide IrRun, Compiled, Fill;
    DropOutMeaning();
    DropOutCompiled();
    FillSimple(13);
    assert SpillAddr(Board(), 0) == 0x4000;
  }

  lemma {:induction false} FillSimple(n: nat)
    requires n <= 13
    ensures forall stmt :: stmt in Fill(n) ==> Straight(stmt) && NoSelfUse(stmt)
  {
    if n > 0 { FillSimple(n - 1); }
  }

  // ----- an assignment that reads the value it defines -----

  const SLOT := "%slot1"

  /** A stack slot is set to 5, incremented in place, and stored to word 7. */
  const SELF_USE: seq<Stmt> := [
    Assign(SLOT, Const(5)),
    Assign(SLOT, Binary(Add, None, Val(SLOT), Lit(1))),
    StoreTo(Global, None, Lit(7), Val(SLOT))]

  const SET_CODE: seq<Line> := [MoveImm(0, 5)] + (SpillAddrCode(0) + [Store(STS, None, SPILL_ADDR_REG, 0, 0)])
  const INC_CODE: seq<Line> := [MoveImm(SCRATCH_REG, 1), Alu(ADD, None, 0, 0, SCRATCH_REG)]
  const OUT_CODE: seq<Line> := [MoveImm(SCRATCH_REG, 7)] + RELOAD_CODE + [Store(STG, None, SCRATCH_REG, 0, 0)]

  lemma SelfUseCode()
    ensures var a := LowerAll(Fresh(CountUses(SELF_USE)), SELF_USE);
      a.Ok? && a.value.asm == SET_CODE + INC_CODE + OUT_CODE
  {
    hide SpillAddrCode;
    var a1 := SetLowers(CountUses(SELF_USE));
    var a2 := IncLowers(a1);
    var a3 := OutLowers(a2);
    hide Lower;
    assert SELF_USE[1..][1..] == [SELF_USE[2]] && [SELF_USE[2]][1..] == [];
    assert LowerAll(a2, [SELF_USE[2]]) == Ok(a3);
    assert LowerAll(a1, SELF_USE[1..]) == Ok(a3);
  }

  /** The allocator between these statements: the slot's value is in memory only. */
  predicate SlotInMemory(a: Alloc) {
    && a.regs == map[] && a.free != [] && a.free[0] == 0 && a.spilled == map[SLOT := 0] && SLOT in a.backed
    && a.scratch == [SCRATCH_REG]
  }

  lemma SetLowers(u: map<string, int>) returns (b: Alloc)
    ensures Lower(Fresh(u), SELF_USE[0]) == Ok(b) && SlotInMemory(b) && b.asm == SET_CODE
  {
    hide SpillAddrCode;
    assert RegsBelow(13)[0] == 0;
    b := Lower(Fresh(u), SELF_USE[0]).value;
    assert b.regs == map[] && b.free[0] == 0 && b.spilled == map[SLOT := 0] && b.asm == SET_CODE;
  }

  lemma IncLowers(a: Alloc) returns (b: Alloc)
    requires SlotInMemory(a)
    ensures Lower(a, SELF_USE[1]) == Ok(b) && SlotInMemory(b) && b.asm == a.asm + INC_CODE
  {
    hide SpillAddrCode, Without;
    var p := Pin(Settle(Back(a, SLOT).(free := a.free[1..]), SLOT, 0), SLOT);
    assert Define(a, SLOT) == Ok((Settle(Back(a, SLOT).(free := a.free[1..]), SLOT, 0), 0));
    b := SlotIncremented(p);
  }

  /** The right-hand side of the increment, and the end of the assignment. */
  lemma SlotIncremented(p: Alloc) returns (b: Alloc)
    requires p.regs == map[SLOT := 0] && p.spilled == map[SLOT := 0] && SLOT in p.backed && p.scratch == [SCRATCH_REG]
    ensures var c := LowerRhs(p, SLOT, 0, Binary(Add, None, Val(SLOT), Lit(1)));
      c.Ok? && Finish(c.value, SLOT) == b
    ensures SlotInMemory(b) && b.asm == p.asm + INC_CODE
  {
    hide SpillAddrCode, Without;
    var c := LowerRhs(p, SLOT, 0, Binary(Add, None, Val(SLOT), Lit(1)));
    assert p.regs - {SLOT} == map[];
    b := Finish(c.value, SLOT);
  }

  lemma OutLowers(a: Alloc) returns (b: Alloc)
    requires SlotInMemory(a)
    ensures Lower(a, SELF_USE[2]) == Ok(b) && b.asm == a.asm + OUT_CODE
  {
    hide SpillAddrCode;
    b := Lower(a, SELF_USE[2]).value;
  }

  lemma SetRuns(s: Lane)
    requires s.status == Running && s.active
    ensures var t := Run(Board(), SET_CODE, s); t.status == Running && t.active && Lookup(t.mem, 0x4000) == 5
  {
    hide Step, SpillAddrCode;
    var m := Board();
    var first := MoveImm(0, 5);
    RunTwo(m, first, first, s);
    MoveImmStep(m, s, 0, 5);
    var t := Run(m, [first], s);
    var store := Store(STS, None, SPILL_ADDR_REG, 0, 0);
    RunAppend(m, [first], SpillAddrCode(0) + [store], s);
    SpillAddrRun(m, t, 0);
    RunOne(m, SpillAddrCode(0), store, t);
    WordStore(m, Run(m, SpillAddrCode(0), t), STS, SPILL_ADDR_REG, 0);
    assert SpillAddr(m, 0) == 0x4000;
  }

  lemma IncRuns(s: Lane)
    requires s.status == Running && s.active && Lookup(s.mem, 0x4000) == 5
    ensures var t := Run(Board(), INC_CODE, s); t.status == Running && t.active && Lookup(t.mem, 0x4000) == 5
  {
    hide Step;
    var m := Board();
    RunTwo(m, INC_CODE[0], INC_CODE[1], s);
    MoveImmStep(m, s, SCRATCH_REG, 1);
    AddStep(m, Step(m, INC_CODE[0], s), 0, 0, SCRATCH_REG);
  }

  lemma OutRuns(s: Lane)
    requires s.status == Running && s.active && Lookup(s.mem, 0x4000) == 5
    ensures Lookup(Run(Board(), OUT_CODE, s).mem, 7) == 5
  {
    hide Step, SpillAddrCode;
    var m := Board();
    var first, load := MoveImm(SCRATCH_REG, 7), Load(LDS, None, 0, SPILL_ADDR_REG, 0);
    var store := Store(STG, None, SCRATCH_REG, 0, 0);
    RunTwo(m, first, first, s);
    MoveImmStep(m, s, SCRATCH_REG, 7);
    var t := Run(m, [first], s);
    SpillAddrRun(m, t, 0);
    RunOne(m, SpillAddrCode(0), load, t);
    var u := Run(m, SpillAddrCode(0), t);
    WordLoad(m, u, LDS, 0, SPILL_ADDR_REG);
    assert SpillAddr(m, 0) == 0x4000;
    RunAppend(m, [first], RELOAD_CODE, s);
    RunOne(m, [first] + RELOAD_CODE, store, s);
    var w := Run(m, RELOAD_CODE, t);
    assert w == u.(regs := u.regs[0 := 5]);
    assert Lookup(t.regs, SCRATCH_REG) == 7;
    assert Lookup(u.regs, SCRATCH_REG) == 7;
    assert Lookup(w.regs, SCRATCH_REG) == 7;
    WordStore(m, w, STG, SCRATCH_REG, 0);
    assert OUT_CODE == [first] + RELOAD_CODE + [store];
  }

  lemma SelfUseMeaning()
    ensures var r := IrRun(Board(), 1, SELF_USE, StartOf(ONE_LANE));
      r.Ok? && Lookup(r.value.mem, 7) == 6
  {
    hide WriteMem, Touches;
    var m, s0 := Board(), StartOf(ONE_LANE);
    var s1 := s0.(env := s0.env[SLOT := 5]);
    var s2 := s1.(env := s1.env[SLOT := 6]);
    var s3 := s2.(mem := s2.mem[7 := 6]);
    LowWordsClear(7);
    WholeWordAccess(s2.mem, 7, 6);
    assert IrStep(m, 1, SELF_USE[0], s0) == Ok(s1);
    assert IrStep(m, 1, SELF_USE[1], s1) == Ok(s2);
    assert IrStep(m, 1, SELF_USE[2], s2) == Ok(s3);
    assert SELF_USE[1..][1..] == [SELF_USE[2]] && [SELF_USE[2]][1..] == [];
    assert IrRun(m, 1, [SELF_USE[2]], s2) == Ok(s3);
    assert IrRun(m, 1, SELF_USE[1..], s1) == Ok(s3);
  }

  /** Reading the value being defined loses the assignment when that value lives in memory: the
      release of the operand drops the destination register before it is written back. */
  lemma SelfUseIsLost()
    ensures forall stmt :: stmt in SELF_USE ==> Straight(stmt)
    ensures IrRun(Board(), 1, SELF_USE, StartOf(ONE_LANE)).Ok? && Compiled(SELF_USE).Ok?
    ensures Lookup(IrRun(Board(), 1, SELF_USE, StartOf(ONE_LANE)).value.mem, 7) == 6
    ensures Lookup(Compiled(SELF_USE).value.mem, 7) == 5
    ensures !InSpillWindow(Board(), 1, 7)
  {
    hide IrRun, LowerAll, Run;
    SelfUseMeaning();
    SelfUseCode();
    var m := Board();
    RunAppend(m, SET_CODE, INC_CODE, ONE_LANE);
    RunAppend(m, SET_CODE + INC_CODE, OUT_CODE, ONE_LANE);
    SetRuns(ONE_LANE);
    IncRuns(Run(m, SET_CODE, ONE_LANE));
    OutRuns(Run(m, INC_CODE, Run(m, SET_CODE, ONE_LANE)));
    assert SpillAddr(m, 0) == 0x4000;
  }
}
