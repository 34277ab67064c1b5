/** Whole sections: the main theorems about the compiler's back end. */
module Compiler {
  import opened Words
  import opened Isa
  import opened MiniIr
  import opened Allocation
  import opened RegisterFile
  import opened LaneSimulation
  import opened BackEnd
  import opened EmittedCode

  // ----- textual use counts -----

  lemma {:induction false} CountAppend(stmts: seq<Stmt>, more: seq<Stmt>, v: string)
    ensures Count(stmts + more, v) == Count(stmts, v) + Count(more, v)
  {
    if stmts == [] {
      assert stmts + more == more;
    } else {
      assert (stmts + more)[1..] == stmts[1..] + more;
      CountAppend(stmts[1..], more, v);
    }
  }

  lemma AddUsesCounts(uses: map<string, int>, ops: seq<Operand>, v: string)
    requires |ops| <= 2
    ensures Uses(Fresh(AddUses(uses, ops)), v) == Uses(Fresh(uses), v)
      + (if |ops| > 0 && ops[0] == Val(v) then 1 else 0) + (if |ops| > 1 && ops[1] == Val(v) then 1 else 0)
  {
    if |ops| == 2 {
      assert ops[..1] == [ops[0]] && [ops[0]][..0] == [];
      assert AddUses(uses, ops[..1]) == AddUse(AddUses(uses, []), ops[0]);
    }
  }

  /** The counter starts at the number of times the section names each value. */
  lemma {:induction false} CountUsesCounts(stmts: seq<Stmt>, v: string)
    ensures Uses(Fresh(CountUses(stmts)), v) == Count(stmts, v)
  {
    if stmts != [] {
      var init, last := stmts[..|stmts| - 1], stmts[|stmts| - 1];
      CountUsesCounts(init, v);
      CountAppend(init, [last], v);
      assert stmts == init + [last];
      assert Count([last], v) == Mentions(last, v);
      AddUsesCounts(CountUses(init), Operands(last), v);
    }
  }

  ghost predicate CountedAll(a: Alloc, stmts: seq<Stmt>) {
    forall v :: v !in a.backed ==> Uses(a, v) >= Count(stmts, v)
  }

  /** The sections the meaning theorems speak of have no branches. */
  predicate Branchless(stmts: seq<Stmt>) {
    forall stmt :: stmt in stmts ==> Straight(stmt)
  }

  lemma CountsAhead(a: Alloc, b: Alloc, stmt: Stmt, rest: seq<Stmt>)
    requires CountedAll(a, [stmt] + rest) && a.backed <= b.backed
    requires forall v :: v !in b.backed ==> Uses(b, v) == Uses(a, v) - Mentions(stmt, v)
    ensures CountedAll(b, rest) && Counted(a, stmt)
  {
    assert ([stmt] + rest)[1..] == rest;
    forall v | v !in a.backed ensures Uses(a, v) >= Mentions(stmt, v) + Count(rest, v) {
      assert Count([stmt] + rest, v) == Mentions(stmt, v) + Count(rest, v);
    }
  }

  // ----- the register file over whole sections -----

  function Assigned(stmts: seq<Stmt>): set<string> {
    if stmts == [] then {}
    else (if stmts[0].Assign? then {stmts[0].dst} else {}) + Assigned(stmts[1..])
  }

  /** At every point of any section without calls the register file is partitioned between values
      and the free list, spill slots are distinct, the counters are ahead of the operands still to
      come, and a value that is not memory-backed is forgotten only when no statement ahead names it. */
  lemma {:induction false} SectionOrderly(a: Alloc, stmts: seq<Stmt>, ahead: seq<Stmt>)
    requires Orderly(a, {}) && CountedAll(a, stmts + ahead) && LowerAll(a, stmts).Ok?
    ensures var b := LowerAll(a, stmts).value;
      && Orderly(b, {}) && CountedAll(b, ahead) && a.nextSlot <= b.nextSlot && a.backed <= b.backed
      && (forall v :: v !in b.backed && Uses(a, v) == Count(stmts + ahead, v) ==> Uses(b, v) == Count(ahead, v))
      && (forall v :: v in a.backed && v in a.spilled ==> v in b.spilled && b.spilled[v] == a.spilled[v])
      && (forall v :: (Located(a, v) || v in Assigned(stmts)) && v !in b.backed && Count(ahead, v) > 0 ==>
            Located(b, v))
    decreases |stmts|
  {
    hide Lower, WellFormed;
    if stmts == [] {
      assert stmts + ahead == ahead;
    } else {
      var stmt, rest := stmts[0], stmts[1..] + ahead;
      var b := Lower(a, stmt).value;
      assert stmts + ahead == [stmt] + rest;
      LowerOrderly(a, stmt);
      CountsAhead(a, b, stmt, rest);
      SectionOrderly(b, stmts[1..], ahead);
      var c := LowerAll(a, stmts).value;
      forall v | v !in c.backed && Uses(a, v) == Count(stmts + ahead, v) ensures Uses(c, v) == Count(ahead, v) {
        CountStep(stmt, rest, v);
      }
      forall v | (Located(a, v) || (stmt.Assign? && v == stmt.dst)) && v !in c.backed && Count(ahead, v) > 0
        ensures Located(c, v)
      {
        CountAppend(stmts[1..], ahead, v);
        assert Uses(b, v) > 0;
      }
    }
  }

  lemma CountStep(stmt: Stmt, rest: seq<Stmt>, v: string)
    ensures Count([stmt] + rest, v) == Mentions(stmt, v) + Count(rest, v)
  {
    assert ([stmt] + rest)[1..] == rest;
  }

  /** From the start of a section the counters are exact: after any part of it, each value that is
      not memory-backed is counted as often as the rest names it, and has a place if it is. */
  lemma SectionFromStart(done: seq<Stmt>, ahead: seq<Stmt>)
    requires LowerAll(Fresh(CountUses(done + ahead)), done).Ok?
    ensures var b := LowerAll(Fresh(CountUses(done + ahead)), done).value;
      && WellFormed(b) && b.pinned == {} && b.scratch == [SCRATCH_REG] && b.backed == b.persistent
      && (forall v :: v in b.backed ==> v !in b.regs)
      && (forall v :: v !in b.backed ==> Uses(b, v) == Count(ahead, v))
      && (forall v :: v in Assigned(done) && v !in b.backed && Count(ahead, v) > 0 ==> Located(b, v))
  {
    hide WellFormed, LowerAll;
    StartsCounted(done + ahead);
    SectionOrderly(Fresh(CountUses(done + ahead)), done, ahead);
  }

  lemma StartsCounted(stmts: seq<Stmt>)
    ensures var a := Fresh(CountUses(stmts));
      Orderly(a, {}) && CountedAll(a, stmts) && forall v :: Uses(a, v) == Count(stmts, v)
  {
    hide WellFormed;
    FreshIsWellFormed(CountUses(stmts));
    forall v ensures Uses(Fresh(CountUses(stmts)), v) == Count(stmts, v) { CountUsesCounts(stmts, v); }
  }

  // ----- meaning -----

  /** Wherever an assignment reads its own destination, that is in a register for good. */
  predicate SelfUsesSafe(a: Alloc, stmts: seq<Stmt>)
    decreases |stmts|
  {
    stmts == [] ||
    (SafeSelfUse(a, stmts[0]) && (Lower(a, stmts[0]).Ok? ==> SelfUsesSafe(Lower(a, stmts[0]).value, stmts[1..])))
  }

  lemma {:induction false} NoSelfUsesSafe(a: Alloc, stmts: seq<Stmt>)
    requires forall stmt :: stmt in stmts ==> NoSelfUse(stmt)
    ensures SelfUsesSafe(a, stmts)
    decreases |stmts|
  {
    hide Lower;
    assert stmts != [] ==> NoSelfUse(stmts[0]);
    if stmts != [] && Lower(a, stmts[0]).Ok? { NoSelfUsesSafe(Lower(a, stmts[0]).value, stmts[1..]); }
  }

  /** Whenever the lane is idle, lowering moves no value that it has defined and that is still needed. */
  ghost predicate QuietWhenIdle(m: Machine, slots: nat, a: Alloc, stmts: seq<Stmt>, ir: IrLane)
    decreases |stmts|
  {
    stmts == [] ||
    var b, st := Lower(a, stmts[0]), IrStep(m, slots, stmts[0], ir);
    b.Ok? && st.Ok? ==>
      && (ir.status == Running && !ir.active ==> forall v :: v in ir.env ==> HomeKept(a, b.value, v))
      && QuietWhenIdle(m, slots, b.value, stmts[1..], st.value)
  }

  /** The lane is active under every predicate it meets. */
  ghost predicate AlwaysActive(m: Machine, slots: nat, stmts: seq<Stmt>, ir: IrLane)
    decreases |stmts|
  {
    stmts == [] ||
    var st := IrStep(m, slots, stmts[0], ir);
    st.Ok? ==> (ir.status == Running ==> ir.active) && AlwaysActive(m, slots, stmts[1..], st.value)
  }

  lemma {:induction false} AlwaysActiveIsQuiet(m: Machine, slots: nat, a: Alloc, stmts: seq<Stmt>, ir: IrLane)
    requires AlwaysActive(m, slots, stmts, ir)
    ensures QuietWhenIdle(m, slots, a, stmts, ir)
    decreases |stmts|
  {
    hide Lower, IrStep, HomeKept;
    if stmts != [] {
      var b, st := Lower(a, stmts[0]), IrStep(m, slots, stmts[0], ir);
      if b.Ok? && st.Ok? { AlwaysActiveIsQuiet(m, slots, b.value, stmts[1..], st.value); }
    }
  }

  // ----- a condition on the section alone -----

  /** The names assigned so far when each open predicate was opened; at the bottom those a lane can
      hold that never was active. */
  function BoundsAfter(stmt: Stmt, done: set<string>, bounds: seq<set<string>>): seq<set<string>> {
    match stmt
    case PredBegin(_) => bounds + [done]
    case PredEnd => if |bounds| > 1 then bounds[..|bounds| - 1] else bounds
    case _ => bounds
  }

  function DoneAfter(stmt: Stmt, done: set<string>): set<string> {
    if stmt.Assign? then done + {stmt.dst} else done
  }

  /** Inside a predicate, lowering moves no needed value that was assigned before the predicate was
      opened. Nothing here depends on a lane. */
  ghost predicate QuietInside(a: Alloc, stmts: seq<Stmt>, done: set<string>, bounds: seq<set<string>>)
    requires bounds != []
    decreases |stmts|
  {
    stmts == [] ||
    var b := Lower(a, stmts[0]);
    b.Ok? ==>
      && (forall v :: v in bounds[|bounds| - 1] ==> HomeKept(a, b.value, v))
      && QuietInside(b.value, stmts[1..], DoneAfter(stmts[0], done), BoundsAfter(stmts[0], done, bounds))
  }

  /** What a lane can hold at a level of its mask stack while it is idle there. */
  ghost predicate Bounded(ir: IrLane, done: set<string>, bounds: seq<set<string>>) {
    var masks := ir.stack + [ir.active];
    && |bounds| == |masks| && ir.env.Keys <= done
    && (forall i :: 0 <= i < |masks| && !masks[i] ==> ir.env.Keys <= bounds[i])
    && (forall i, j :: 0 <= i <= j < |masks| && masks[j] ==> masks[i])
    && (forall i, j :: 0 <= i <= j < |bounds| ==> bounds[i] <= bounds[j])
    && (forall i :: 0 <= i < |bounds| ==> bounds[i] <= done)
  }

  lemma BoundedStep(m: Machine, slots: nat, stmt: Stmt, ir: IrLane, done: set<string>, bounds: seq<set<string>>)
    requires Bounded(ir, done, bounds) && ir.status == Running && IrStep(m, slots, stmt, ir).Ok?
    ensures var st := IrStep(m, slots, stmt, ir).value;
      st.status == Running ==> Bounded(st, DoneAfter(stmt, done), BoundsAfter(stmt, done, bounds))
  {
    var st := IrStep(m, slots, stmt, ir).value;
    if st.status == Running {
      match stmt
      case Assign(dst, rhs) =>
        if ir.active {
          AssignBounds(m, slots, dst, rhs, ir);
          assert (ir.stack + [ir.active])[|ir.stack|];
        }
      case PredBegin(c) => BoundedPush(ir, st, done, bounds);
      case PredEnd => BoundedPop(ir, st, done, bounds);
      case _ =>
    }
  }

  lemma AssignBounds(m: Machine, slots: nat, dst: string, rhs: Rhs, ir: IrLane)
    requires EvalAssign(m, slots, dst, rhs, ir).Ok?
    ensures var st := EvalAssign(m, slots, dst, rhs, ir).value;
      st == ir.(env := st.env, status := st.status) && st.env.Keys <= ir.env.Keys + {dst}
  {
    hide Touches, UnaryResult, ArithResult;
  }

  lemma BoundedPush(ir: IrLane, st: IrLane, done: set<string>, bounds: seq<set<string>>)
    requires Bounded(ir, done, bounds) && st == ir.(active := st.active, stack := ir.stack + [ir.active])
    requires st.active ==> ir.active
    ensures Bounded(st, done, bounds + [done])
  {
    var masks, more := ir.stack + [ir.active], st.stack + [st.active];
    assert forall i :: 0 <= i < |masks| ==> more[i] == masks[i];
    assert st.active ==> masks[|masks| - 1];
  }

  lemma BoundedPop(ir: IrLane, st: IrLane, done: set<string>, bounds: seq<set<string>>)
    requires Bounded(ir, done, bounds) && ir.stack != []
    requires st == ir.(active := ir.stack[|ir.stack| - 1], stack := ir.stack[..|ir.stack| - 1])
    ensures Bounded(st, done, bounds[..|bounds| - 1])
  {
    var masks, fewer := ir.stack + [ir.active], st.stack + [st.active];
    assert forall i :: 0 <= i < |fewer| ==> fewer[i] == masks[i];
  }

  lemma {:induction false} QuietForEveryLane(m: Machine, slots: nat, a: Alloc, stmts: seq<Stmt>, ir: IrLane,
                                             done: set<string>, bounds: seq<set<string>>)
    requires bounds != [] && QuietInside(a, stmts, done, bounds)
    requires ir.status == Running ==> Bounded(ir, done, bounds)
    ensures QuietWhenIdle(m, slots, a, stmts, ir)
    decreases |stmts|
  {
    hide Lower, IrStep, HomeKept, Bounded;
    if stmts != [] {
      var b, st := Lower(a, stmts[0]), IrStep(m, slots, stmts[0], ir);
      if b.Ok? && st.Ok? {
        if ir.status == Running {
          BoundedStep(m, slots, stmts[0], ir, done, bounds);
          IdleBound(ir, done, bounds);
        } else {
          StaysStopped(m, slots, stmts[0], ir);
        }
        QuietForEveryLane(m, slots, b.value, stmts[1..], st.value, DoneAfter(stmts[0], done),
                          BoundsAfter(stmts[0], done, bounds));
      }
    }
  }

  lemma IdleBound(ir: IrLane, done: set<string>, bounds: seq<set<string>>)
    requires Bounded(ir, done, bounds) && bounds != []
    ensures !ir.active ==> ir.env.Keys <= bounds[|bounds| - 1]
  {
    assert (ir.stack + [ir.active])[|ir.stack|] == ir.active;
  }

  lemma StaysStopped(m: Machine, slots: nat, stmt: Stmt, ir: IrLane)
    requires ir.status != Running
    ensures IrStep(m, slots, stmt, ir) == Ok(ir)
  {
  }

  // ----- the theorems -----

  lemma {:induction false} RunMatches(m: Machine, slots: nat, start: Lane, a: Alloc, stmts: seq<Stmt>,
                                      ahead: seq<Stmt>, ir: IrLane)
    requires Orderly(a, {}) && CountedAll(a, stmts + ahead) && Branchless(stmts) && SelfUsesSafe(a, stmts)
    requires Matches(m, start, a, ir, {}) && SlotsBacked(a, ir.env)
    requires LowerAll(a, stmts).Ok? && LowerAll(a, stmts).value.nextSlot <= Min(slots, MAX_SLOTS)
    requires IrRun(m, slots, stmts, ir).Ok? && QuietWhenIdle(m, slots, a, stmts, ir)
    ensures Matches(m, start, LowerAll(a, stmts).value, IrRun(m, slots, stmts, ir).value, {})
    decreases |stmts|
  {
    hide Lower, IrStep, HomeKept, Matches, Orderly, SlotsBacked, SafeSelfUse;
    if stmts != [] {
      var stmt, rest := stmts[0], stmts[1..] + ahead;
      var b, st := Lower(a, stmt).value, IrStep(m, slots, stmt, ir).value;
      assert stmts + ahead == [stmt] + rest;
      LowerOrderly(a, stmt);
      CountsAhead(a, b, stmt, rest);
      SectionOrderly(b, stmts[1..], ahead);
      LowerMatches(m, start, a, ir, slots, stmt);
      SlotsBack(a, stmt);
      StepBacks(m, slots, stmt, ir, a, b);
      RunMatches(m, slots, start, b, stmts[1..], ahead, st);
    }
  }

  lemma SlotsBack(a: Alloc, stmt: Stmt)
    requires Orderly(a, {}) && Lower(a, stmt).Ok?
    ensures stmt.Assign? && IsSlot(stmt.dst) ==> stmt.dst in Lower(a, stmt).value.backed
  {
    hide WellFormed, LowerAssign;
    if stmt.Assign? { AssignOrderly(a, stmt.dst, stmt.rhs); }
  }

  lemma StepBacks(m: Machine, slots: nat, stmt: Stmt, ir: IrLane, a: Alloc, b: Alloc)
    requires SlotsBacked(a, ir.env) && a.backed <= b.backed && IrStep(m, slots, stmt, ir).Ok?
    requires stmt.Assign? && IsSlot(stmt.dst) ==> stmt.dst in b.backed
    ensures SlotsBacked(b, IrStep(m, slots, stmt, ir).value.env)
  {
  }

  /** The lane a kernel starts in, as the IR sees it: no value defined yet. */
  function StartOf(s: Lane): IrLane {
    IrLane(map[], s.mem, s.active, s.stack, s.status)
  }

  /** Where the code of the first part of a section leaves a lane: status, masks and memory outside
      the spill window are those of the IR, and every value that the rest of the section names is
      where the allocator will look for it. */
  ghost predicate Preserves(m: Machine, slots: nat, start: Lane, a: Alloc, ir: IrLane, ahead: seq<Stmt>) {
    var s := Run(m, a.asm, start);
    && s.status == ir.status
    && (forall w: nat :: !InSpillWindow(m, slots, w) ==> Lookup(s.mem, w) == Lookup(ir.mem, w))
    && (s.status == Running ==> s.active == ir.active && s.stack == ir.stack)
    && (s.status == Running ==> forall v :: v in ir.env && Count(ahead, v) > 0 ==> HeldAt(m, a, s, v, ir.env[v]))
  }

  /** Back-end meaning preservation. Lower the first part of a section and assemble and run it: the
      lane ends as the IR says, provided no value it still needs is moved while it is idle. */
  lemma MeaningPreserved(m: Machine, slots: nat, start: Lane, done: seq<Stmt>, ahead: seq<Stmt>)
    requires var a0 := Fresh(CountUses(done + ahead));
      var a := LowerAll(a0, done);
      && Branchless(done) && SelfUsesSafe(a0, done)
      && a.Ok? && Encodable(a.value.asm) && a.value.nextSlot <= slots
      && QuietWhenIdle(m, slots, a0, done, StartOf(start))
    requires IrRun(m, slots, done, StartOf(start)).Ok?
    ensures Preserves(m, slots, start, LowerAll(Fresh(CountUses(done + ahead)), done).value,
                      IrRun(m, slots, done, StartOf(start)).value, ahead)
  {
    hide WellFormed, SpillAddr, Orderly, SelfUsesSafe, QuietWhenIdle, Encodable;
    var a0 := Fresh(CountUses(done + ahead));
    StartsCounted(done + ahead);
    EncodableSlots(CountUses(done + ahead), done);
    SectionOrderly(a0, done, ahead);
    RunMatches(m, slots, start, a0, done, ahead, StartOf(start));
    var a := LowerAll(a0, done).value;
    MoreSlotsAgree(m, a.nextSlot, slots, IrRun(m, slots, done, StartOf(start)).value.mem, Run(m, a.asm, start).mem);
  }

  /** In particular for a lane that stays active under every predicate, without further ado. */
  lemma ActiveLanePreserved(m: Machine, slots: nat, start: Lane, section: seq<Stmt>)
    requires var a0 := Fresh(CountUses(section));
      var a := LowerAll(a0, section);
      && Branchless(section) && SelfUsesSafe(a0, section)
      && a.Ok? && Encodable(a.value.asm) && a.value.nextSlot <= slots
    requires IrRun(m, slots, section, StartOf(start)).Ok? && AlwaysActive(m, slots, section, StartOf(start))
    ensures Preserves(m, slots, start, LowerAll(Fresh(CountUses(section)), section).value,
                      IrRun(m, slots, section, StartOf(start)).value, [])
  {
    hide LowerAll, IrRun, Run, SpillAddr, QuietWhenIdle, AlwaysActive, SelfUsesSafe, Preserves;
    assert section + [] == section;
    AlwaysActiveIsQuiet(m, slots, Fresh(CountUses(section)), section, StartOf(start));
    MeaningPreserved(m, slots, start, section, []);
  }

  /** And for every lane of a warp, whatever its predicates, when lowering moves no needed value
      inside a predicate that was assigned before the predicate was opened: a condition on the
      section that can be read off its lowering. */
  lemma EveryLanePreserved(m: Machine, slots: nat, start: Lane, section: seq<Stmt>)
    requires var a0 := Fresh(CountUses(section));
      var a := LowerAll(a0, section);
      && Branchless(section) && SelfUsesSafe(a0, section) && QuietInside(a0, section, {}, [{}])
      && a.Ok? && Encodable(a.value.asm) && a.value.nextSlot <= slots
    requires start.stack == [] && IrRun(m, slots, section, StartOf(start)).Ok?
    ensures Preserves(m, slots, start, LowerAll(Fresh(CountUses(section)), section).value,
                      IrRun(m, slots, section, StartOf(start)).value, [])
  {
    hide LowerAll, IrRun, Run, SpillAddr, QuietWhenIdle, QuietInside, SelfUsesSafe, Preserves;
    assert section + [] == section;
    StartBounded(start);
    QuietForEveryLane(m, slots, Fresh(CountUses(section)), section, StartOf(start), {}, [{}]);
    MeaningPreserved(m, slots, start, section, []);
  }

  lemma StartBounded(start: Lane)
    requires start.stack == []
    ensures Bounded(StartOf(start), {}, [{}])
  {
  }
}
