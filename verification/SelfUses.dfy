/** Assignments that read their own destination: exactly when the emitted code agrees with the IR. */
module SelfUses {
  import opened Words
  import opened Isa
  import opened MiniIr
  import opened Allocation
  import opened RegisterFile
  import opened LaneSimulation
  import opened BackEnd

  lemma DefineOk(a: Alloc, dst: string, rhs: Rhs)
    requires LowerAssign(a, dst, rhs).Ok?
    ensures Define(a, dst).Ok?
  {
    hide Define;
  }

  lemma BindDiffers(m: Machine, slots: nat, dst: string, rhs: Rhs, ir: IrLane, w: Word)
    requires EvalAssign(m, slots, dst, rhs, ir).Ok? && EvalAssign(m, slots, dst, rhs, ir.(env := ir.env[dst := w])).Ok?
    requires ir.status == Running && dst in ir.env
    ensures var st := EvalAssign(m, slots, dst, rhs, ir).value;
      var other := EvalAssign(m, slots, dst, rhs, ir.(env := ir.env[dst := w])).value;
      && st.mem == other.mem == ir.mem && st.active == other.active == ir.active && st.stack == other.stack == ir.stack
      && (st.status == Running ==>
            st.env.Keys == ir.env.Keys && forall v :: v in ir.env && v != dst ==> st.env[v] == ir.env[v])
      && (other.status == Running ==>
            other.env.Keys == ir.env.Keys && forall v :: v in ir.env && v != dst ==> other.env[v] == ir.env[v])
  {
    hide EvalAssign;
    var x := AssignBinds(m, slots, dst, rhs, ir);
    var y := AssignBinds(m, slots, dst, rhs, ir.(env := ir.env[dst := w]));
  }

  /** An assignment changes nothing but its destination, or faults. */
  lemma AssignBinds(m: Machine, slots: nat, dst: string, rhs: Rhs, ir: IrLane) returns (result: Option<Word>)
    requires EvalAssign(m, slots, dst, rhs, ir).Ok?
    ensures EvalAssign(m, slots, dst, rhs, ir) == Ok(Bind(ir, dst, result))
  {
    hide Touches, UnaryResult, ArithResult, Bind;
    match rhs
    case Arg(p) => result := Some(Lookup(m.consts, ArgSymbol(p)));
    case Shared(n) => result := Some(Lookup(m.consts, SharedSymbol(n)));
    case Const(n) => result := Some(Wrap(n));
    case Thread(t) => result := Some(m.thread(t));
    case Unary(u, fmt, x) => result := UnaryResult(m, u, fmt, ir.mem, Eval(x, ir.env).value);
    case Binary(op, fmt, x, y) => result := ArithResult(m, op, fmt, Eval(x, ir.env).value, Eval(y, ir.env).value);
    case Unknown =>
  }

  /** The relation for two IR lanes that differ in one value only. */
  lemma OneValue(m: Machine, start: Lane, b: Alloc, st: IrLane, other: IrLane, dst: string)
    requires Matches(m, start, b, other, {dst})
    requires st.mem == other.mem && st.active == other.active && st.stack == other.stack
    requires st.status == Running && other.status == Running ==>
      dst in st.env && st.env.Keys == other.env.Keys
      && forall v :: v in st.env && v != dst ==> st.env[v] == other.env[v]
    ensures Matches(m, start, b, st, {}) <==>
      && st.status == other.status
      && (st.status == Running && Needed(b, dst) ==> HeldAt(m, b, At(m, start, b), dst, st.env[dst]))
  {
    hide HeldAt, Run, MemAgree;
    var s := At(m, start, b);
    if st.status == other.status == Running && (Needed(b, dst) ==> HeldAt(m, b, s, dst, st.env[dst])) {
      forall v | v in st.env && Needed(b, v) ensures HeldAt(m, b, s, v, st.env[v]) {
        assert v != dst ==> HeldAt(m, b, s, v, other.env[v]);
      }
    }
  }

  lemma HeldOnce(m: Machine, b: Alloc, s: Lane, v: string, x: Word, y: Word)
    requires HeldAt(m, b, s, v, x)
    ensures HeldAt(m, b, s, v, y) <==> x == y
  {
    hide SpillAddr;
  }

  /** A destination in memory keeps its old word, so the relation survives exactly when the lane
      stops or goes on as in the IR and the new value is the old one. */
  lemma SelfUseInMemory(m: Machine, start: Lane, a: Alloc, ir: IrLane, slots: nat, dst: string, rhs: Rhs)
    requires Orderly(a, {}) && Live(m, start, a, ir, {}) && Counted(a, Assign(dst, rhs))
    requires SelfUse(dst, rhs) && dst in a.backed
    requires LowerAssign(a, dst, rhs).Ok? && LowerAssign(a, dst, rhs).value.nextSlot <= Min(slots, MAX_SLOTS)
    requires EvalAssign(m, slots, dst, rhs, ir).Ok?
    requires EvalAssign(m, slots, dst, rhs, AsRead(m, start, a, ir, dst, rhs)).Ok?
    ensures var b, st := LowerAssign(a, dst, rhs).value, EvalAssign(m, slots, dst, rhs, ir).value;
      Matches(m, start, b, st, {}) <==>
        At(m, start, b).status == st.status && (st.status == Running ==> Lookup(st.env, dst) == Lookup(ir.env, dst))
  {
    hide WellFormed, SpillAddr, MemAgree, LowerAssign, Run, Define, EvalAssign, HeldAt, SelfRead;
    var b, st := LowerAssign(a, dst, rhs).value, EvalAssign(m, slots, dst, rhs, ir).value;
    DefineOk(a, dst, rhs);
    var other := EvalAssign(m, slots, dst, rhs, AsRead(m, start, a, ir, dst, rhs)).value;
    OwnValueDefined(m, slots, dst, rhs, ir);
    assert HeldAt(m, a, At(m, start, a), dst, ir.env[dst]);
    AssignOrderly(a, dst, rhs);
    AssignReads(m, start, a, ir, slots, dst, rhs);
    BindDiffers(m, slots, dst, rhs, ir, SelfRead(m, start, a, dst));
    OneValue(m, start, b, st, other, dst);
    InMemory(m, a, At(m, start, a), dst, ir.env[dst]);
    if st.status == Running { InMemory(m, b, At(m, start, b), dst, st.env[dst]); }
  }

  /** A memory-backed value is held when its slot holds it. */
  lemma InMemory(m: Machine, a: Alloc, s: Lane, v: string, w: Word)
    requires Orderly(a, {}) && v in a.backed
    ensures HeldAt(m, a, s, v, w) <==> v in a.spilled && Lookup(s.mem, SpillAddr(m, a.spilled[v])) == w
  {
    hide WellFormed, SpillAddr;
  }

  lemma OwnValueDefined(m: Machine, slots: nat, dst: string, rhs: Rhs, ir: IrLane)
    requires SelfUse(dst, rhs) && EvalAssign(m, slots, dst, rhs, ir).Ok?
    ensures dst in ir.env
  {
    hide Touches, UnaryResult, ArithResult;
  }

  /** A destination that is a temporary not in a register is read from whatever its new register
      held, so the relation survives exactly when that makes no difference. */
  lemma SelfUseUnloaded(m: Machine, start: Lane, a: Alloc, ir: IrLane, slots: nat, dst: string, rhs: Rhs)
    requires Orderly(a, {}) && Live(m, start, a, ir, {}) && Counted(a, Assign(dst, rhs))
    requires SelfUse(dst, rhs) && dst !in a.regs && dst !in a.backed && !IsSlot(dst)
    requires LowerAssign(a, dst, rhs).Ok? && LowerAssign(a, dst, rhs).value.nextSlot <= Min(slots, MAX_SLOTS)
    requires EvalAssign(m, slots, dst, rhs, ir).Ok?
    requires EvalAssign(m, slots, dst, rhs, AsRead(m, start, a, ir, dst, rhs)).Ok?
    ensures var b, st := LowerAssign(a, dst, rhs).value, EvalAssign(m, slots, dst, rhs, ir).value;
      var read := EvalAssign(m, slots, dst, rhs, AsRead(m, start, a, ir, dst, rhs)).value;
      Matches(m, start, b, st, {}) <==>
        st.status == read.status
        && (st.status == Running && Uses(b, dst) > 0 ==> Lookup(st.env, dst) == Lookup(read.env, dst))
  {
    hide WellFormed, SpillAddr, MemAgree, LowerAssign, Run, Define, EvalAssign, HeldAt, SelfRead, Held;
    var b, st := LowerAssign(a, dst, rhs).value, EvalAssign(m, slots, dst, rhs, ir).value;
    DefineOk(a, dst, rhs);
    var read := EvalAssign(m, slots, dst, rhs, AsRead(m, start, a, ir, dst, rhs)).value;
    OwnValueDefined(m, slots, dst, rhs, ir);
    AssignOrderly(a, dst, rhs);
    ArgReadsNothing(dst, rhs);
    AssignReads(m, start, a, ir, slots, dst, rhs);
    BindDiffers(m, slots, dst, rhs, ir, SelfRead(m, start, a, dst));
    Exempt(m, start, b, read, dst);
    OneValue(m, start, b, st, read, dst);
    if st.status == Running && read.status == Running && Uses(b, dst) > 0 {
      IsHeld(m, start, b, read, dst);
      HeldOnce(m, b, At(m, start, b), dst, read.env[dst], st.env[dst]);
    }
  }

  lemma ArgReadsNothing(dst: string, rhs: Rhs)
    requires SelfUse(dst, rhs)
    ensures !rhs.Arg?
  {
  }

  lemma Exempt(m: Machine, start: Lane, b: Alloc, ir: IrLane, v: string)
    requires Matches(m, start, b, ir, {})
    ensures Matches(m, start, b, ir, {v})
  {
    hide HeldAt, Run, MemAgree;
  }

  lemma IsHeld(m: Machine, start: Lane, b: Alloc, ir: IrLane, v: string)
    requires Matches(m, start, b, ir, {}) && ir.status == Running && v in ir.env && Needed(b, v)
    ensures HeldAt(m, b, At(m, start, b), v, ir.env[v])
  {
    hide HeldAt, Run, MemAgree;
  }
}
