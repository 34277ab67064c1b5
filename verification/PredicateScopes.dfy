/** The predicate depths the allocator records, which decide what may be spilled. */
module PredicateScopes {
  import opened Isa
  import opened MiniIr
  import opened Allocation

  /** No value is recorded deeper than the predicate it is in. */
  ghost predicate Within(a: Alloc) {
    forall v :: v in a.depths ==> a.depths[v] <= a.depth
  }

  function DepthOf(a: Alloc, v: string): nat {
    if v in a.depths then a.depths[v] else 0
  }

  /** Leaving a predicate undoes entering it. */
  lemma ExitUndoesEnter(a: Alloc)
    requires Within(a)
    ensures ExitPredicate(EnterPredicate(a)) == a
  {
    assert ExitPredicate(EnterPredicate(a)).depths == a.depths;
  }

  /** Inside a predicate only values placed there may be spilled. */
  lemma SpillableInside(a: Alloc, v: string)
    requires Within(a)
    ensures !Spillable(EnterPredicate(a), v)
  {
  }

  /** After a predicate the values placed in it, in the code around it or in an earlier one at the
      same depth may be spilled, and no others; depths stay within the predicate. */
  lemma SpillableAfter(a: Alloc, v: string)
    requires Within(a) && a.depth > 0
    ensures var b := ExitPredicate(a);
      && Within(b) && b.depth == a.depth - 1 && b.regs == a.regs
      && (Spillable(b, v) <==> v in a.regs && v !in a.pinned && DepthOf(a, v) >= a.depth - 1)
  {
  }

  // ----- every statement keeps depths within the predicate -----

  /** Depths are as they were, or the current one. */
  ghost predicate DepthsKept(a: Alloc, b: Alloc) {
    && b.depth == a.depth
    && forall v :: v in b.depths ==> b.depths[v] == a.depth || (v in a.depths && b.depths[v] == a.depths[v])
  }

  lemma DepthsTransitive(a: Alloc, b: Alloc, c: Alloc)
    requires DepthsKept(a, b) && DepthsKept(b, c)
    ensures DepthsKept(a, c)
  {
  }

  lemma DefineDepths(a: Alloc, v: string)
    requires Define(a, v).Ok?
    ensures DepthsKept(a, Pin(Define(a, v).value.0, v))
  {
    hide Without, Spare;
    var b := if IsSlot(v) then Back(a, v) else a;
    SpareDepths(if v in b.backed then b else b.(spilled := b.spilled - {v}));
  }

  lemma SpareDepths(a: Alloc)
    ensures Spare(a).depths == a.depths && Spare(a).depth == a.depth
  {
    hide Without, SpillAddrCode;
  }

  lemma OperandDepths(a: Alloc, o: Operand)
    requires OperandReg(a, o).Ok?
    ensures DepthsKept(a, OperandReg(a, o).value.0)
  {
    hide Without, SpillAddrCode, LiteralCode;
  }

  lemma ReleaseDepths(a: Alloc, o: Operand, r: Reg)
    ensures DepthsKept(a, ReleaseOperand(a, o, r))
  {
    hide Without;
  }

  lemma OneDepths(a: Alloc, x: Operand, lines: seq<Line>)
    requires OperandReg(a, x).Ok?
    ensures var (b, r) := OperandReg(a, x).value; DepthsKept(a, ReleaseOperand(Emit(b, lines), x, r))
  {
    hide OperandReg, ReleaseOperand;
    var (b, r) := OperandReg(a, x).value;
    OperandDepths(a, x);
    ReleaseDepths(Emit(b, lines), x, r);
    DepthsTransitive(a, Emit(b, lines), ReleaseOperand(Emit(b, lines), x, r));
  }

  lemma PairDepths(a: Alloc, x: Operand, y: Operand, lines: seq<Line>)
    requires LoadPair(a, x, y).Ok?
    ensures var (c, r1, r2) := LoadPair(a, x, y).value; DepthsKept(a, ReleasePair(Emit(c, lines), x, y, r1, r2))
  {
    hide OperandReg, ReleaseOperand;
    var b := OperandReg(a, x).value.0;
    var (c, r1, r2) := LoadPair(a, x, y).value;
    var d := UnpinOperand(Emit(c, lines), x);
    var e := ReleaseOperand(d, x, r1);
    OperandDepths(a, x);
    OperandDepths(PinOperand(b, x), y);
    ReleaseDepths(d, x, r1);
    ReleaseDepths(e, y, r2);
    DepthsTransitive(a, b, d);
    DepthsTransitive(a, d, e);
    DepthsTransitive(a, e, ReleaseOperand(e, y, r2));
  }

  lemma RhsDepths(a: Alloc, dst: string, rd: Reg, rhs: Rhs)
    requires LowerRhs(a, dst, rd, rhs).Ok?
    ensures DepthsKept(a, LowerRhs(a, dst, rd, rhs).value)
  {
    hide OperandReg, LoadPair, ReleaseOperand, ReleasePair, Without, SpillAddrCode, LiteralCode;
    match rhs
    case Unary(u, fmt, x) =>
      OneDepths(a, x, [UnaryLine(u, fmt, rd, OperandReg(a, x).value.1)]);
    case Binary(op, fmt, x, y) =>
      var (_, r1, r2) := LoadPair(a, x, y).value;
      PairDepths(a, x, y, [Alu(ValueOpcode(op, fmt).value, fmt, rd, r1, r2)]);
    case _ =>
  }

  lemma FinishDepths(a: Alloc, dst: string)
    ensures DepthsKept(a, Finish(a, dst))
  {
    hide Without, SpillAddrCode;
  }

  /** Every statement keeps the recorded depths within the current predicate. */
  lemma LowerWithin(a: Alloc, stmt: Stmt)
    requires Within(a) && Lower(a, stmt).Ok?
    ensures Within(Lower(a, stmt).value)
  {
    hide OperandReg, LoadPair, ReleaseOperand, Define, LowerRhs, Finish;
    match stmt
    case Assign(dst, rhs) =>
      var (b, rd) := Define(a, dst).value;
      var c := LowerRhs(Pin(b, dst), dst, rd, rhs).value;
      DefineDepths(a, dst);
      RhsDepths(Pin(b, dst), dst, rd, rhs);
      FinishDepths(c, dst);
    case StoreTo(space, fmt, x, y) =>
      var (_, r1, r2) := LoadPair(a, x, y).value;
      PairDepths(a, x, y, [Store(if space.Global? then STG else STS, fmt, r1, 0, r2)]);
    case PredBegin(x) => OneDepths(a, x, TestLines(stmt, OperandReg(a, x).value.1));
    case GotoZero(x, _) => OneDepths(a, x, TestLines(stmt, OperandReg(a, x).value.1));
    case GotoNonzero(x, _) => OneDepths(a, x, TestLines(stmt, OperandReg(a, x).value.1));
    case _ =>
  }

  /** From the start of a section on. */
  lemma {:induction false} SectionWithin(a: Alloc, stmts: seq<Stmt>)
    requires Within(a) && LowerAll(a, stmts).Ok?
    ensures Within(LowerAll(a, stmts).value)
    decreases |stmts|
  {
    hide Lower, Within;
    if stmts != [] {
      LowerWithin(a, stmts[0]);
      SectionWithin(Lower(a, stmts[0]).value, stmts[1..]);
    }
  }

  /** At every point of every section: nothing placed so far may be spilled right inside a predicate
      opened there, closing that predicate at once changes nothing, and closing the current one
      makes exactly the values recorded at its depth or just outside it spillable. */
  lemma SectionScopes(uses: map<string, int>, stmts: seq<Stmt>, v: string)
    requires LowerAll(Fresh(uses), stmts).Ok?
    ensures var b := LowerAll(Fresh(uses), stmts).value;
      && !Spillable(EnterPredicate(b), v) && ExitPredicate(EnterPredicate(b)) == b
      && (b.depth > 0 ==> (Spillable(ExitPredicate(b), v) <==>
                             v in b.regs && v !in b.pinned && b.depth - 1 <= DepthOf(b, v) <= b.depth))
  {
    hide LowerAll;
    var b := LowerAll(Fresh(uses), stmts).value;
    SectionWithin(Fresh(uses), stmts);
    SpillableInside(b, v);
    ExitUndoesEnter(b);
    if b.depth > 0 { SpillableAfter(b, v); }
  }
}
