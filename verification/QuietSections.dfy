/** Sections that never spill, and so move no value while a lane is idle. */
module QuietSections {
  import opened Isa
  import opened MiniIr
  import opened Allocation
  import opened RegisterFile
  import opened RegisterSupply
  import opened BackEnd
  import opened Compiler
  import SectionLowering

  /** The registers a section's names may take. */
  ghost predicate Spacious(a: Alloc, all: set<string>) {
    WellFormed(a) && a.regs.Keys <= all && |all| <= 13
  }

  /** Values get registers, and only memory-backed ones get slots. */
  ghost predicate Grows(a: Alloc, b: Alloc) {
    && (forall v :: v in a.regs ==> v in b.regs && b.regs[v] == a.regs[v])
    && (forall v :: v in b.spilled ==> v in a.spilled || v in b.backed)
    && a.backed <= b.backed
  }

  /** Values give registers back, and only memory-backed ones get slots. */
  ghost predicate Shrinks(a: Alloc, b: Alloc) {
    && (forall v :: v in b.regs ==> v in a.regs && b.regs[v] == a.regs[v])
    && (forall v :: v in b.spilled ==> v in a.spilled || v in b.backed)
    && a.backed <= b.backed
  }

  lemma GrowsTransitive(a: Alloc, b: Alloc, c: Alloc)
    requires Grows(a, b) && Grows(b, c)
    ensures Grows(a, c)
  {
  }

  lemma ShrinksTransitive(a: Alloc, b: Alloc, c: Alloc)
    requires Shrinks(a, b) && Shrinks(b, c)
    ensures Shrinks(a, c)
  {
  }

  /** While the names fit the registers, one is free for a name that has none. */
  lemma FreeRegister(a: Alloc, all: set<string>, v: string)
    requires Spacious(a, all) && v in all && v !in a.regs
    ensures a.free != [] && Spare(a) == a
  {
    RegistersShared(a);
    hide WellFormed;
    Proper(a.regs.Keys, all, v);
  }

  lemma Proper(s: set<string>, t: set<string>, v: string)
    requires s <= t && v in t && v !in s
    ensures |s| < |t|
  {
    assert t == (t - s) + s;
    assert v in t - s;
  }

  lemma DefineGrows(a: Alloc, v: string, all: set<string>)
    requires Spacious(a, all) && v in all && Define(a, v).Ok?
    ensures var p := Pin(Define(a, v).value.0, v); Grows(a, p) && Spacious(p, all)
  {
    hide WellFormed, Define;
    DefineKeeps(a, v);
    SameFile(Define(a, v).value.0, Pin(Define(a, v).value.0, v));
    if v in a.regs { DefineHeldGrows(a, v); } else { DefineNewGrows(a, v, all); }
  }

  lemma DefineHeldGrows(a: Alloc, v: string)
    requires v in a.regs
    ensures Define(a, v).Ok? && var p := Define(a, v).value.0; Grows(a, p) && p.regs.Keys == a.regs.Keys
  {
    hide Without, IsSlot;
  }

  lemma DefineNewGrows(a: Alloc, v: string, all: set<string>)
    requires Spacious(a, all) && v in all && v !in a.regs && Define(a, v).Ok?
    ensures var p := Define(a, v).value.0; Grows(a, p) && p.regs.Keys == a.regs.Keys + {v}
  {
    hide Without, IsSlot, WellFormed, Define, Spare;
    ClearedSame(a, v);
    FreeRegister(Cleared(a, v), all, v);
    DefineUnfolds(a, v);
  }

  lemma OperandGrows(a: Alloc, o: Operand, all: set<string>)
    requires Spacious(a, all) && (o.Val? ==> o.name in all) && OperandReg(a, o).Ok?
    ensures var b := OperandReg(a, o).value.0; Grows(a, b) && Spacious(b, all) && b.backed == a.backed
  {
    hide Without, WellFormed, SpillAddrCode, LiteralCode;
    OperandKeeps(a, o);
    if o.Val? && o.name !in a.regs { FreeRegister(a, all, o.name); }
  }

  lemma ReleaseShrinks(a: Alloc, o: Operand, r: Reg)
    ensures Shrinks(a, ReleaseOperand(a, o, r))
  {
    hide Without;
  }

  lemma FinishShrinks(a: Alloc, dst: string)
    ensures Shrinks(a, Finish(a, dst))
  {
    hide Without, SpillAddrCode;
  }

  lemma OneMiddle(a: Alloc, x: Operand, lines: seq<Line>, all: set<string>) returns (mid: Alloc)
    requires Spacious(a, all) && (x.Val? ==> x.name in all) && OperandReg(a, x).Ok?
    ensures var (b, r) := OperandReg(a, x).value; Grows(a, mid) && Shrinks(mid, ReleaseOperand(Emit(b, lines), x, r))
  {
    hide OperandReg, ReleaseOperand, WellFormed;
    var (b, r) := OperandReg(a, x).value;
    mid := Emit(b, lines);
    OperandGrows(a, x, all);
    ReleaseShrinks(mid, x, r);
  }

  lemma PairMiddle(a: Alloc, x: Operand, y: Operand, lines: seq<Line>, all: set<string>) returns (mid: Alloc)
    requires Spacious(a, all) && LoadPair(a, x, y).Ok?
    requires (x.Val? ==> x.name in all) && (y.Val? ==> y.name in all)
    ensures var (c, r1, r2) := LoadPair(a, x, y).value;
      Grows(a, mid) && Shrinks(mid, ReleasePair(Emit(c, lines), x, y, r1, r2))
  {
    hide OperandReg, ReleaseOperand, WellFormed;
    var b := OperandReg(a, x).value.0;
    var (c, r1, r2) := LoadPair(a, x, y).value;
    var p := PinOperand(b, x);
    mid := UnpinOperand(Emit(c, lines), x);
    OperandGrows(a, x, all);
    SameFile(b, p);
    OperandGrows(p, y, all);
    GrowsTransitive(a, b, mid);
    var e := ReleaseOperand(mid, x, r1);
    ReleaseShrinks(mid, x, r1);
    ReleaseShrinks(e, y, r2);
    ShrinksTransitive(mid, e, ReleaseOperand(e, y, r2));
  }

  lemma RhsMiddle(a: Alloc, stmt: Stmt, rd: Reg, all: set<string>) returns (mid: Alloc)
    requires Spacious(a, all) && stmt.Assign? && Names(stmt) <= all && LowerRhs(a, stmt.dst, rd, stmt.rhs).Ok?
    ensures Grows(a, mid) && Shrinks(mid, LowerRhs(a, stmt.dst, rd, stmt.rhs).value)
  {
    hide WellFormed, OperandReg, LoadPair, ReleaseOperand, ReleasePair, Without, SpillAddrCode, LiteralCode, Names;
    match stmt.rhs
    case Unary(u, fmt, x) =>
      OneName(stmt, x);
      mid := OneMiddle(a, x, [UnaryLine(u, fmt, rd, OperandReg(a, x).value.1)], all);
    case Binary(op, fmt, x, y) =>
      var (_, r1, r2) := LoadPair(a, x, y).value;
      PairNames(stmt, x, y);
      mid := PairMiddle(a, x, y, [Alu(ValueOpcode(op, fmt).value, fmt, rd, r1, r2)], all);
    case _ => mid := a;
  }

  /** A statement first hands registers out and then takes registers back. */
  lemma LowerMiddle(a: Alloc, stmt: Stmt, all: set<string>) returns (mid: Alloc)
    requires Orderly(a, {}) && Spacious(a, all) && Names(stmt) <= all && Lower(a, stmt).Ok?
    ensures Grows(a, mid) && Shrinks(mid, Lower(a, stmt).value)
  {
    hide WellFormed, OperandReg, LoadPair, ReleaseOperand, ReleasePair, LowerAssign, Names, Orderly, TestLines;
    match stmt
    case Assign(_, _) => mid := AssignMiddle(a, stmt, all);
    case StoreTo(space, fmt, x, y) =>
      var (_, r1, r2) := LoadPair(a, x, y).value;
      PairNames(stmt, x, y);
      mid := PairMiddle(a, x, y, [Store(if space.Global? then STG else STS, fmt, r1, 0, r2)], all);
    case PredBegin(x) => mid := TestMiddle(a, stmt, x, all);
    case GotoZero(x, _) => mid := TestMiddle(a, stmt, x, all);
    case GotoNonzero(x, _) => mid := TestMiddle(a, stmt, x, all);
    case _ => mid := a;
  }

  lemma TestMiddle(a: Alloc, stmt: Stmt, x: Operand, all: set<string>) returns (mid: Alloc)
    requires Spacious(a, all) && Names(stmt) <= all && LowerTest(a, x, stmt).Ok? && Operands(stmt) == [x]
    ensures Grows(a, mid) && Shrinks(mid, LowerTest(a, x, stmt).value)
  {
    hide WellFormed, OperandReg, ReleaseOperand, Names, TestLines;
    OneName(stmt, x);
    mid := OneMiddle(a, x, TestLines(stmt, OperandReg(a, x).value.1), all);
  }

  lemma AssignMiddle(a: Alloc, stmt: Stmt, all: set<string>) returns (mid: Alloc)
    requires Orderly(a, {}) && Spacious(a, all) && stmt.Assign? && Names(stmt) <= all && Lower(a, stmt).Ok?
    ensures Grows(a, mid) && Shrinks(mid, Lower(a, stmt).value)
  {
    hide WellFormed, Define, LowerRhs, Names, Finish, Orderly;
    var (b, rd) := Define(a, stmt.dst).value;
    var p := Pin(b, stmt.dst);
    var c := LowerRhs(p, stmt.dst, rd, stmt.rhs).value;
    assert stmt.dst in Names(stmt) by { NamesDefined(stmt); }
    DefineGrows(a, stmt.dst, all);
    mid := RhsMiddle(p, stmt, rd, all);
    GrowsTransitive(a, p, mid);
    FinishShrinks(c, stmt.dst);
    ShrinksTransitive(mid, c, Finish(c, stmt.dst));
  }

  lemma NamesDefined(stmt: Stmt)
    requires stmt.Assign?
    ensures stmt.dst in Names(stmt)
  {
  }

  // ----- homes -----

  /** Only memory-backed values have slots, and every name has room. */
  ghost predicate Unspilled(a: Alloc, all: set<string>) {
    Orderly(a, {}) && Spacious(a, all) && forall v :: v in a.spilled ==> v in a.backed
  }

  lemma UnspilledNext(a: Alloc, stmt: Stmt, all: set<string>)
    requires Unspilled(a, all) && Names(stmt) <= all && Lower(a, stmt).Ok?
    ensures Unspilled(Lower(a, stmt).value, all)
  {
    hide WellFormed, Lower, Names;
    var mid := LowerMiddle(a, stmt, all);
    LowerOrderly(a, stmt);
    RegsNamed(a, stmt);
  }

  /** Only named values get registers. */
  lemma RegsNamed(a: Alloc, stmt: Stmt)
    requires Orderly(a, {}) && Lower(a, stmt).Ok?
    ensures Lower(a, stmt).value.regs.Keys <= a.regs.Keys + Names(stmt)
  {
    hide WellFormed, Names, Lower;
    if stmt.PredEnd? { EndKeepsRegs(a, stmt); } else { SectionLowering.LowerStays(a, stmt); }
  }

  lemma EndKeepsRegs(a: Alloc, stmt: Stmt)
    requires stmt.PredEnd?
    ensures Lower(a, stmt).Ok? && Lower(a, stmt).value.regs == a.regs
  {
  }

  /** A statement moves no needed value, except one that it loads a parameter into. */
  lemma HomesKept(a: Alloc, stmt: Stmt, all: set<string>, v: string)
    requires Unspilled(a, all) && Names(stmt) <= all && Lower(a, stmt).Ok?
    requires !(stmt.Assign? && stmt.rhs.Arg? && v == stmt.dst)
    ensures HomeKept(a, Lower(a, stmt).value, v)
  {
    hide WellFormed, Lower, Names, Spacious, LowerAssign;
    var b := Lower(a, stmt).value;
    var mid := LowerMiddle(a, stmt, all);
    UnspilledNext(a, stmt, all);
    LowerOrderly(a, stmt);
    if stmt.Assign? {
      LowerIsAssign(a, stmt);
      AssignOrderly(a, stmt.dst, stmt.rhs);
    }
  }

  lemma LowerIsAssign(a: Alloc, stmt: Stmt)
    requires stmt.Assign?
    ensures Lower(a, stmt) == LowerAssign(a, stmt.dst, stmt.rhs)
  {
  }

  /** Parameters are loaded into values that have not been assigned before. */
  predicate LoadsParametersFirst(stmts: seq<Stmt>, done: set<string>)
    decreases |stmts|
  {
    stmts == [] ||
    (&& (stmts[0].Assign? && stmts[0].rhs.Arg? ==> stmts[0].dst !in done)
     && LoadsParametersFirst(stmts[1..], DoneAfter(stmts[0], done)))
  }

  lemma {:induction false} FewQuiet(a: Alloc, stmts: seq<Stmt>, done: set<string>, bounds: seq<set<string>>,
                                    all: set<string>)
    requires Unspilled(a, all) && (forall stmt :: stmt in stmts ==> Names(stmt) <= all)
    requires bounds != [] && (forall i :: 0 <= i < |bounds| ==> bounds[i] <= done) && LoadsParametersFirst(stmts, done)
    ensures QuietInside(a, stmts, done, bounds)
    decreases |stmts|
  {
    hide Unspilled, Lower, HomeKept, Names;
    if stmts != [] && Lower(a, stmts[0]).Ok? {
      var b := Lower(a, stmts[0]).value;
      forall v | v in bounds[|bounds| - 1] ensures HomeKept(a, b, v) { HomesKept(a, stmts[0], all, v); }
      UnspilledNext(a, stmts[0], all);
      FewQuiet(b, stmts[1..], DoneAfter(stmts[0], done), BoundsAfter(stmts[0], done, bounds), all);
    }
  }

  /** A section that names at most thirteen values and loads each parameter into a new one moves no
      needed value anywhere, so nothing is lost while a lane sits out a predicate. */
  lemma FewValuesQuiet(stmts: seq<Stmt>, all: set<string>)
    requires |all| <= 13 && (forall stmt :: stmt in stmts ==> Names(stmt) <= all) && LoadsParametersFirst(stmts, {})
    ensures QuietInside(Fresh(CountUses(stmts)), stmts, {}, [{}])
  {
    hide WellFormed, QuietInside, Names, LoadsParametersFirst;
    StartsCounted(stmts);
    FewQuiet(Fresh(CountUses(stmts)), stmts, {}, [{}], all);
  }
}
