/** When a whole section can be lowered, read off its statements. */
module SectionLowering {
  import opened Isa
  import opened MiniIr
  import opened Allocation
  import opened RegisterFile
  import opened PredicateScopes
  import opened RegisterSupply
  import opened Compiler

  // ----- the condition -----

  /** What the statements so far tell about the allocator: the values assigned, those among them that
      live in memory, those that may hold a register, and for each open predicate those that may
      have held one when it was opened. */
  datatype Outline = Outline(defined: set<string>, stored: set<string>, held: set<string>, around: seq<set<string>>)

  const START := Outline({}, {}, {}, [])

  /** The values that may keep registers because they were placed around the current predicate. */
  function Kept(o: Outline): set<string> {
    if o.around == [] then {} else o.around[|o.around| - 1] * o.held
  }

  predicate StatementFits(o: Outline, stmt: Stmt) {
    && !NoSuchOperation(stmt) && !TwoLiterals(stmt)
    && (forall x :: x in Operands(stmt) && x.Val? ==> x.name in o.defined)
    && |Names(stmt) + Kept(o)| <= 13
  }

  /** After a statement: a value gives its register back with its last mention, or when it is
      memory-backed. */
  function Next(o: Outline, stmt: Stmt, rest: seq<Stmt>): Outline {
    var defined := o.defined + (if stmt.Assign? then {stmt.dst} else {});
    var stored := o.stored + (if stmt.Assign? && (IsSlot(stmt.dst) || stmt.rhs.Arg?) then {stmt.dst} else {});
    var held := set v | v in o.held + Names(stmt) && v !in stored && !(Mentions(stmt, v) > 0 && Count(rest, v) == 0);
    var around := if stmt.PredBegin? then o.around + [held]
                  else if stmt.PredEnd? && o.around != [] then o.around[..|o.around| - 1]
                  else o.around;
    Outline(defined, stored, held, around)
  }

  predicate FitsRegisters(o: Outline, stmts: seq<Stmt>)
    decreases |stmts|
  {
    stmts == [] || (StatementFits(o, stmts[0]) && FitsRegisters(Next(o, stmts[0], stmts[1..]), stmts[1..]))
  }

  // ----- what one statement does to registers and depths -----

  /** Registers come only to named values, at the current depth; the others keep their depths. */
  ghost predicate Stays(a: Alloc, b: Alloc, names: set<string>) {
    && b.depth == a.depth
    && forall v :: v in b.regs ==>
         (v in a.regs && DepthOf(b, v) == DepthOf(a, v)) || (v in names && DepthOf(b, v) == a.depth)
  }

  lemma StaysTransitive(a: Alloc, b: Alloc, c: Alloc, names: set<string>, more: set<string>)
    requires Stays(a, b, names) && Stays(b, c, more)
    ensures Stays(a, c, names + more)
  {
  }

  lemma StaysMore(a: Alloc, b: Alloc, names: set<string>, more: set<string>)
    requires Stays(a, b, names) && names <= more
    ensures Stays(a, b, more)
  {
  }

  lemma SpareStays(a: Alloc)
    ensures Stays(a, Spare(a), {})
  {
    hide Without, SpillAddrCode;
  }

  lemma DefineStays(a: Alloc, v: string)
    requires Define(a, v).Ok?
    ensures Stays(a, Pin(Define(a, v).value.0, v), {v})
  {
    hide Without, Spare, IsSlot;
    var b := if IsSlot(v) then Back(a, v) else a;
    SpareStays(if v in b.backed then b else b.(spilled := b.spilled - {v}));
  }

  lemma OperandStays(a: Alloc, o: Operand)
    requires OperandReg(a, o).Ok?
    ensures Stays(a, OperandReg(a, o).value.0, NameOf(o))
  {
    hide Without, Spare, SpillAddrCode, LiteralCode;
    SpareStays(a);
  }

  lemma ReleaseStays(a: Alloc, o: Operand, r: Reg)
    ensures Stays(a, ReleaseOperand(a, o, r), {})
  {
    hide Without;
  }

  lemma FinishStays(a: Alloc, dst: string)
    ensures Stays(a, Finish(a, dst), {})
  {
    hide Without, SpillAddrCode;
  }

  /** A released operand that nothing ahead names has given its register back. */
  lemma ReleasedGone(a: Alloc, o: Operand, r: Reg)
    requires a.backed == a.persistent
    ensures var b := ReleaseOperand(a, o, r);
      && b.backed == b.persistent == a.backed
      && (forall v :: v in b.regs ==> v in a.regs)
      && (forall v :: o == Val(v) && v !in a.backed && Uses(b, v) <= 0 ==> v !in b.regs)
      && (forall v :: v !in a.backed && o != Val(v) ==> Uses(b, v) == Uses(a, v))
  {
    hide Without;
    if o.Val? { ReleaseForgets(a, o.name); }
  }

  lemma OneStays(a: Alloc, x: Operand, lines: seq<Line>)
    requires OperandReg(a, x).Ok? && a.backed == a.persistent && WellFormed(a)
    ensures var (b, r) := OperandReg(a, x).value; var c := ReleaseOperand(Emit(b, lines), x, r);
      && Stays(a, c, NameOf(x)) && forall v :: x == Val(v) && v !in c.backed && Uses(c, v) <= 0 ==> v !in c.regs
  {
    hide OperandReg, ReleaseOperand, Uses, WellFormed;
    var (b, r) := OperandReg(a, x).value;
    OperandKeeps(a, x);
    OperandStays(a, x);
    ReleaseStays(Emit(b, lines), x, r);
    ReleasedGone(Emit(b, lines), x, r);
    StaysTransitive(a, Emit(b, lines), ReleaseOperand(Emit(b, lines), x, r), NameOf(x), {});
    assert NameOf(x) + {} == NameOf(x);
  }

  lemma PairStays(a: Alloc, x: Operand, y: Operand, lines: seq<Line>)
    requires LoadPair(a, x, y).Ok? && a.backed == a.persistent && WellFormed(a)
    ensures var (c, r1, r2) := LoadPair(a, x, y).value; var e := ReleasePair(Emit(c, lines), x, y, r1, r2);
      && Stays(a, e, NameOf(x) + NameOf(y))
      && forall v :: (x == Val(v) || y == Val(v)) && v !in e.backed && Uses(e, v) <= 0 ==> v !in e.regs
  {
    hide OperandReg, ReleaseOperand, Uses, WellFormed;
    var b := OperandReg(a, x).value.0;
    var (c, r1, r2) := LoadPair(a, x, y).value;
    var d := UnpinOperand(Emit(c, lines), x);
    var e := ReleaseOperand(d, x, r1);
    LoadPairKeeps(a, x, y);
    OperandStays(a, x);
    OperandStays(PinOperand(b, x), y);
    ReleaseStays(d, x, r1);
    ReleaseStays(e, y, r2);
    ReleasedGone(d, x, r1);
    ReleasedGone(e, y, r2);
    StaysTransitive(a, b, d, NameOf(x), NameOf(y));
    StaysTransitive(a, d, e, NameOf(x) + NameOf(y), {});
    StaysTransitive(a, e, ReleaseOperand(e, y, r2), NameOf(x) + NameOf(y), {});
    assert NameOf(x) + NameOf(y) + {} == NameOf(x) + NameOf(y);
  }

  /** Operands that nothing ahead names are in no register. */
  ghost predicate Gone(b: Alloc, stmt: Stmt) {
    forall v :: Mentions(stmt, v) > 0 && v !in b.backed && Uses(b, v) <= 0 ==> v !in b.regs
  }

  lemma RhsStays(a: Alloc, dst: string, rd: Reg, stmt: Stmt)
    requires WellFormed(a) && a.backed == a.persistent && stmt.Assign? && stmt.dst == dst
    requires LowerRhs(a, dst, rd, stmt.rhs).Ok?
    ensures Stays(a, LowerRhs(a, dst, rd, stmt.rhs).value, Names(stmt))
    ensures Gone(LowerRhs(a, dst, rd, stmt.rhs).value, stmt)
  {
    hide WellFormed, OperandReg, LoadPair, ReleaseOperand, ReleasePair, Without, SpillAddrCode, LiteralCode, Uses,
      Mentions, Names, UnaryLine, ValueOpcode, Stays;
    var b := LowerRhs(a, dst, rd, stmt.rhs).value;
    match stmt.rhs
    case Unary(u, fmt, x) =>
      OneStays(a, x, [UnaryLine(u, fmt, rd, OperandReg(a, x).value.1)]);
      OneMention(stmt, x);
      OneName(stmt, x);
      StaysMore(a, b, NameOf(x), Names(stmt));
    case Binary(op, fmt, x, y) =>
      var (_, r1, r2) := LoadPair(a, x, y).value;
      PairStays(a, x, y, [Alu(ValueOpcode(op, fmt).value, fmt, rd, r1, r2)]);
      PairMentions(stmt, x, y);
      PairNames(stmt, x, y);
      StaysMore(a, b, NameOf(x) + NameOf(y), Names(stmt));
    case _ =>
      NoMentions(stmt);
      PlainStays(a, dst, rd, stmt);
  }

  lemma PlainStays(a: Alloc, dst: string, rd: Reg, stmt: Stmt)
    requires stmt.Assign? && Operands(stmt) == [] && LowerRhs(a, dst, rd, stmt.rhs).Ok?
    ensures Stays(a, LowerRhs(a, dst, rd, stmt.rhs).value, Names(stmt))
  {
    hide Without, SpillAddrCode, LiteralCode;
  }

  lemma AssignStays(a: Alloc, stmt: Stmt)
    requires Orderly(a, {}) && stmt.Assign? && Lower(a, stmt).Ok?
    ensures Stays(a, Lower(a, stmt).value, Names(stmt)) && Gone(Lower(a, stmt).value, stmt)
  {
    hide WellFormed, Define, LowerRhs, Names, Uses, Mentions, Finish;
    var (b, rd) := Define(a, stmt.dst).value;
    var p := Pin(b, stmt.dst);
    var c := LowerRhs(p, stmt.dst, rd, stmt.rhs).value;
    DefineOrderly(a, stmt.dst);
    DefineStays(a, stmt.dst);
    RhsStays(p, stmt.dst, rd, stmt);
    FinishStays(c, stmt.dst);
    FinishGone(c, stmt);
    StaysTransitive(a, p, c, {stmt.dst}, Names(stmt));
    StaysTransitive(a, c, Finish(c, stmt.dst), {stmt.dst} + Names(stmt), {});
    NamesDestination(stmt);
  }

  lemma NamesDestination(stmt: Stmt)
    requires stmt.Assign?
    ensures {stmt.dst} + Names(stmt) + {} == Names(stmt)
  {
  }

  lemma FinishGone(a: Alloc, stmt: Stmt)
    requires stmt.Assign? && Gone(a, stmt)
    ensures Gone(Finish(a, stmt.dst), stmt)
  {
    hide Without, SpillAddrCode, Mentions;
  }

  /** Every statement, seen at the depth it began at. */
  lemma LowerStays(a: Alloc, stmt: Stmt)
    requires Orderly(a, {}) && Lower(a, stmt).Ok? && !stmt.PredEnd?
    ensures var b := Lower(a, stmt).value;
      && b.depth == (if stmt.PredBegin? then a.depth + 1 else a.depth)
      && Stays(a, b.(depth := a.depth), Names(stmt)) && Gone(b, stmt)
  {
    hide WellFormed, OperandReg, LoadPair, ReleaseOperand, ReleasePair, LowerAssign, Mentions, Names, TestLines;
    var b := Lower(a, stmt).value;
    match stmt
    case Assign(_, _) => AssignStays(a, stmt);
    case StoreTo(space, fmt, x, y) =>
      var (_, r1, r2) := LoadPair(a, x, y).value;
      PairStays(a, x, y, [Store(if space.Global? then STG else STS, fmt, r1, 0, r2)]);
      PairMentions(stmt, x, y);
      PairNames(stmt, x, y);
    case PredBegin(x) => TestStays(a, stmt, x);
    case GotoZero(x, _) => TestStays(a, stmt, x);
    case GotoNonzero(x, _) => TestStays(a, stmt, x);
    case _ => NoMentions(stmt);
  }

  lemma TestStays(a: Alloc, stmt: Stmt, x: Operand)
    requires Orderly(a, {}) && LowerTest(a, x, stmt).Ok? && Operands(stmt) == [x]
    ensures Stays(a, LowerTest(a, x, stmt).value, Names(stmt)) && Gone(LowerTest(a, x, stmt).value, stmt)
  {
    hide WellFormed, OperandReg, ReleaseOperand, Mentions, Names, Uses, TestLines;
    OneStays(a, x, TestLines(stmt, OperandReg(a, x).value.1));
    OneMention(stmt, x);
    OneName(stmt, x);
  }

  // ----- the condition follows the allocator -----

  /** The values that may hold a register, with their depths. */
  ghost predicate Occupies(o: Outline, a: Alloc) {
    && |o.around| == a.depth
    && (forall v :: v in a.regs ==> v in o.held && DepthOf(a, v) <= a.depth)
    && (forall v, j :: v in a.regs && 0 <= j < a.depth && DepthOf(a, v) <= j ==> v in o.around[j])
  }

  /** Memory-backed values have their slots, and the others a place while operands ahead name them. */
  ghost predicate Places(o: Outline, a: Alloc, ahead: seq<Stmt>) {
    && a.backed == o.stored <= o.defined
    && (forall v :: v in o.stored ==> v in a.spilled)
    && (forall v :: v in o.defined && IsSlot(v) ==> v in o.stored)
    && (forall v :: v !in a.backed ==> Uses(a, v) == Count(ahead, v))
    && (forall v :: v in o.defined && v !in o.stored && Count(ahead, v) > 0 ==> Located(a, v))
  }

  lemma OccupiesAround(o: Outline, a: Alloc)
    requires Occupies(o, a)
    ensures Around(a) <= Kept(o)
  {
    forall v | v in Around(a) ensures v in Kept(o) {
      assert DepthOf(a, v) <= a.depth - 1 && v in o.around[a.depth - 1];
    }
  }

  lemma PlacesPlaced(o: Outline, a: Alloc, stmt: Stmt, rest: seq<Stmt>)
    requires Places(o, a, [stmt] + rest)
    requires forall x :: x in Operands(stmt) && x.Val? ==> x.name in o.defined
    ensures !Unplaced(a, stmt)
  {
    hide Unplaced;
    UnplacedIffNotFound(a, stmt);
    forall x | x in Operands(stmt) ensures Found(a, stmt, x) {
      if x.Val? {
        CountStep(stmt, rest, x.name);
        assert Mentions(stmt, x.name) > 0;
      }
    }
  }

  lemma FitLowers(o: Outline, a: Alloc, stmt: Stmt, rest: seq<Stmt>)
    requires Orderly(a, {}) && Occupies(o, a) && Places(o, a, [stmt] + rest) && StatementFits(o, stmt)
    ensures Lower(a, stmt).Ok?
  {
    hide Lower, WellFormed, Orderly, Unplaced, Names, Around, Kept, NoSuchOperation, TwoLiterals, Occupies, Places;
    LowerNeedsThirteen(a, stmt);
    OccupiesAround(o, a);
    PlacesPlaced(o, a, stmt, rest);
    Subset(Names(stmt) + Around(a), Names(stmt) + Kept(o));
  }

  lemma {:induction false} Subset(s: set<string>, t: set<string>)
    requires s <= t
    ensures |s| <= |t|
  {
    if s != {} {
      var x :| x in s;
      Subset(s - {x}, t - {x});
    }
  }

  lemma HeldNext(o: Outline, a: Alloc, b: Alloc, stmt: Stmt, rest: seq<Stmt>)
    requires Occupies(o, a) && Stays(a, b.(depth := a.depth), Names(stmt)) && Gone(b, stmt)
    requires b.backed == Next(o, stmt, rest).stored && b.backed !! b.regs.Keys
    requires forall v :: v !in b.backed ==> Uses(b, v) == Count(rest, v)
    ensures b.regs.Keys <= Next(o, stmt, rest).held
  {
    hide Names, Mentions, Uses, Count, IsSlot;
    forall v | v in b.regs ensures v in Next(o, stmt, rest).held {
      assert v in o.held || v in Names(stmt);
    }
  }

  lemma OccupiesFrom(o: Outline, a: Alloc, b: Alloc, stmt: Stmt, rest: seq<Stmt>)
    requires Occupies(o, a) && Stays(a, b.(depth := a.depth), Names(stmt)) && !stmt.PredEnd?
    requires b.depth == (if stmt.PredBegin? then a.depth + 1 else a.depth)
    requires b.regs.Keys <= Next(o, stmt, rest).held
    ensures Occupies(Next(o, stmt, rest), b)
  {
    hide Names, Mentions, Count, IsSlot;
    forall v | v in b.regs
      ensures DepthOf(b, v) <= a.depth && (DepthOf(b, v) < a.depth ==> v in a.regs && DepthOf(b, v) == DepthOf(a, v))
    {
      assert DepthOf(b, v) == DepthOf(b.(depth := a.depth), v);
    }
  }

  lemma OccupiesNext(o: Outline, a: Alloc, stmt: Stmt, rest: seq<Stmt>)
    requires Orderly(a, {}) && Occupies(o, a) && Lower(a, stmt).Ok? && !stmt.PredEnd?
    requires var b := Lower(a, stmt).value;
      && Orderly(b, {}) && b.backed == Next(o, stmt, rest).stored
      && forall v :: v !in b.backed ==> Uses(b, v) == Count(rest, v)
    ensures Occupies(Next(o, stmt, rest), Lower(a, stmt).value)
  {
    hide Lower, WellFormed, Names, Mentions, Uses, Count, IsSlot, Occupies, Stays, Gone, Next;
    var b := Lower(a, stmt).value;
    LowerStays(a, stmt);
    HeldNext(o, a, b, stmt, rest);
    OccupiesFrom(o, a, b, stmt, rest);
  }

  lemma OccupiesEnd(o: Outline, a: Alloc, stmt: Stmt, rest: seq<Stmt>)
    requires Orderly(a, {}) && Occupies(o, a) && stmt.PredEnd? && a.backed == o.stored
    ensures Occupies(Next(o, stmt, rest), Lower(a, stmt).value)
  {
    hide WellFormed;
    NoMentions(stmt);
    var b := ExitPredicate(a);
    forall v | v in a.regs ensures DepthOf(b, v) == if DepthOf(a, v) > b.depth then b.depth else DepthOf(a, v) {
    }
  }

  lemma StoredNext(o: Outline, a: Alloc, stmt: Stmt, rest: seq<Stmt>)
    requires Orderly(a, {}) && Lower(a, stmt).Ok? && a.backed == o.stored
    ensures Lower(a, stmt).value.backed == Next(o, stmt, rest).stored
  {
    LowerOrderly(a, stmt);
    if stmt.Assign? {
      hide WellFormed, LowerAssign, IsSlot;
      AssignOrderly(a, stmt.dst, stmt.rhs);
    } else {
      hide Lower, WellFormed;
    }
  }

  lemma PlacesNext(o: Outline, a: Alloc, stmt: Stmt, rest: seq<Stmt>)
    requires Orderly(a, {}) && Places(o, a, [stmt] + rest) && Lower(a, stmt).Ok?
    requires forall x :: x in Operands(stmt) && x.Val? ==> x.name in o.defined
    ensures Places(Next(o, stmt, rest), Lower(a, stmt).value, rest)
  {
    hide WellFormed, IsSlot, Mentions, Count, Lower, LowerAssign;
    var b := Lower(a, stmt).value;
    LowerOrderly(a, stmt);
    StoredNext(o, a, stmt, rest);
    forall v ensures Count([stmt] + rest, v) == Mentions(stmt, v) + Count(rest, v) { CountStep(stmt, rest, v); }
    if stmt.Assign? {
      Mentioned(stmt, stmt.dst);
      DestinationStored(o, a, stmt);
    }
  }

  lemma Mentioned(stmt: Stmt, v: string)
    ensures Mentions(stmt, v) > 0 ==> Val(v) in Operands(stmt)
  {
  }

  /** A memory-backed destination has a slot afterwards, even when the assignment reads it, because
      it was assigned before. */
  lemma DestinationStored(o: Outline, a: Alloc, stmt: Stmt)
    requires Orderly(a, {}) && stmt.Assign? && Lower(a, stmt).Ok?
    requires forall v :: v in o.stored ==> v in a.spilled
    requires a.backed == o.stored
    requires Mentions(stmt, stmt.dst) > 0 && (IsSlot(stmt.dst) || stmt.rhs.Arg?) ==> stmt.dst in o.stored
    ensures stmt.dst in Lower(a, stmt).value.backed ==> stmt.dst in Lower(a, stmt).value.spilled
  {
    hide WellFormed, LowerAssign, IsSlot, Mentions;
    AssignOrderly(a, stmt.dst, stmt.rhs);
  }

  lemma {:induction false} FitsLowers(o: Outline, a: Alloc, stmts: seq<Stmt>)
    requires Orderly(a, {}) && Occupies(o, a) && Places(o, a, stmts) && FitsRegisters(o, stmts)
    ensures LowerAll(a, stmts).Ok?
    decreases |stmts|
  {
    hide Lower, WellFormed, Occupies, Places, StatementFits, Next, Orderly;
    if stmts != [] {
      var stmt, rest := stmts[0], stmts[1..];
      assert stmts == [stmt] + rest;
      FitLowers(o, a, stmt, rest);
      StepMatches(o, a, stmt, rest);
      FitsLowers(Next(o, stmt, rest), Lower(a, stmt).value, rest);
    }
  }

  lemma StepMatches(o: Outline, a: Alloc, stmt: Stmt, rest: seq<Stmt>)
    requires Orderly(a, {}) && Occupies(o, a) && Places(o, a, [stmt] + rest)
    requires StatementFits(o, stmt) && Lower(a, stmt).Ok?
    ensures var b := Lower(a, stmt).value;
      Orderly(b, {}) && Occupies(Next(o, stmt, rest), b) && Places(Next(o, stmt, rest), b, rest)
  {
    hide Lower, WellFormed, Occupies, Next, NoSuchOperation, TwoLiterals, Names, Kept;
    LowerOrderly(a, stmt);
    PlacesNext(o, a, stmt, rest);
    if stmt.PredEnd? { OccupiesEnd(o, a, stmt, rest); } else { OccupiesNext(o, a, stmt, rest); }
  }

  // ----- sections that can be lowered -----

  /** A section can be lowered when its operations exist, no statement has two literal operands,
      operands were assigned before, and at each statement the values it names and those that may
      keep registers from around the open predicate are at most thirteen. */
  lemma SectionLowers(stmts: seq<Stmt>)
    requires FitsRegisters(START, stmts)
    ensures LowerAll(Fresh(CountUses(stmts)), stmts).Ok?
  {
    hide WellFormed, FitsRegisters, LowerAll;
    StartsCounted(stmts);
    FitsLowers(START, Fresh(CountUses(stmts)), stmts);
  }

  /** Statements with code whose operands were assigned before. */
  predicate Sound(defined: set<string>, stmts: seq<Stmt>)
    decreases |stmts|
  {
    stmts == [] ||
    (&& !NoSuchOperation(stmts[0]) && !TwoLiterals(stmts[0])
     && (forall x :: x in Operands(stmts[0]) && x.Val? ==> x.name in defined)
     && Sound(defined + (if stmts[0].Assign? then {stmts[0].dst} else {}), stmts[1..]))
  }

  lemma {:induction false} FlatFits(o: Outline, stmts: seq<Stmt>)
    requires Sound(o.defined, stmts) && o.around == [] && forall stmt :: stmt in stmts ==> !stmt.PredBegin?
    ensures FitsRegisters(o, stmts)
    decreases |stmts|
  {
    hide NoSuchOperation, TwoLiterals, Names, Mentions, Count, IsSlot;
    if stmts != [] {
      FewNames(stmts[0]);
      assert Names(stmts[0]) + Kept(o) == Names(stmts[0]);
      FlatFits(Next(o, stmts[0], stmts[1..]), stmts[1..]);
    }
  }

  /** A statement names three values at most. */
  lemma FewNames(stmt: Stmt)
    ensures |Names(stmt)| <= 3
  {
    var ops := Operands(stmt);
    var d := if stmt.Assign? then {stmt.dst} else {};
    if |ops| == 2 {
      PairNames(stmt, ops[0], ops[1]);
    } else if |ops| == 1 {
      OneName(stmt, ops[0]);
    } else {
      NoNames(stmt);
    }
  }

  /** Outside predicates registers never run out: any section without predicates can be lowered
      when its operations exist, no statement has two literals and operands were assigned before. */
  lemma FlatSectionLowers(stmts: seq<Stmt>)
    requires Sound({}, stmts) && forall stmt :: stmt in stmts ==> !stmt.PredBegin?
    ensures LowerAll(Fresh(CountUses(stmts)), stmts).Ok?
  {
    hide Sound, FitsRegisters, LowerAll;
    FlatFits(START, stmts);
    SectionLowers(stmts);
  }

  lemma {:induction false} FewFits(o: Outline, stmts: seq<Stmt>, all: set<string>)
    requires Sound(o.defined, stmts) && |all| <= 13 && (forall stmt :: stmt in stmts ==> Names(stmt) <= all)
    requires o.held <= all
    ensures FitsRegisters(o, stmts)
    decreases |stmts|
  {
    hide NoSuchOperation, TwoLiterals, Names, Mentions, Count, IsSlot;
    if stmts != [] {
      Subset(Names(stmts[0]) + Kept(o), all);
      FewFits(Next(o, stmts[0], stmts[1..]), stmts[1..], all);
    }
  }

  /** Predicates of any depth can be lowered while the section names at most thirteen values. */
  lemma FewValuesLower(stmts: seq<Stmt>, all: set<string>)
    requires Sound({}, stmts) && |all| <= 13 && forall stmt :: stmt in stmts ==> Names(stmt) <= all
    ensures LowerAll(Fresh(CountUses(stmts)), stmts).Ok?
  {
    hide Sound, FitsRegisters, LowerAll, Names;
    FewFits(START, stmts, all);
    SectionLowers(stmts);
  }
}
