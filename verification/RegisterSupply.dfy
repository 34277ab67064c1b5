/** When one statement can be lowered: its operands have places, its operation exists, and there are
    enough registers that are free or can be freed under the current predicate. */
module RegisterSupply {
  import opened Words
  import opened Isa
  import opened MiniIr
  import opened Allocation
  import opened PredicateScopes
  import opened RegisterFile

  // ----- registers that can be had -----

  /** Placed in code around the current predicate: the value keeps its register. */
  predicate Outside(a: Alloc, v: string) {
    v in a.regs && DepthOf(a, v) != a.depth
  }

  /** The values that may be spilled. */
  function Movable(a: Alloc): set<string> {
    set v | v in a.regs && v !in a.pinned && DepthOf(a, v) == a.depth
  }

  function Supply(a: Alloc): nat {
    |a.free| + |Movable(a)|
  }

  /** What a value takes from the supply when it is placed or held. */
  function Want(a: Alloc, v: string): nat {
    if v in a.regs && (v in a.pinned || Outside(a, v)) then 0 else 1
  }

  /** The victim is the first spillable value in dictionary order. */
  lemma {:induction false} VictimIsFirst(a: Alloc, order: seq<string>, i: nat)
    requires i < |order| && forall j :: 0 <= j < i ==> !Spillable(a, order[j])
    requires Spillable(a, order[i])
    ensures Victim(a, order) == Some(order[i])
    decreases |order|
  {
    if i > 0 { VictimIsFirst(a, order[1..], i - 1); }
  }

  lemma {:induction false} NoVictim(a: Alloc, order: seq<string>)
    requires Victim(a, order).None?
    ensures forall v :: v in order ==> !Spillable(a, v)
  {
    if order != [] { NoVictim(a, order[1..]); }
  }

  lemma RemoveOne<T>(s: set<T>, x: T)
    ensures |s - {x}| == if x in s then |s| - 1 else |s|
  {
    if x !in s { assert s - {x} == s; }
  }

  /** Spilling the victim moves one register from a movable value to the free list. */
  lemma SpillSupply(a: Alloc, b: Alloc, v: string)
    requires a.free == [] && Spillable(a, v) && b.regs == a.regs - {v} && |b.free| == 1
    requires b.depths == a.depths && b.depth == a.depth && b.pinned == a.pinned
    ensures Supply(b) == Supply(a) > 0
    ensures forall w :: w in a.regs && (w in a.pinned || Outside(a, w)) ==> w in b.regs
  {
    assert Movable(b) == Movable(a) - {v};
    RemoveOne(Movable(a), v);
  }

  lemma SpillFields(a: Alloc, v: string)
    requires a.free == [] && Victim(a, a.order) == Some(v) && v in a.regs
    ensures var b := Spare(a);
      && b.regs == a.regs - {v} && |b.free| == 1 && v in b.spilled
      && forall w :: w != v ==> (w in b.spilled <==> w in a.spilled)
  {
    hide Without, SpillAddrCode;
  }

  /** Making room moves at most one register from a movable value to the free list. */
  lemma SpareSupply(a: Alloc)
    requires WellFormed(a)
    ensures var b := Spare(a);
      && Supply(b) == Supply(a) && (b.free != [] <==> Supply(a) > 0)
      && b.depths == a.depths && b.depth == a.depth && b.pinned == a.pinned
      && (forall v :: v in b.regs ==> v in a.regs)
      && (forall v :: v in a.regs && (v in a.pinned || Outside(a, v)) ==> v in b.regs)
      && (forall v :: Located(b, v) <==> Located(a, v))
  {
    hide WellFormed, SpillOne, Victim, Supply;
    SpareFields(a);
    SpareDepths(a);
    if a.free == [] {
      OrderListsResidents(a);
      var victim := Victim(a, a.order);
      if victim.None? {
        NoVictim(a, a.order);
        NoneMovable(a);
        NoSpill(a);
      } else {
        VictimSpillable(a, a.order);
        SpillFields(a, victim.value);
        hide Spare;
        SpillSupply(a, Spare(a), victim.value);
      }
    } else {
      SomeSupply(a);
    }
  }

  lemma SomeSupply(a: Alloc)
    requires a.free != []
    ensures Supply(a) > 0
  {
  }

  lemma NoSpill(a: Alloc)
    requires Victim(a, a.order).None?
    ensures SpillOne(a) == a
  {
  }

  lemma NoneMovable(a: Alloc)
    requires a.free == [] && forall v :: v in a.regs ==> !Spillable(a, v)
    ensures Supply(a) == 0
  {
    assert Movable(a) == {};
  }

  lemma OrderListsResidents(a: Alloc)
    requires WellFormed(a)
    ensures forall v :: v in a.order <==> v in a.regs
  {
  }

  /** What finding a place for v and pinning it there leaves of everything else. */
  ghost predicate Placed(a: Alloc, d: Alloc, v: string) {
    && v in d.regs && d.pinned == a.pinned + {v} && d.depth == a.depth && d.scratch == a.scratch
    && Supply(d) == Supply(a) - Want(a, v)
    && (forall w :: w != v ==> (Outside(d, w) <==> Outside(a, w)))
    && (forall w :: w != v && w in a.pinned && w in a.regs ==> w in d.regs)
    && (forall w :: w != v ==> (Located(d, w) <==> Located(a, w)))
  }

  lemma WantsAvailable(a: Alloc, v: string)
    requires v in a.regs
    ensures Want(a, v) <= Supply(a)
  {
    if Want(a, v) == 1 { assert v in Movable(a); }
  }

  /** A value that has a register is pinned there. */
  lemma HeldPlaced(a: Alloc, d: Alloc, v: string)
    requires v in a.regs && d.regs == a.regs && d.free == a.free && d.depth == a.depth && d.scratch == a.scratch
    requires d.pinned == a.pinned + {v} && (forall w :: w != v ==> DepthOf(d, w) == DepthOf(a, w))
    requires forall w :: w != v ==> (w in d.spilled <==> w in a.spilled)
    ensures Want(a, v) <= Supply(a) && Placed(a, d, v)
  {
    WantsAvailable(a, v);
    assert Movable(d) == Movable(a) - {v};
    RemoveOne(Movable(a), v);
  }

  /** A value that has none takes the first free register. */
  lemma TakenPlaced(a: Alloc, b: Alloc, d: Alloc, v: string)
    requires v !in a.regs && Supply(a) > 0 && b.free != [] && v !in b.regs
    requires Supply(b) == Supply(a) && b.depths == a.depths && b.depth == a.depth && b.pinned == a.pinned
    requires b.scratch == a.scratch && (forall w :: w in b.regs ==> w in a.regs)
    requires forall w :: w in a.regs && (w in a.pinned || Outside(a, w)) ==> w in b.regs
    requires forall w :: w != v ==> (Located(b, w) <==> Located(a, w))
    requires d.regs == b.regs[v := b.free[0]] && d.free == b.free[1..] && d.depths == b.depths[v := b.depth]
    requires d.depth == b.depth && d.pinned == b.pinned + {v} && d.scratch == b.scratch
    requires forall w :: w != v ==> (w in d.spilled <==> w in b.spilled)
    ensures Placed(a, d, v)
  {
    assert Movable(d) == Movable(b);
  }

  /** What a definition leaves before it looks for a register. */
  function Cleared(a: Alloc, v: string): Alloc {
    var b := if IsSlot(v) then Back(a, v) else a;
    if v in b.backed then b else b.(spilled := b.spilled - {v})
  }

  lemma ClearedSame(a: Alloc, v: string)
    requires WellFormed(a)
    ensures var c := Cleared(a, v);
      && WellFormed(c) && Supply(c) == Supply(a) && c.regs == a.regs && c.depth == a.depth && c.depths == a.depths
      && c.pinned == a.pinned && c.scratch == a.scratch
      && (forall w :: w != v ==> (Located(c, w) <==> Located(a, w)))
  {
    hide WellFormed, Supply, IsSlot;
    var b := if IsSlot(v) then Back(a, v) else a;
    SameFile(a, b);
    ForgetSlotKeeps(b, v);
    SameSupply(a, Cleared(a, v));
    OthersLocated(a, Cleared(a, v), v);
  }

  lemma DefineUnfolds(a: Alloc, v: string)
    requires v !in a.regs
    ensures var b := Spare(Cleared(a, v));
      Define(a, v) == if b.free == [] then Raise else Ok((Settle(b.(free := b.free[1..]), v, b.free[0]), b.free[0]))
  {
    hide Spare, IsSlot, Settle;
  }

  lemma DefineSupply(a: Alloc, v: string)
    requires WellFormed(a) && v !in a.pinned
    ensures Define(a, v).Ok? <==> Want(a, v) <= Supply(a)
    ensures Define(a, v).Ok? ==> Placed(a, Pin(Define(a, v).value.0, v), v)
  {
    if v in a.regs {
      DefineHeld(a, v);
    } else {
      hide WellFormed, Spare, Without, IsSlot, Placed, Supply, Cleared, Define, Outside, Located;
      var c := Cleared(a, v);
      DefineUnfolds(a, v);
      ClearedSame(a, v);
      SpareSupply(c);
      SpareFields(c);
      if Supply(a) > 0 {
        SameOutside(a, c);
        TakenPlaced(a, Spare(c), Pin(Define(a, v).value.0, v), v);
      }
    }
  }

  lemma SameOutside(a: Alloc, c: Alloc)
    requires c.regs == a.regs && c.depths == a.depths && c.depth == a.depth
    ensures forall w :: Outside(c, w) <==> Outside(a, w)
  {
  }

  lemma DefineHeld(a: Alloc, v: string)
    requires WellFormed(a) && v in a.regs
    ensures Want(a, v) <= Supply(a) && Define(a, v).Ok? && Placed(a, Pin(Define(a, v).value.0, v), v)
  {
    hide WellFormed, Without, IsSlot, Placed, Supply;
    HeldPlaced(a, Pin(Define(a, v).value.0, v), v);
  }

  lemma SameSupply(a: Alloc, b: Alloc)
    requires b.regs == a.regs && b.free == a.free && b.depths == a.depths && b.depth == a.depth && b.pinned == a.pinned
    ensures Supply(b) == Supply(a)
  {
    assert Movable(b) == Movable(a);
  }

  lemma OthersLocated(a: Alloc, c: Alloc, v: string)
    requires c.regs == a.regs && (forall w :: w != v ==> (w in c.spilled <==> w in a.spilled))
    ensures forall w :: w != v ==> (Located(c, w) <==> Located(a, w))
  {
  }

  lemma UseSupply(a: Alloc, v: string)
    requires WellFormed(a)
    ensures Use(a, v).Ok? <==> Located(a, v) && Want(a, v) <= Supply(a)
    ensures Use(a, v).Ok? ==> Placed(a, Pin(Use(a, v).value.0, v), v)
  {
    hide WellFormed, Spare, Without, Placed, Supply, SpillAddrCode;
    if v in a.regs {
      HeldPlaced(a, Pin(a, v), v);
    } else if v in a.spilled {
      SpareSupply(a);
      SpareFields(a);
      SpareKeeps(a);
      if Supply(a) > 0 {
        TakenPlaced(a, Spare(a), Pin(Use(a, v).value.0, v), v);
      }
    }
  }

  // ----- operands -----

  predicate Ready(a: Alloc, o: Operand) {
    o.Lit? || Located(a, o.name)
  }

  lemma OperandSupply(a: Alloc, o: Operand)
    requires WellFormed(a)
    ensures OperandReg(a, o).Ok? <==>
              if o.Lit? then a.scratch != [] else Located(a, o.name) && Want(a, o.name) <= Supply(a)
    ensures OperandReg(a, o).Ok? && o.Val? ==> Placed(a, PinOperand(OperandReg(a, o).value.0, o), o.name)
    ensures OperandReg(a, o).Ok? && o.Lit? ==>
              var b := OperandReg(a, o).value.0; b == a.(scratch := a.scratch[1..], asm := b.asm)
  {
    hide WellFormed, Use, Supply, Want, Placed, LiteralCode;
    if o.Val? { UseSupply(a, o.name); }
  }

  /** What two operands take together. */
  function PairWant(a: Alloc, x: Operand, y: Operand): nat {
    (if x.Val? then Want(a, x.name) else 0) + (if y.Val? && y != x then Want(a, y.name) else 0)
  }

  lemma WantUnchanged(a: Alloc, d: Alloc, v: string, w: string)
    requires Placed(a, d, v) && w != v && (w in a.pinned ==> w in a.regs)
    ensures Want(d, w) == Want(a, w) && (Located(d, w) <==> Located(a, w))
  {
    hide Supply;
  }

  lemma PairSupply(a: Alloc, x: Operand, y: Operand)
    requires WellFormed(a) && |a.scratch| == 1 && a.pinned <= a.regs.Keys
    ensures LoadPair(a, x, y).Ok? <==>
              !(x.Lit? && y.Lit?) && Ready(a, x) && Ready(a, y) && PairWant(a, x, y) <= Supply(a)
  {
    hide WellFormed, OperandReg, Supply;
    OperandSupply(a, x);
    if OperandReg(a, x).Ok? {
      var b := OperandReg(a, x).value.0;
      var p := PinOperand(b, x);
      OperandKeeps(a, x);
      SameFile(b, p);
      OperandSupply(p, y);
      if x.Lit? {
        SameSupply(a, b);
      } else if y.Val? && y != x {
        hide Want, Located;
        WantUnchanged(a, p, x.name, y.name);
      }
    }
  }

  // ----- statements -----

  /** The values a statement names, its destination among them. */
  function Names(stmt: Stmt): set<string> {
    (if stmt.Assign? then {stmt.dst} else {}) + (set o | o in Operands(stmt) && o.Val? :: o.name)
  }

  /** The values among `names` that take a register: all but those placed around the predicate. */
  function Claims(a: Alloc, names: set<string>): set<string> {
    set v | v in names && !(v in a.regs && (if v in a.depths then a.depths[v] else 0) != a.depth)
  }

  /** The values whose registers can be had by spilling them. */
  function Resident(a: Alloc): set<string> {
    set v | v in a.regs && (if v in a.depths then a.depths[v] else 0) == a.depth
  }

  /** Statements that ask for an operation there is no code for. */
  predicate NoSuchOperation(stmt: Stmt) {
    stmt.Assign? &&
    (stmt.rhs.Unknown? ||
     (stmt.rhs.Binary? && stmt.rhs.fmt.Some? && stmt.rhs.fmt.value in {FP32, FP16, FP8}
      && stmt.rhs.arith in {Mod, And, Or, Xor, Shl, Shr}))
  }

  predicate TwoLiterals(stmt: Stmt) {
    |Operands(stmt)| == 2 && Operands(stmt)[0].Lit? && Operands(stmt)[1].Lit?
  }

  /** An operand other than the destination is nowhere. */
  predicate Unplaced(a: Alloc, stmt: Stmt) {
    exists v :: v in Names(stmt) && !(stmt.Assign? && v == stmt.dst) && v !in a.regs && v !in a.spilled
  }

  lemma ClaimsPlus(a: Alloc, names: set<string>, v: string)
    requires a.pinned == {}
    ensures |Claims(a, names + {v})| == |Claims(a, names)| + (if v in names then 0 else Want(a, v))
  {
    if v in names {
      assert names + {v} == names;
    } else if Want(a, v) == 0 {
      assert Claims(a, names + {v}) == Claims(a, names);
    } else {
      assert Claims(a, names + {v}) == Claims(a, names) + {v};
    }
  }

  /** The name an operand adds to a statement's. */
  function NameOf(o: Operand): set<string> {
    if o.Val? then {o.name} else {}
  }

  lemma ClaimsWith(a: Alloc, names: set<string>, o: Operand)
    requires a.pinned == {}
    ensures |Claims(a, names + NameOf(o))|
            == |Claims(a, names)| + (if o.Lit? || o.name in names then 0 else Want(a, o.name))
  {
    hide Want, Claims;
    if o.Val? {
      ClaimsPlus(a, names, o.name);
    } else {
      assert names + NameOf(o) == names;
    }
  }

  lemma PairClaims(a: Alloc, x: Operand, y: Operand)
    requires a.pinned == {}
    ensures PairWant(a, x, y) == |Claims(a, NameOf(x) + NameOf(y))|
  {
    hide Want, Claims;
    ClaimsNone(a);
    ClaimsWith(a, {}, x);
    ClaimsWith(a, NameOf(x), y);
    assert {} + NameOf(x) == NameOf(x);
  }

  lemma ClaimsNone(a: Alloc)
    ensures Claims(a, {}) == {}
  {
  }

  lemma SupplyIs(a: Alloc)
    requires a.pinned == {}
    ensures Supply(a) == |a.free| + |Resident(a)|
  {
    assert Movable(a) == Resident(a);
  }

  lemma PairNames(stmt: Stmt, x: Operand, y: Operand)
    requires Operands(stmt) == [x, y]
    ensures Names(stmt) == (if stmt.Assign? then {stmt.dst} else {})
                           + (NameOf(x) + NameOf(y))
    ensures TwoLiterals(stmt) <==> x.Lit? && y.Lit?
  {
    forall v ensures v in Names(stmt) <==> (stmt.Assign? && v == stmt.dst) || x == Val(v) || y == Val(v) {
      if v in Names(stmt) && !(stmt.Assign? && v == stmt.dst) {
        var o :| o in Operands(stmt) && o.Val? && o.name == v;
      }
      assert x in Operands(stmt) && y in Operands(stmt);
    }
  }

  lemma OneName(stmt: Stmt, x: Operand)
    requires Operands(stmt) == [x]
    ensures Names(stmt) == (if stmt.Assign? then {stmt.dst} else {}) + NameOf(x)
    ensures !TwoLiterals(stmt)
  {
    forall v ensures v in Names(stmt) <==> (stmt.Assign? && v == stmt.dst) || x == Val(v) {
      assert x in Operands(stmt);
    }
  }

  lemma NoNames(stmt: Stmt)
    requires Operands(stmt) == []
    ensures Names(stmt) == (if stmt.Assign? then {stmt.dst} else {}) && !TwoLiterals(stmt)
  {
  }

  lemma OrderlyScratch(a: Alloc)
    requires Orderly(a, {})
    ensures WellFormed(a) && a.pinned == {} && a.scratch == [SCRATCH_REG]
  {
    hide WellFormed;
  }

  /** An operand has a place when it is read; the destination has one by then. */
  predicate Found(a: Alloc, stmt: Stmt, o: Operand) {
    o.Lit? || (stmt.Assign? && o.name == stmt.dst) || Located(a, o.name)
  }

  lemma UnplacedIffNotFound(a: Alloc, stmt: Stmt)
    ensures Unplaced(a, stmt) <==> exists o :: o in Operands(stmt) && !Found(a, stmt, o)
  {
    if Unplaced(a, stmt) {
      var v :| v in Names(stmt) && !(stmt.Assign? && v == stmt.dst) && v !in a.regs && v !in a.spilled;
      var o :| o in Operands(stmt) && o.Val? && o.name == v;
      assert !Found(a, stmt, o);
    }
    if o :| o in Operands(stmt) && !Found(a, stmt, o) {
      assert o.name in Names(stmt);
    }
  }

  lemma PairUnplaced(a: Alloc, stmt: Stmt, x: Operand, y: Operand)
    requires Operands(stmt) == [x, y]
    ensures Unplaced(a, stmt) <==> !(Found(a, stmt, x) && Found(a, stmt, y))
  {
    hide Unplaced, Found;
    UnplacedIffNotFound(a, stmt);
    assert Operands(stmt)[0] == x && Operands(stmt)[1] == y;
  }

  lemma OneUnplaced(a: Alloc, stmt: Stmt, x: Operand)
    requires Operands(stmt) == [x]
    ensures Unplaced(a, stmt) <==> !Found(a, stmt, x)
  {
    hide Unplaced, Found;
    UnplacedIffNotFound(a, stmt);
    assert Operands(stmt)[0] == x;
  }

  lemma NothingUnplaced(a: Alloc, stmt: Stmt)
    requires Operands(stmt) == []
    ensures !Unplaced(a, stmt)
  {
    hide Unplaced, Found;
    UnplacedIffNotFound(a, stmt);
  }

  lemma TestSupply(a: Alloc, stmt: Stmt, x: Operand)
    requires WellFormed(a) && a.pinned == {} && a.scratch == [SCRATCH_REG] && Operands(stmt) == [x] && !stmt.Assign?
    ensures LowerTest(a, x, stmt).Raise? <==> Unplaced(a, stmt) || |Claims(a, Names(stmt))| > Supply(a)
    ensures !TwoLiterals(stmt)
  {
    hide WellFormed, OperandReg, Claims, Names, Want, Supply, Unplaced;
    OperandSupply(a, x);
    OneName(stmt, x);
    OneUnplaced(a, stmt, x);
    PairClaims(a, x, Lit(0));
    ClaimsNone(a);
    assert {} + NameOf(x) == NameOf(x) + NameOf(Lit(0));
  }

  lemma StoreSupply(a: Alloc, stmt: Stmt, x: Operand, y: Operand)
    requires WellFormed(a) && a.pinned == {} && a.scratch == [SCRATCH_REG] && Operands(stmt) == [x, y] && !stmt.Assign?
    ensures LoadPair(a, x, y).Raise? <==>
              TwoLiterals(stmt) || Unplaced(a, stmt) || |Claims(a, Names(stmt))| > Supply(a)
  {
    hide WellFormed, LoadPair, Claims, Names, PairWant, Supply, Unplaced;
    PairSupply(a, x, y);
    PairNames(stmt, x, y);
    PairClaims(a, x, y);
    PairUnplaced(a, stmt, x, y);
    assert {} + (NameOf(x) + NameOf(y))
        == NameOf(x) + NameOf(y);
  }

  /** Once the destination is placed, the operands take what the statement's values take in all,
      less what the destination took. */
  lemma ClaimsAfter(a: Alloc, p: Alloc, dst: string, x: Operand, y: Operand)
    requires a.pinned == {} && Placed(a, p, dst)
    ensures |Claims(a, {dst} + (NameOf(x) + NameOf(y)))| == Want(a, dst) + PairWant(p, x, y)
  {
    hide Claims, Supply, Located, NameOf;
    AssignClaims(a, dst, x, y);
    if x.Val? && x.name != dst { WantUnchanged(a, p, dst, x.name); }
    if y.Val? && y.name != dst { WantUnchanged(a, p, dst, y.name); }
  }

  lemma OneClaim(a: Alloc, dst: string, x: Operand)
    requires a.pinned == {}
    ensures |Claims(a, {dst} + NameOf(x))| == Want(a, dst) + (if x.Lit? || x.name == dst then 0 else Want(a, x.name))
  {
    hide Claims, Want;
    ClaimsNone(a);
    ClaimsPlus(a, {}, dst);
    assert {} + {dst} == {dst};
    ClaimsWith(a, {dst}, x);
  }

  lemma NamedTwice(dst: string, x: Operand, y: Operand)
    ensures {dst} + (NameOf(x) + NameOf(y)) == {dst} + NameOf(x) + NameOf(y)
    ensures y.Val? ==> (y.name in {dst} + NameOf(x) <==> y.name == dst || y == x)
  {
  }

  lemma AssignClaims(a: Alloc, dst: string, x: Operand, y: Operand)
    requires a.pinned == {}
    ensures |Claims(a, {dst} + (NameOf(x) + NameOf(y)))|
            == Want(a, dst) + (if x.Lit? || x.name == dst then 0 else Want(a, x.name))
               + (if y.Lit? || y.name == dst || y == x then 0 else Want(a, y.name))
  {
    hide Claims, Want, NameOf;
    OneClaim(a, dst, x);
    ClaimsWith(a, {dst} + NameOf(x), y);
    NamedTwice(dst, x, y);
  }

  lemma FoundReady(a: Alloc, p: Alloc, stmt: Stmt, o: Operand)
    requires stmt.Assign? && Placed(a, p, stmt.dst)
    ensures Ready(p, o) <==> Found(a, stmt, o)
  {
    hide Supply, Want;
  }

  lemma AssignUnfolds(a: Alloc, stmt: Stmt)
    requires stmt.Assign?
    ensures Lower(a, stmt).Ok? <==>
              && Define(a, stmt.dst).Ok?
              && var (b, rd) := Define(a, stmt.dst).value;
                 LowerRhs(Pin(b, stmt.dst), stmt.dst, rd, stmt.rhs).Ok?
  {
    hide Define, LowerRhs, Finish;
  }

  lemma OperationExists(stmt: Stmt)
    requires stmt.Assign? && stmt.rhs.Binary?
    ensures ValueOpcode(stmt.rhs.arith, stmt.rhs.fmt).None? <==> NoSuchOperation(stmt)
  {
  }

  /** The names, literals and missing places of an assignment, read off its operands. */
  lemma AssignNames(a: Alloc, stmt: Stmt, x: Operand, y: Operand)
    requires stmt.Assign?
    requires x == (if stmt.rhs.Unary? || stmt.rhs.Binary? then stmt.rhs.x else Lit(0))
    requires y == (if stmt.rhs.Binary? then stmt.rhs.y else Lit(0))
    ensures Names(stmt) == {stmt.dst} + (NameOf(x) + NameOf(y))
    ensures TwoLiterals(stmt) <==> stmt.rhs.Binary? && x.Lit? && y.Lit?
    ensures Unplaced(a, stmt) <==> !(Found(a, stmt, x) && Found(a, stmt, y))
  {
    hide Names, TwoLiterals, Unplaced, Located;
    if stmt.rhs.Binary? {
      PairNames(stmt, x, y);
      PairUnplaced(a, stmt, x, y);
    } else if stmt.rhs.Unary? {
      OneName(stmt, x);
      OneUnplaced(a, stmt, x);
    } else {
      NoNames(stmt);
      NothingUnplaced(a, stmt);
    }
  }

  lemma PinnedReady(a: Alloc, dst: string)
    requires Orderly(a, {}) && Define(a, dst).Ok?
    ensures var p := Pin(Define(a, dst).value.0, dst);
      WellFormed(p) && p.scratch == [SCRATCH_REG] && p.pinned == {dst} && dst in p.regs
  {
    hide WellFormed, Define;
    DefineOrderly(a, dst);
    DefineFields(a, dst);
  }

  lemma RhsSupply(p: Alloc, dst: string, rd: Reg, stmt: Stmt, x: Operand, y: Operand)
    requires WellFormed(p) && p.scratch == [SCRATCH_REG] && p.pinned == {dst} && dst in p.regs && stmt.Assign?
    requires x == (if stmt.rhs.Unary? || stmt.rhs.Binary? then stmt.rhs.x else Lit(0))
    requires y == (if stmt.rhs.Binary? then stmt.rhs.y else Lit(0))
    ensures LowerRhs(p, dst, rd, stmt.rhs).Ok? <==>
              && !NoSuchOperation(stmt) && !(stmt.rhs.Binary? && x.Lit? && y.Lit?)
              && Ready(p, x) && Ready(p, y) && PairWant(p, x, y) <= Supply(p)
  {
    hide WellFormed, LoadPair, OperandReg, Want, Supply, ValueOpcode, Located;
    if stmt.rhs.Unary? { OperandSupply(p, x); }
    if stmt.rhs.Binary? {
      OperationExists(stmt);
      PairSupply(p, x, y);
    }
  }

  lemma AssignSupply(a: Alloc, stmt: Stmt)
    requires Orderly(a, {}) && stmt.Assign?
    ensures Lower(a, stmt).Raise? <==>
              || NoSuchOperation(stmt) || TwoLiterals(stmt) || Unplaced(a, stmt)
              || |Claims(a, Names(stmt))| > Supply(a)
  {
    hide Orderly, WellFormed, Define, LoadPair, OperandReg, Claims, Names, Want, Supply, Unplaced, TwoLiterals,
      ValueOpcode, Located, PairWant, Ready, Found, Lower;
    var dst, rhs := stmt.dst, stmt.rhs;
    AssignUnfolds(a, stmt);
    OrderlyScratch(a);
    DefineSupply(a, dst);
    var x := if rhs.Unary? || rhs.Binary? then rhs.x else Lit(0);
    var y := if rhs.Binary? then rhs.y else Lit(0);
    AssignNames(a, stmt, x, y);
    AssignClaims(a, dst, x, y);
    if Define(a, dst).Ok? {
      var (b, rd) := Define(a, dst).value;
      var p := Pin(b, dst);
      ClaimsAfter(a, p, dst, x, y);
      PinnedReady(a, dst);
      FoundReady(a, p, stmt, x);
      FoundReady(a, p, stmt, y);
      RhsSupply(p, dst, rd, stmt, x, y);
    }
  }

  /** When one statement cannot be lowered, in terms of the allocator's fields: there is no code for
      the operation, both operands are literals, an operand is in no register and no slot, or the
      values it names, but for those placed around the current predicate, are more than the free
      registers and the registers that values placed under it hold. */
  lemma LowerRaisesExactly(a: Alloc, stmt: Stmt)
    requires Orderly(a, {})
    ensures Lower(a, stmt).Raise? <==>
              || NoSuchOperation(stmt) || TwoLiterals(stmt) || Unplaced(a, stmt)
              || |Claims(a, Names(stmt))| > |a.free| + |Resident(a)|
  {
    hide Orderly, WellFormed, Claims, Resident, Names, TwoLiterals, Unplaced, Supply, LoadPair, LowerTest, LowerAssign;
    OrderlyScratch(a);
    SupplyIs(a);
    match stmt
    case Assign(dst, rhs) => AssignSupply(a, stmt);
    case StoreTo(_, _, x, y) => StoreSupply(a, stmt, x, y);
    case PredBegin(x) => TestSupply(a, stmt, x);
    case GotoZero(x, _) => TestSupply(a, stmt, x);
    case GotoNonzero(x, _) => TestSupply(a, stmt, x);
    case _ =>
      NoNames(stmt);
      NothingUnplaced(a, stmt);
      ClaimsNone(a);
  }

  // ----- the thirteen registers -----

  function Elements(s: seq<Reg>): set<Reg> {
    set r | r in s
  }

  lemma {:induction false} DistinctCount(s: seq<Reg>)
    requires Distinct(s)
    ensures |Elements(s)| == |s|
  {
    if s != [] {
      TailDistinct(s);
      DistinctCount(s[1..]);
      assert Elements(s) == Elements(s[1..]) + {s[0]};
    }
  }

  lemma {:induction false} ValuesCount(m: map<string, Reg>)
    requires forall v, w :: v in m && w in m && m[v] == m[w] ==> v == w
    ensures |m.Values| == |m.Keys|
    decreases |m|
  {
    if m == map[] {
      assert m.Values == {};
    } else {
      var v :| v in m;
      var rest := m - {v};
      assert m.Keys == rest.Keys + {v};
      ValuesCount(rest);
      assert m.Values == rest.Values + {m[v]} by {
        forall r | r in m.Values ensures r in rest.Values + {m[v]} {
          var w :| w in m && m[w] == r;
          assert w != v ==> rest[w] == r;
        }
      }
      assert m[v] !in rest.Values;
    }
  }

  lemma TakenOrFree(a: Alloc)
    requires WellFormed(a)
    ensures Elements(a.free) !! a.regs.Values && Elements(a.free) + a.regs.Values == Elements(RegsBelow(13))
  {
    assert forall r: Reg :: r < 13 ==> RegsBelow(13)[r] == r;
  }

  /** The free list and the values with registers share the thirteen value registers out. */
  lemma RegistersShared(a: Alloc)
    requires WellFormed(a)
    ensures |a.free| + |a.regs.Keys| == 13
  {
    hide Elements, RegsBelow;
    TakenOrFree(a);
    DistinctCount(a.free);
    ValuesCount(a.regs);
    DistinctCount(RegsBelow(13));
    hide WellFormed;
    Joined(Elements(a.free), a.regs.Values);
  }

  lemma Joined<T>(s: set<T>, t: set<T>)
    requires s !! t
    ensures |s + t| == |s| + |t|
  {
  }

  /** The values that keep registers because they were placed around the current predicate. */
  function Around(a: Alloc): set<string> {
    set v | v in a.regs && (if v in a.depths then a.depths[v] else 0) != a.depth
  }

  lemma ClaimsAround(a: Alloc, names: set<string>)
    requires WellFormed(a)
    ensures |Claims(a, names)| > |a.free| + |Resident(a)| <==> |names + Around(a)| > 13
  {
    RegistersShared(a);
    hide WellFormed;
    SplitAround(a, names);
    hide Claims, Around, Resident;
    Joined(Claims(a, names), Around(a));
    Joined(Resident(a), Around(a));
  }

  lemma SplitAround(a: Alloc, names: set<string>)
    ensures names + Around(a) == Claims(a, names) + Around(a) && Claims(a, names) !! Around(a)
    ensures a.regs.Keys == Resident(a) + Around(a) && Resident(a) !! Around(a)
  {
  }

  /** The same in numbers: the values a statement names and the values placed around the current
      predicate must fit into thirteen registers together. */
  lemma LowerNeedsThirteen(a: Alloc, stmt: Stmt)
    requires Orderly(a, {})
    ensures Lower(a, stmt).Raise? <==>
              || NoSuchOperation(stmt) || TwoLiterals(stmt) || Unplaced(a, stmt)
              || |Names(stmt) + Around(a)| > 13
  {
    hide Lower, WellFormed, Around, Claims, Resident, Names;
    LowerRaisesExactly(a, stmt);
    ClaimsAround(a, Names(stmt));
  }
}
