/** The register-file invariant: what every allocator operation keeps. */
module RegisterFile {
  import opened Isa
  import opened MiniIr
  import opened Allocation

  ghost predicate Distinct<T>(s: seq<T>) {
    forall i, j :: 0 <= i < j < |s| ==> s[i] != s[j]
  }

  /** Value registers are injective, they and the free list partition r0..r12, spill slots are
      injective and below the next slot, and the key order lists the resident values once. */
  ghost predicate WellFormed(a: Alloc) {
    && (forall v :: v in a.regs ==> a.regs[v] < 13 && a.regs[v] !in a.free)
    && (forall v, w :: v in a.regs && w in a.regs && a.regs[v] == a.regs[w] ==> v == w)
    && (forall r :: r in a.free ==> r < 13)
    && Distinct(a.free)
    && (forall r: Reg :: r < 13 ==> r in a.free || r in a.regs.Values)
    && (forall v :: v in a.spilled ==> a.spilled[v] < a.nextSlot)
    && (forall v, w :: v in a.spilled && w in a.spilled && a.spilled[v] == a.spilled[w] ==> v == w)
    && (forall v :: v in a.order <==> v in a.regs)
    && Distinct(a.order)
  }

  /** A value that matters later: it lives in memory, or operands still name it. */
  predicate Needed(a: Alloc, v: string) {
    v in a.backed || Uses(a, v) > 0
  }

  predicate Located(a: Alloc, v: string) {
    v in a.regs || v in a.spilled
  }

  lemma FreshIsWellFormed(uses: map<string, int>)
    ensures WellFormed(Fresh(uses))
  {
    assert forall r: Reg :: r < 13 ==> RegsBelow(13)[r] == r;
  }

  lemma {:induction false} WithoutDistinct(order: seq<string>, v: string)
    requires Distinct(order)
    ensures Distinct(Without(order, v))
  {
    if order != [] {
      var tail := Without(order[1..], v);
      WithoutDistinct(order[1..], v);
      assert order[0] !in order[1..];
      assert forall i :: 0 <= i < |tail| ==> tail[i] in tail;
    }
  }

  /** Moving a register from a value to the front of the free list. */
  lemma FreeRegKeeps(a: Alloc, v: string)
    requires WellFormed(a)
    ensures WellFormed(FreeReg(a, v))
  {
    if v in a.regs {
      var b := FreeReg(a, v);
      WithoutDistinct(a.order, v);
      forall r: Reg | r < 13 ensures r in b.free || r in b.regs.Values {
        if r != a.regs[v] && r !in a.free {
          var w :| w in a.regs && a.regs[w] == r;
          assert w in b.regs && b.regs[w] == r;
        } else {
          assert r == a.regs[v] ==> b.free[0] == r;
          assert b.free[1..] == a.free;
        }
      }
    }
  }

  lemma TailDistinct<T(!new)>(s: seq<T>)
    requires Distinct(s) && s != []
    ensures Distinct(s[1..]) && s[0] !in s[1..] && (forall x :: x in s <==> x == s[0] || x in s[1..])
  {
    assert s == [s[0]] + s[1..];
  }

  /** Taking the first free register for a value that has none. */
  lemma SettleKeeps(a: Alloc, v: string)
    requires WellFormed(a) && a.free != [] && v !in a.regs
    ensures WellFormed(Settle(a.(free := a.free[1..]), v, a.free[0]))
  {
    var b := Settle(a.(free := a.free[1..]), v, a.free[0]);
    WithoutDistinct(a.order, v);
    TailDistinct(a.free);
    forall r: Reg | r < 13 ensures r in b.free || r in b.regs.Values {
      if r in a.free {
        assert b.regs[v] == a.free[0];
      } else {
        var w :| w in a.regs && a.regs[w] == r;
        assert b.regs[w] == r;
      }
    }
  }

  lemma ReplaceKeeps(a: Alloc, v: string)
    requires WellFormed(a) && v in a.regs
    ensures WellFormed(Settle(a, v, a.regs[v]))
  {
    WithoutDistinct(a.order, v);
    assert Settle(a, v, a.regs[v]).regs == a.regs;
  }

  lemma SpillStoreKeeps(a: Alloc, v: string, reg: Reg)
    requires WellFormed(a)
    ensures WellFormed(SpillStore(a, v, reg))
  {
  }

  lemma SpillStoreFields(a: Alloc, v: string, reg: Reg)
    ensures var b := SpillStore(a, v, reg);
      && b == a.(spilled := b.spilled, nextSlot := b.nextSlot, asm := b.asm) && a.nextSlot <= b.nextSlot
      && v in b.spilled && (forall p :: p in a.spilled ==> p in b.spilled && b.spilled[p] == a.spilled[p])
  {
  }

  lemma SpillOneKeeps(a: Alloc)
    requires WellFormed(a)
    ensures WellFormed(SpillOne(a))
  {
    hide WellFormed, SpillAddrCode;
    var victim := Victim(a, a.order);
    if victim.Some? && victim.value in a.regs {
      var v, reg := victim.value, a.regs[victim.value];
      FreeRegKeeps(a, v);
      SpillStoreKeeps(FreeReg(a, v), v, reg);
      assert SpillOne(a) == SpillStore(FreeReg(a, v), v, reg);
    }
  }

  /** The invariant at two values. */
  lemma Apart(a: Alloc, v: string, w: string)
    requires WellFormed(a)
    ensures v in a.regs ==> a.regs[v] < 13 && a.regs[v] !in a.free
    ensures v in a.spilled ==> a.spilled[v] < a.nextSlot
    ensures v != w && v in a.regs && w in a.regs ==> a.regs[v] != a.regs[w]
    ensures v != w && v in a.spilled && w in a.spilled ==> a.spilled[v] != a.spilled[w]
  {
  }

  /** Counts, pins, depths and code play no part in the invariant. */
  lemma SameFile(a: Alloc, b: Alloc)
    requires WellFormed(a)
    requires b.regs == a.regs && b.order == a.order && b.free == a.free
    requires b.spilled == a.spilled && b.nextSlot == a.nextSlot
    ensures WellFormed(b)
  {
  }

  // ----- the allocator's operations -----

  lemma ForgetSlotKeeps(a: Alloc, v: string)
    requires WellFormed(a)
    ensures WellFormed(a.(spilled := a.spilled - {v}))
  {
  }

  lemma SpareKeeps(a: Alloc)
    requires WellFormed(a)
    ensures var b := Spare(a);
      && WellFormed(b)
      && (forall v :: v in b.regs ==> v in a.regs && b.regs[v] == a.regs[v])
      && (forall v :: v in a.regs && v in a.pinned ==> v in b.regs)
      && (forall v :: v in a.spilled ==> v in b.spilled && b.spilled[v] == a.spilled[v])
      && (forall v :: Located(a, v) ==> Located(b, v))
  {
    hide WellFormed;
    if a.free == [] {
      SpillOneKeeps(a);
      VictimSpillable(a, a.order);
    }
  }

  lemma {:induction false} VictimSpillable(a: Alloc, order: seq<string>)
    ensures Victim(a, order).Some? ==> Spillable(a, Victim(a, order).value)
  {
    if order != [] && !Spillable(a, order[0]) { VictimSpillable(a, order[1..]); }
  }

  /** A defined value has a register; pinned values keep theirs. */
  lemma DefineKeeps(a: Alloc, v: string)
    requires WellFormed(a) && Define(a, v).Ok?
    ensures var (b, reg) := Define(a, v).value;
      && WellFormed(b) && v in b.regs && b.regs[v] == reg
      && (forall p :: p in a.regs && p in a.pinned ==> p in b.regs && b.regs[p] == a.regs[p])
  {
    hide WellFormed, Spare;
    var b := if IsSlot(v) then Back(a, v) else a;
    SameFile(a, b);
    if v in b.regs {
      ReplaceKeeps(b, v);
    } else {
      var c := if v in b.backed then b else b.(spilled := b.spilled - {v});
      ForgetSlotKeeps(b, v);
      SpareKeeps(c);
      SettleKeeps(Spare(c), v);
    }
  }

  /** A used value has a register; pinned values keep theirs. */
  lemma UseKeeps(a: Alloc, v: string)
    requires WellFormed(a) && Use(a, v).Ok?
    ensures var (b, reg) := Use(a, v).value;
      && WellFormed(b) && v in b.regs && b.regs[v] == reg
      && (forall p :: p in a.regs && p in a.pinned ==> p in b.regs && b.regs[p] == a.regs[p])
      && (forall w :: w in a.spilled ==> w in b.spilled && b.spilled[w] == a.spilled[w])
      && (forall w :: Located(a, w) ==> Located(b, w))
  {
    hide WellFormed, Spare, SpillAddrCode;
    if v !in a.regs {
      var b := Spare(a);
      SpareKeeps(a);
      SettleKeeps(b, v);
      SameFile(Settle(b.(free := b.free[1..]), v, b.free[0]), Use(a, v).value.0);
    }
  }

  lemma ReleaseKeeps(a: Alloc, v: string)
    requires WellFormed(a)
    ensures WellFormed(Release(a, v))
  {
    hide WellFormed, Without;
    var c := FreeReg(a, v);
    FreeRegKeeps(a, v);
    if v in a.backed {
      SameFile(c, c.(depths := c.depths - {v}));
    } else if v !in a.persistent {
      var uses := a.uses[v := Uses(a, v) - 1];
      SameFile(a, a.(uses := uses));
      ForgetSlotKeeps(c, v);
      var d := c.(spilled := c.spilled - {v});
      SameFile(d, d.(uses := uses, depths := c.depths - {v}));
    }
  }

  /** Releasing a value keeps all others; it forgets only what no operand will name again. */
  lemma ReleaseForgets(a: Alloc, v: string)
    ensures var b := Release(a, v);
      && (forall p :: p in b.regs <==>
            p in a.regs && !(p == v && (v in a.backed || (v !in a.persistent && Uses(a, v) <= 1))))
      && (forall p :: p in b.regs ==> b.regs[p] == a.regs[p])
      && (forall p :: p in b.spilled <==>
            p in a.spilled && !(p == v && v !in a.backed && v !in a.persistent && Uses(a, v) <= 1))
      && (forall p :: p in b.spilled ==> b.spilled[p] == a.spilled[p])
      && (forall p :: Uses(b, p) == Uses(a, p) - (if p == v && v !in a.backed && v !in a.persistent then 1 else 0))
  {
    hide Without;
  }

  // ----- statements -----

  /** What finding registers for operands never changes. */
  ghost predicate Carries(a: Alloc, b: Alloc) {
    && b.uses == a.uses && b.backed == a.backed && b.persistent == a.persistent
    && b.pinned == a.pinned && b.depth == a.depth
    && a.nextSlot <= b.nextSlot
    && (forall p :: p in a.pinned && p in a.regs ==> p in b.regs && b.regs[p] == a.regs[p])
    && (forall v :: v in a.spilled ==> v in b.spilled && b.spilled[v] == a.spilled[v])
    && (forall v :: Located(a, v) ==> Located(b, v))
  }

  lemma OperandKeeps(a: Alloc, o: Operand)
    requires WellFormed(a) && OperandReg(a, o).Ok?
    ensures var (b, r) := OperandReg(a, o).value;
      && WellFormed(b) && Carries(a, b)
      && (forall v :: v in b.regs ==> v in a.regs || o == Val(v))
      && (o.Val? ==> o.name in b.regs && b.regs[o.name] == r && b.scratch == a.scratch)
      && (o.Lit? ==> a.scratch == [r] + b.scratch && b.regs == a.regs)
  {
    hide WellFormed, Spare, SpillAddrCode, LiteralCode;
    var b := OperandReg(a, o).value.0;
    if o.Val? {
      UseKeeps(a, o.name);
      SpareKeeps(a);
      SpareFields(a);
    } else {
      SameFile(a, b);
    }
  }

  lemma SpareFields(a: Alloc)
    ensures var b := Spare(a);
      && b.uses == a.uses && b.backed == a.backed && b.persistent == a.persistent
      && b.pinned == a.pinned && b.depth == a.depth && b.scratch == a.scratch && a.nextSlot <= b.nextSlot
  {
  }

  /** Between statements nothing is pinned, the scratch register is back and memory-backed values
      are in no register. While an assignment is lowered its destination is exempt. */
  ghost predicate Orderly(a: Alloc, keep: set<string>) {
    && WellFormed(a)
    && a.pinned <= keep
    && a.scratch == [SCRATCH_REG]
    && a.backed == a.persistent
    && (forall v :: v in a.backed && v !in keep ==> v !in a.regs)
  }

  /** Memory-backed values keep their slots, and no other value is forgotten while operands
      ahead still name it. */
  ghost predicate Keeps(a: Alloc, b: Alloc) {
    && (forall v :: v in a.backed && v in a.spilled ==> v in b.spilled && b.spilled[v] == a.spilled[v])
    && (forall v :: v !in b.backed && Located(a, v) && Uses(b, v) > 0 ==> Located(b, v))
  }

  lemma KeepsTransitive(a: Alloc, b: Alloc, c: Alloc)
    requires Keeps(a, b) && Keeps(b, c) && a.backed <= b.backed <= c.backed
    requires forall v :: v !in c.backed ==> Uses(c, v) <= Uses(b, v)
    ensures Keeps(a, c)
  {
  }

  lemma DefineLocates(a: Alloc, v: string)
    requires WellFormed(a) && Define(a, v).Ok?
    ensures forall p :: Located(a, p) ==> Located(Define(a, v).value.0, p)
  {
    hide WellFormed, Spare, Without, IsSlot;
    var b := if IsSlot(v) then Back(a, v) else a;
    var c := if v in b.backed then b else b.(spilled := b.spilled - {v});
    SameFile(a, b);
    ForgetSlotKeeps(b, v);
    SpareKeeps(c);
    DefineKeeps(a, v);
    forall p | Located(a, p) && p != v ensures Located(Define(a, v).value.0, p) {
      assert Located(c, p) && Located(Spare(c), p);
    }
  }

  lemma DefineFields(a: Alloc, v: string)
    requires WellFormed(a) && Define(a, v).Ok?
    ensures var b := Define(a, v).value.0;
      && b.uses == a.uses && b.depth == a.depth && b.pinned == a.pinned && b.scratch == a.scratch
      && a.nextSlot <= b.nextSlot
      && b.backed == a.backed + (if IsSlot(v) then {v} else {})
      && b.persistent == a.persistent + (if IsSlot(v) then {v} else {})
      && (forall p :: p in b.regs ==> p in a.regs || p == v)
      && (forall p :: p in a.spilled && (p != v || p in a.backed) ==> p in b.spilled && b.spilled[p] == a.spilled[p])
      && (forall p :: Located(a, p) ==> Located(b, p))
  {
    hide WellFormed, Spare, Without, IsSlot, Located;
    var b := if IsSlot(v) then Back(a, v) else a;
    var c := if v in b.backed then b else b.(spilled := b.spilled - {v});
    SpareFields(c);
    SameFile(a, b);
    ForgetSlotKeeps(b, v);
    SpareKeeps(c);
    DefineKeeps(a, v);
    DefineLocates(a, v);
  }

  lemma DefineOrderly(a: Alloc, dst: string)
    requires Orderly(a, {}) && Define(a, dst).Ok?
    ensures var (b, rd) := Define(a, dst).value;
      Orderly(Pin(b, dst), {dst}) && Keeps(a, Pin(b, dst)) && dst in b.regs && b.regs[dst] == rd
  {
    hide WellFormed, Define;
    var b := Define(a, dst).value.0;
    DefineKeeps(a, dst);
    DefineFields(a, dst);
    SameFile(b, Pin(b, dst));
  }

  /** How often two operands name v. */
  function Named(o: Operand, v: string): nat { if o == Val(v) then 1 else 0 }

  lemma OneMention(stmt: Stmt, x: Operand)
    requires Operands(stmt) == [x]
    ensures forall v :: Mentions(stmt, v) == Named(x, v)
  {
  }

  lemma PairMentions(stmt: Stmt, x: Operand, y: Operand)
    requires Operands(stmt) == [x, y]
    ensures forall v :: Mentions(stmt, v) == Named(x, v) + Named(y, v)
  {
  }

  lemma NoMentions(stmt: Stmt)
    requires Operands(stmt) == []
    ensures forall v :: Mentions(stmt, v) == 0
  {
  }

  /** A released operand leaves an orderly state behind; `open` holds memory-backed values whose
      registers are still out. */
  lemma ReleaseOperandOrderly(a: Alloc, o: Operand, r: Reg, keep: set<string>, open: set<string>)
    requires WellFormed(a) && a.backed == a.persistent
    requires forall v :: v in a.backed && v !in keep && v in a.regs ==> v in open || o == Val(v)
    ensures var b := ReleaseOperand(a, o, r);
      && WellFormed(b) && b.pinned == a.pinned && b.backed == b.persistent == a.backed
      && (forall v :: v in b.backed && v !in keep && v in b.regs ==> v in open && o != Val(v))
      && (forall k :: k in a.regs && (o != Val(k) || (k !in a.backed && Uses(b, k) > 0)) ==> k in b.regs)
      && (forall k :: k in b.regs ==> k in a.regs && b.regs[k] == a.regs[k] && !(o == Val(k) && k in a.backed))
      && (forall v :: v !in a.backed ==> Uses(b, v) == Uses(a, v) - Named(o, v))
      && b.scratch == (if o.Lit? then [r] + a.scratch else a.scratch)
      && b.depth == a.depth && b.nextSlot == a.nextSlot && b.asm == a.asm
      && Keeps(a, b)
  {
    hide WellFormed, Without;
    if o.Val? {
      ReleaseKeeps(a, o.name);
      ReleaseForgets(a, o.name);
    } else {
      SameFile(a, ReleaseOperand(a, o, r));
    }
  }

  /** What lowering operands and the line that reads them leaves as it was. */
  ghost predicate Settled(a: Alloc, b: Alloc, keep: set<string>) {
    && Orderly(b, keep) && b.backed == a.backed && b.depth == a.depth && a.nextSlot <= b.nextSlot
    && (forall k :: k in a.pinned && k in b.regs ==> k in a.regs && b.regs[k] == a.regs[k])
    && (forall k :: k in a.pinned && k in a.regs && k !in a.backed && Uses(b, k) > 0 ==> k in b.regs)
    && Keeps(a, b)
  }

  lemma OneOrderly(a: Alloc, x: Operand, lines: seq<Line>, keep: set<string>)
    requires Orderly(a, keep) && a.pinned <= a.regs.Keys && OperandReg(a, x).Ok?
    ensures var (b, r) := OperandReg(a, x).value;
      var c := ReleaseOperand(Emit(b, lines), x, r);
      && Settled(a, c, keep) && b.nextSlot == c.nextSlot
      && (forall k :: k in a.pinned && x != Val(k) ==> k in c.regs)
      && (forall k :: k in a.backed && x == Val(k) ==> k !in c.regs)
      && (forall v :: v !in a.backed ==> Uses(c, v) == Uses(a, v) - Named(x, v))
  {
    hide WellFormed, OperandReg, ReleaseOperand, Keeps, Uses, Located;
    var (b, r) := OperandReg(a, x).value;
    OperandKeeps(a, x);
    CarriesKeeps(a, b, Emit(b, lines));
    SameFile(b, Emit(b, lines));
    ReleaseOperandOrderly(Emit(b, lines), x, r, keep, {});
    KeepsTransitive(a, Emit(b, lines), ReleaseOperand(Emit(b, lines), x, r));
  }

  /** Pinning the first operand while the second is found and unpinning it afterwards carries
      everything over. */
  lemma CarriesPinned(a: Alloc, b: Alloc, c: Alloc, x: Operand)
    requires Carries(a, b) && Carries(PinOperand(b, x), c)
    ensures Carries(a, c.(pinned := a.pinned))
  {
    var p, d := PinOperand(b, x), c.(pinned := a.pinned);
    assert b.regs == p.regs && b.spilled == p.spilled && c.regs == d.regs && c.spilled == d.spilled;
    forall v | Located(a, v) ensures Located(d, v) {
      assert Located(b, v) && Located(p, v) && Located(c, v);
    }
  }

  /** Two operands in registers: the first has not moved while the second was found. */
  lemma LoadPairKeeps(a: Alloc, x: Operand, y: Operand)
    requires WellFormed(a) && LoadPair(a, x, y).Ok?
    ensures var (c, r1, r2) := LoadPair(a, x, y).value;
      var d := c.(pinned := a.pinned);
      && WellFormed(d) && Carries(a, d)
      && UnpinOperand(c, x).pinned == (if x.Val? then a.pinned - {x.name} else a.pinned)
      && (forall v :: v in d.regs ==> v in a.regs || x == Val(v) || y == Val(v))
      && (x.Val? ==> x.name in d.regs && d.regs[x.name] == r1)
      && (y.Val? ==> y.name in d.regs && d.regs[y.name] == r2)
      && a.scratch == (if x.Lit? then [r1] else []) + (if y.Lit? then [r2] else []) + d.scratch
  {
    hide WellFormed, OperandReg, Located;
    var b := OperandReg(a, x).value.0;
    var p := PinOperand(b, x);
    var c := OperandReg(p, y).value.0;
    OperandKeeps(a, x);
    SameFile(b, p);
    OperandKeeps(p, y);
    SameFile(c, c.(pinned := a.pinned));
    assert x.Val? ==> c.regs[x.name] == b.regs[x.name];
    CarriesPinned(a, b, c, x);
  }

  lemma PairOrderly(a: Alloc, x: Operand, y: Operand, lines: seq<Line>, keep: set<string>)
    requires Orderly(a, keep) && a.pinned <= a.regs.Keys && LoadPair(a, x, y).Ok?
    ensures var (c, r1, r2) := LoadPair(a, x, y).value;
      var e := ReleasePair(Emit(c, lines), x, y, r1, r2);
      && Settled(a, e, keep) && c.nextSlot == e.nextSlot
      && (forall k :: k in a.pinned && x != Val(k) && y != Val(k) ==> k in e.regs)
      && (forall k :: k in a.backed && (x == Val(k) || y == Val(k)) ==> k !in e.regs)
      && (forall v :: v !in a.backed ==> Uses(e, v) == Uses(a, v) - Named(x, v) - Named(y, v))
  {
    hide WellFormed, LoadPair, ReleaseOperand, Keeps, Uses, Carries;
    var (c, r1, r2) := LoadPair(a, x, y).value;
    var d := UnpinOperand(Emit(c, lines), x);
    PairReady(a, x, y, lines, keep);
    ReleasePairOrderly(d, x, y, r1, r2, keep);
    KeepsTransitive(a, d, ReleasePair(Emit(c, lines), x, y, r1, r2));
    PairSettled(a, d, ReleasePair(Emit(c, lines), x, y, r1, r2), x, y, keep);
  }

  /** The state after the line that reads the pair, before the operands are released. */
  lemma PairReady(a: Alloc, x: Operand, y: Operand, lines: seq<Line>, keep: set<string>)
    requires Orderly(a, keep) && LoadPair(a, x, y).Ok?
    ensures var (c, r1, r2) := LoadPair(a, x, y).value; var d := UnpinOperand(Emit(c, lines), x);
      && WellFormed(d) && d.backed == d.persistent == a.backed && d.pinned <= a.pinned && d.depth == a.depth
      && a.nextSlot <= d.nextSlot == c.nextSlot
      && (forall v :: v in a.pinned && v in a.regs ==> v in d.regs && d.regs[v] == a.regs[v])
      && (forall v :: v in a.pinned && v !in d.pinned ==> x == Val(v))
      && (forall v :: v in d.regs ==> v in a.regs || x == Val(v) || y == Val(v))
      && (forall v :: v in a.backed && v !in keep && v in d.regs ==> x == Val(v) || y == Val(v))
      && (if x.Lit? then [r1] else []) + (if y.Lit? then [r2] else []) + d.scratch == [SCRATCH_REG]
      && Keeps(a, d) && forall v :: Uses(d, v) == Uses(a, v)
  {
    hide WellFormed, LoadPair, Keeps, Uses, Located;
    var c := LoadPair(a, x, y).value.0;
    var d := UnpinOperand(Emit(c, lines), x);
    LoadPairKeeps(a, x, y);
    SameFile(c.(pinned := a.pinned), d);
    CarriesKeeps(a, c.(pinned := a.pinned), d);
  }

  /** Releasing the pair settles the state. */
  lemma PairSettled(a: Alloc, d: Alloc, e: Alloc, x: Operand, y: Operand, keep: set<string>)
    requires a.pinned <= keep && a.pinned <= a.regs.Keys && WellFormed(e) && Keeps(a, e)
    requires e.pinned == d.pinned <= a.pinned && e.backed == e.persistent == d.backed == a.backed
    requires e.scratch == [SCRATCH_REG] && e.depth == a.depth && a.nextSlot <= e.nextSlot
    requires forall v :: v in a.pinned && v in a.regs ==> v in d.regs && d.regs[v] == a.regs[v]
    requires forall v :: v in e.backed && v !in keep ==> v !in e.regs
    requires forall k :: k in d.regs && ((x != Val(k) && y != Val(k)) || (k !in d.backed && Uses(e, k) > 0)) ==>
              k in e.regs
    requires forall k :: k in e.regs ==> k in d.regs && e.regs[k] == d.regs[k]
    ensures Settled(a, e, keep)
    ensures forall k :: k in a.pinned && x != Val(k) && y != Val(k) ==> k in e.regs
  {
    hide WellFormed, Keeps, Uses;
  }

  lemma CarriesKeeps(a: Alloc, c: Alloc, d: Alloc)
    requires Carries(a, c) && d == c.(pinned := d.pinned, asm := d.asm)
    ensures Keeps(a, d) && forall v :: Uses(d, v) == Uses(a, v)
  {
  }

  lemma ReleasePairOrderly(a: Alloc, x: Operand, y: Operand, r1: Reg, r2: Reg, keep: set<string>)
    requires WellFormed(a) && a.backed == a.persistent
    requires forall v :: v in a.backed && v !in keep && v in a.regs ==> x == Val(v) || y == Val(v)
    ensures var b := ReleaseOperand(ReleaseOperand(a, x, r1), y, r2);
      && WellFormed(b) && b.pinned == a.pinned && b.backed == b.persistent == a.backed
      && (forall v :: v in b.backed && v !in keep ==> v !in b.regs)
      && (forall k :: k in a.regs && ((x != Val(k) && y != Val(k)) || (k !in a.backed && Uses(b, k) > 0)) ==>
            k in b.regs)
      && (forall k :: k in b.regs ==> k in a.regs && b.regs[k] == a.regs[k])
      && (forall k :: k in a.backed && (x == Val(k) || y == Val(k)) ==> k !in b.regs)
      && (forall v :: v !in a.backed ==> Uses(b, v) == Uses(a, v) - Named(x, v) - Named(y, v))
      && b.scratch == (if y.Lit? then [r2] else []) + (if x.Lit? then [r1] else []) + a.scratch
      && b.depth == a.depth && b.nextSlot == a.nextSlot
      && Keeps(a, b)
  {
    hide WellFormed, ReleaseOperand, Keeps;
    var b := ReleaseOperand(a, x, r1);
    ReleaseOperandOrderly(a, x, r1, keep, if y.Val? then {y.name} else {});
    ReleaseOperandOrderly(b, y, r2, keep, {});
    KeepsTransitive(a, b, ReleaseOperand(b, y, r2));
  }

  /** A value moved to its slot: what `arg` and the end of an assignment do. */
  function Park(a: Alloc, v: string): Alloc
    requires v in a.regs
  {
    var b := FreeReg(SpillStore(a, v, a.regs[v]), v);
    Unpin(b.(depths := b.depths - {v}), v)
  }

  lemma ParkOrderly(a: Alloc, dst: string)
    requires Orderly(a, {dst}) && dst in a.regs
    ensures var b := Park(a, dst);
      && Orderly(b, {}) && dst in b.spilled && dst !in b.regs && Keeps(a, b)
      && b.uses == a.uses && b.depth == a.depth && b.backed == a.backed && a.nextSlot <= b.nextSlot
      && (forall v :: Located(a, v) ==> Located(b, v))
  {
    hide WellFormed, SpillAddrCode, Without;
    var c := SpillStore(a, dst, a.regs[dst]);
    SpillStoreKeeps(a, dst, a.regs[dst]);
    FreeRegKeeps(c, dst);
    hide SpillStore;
    SpillStoreFields(a, dst, a.regs[dst]);
    SameFile(FreeReg(c, dst), Park(a, dst));
  }

  lemma FinishOrderly(a: Alloc, dst: string)
    requires Orderly(a, {dst})
    ensures var b := Finish(a, dst);
      && Orderly(b, {}) && Keeps(a, b) && (dst in a.regs && dst in a.backed ==> dst in b.spilled)
      && b.uses == a.uses && b.depth == a.depth && b.backed == a.backed && a.nextSlot <= b.nextSlot
      && (forall v :: Located(a, v) ==> Located(b, v))
  {
    hide WellFormed, SpillAddrCode, Without;
    if dst in a.backed && dst in a.regs {
      ParkOrderly(a, dst);
      assert Finish(a, dst) == Park(a, dst);
    } else {
      SameFile(a, Finish(a, dst));
    }
  }

  /** Every right-hand side except `arg` leaves dst in its register, unless dst is an operand that
      is released for good. */
  lemma RhsOrderly(a: Alloc, dst: string, rd: Reg, rhs: Rhs)
    requires Orderly(a, {dst}) && a.pinned == {dst} && dst in a.regs && a.regs[dst] == rd
    requires !rhs.Arg? && LowerRhs(a, dst, rd, rhs).Ok?
    ensures var b := LowerRhs(a, dst, rd, rhs).value;
      && Settled(a, b, {dst}) && (Mentions(Assign(dst, rhs), dst) == 0 ==> dst in b.regs)
      && (Mentions(Assign(dst, rhs), dst) > 0 && dst in b.backed ==> dst !in b.regs)
      && (forall v :: v !in b.backed ==> Uses(b, v) == Uses(a, v) - Mentions(Assign(dst, rhs), v))
  {
    hide WellFormed, LiteralCode, LoadPair, OperandReg, ReleaseOperand, ReleasePair, Mentions, Settled;
    var b := LowerRhs(a, dst, rd, rhs).value;
    match rhs
    case Unary(u, fmt, x) =>
      OneOrderly(a, x, [UnaryLine(u, fmt, rd, OperandReg(a, x).value.1)], {dst});
      OneMention(Assign(dst, rhs), x);
      SettledBacked(a, b, {dst});
    case Binary(op, fmt, x, y) =>
      var (_, r1, r2) := LoadPair(a, x, y).value;
      PairOrderly(a, x, y, [Alu(ValueOpcode(op, fmt).value, fmt, rd, r1, r2)], {dst});
      PairMentions(Assign(dst, rhs), x, y);
      SettledBacked(a, b, {dst});
    case _ =>
      SettledEmit(a, b, {dst});
      NoMentions(Assign(dst, rhs));
  }

  lemma SettledBacked(a: Alloc, b: Alloc, keep: set<string>)
    requires Settled(a, b, keep)
    ensures b.backed == a.backed
  {
  }

  lemma SettledEmit(a: Alloc, b: Alloc, keep: set<string>)
    requires Orderly(a, keep) && a.pinned <= a.regs.Keys && b == a.(asm := b.asm)
    ensures Settled(a, b, keep) && forall v :: Uses(b, v) == Uses(a, v)
  {
    hide WellFormed;
    SameFile(a, b);
  }

  lemma ArgOrderly(a: Alloc, dst: string, rd: Reg, p: string)
    requires Orderly(a, {dst}) && dst in a.regs && a.regs[dst] == rd
    ensures var b := Finish(LowerRhs(a, dst, rd, Arg(p)).value, dst);
      && Orderly(b, {}) && dst in b.spilled && Keeps(a, b)
      && b.uses == a.uses && b.backed == a.backed + {dst} && b.depth == a.depth && a.nextSlot <= b.nextSlot
  {
    hide WellFormed, SpillAddrCode, Without;
    var q := Emit(Back(a, dst), [LoadConst(rd, Symbol(ArgSymbol(p)))]);
    SameFile(a, q);
    ParkOrderly(q, dst);
    KeepsTransitive(a, q, Park(q, dst));
    assert Finish(LowerRhs(a, dst, rd, Arg(p)).value, dst) == Park(q, dst);
  }

  /** An assignment, even one that reads its own destination, ends as it began, with its operands
      counted off. */
  lemma AssignOrderly(a: Alloc, dst: string, rhs: Rhs)
    requires Orderly(a, {}) && LowerAssign(a, dst, rhs).Ok?
    ensures var b := LowerAssign(a, dst, rhs).value;
      && Orderly(b, {}) && Keeps(a, b)
      && b.backed == a.backed + (if IsSlot(dst) || rhs.Arg? then {dst} else {})
      && b.depth == a.depth && a.nextSlot <= b.nextSlot
      && (forall v :: v !in b.backed ==> Uses(b, v) == Uses(a, v) - Mentions(Assign(dst, rhs), v))
      && (dst !in b.backed && Uses(b, dst) > 0 ==> Located(b, dst))
      && (Mentions(Assign(dst, rhs), dst) == 0 ==> Located(b, dst) && (dst in b.backed ==> dst in b.spilled))
  {
    hide WellFormed, Define, LowerRhs, Finish;
    var (b, rd) := Define(a, dst).value;
    var p := Pin(b, dst);
    var c := LowerRhs(p, dst, rd, rhs).value;
    DefineOrderly(a, dst);
    DefineFields(a, dst);
    if rhs.Arg? {
      ArgOrderly(p, dst, rd, rhs.param);
      ArgLowers(p, dst, rd, rhs);
    } else {
      RhsOrderly(p, dst, rd, rhs);
      FinishOrderly(c, dst);
      KeepsTransitive(p, c, Finish(c, dst));
    }
    KeepsTransitive(a, p, Finish(c, dst));
  }

  lemma ArgLowers(a: Alloc, dst: string, rd: Reg, rhs: Rhs)
    requires rhs.Arg?
    ensures LowerRhs(a, dst, rd, rhs).Ok? && a.nextSlot <= LowerRhs(a, dst, rd, rhs).value.nextSlot
    ensures forall v :: Mentions(Assign(dst, rhs), v) == 0
  {
  }

  /** The register-file invariant over any statement. Registers stay partitioned between values and
      the free list, the operands are counted off, and a value that is not memory-backed is
      forgotten only when no operand ahead names it. */
  lemma LowerOrderly(a: Alloc, stmt: Stmt)
    requires Orderly(a, {}) && Lower(a, stmt).Ok?
    ensures var b := Lower(a, stmt).value;
      && Orderly(b, {}) && Keeps(a, b) && a.nextSlot <= b.nextSlot
      && a.backed <= b.backed <= a.backed + (if stmt.Assign? then {stmt.dst} else {})
      && (forall v :: v !in b.backed ==> Uses(b, v) == Uses(a, v) - Mentions(stmt, v))
      && (stmt.Assign? && stmt.dst !in b.backed && Uses(b, stmt.dst) > 0 ==> Located(b, stmt.dst))
  {
    hide WellFormed, OperandReg, LoadPair, LowerAssign, ReleaseOperand, Mentions;
    var b := Lower(a, stmt).value;
    match stmt
    case Assign(dst, rhs) => AssignOrderly(a, dst, rhs);
    case StoreTo(space, fmt, x, y) =>
      var (_, r1, r2) := LoadPair(a, x, y).value;
      PairOrderly(a, x, y, [Store(if space.Global? then STG else STS, fmt, r1, 0, r2)], {});
      PairMentions(stmt, x, y);
    case PredBegin(x) => TestOrderly(a, x, stmt);
    case GotoZero(x, _) => TestOrderly(a, x, stmt);
    case GotoNonzero(x, _) => TestOrderly(a, x, stmt);
    case _ =>
      SameFile(a, b);
      NoMentions(stmt);
  }

  lemma TestOrderly(a: Alloc, x: Operand, stmt: Stmt)
    requires Orderly(a, {}) && Lower(a, stmt).Ok? && Operands(stmt) == [x]
    requires stmt.PredBegin? || stmt.GotoZero? || stmt.GotoNonzero?
    ensures var b := Lower(a, stmt).value;
      && Orderly(b, {}) && Keeps(a, b) && a.nextSlot <= b.nextSlot && b.backed == a.backed
      && (forall v :: v !in b.backed ==> Uses(b, v) == Uses(a, v) - Mentions(stmt, v))
  {
    hide WellFormed, OperandReg, ReleaseOperand, Mentions;
    OneMention(stmt, x);
    OneOrderly(a, x, TestLines(stmt, OperandReg(a, x).value.1), {});
    SameFile(LowerTest(a, x, stmt).value, Lower(a, stmt).value);
  }

  /** An assignment may read its own destination when that is in a register for good. */
  predicate SafeSelfUse(a: Alloc, stmt: Stmt) {
    stmt.Assign? && Mentions(stmt, stmt.dst) > 0 ==>
      stmt.dst in a.regs && stmt.dst !in a.backed && !IsSlot(stmt.dst)
  }
}
