/** The constants table between compiler, assembler and runtime: the k-th parameter is read at
    identifier k and the spill base, when it is the first shared symbol its kernel loads, at
    identifier 32, and those are the entries the runtime fills. */
module ConstantsAbi {
  import opened Words
  import opened Isa
  import opened MiniIr
  import opened Allocation
  import opened EmittedCode
  import opened Encoding
  import opened Assembler

  // ----- what the back end emits for the parameters -----

  /** How a kernel's parameters arrive: one assignment each, in order. */
  function Prologue(params: seq<string>): seq<Stmt> {
    if params == [] then []
    else [Assign("%" + params[0], Arg(params[0]))] + Prologue(params[1..])
  }

  /** The code of one parameter: its constant, then its spill slot. */
  function ParamCode(rd: Reg, param: string, slot: nat): seq<Line> {
    [LoadConst(rd, Symbol(ArgSymbol(param)))] + SpillAddrCode(slot) + [Store(STS, None, SPILL_ADDR_REG, 0, rd)]
  }

  lemma ParamDefined(a: Alloc, dst: string)
    requires a.free != [] && a.regs == map[]
    ensures var r := Define(a, dst);
            && r.Ok? && r.value.1 == a.free[0]
            && r.value.0.free == a.free[1..] && r.value.0.regs == map[dst := a.free[0]] && r.value.0.asm == a.asm
  {
    hide Without;
  }

  lemma ParamStored(b: Alloc, dst: string, rd: Reg, param: string) returns (slot: nat)
    requires b.regs == map[dst := rd]
    ensures var r := LowerRhs(b, dst, rd, Arg(param));
            && r.Ok? && r.value.regs == map[] && r.value.free == [rd] + b.free
            && r.value.asm == b.asm + ParamCode(rd, param, slot)
  {
    hide SpillAddrCode, Without;
    var first := [LoadConst(rd, Symbol(ArgSymbol(param)))];
    var c := Emit(Back(b, dst), first);
    slot := SpillSlot(c, dst).1;
    var d := SpillStore(c, dst, rd);
    assert d.regs == b.regs && d.free == b.free;
    assert d.asm == b.asm + first + (SpillAddrCode(slot) + [Store(STS, None, SPILL_ADDR_REG, 0, rd)]);
    assert d.asm == b.asm + ParamCode(rd, param, slot);
    assert b.regs - {dst} == map[];
  }

  /** With a register free and none taken, a parameter is loaded, stored and forgotten again. */
  lemma ParamLowered(a: Alloc, param: string) returns (slot: nat)
    requires a.free != [] && a.regs == map[]
    ensures var b := Lower(a, Assign("%" + param, Arg(param)));
            b.Ok? && b.value.free == a.free && b.value.regs == map[]
            && b.value.asm == a.asm + ParamCode(a.free[0], param, slot)
  {
    hide Define, LowerRhs, ParamCode;
    var dst := "%" + param;
    ParamDefined(a, dst);
    slot := ParamStored(Pin(Define(a, dst).value.0, dst), dst, a.free[0], param);
  }

  // ----- numbering, line by line -----

  /** The first pass resumed in the middle of a text. */
  function PassOn(p: Pass, lines: seq<Line>): Pass
    decreases |lines|
  {
    if lines == [] then p else PassOn(PassLine(p, lines[0]), lines[1..])
  }

  lemma {:induction false} PassOnConcat(p: Pass, a: seq<Line>, b: seq<Line>)
    ensures PassOn(p, a + b) == PassOn(PassOn(p, a), b)
    decreases |a|
  {
    hide PassLine;
    if a == [] {
      assert a + b == b;
    } else {
      assert (a + b)[1..] == a[1..] + b;
      PassOnConcat(PassLine(p, a[0]), a[1..], b);
    }
  }

  lemma {:induction false} FirstPassResumed(a: seq<Line>, b: seq<Line>)
    ensures FirstPass(a + b) == PassOn(FirstPass(a), b)
    decreases |b|
  {
    hide PassLine;
    if b == [] {
      assert a + b == a;
    } else {
      assert a + b == (a + [b[0]]) + b[1..];
      FirstPassResumed(a + [b[0]], b[1..]);
      assert (a + [b[0]])[..|a|] == a;
    }
  }

  /** Numbers once given stay while the kernel lasts. */
  predicate Extends(p: Pass, q: Pass) {
    && (forall s :: s in p.args ==> s in q.args && q.args[s] == p.args[s])
    && (forall s :: s in p.shared ==> s in q.shared && q.shared[s] == p.shared[s])
  }

  predicate OneKernel(lines: seq<Line>) {
    forall i :: 0 <= i < |lines| ==> !lines[i].KernelDir?
  }

  lemma {:induction false} NumbersStay(p: Pass, lines: seq<Line>)
    requires OneKernel(lines)
    ensures Extends(p, PassOn(p, lines))
    decreases |lines|
  {
    hide Scoped;
    if lines != [] {
      assert Extends(p, PassLine(p, lines[0]));
      NumbersStay(PassLine(p, lines[0]), lines[1..]);
    }
  }

  // ----- the parameters' numbers -----

  predicate DistinctIgnoringCase(params: seq<string>) {
    forall i, j :: 0 <= i < j < |params| ==> Upper(params[i]) != Upper(params[j])
  }

  lemma ArgSymbolDistinct(p: string, q: string)
    requires Upper(p) != Upper(q)
    ensures ArgSymbol(p) != ArgSymbol(q)
  {
    assert ArgSymbol(p)[4..] == Upper(p) && ArgSymbol(q)[4..] == Upper(q);
  }

  /** The numbers after the first k parameters. */
  ghost predicate ParamsNumbered(p: Pass, params: seq<string>, k: nat)
    requires k <= |params|
  {
    && |p.args| == k
    && (forall i :: 0 <= i < k ==> ArgSymbol(params[i]) in p.args && p.args[ArgSymbol(params[i])] == i)
    && (forall s :: s in p.args ==> exists i :: 0 <= i < k && s == ArgSymbol(params[i]))
    && p.shared == if k == 0 then map[] else map[SPILL_BASE := FIRST_SHARED_ID]
  }

  lemma SpillBaseShared()
    ensures IsShared(SPILL_BASE) && !IsArg(SPILL_BASE)
  {
    assert SPILL_BASE[..7] == "SHARED_";
    assert SPILL_BASE[0] != "ARG_"[0];
  }

  lemma SpillCodeNumbers(p: Pass, slot: nat, rd: Reg)
    requires p.shared == map[] || p.shared == map[SPILL_BASE := FIRST_SHARED_ID]
    ensures var q := PassOn(p, SpillAddrCode(slot) + [Store(STS, None, SPILL_ADDR_REG, 0, rd)]);
            q.args == p.args && q.shared == map[SPILL_BASE := FIRST_SHARED_ID]
  {
    var code := SpillAddrCode(slot) + [Store(STS, None, SPILL_ADDR_REG, 0, rd)];
    SpillBaseShared();
    var p1 := PassLine(p, code[0]);
    assert p1.args == p.args && p1.shared == map[SPILL_BASE := FIRST_SHARED_ID];
    QuietLines(p1, code[1..]);
  }

  lemma {:induction false} QuietLines(p: Pass, lines: seq<Line>)
    requires forall i :: 0 <= i < |lines| ==> !lines[i].KernelDir? && !lines[i].LoadConst?
    ensures PassOn(p, lines).args == p.args && PassOn(p, lines).shared == p.shared
    decreases |lines|
  {
    hide Scoped;
    if lines != [] { QuietLines(PassLine(p, lines[0]), lines[1..]); }
  }

  lemma ParamNumbered(p: Pass, params: seq<string>, k: nat, rd: Reg, slot: nat)
    requires k < |params| && DistinctIgnoringCase(params) && ParamsNumbered(p, params, k)
    ensures ParamsNumbered(PassOn(p, ParamCode(rd, params[k], slot)), params, k + 1)
  {
    hide Upper, SpillAddrCode, PassLine, ArgSymbol;
    var code := ParamCode(rd, params[k], slot);
    var first := LoadConst(rd, Symbol(ArgSymbol(params[k])));
    NotYetNumbered(p, params, k);
    hide ParamsNumbered;
    assert p.shared == map[] || p.shared == map[SPILL_BASE := FIRST_SHARED_ID] by { SharedSoFar(p, params, k); }
    assert code[0] == first && code[1..] == SpillAddrCode(slot) + [Store(STS, None, SPILL_ADDR_REG, 0, rd)];
    var p1 := PassLine(p, first);
    ArgNumbered(p, rd, params[k]);
    SpillCodeNumbers(p1, slot, rd);
    assert PassOn(p, code) == PassOn(p1, code[1..]);
    OneMoreNumber(p, PassOn(p, code), params, k);
  }

  lemma NotYetNumbered(p: Pass, params: seq<string>, k: nat)
    requires k < |params| && DistinctIgnoringCase(params) && ParamsNumbered(p, params, k)
    ensures ArgSymbol(params[k]) !in p.args
  {
    hide Upper, ArgSymbol;
    forall i | 0 <= i < k ensures ArgSymbol(params[i]) != ArgSymbol(params[k]) {
      ArgSymbolDistinct(params[i], params[k]);
    }
  }

  lemma SharedSoFar(p: Pass, params: seq<string>, k: nat)
    requires k <= |params| && ParamsNumbered(p, params, k)
    ensures p.shared == map[] || p.shared == map[SPILL_BASE := FIRST_SHARED_ID]
  {
  }

  lemma OneMoreNumber(p: Pass, q: Pass, params: seq<string>, k: nat)
    requires k < |params| && ParamsNumbered(p, params, k) && ArgSymbol(params[k]) !in p.args
    requires q.args == p.args[ArgSymbol(params[k]) := |p.args|] && q.shared == map[SPILL_BASE := FIRST_SHARED_ID]
    ensures ParamsNumbered(q, params, k + 1)
  {
    hide ArgSymbol;
  }

  lemma ArgNumbered(p: Pass, rd: Reg, param: string)
    requires ArgSymbol(param) !in p.args
    ensures var q := PassLine(p, LoadConst(rd, Symbol(ArgSymbol(param))));
            q.args == p.args[ArgSymbol(param) := |p.args|] && q.shared == p.shared
  {
  }

  lemma PassOnNothing(p: Pass)
    ensures PassOn(p, []) == p
  {
  }

  lemma ParamCodeInKernel(rd: Reg, param: string, slot: nat)
    ensures OneKernel(ParamCode(rd, param, slot))
  {
  }

  /** Lowering the parameters from any point on numbers them in order. */
  lemma {:induction false} PrologueNumbered(a: Alloc, params: seq<string>, k: nat, p: Pass) returns (code: seq<Line>)
    requires a.free != [] && a.regs == map[] && k <= |params| && DistinctIgnoringCase(params)
    requires ParamsNumbered(p, params, k)
    ensures var b := LowerAll(a, Prologue(params[k..])); b.Ok? && b.value.asm == a.asm + code
    ensures ParamsNumbered(PassOn(p, code), params, |params|) && OneKernel(code)
    decreases |params| - k
  {
    hide Lower, ParamsNumbered, DistinctIgnoringCase, ParamCode, PassOn;
    if k == |params| {
      code := [];
      assert params[k..] == [] && a.asm + [] == a.asm;
      PassOnNothing(p);
    } else {
      var slot := ParamLowered(a, params[k]);
      ParamCodeInKernel(a.free[0], params[k], slot);
      var stmt := Assign("%" + params[k], Arg(params[k]));
      var b := Lower(a, stmt).value;
      var first := ParamCode(a.free[0], params[k], slot);
      ParamNumbered(p, params, k, a.free[0], slot);
      assert params[k..][1..] == params[k + 1..];
      assert Prologue(params[k..]) == [stmt] + Prologue(params[k + 1..]);
      assert ([stmt] + Prologue(params[k + 1..]))[1..] == Prologue(params[k + 1..]);
      var rest := PrologueNumbered(b, params, k + 1, PassOn(p, first));
      PassOnConcat(p, first, rest);
      code := first + rest;
      assert a.asm + first + rest == a.asm + code;
    }
  }

  // ----- which symbol gets the first shared number -----

  predicate LoadsShared(line: Line) {
    line.LoadConst? && line.constant.Symbol? && IsShared(line.constant.name)
  }

  /** The first shared symbol a kernel's code loads. */
  function FirstShared(lines: seq<Line>): Option<string>
    decreases |lines|
  {
    if lines == [] then None
    else if LoadsShared(lines[0]) then Some(lines[0].constant.name)
    else FirstShared(lines[1..])
  }

  lemma SharedNotArg(s: string)
    requires IsShared(s)
    ensures !IsArg(s)
  {
    assert s[0] == "SHARED_"[0] != "ARG_"[0];
  }

  /** What one line of a kernel does to the shared numbers. */
  lemma SharedStep(p: Pass, line: Line)
    requires !line.KernelDir?
    ensures PassLine(p, line).shared
            == if LoadsShared(line) then Number(p.shared, line.constant.name, FIRST_SHARED_ID) else p.shared
  {
    hide Scoped;
    if LoadsShared(line) { SharedNotArg(line.constant.name); }
  }

  lemma {:induction false} FirstNumberTaken(p: Pass, lines: seq<Line>, first: string)
    requires OneKernel(lines) && first in p.shared
    requires forall s :: s in p.shared && p.shared[s] == FIRST_SHARED_ID ==> s == first
    ensures forall s :: s in PassOn(p, lines).shared && PassOn(p, lines).shared[s] == FIRST_SHARED_ID ==> s == first
    decreases |lines|
  {
    hide PassLine;
    if lines != [] {
      SharedStep(p, lines[0]);
      FirstNumberTaken(PassLine(p, lines[0]), lines[1..], first);
    }
  }

  /** In one kernel a symbol gets number 32 exactly when it is the first shared symbol loaded. */
  lemma {:induction false} FirstSharedNumber(p: Pass, lines: seq<Line>, s: string)
    requires OneKernel(lines) && p.shared == map[]
    ensures s in PassOn(p, lines).shared && PassOn(p, lines).shared[s] == FIRST_SHARED_ID
            <==> FirstShared(lines) == Some(s)
    decreases |lines|
  {
    hide PassLine;
    if lines != [] {
      SharedStep(p, lines[0]);
      var q := PassLine(p, lines[0]);
      if LoadsShared(lines[0]) {
        FirstNumberTaken(q, lines[1..], lines[0].constant.name);
        NumbersStay(q, lines[1..]);
      } else {
        FirstSharedNumber(q, lines[1..], s);
      }
    }
  }

  // ----- the rest of the section stays in the kernel -----

  ghost predicate KeepsKernel(a: Alloc, b: Alloc) {
    a.asm <= b.asm && OneKernel(b.asm[|a.asm|..])
  }

  lemma KeepsKernelTrans(a: Alloc, b: Alloc, c: Alloc)
    requires KeepsKernel(a, b) && KeepsKernel(b, c)
    ensures KeepsKernel(a, c)
  {
    assert c.asm[|a.asm|..] == b.asm[|a.asm|..] + c.asm[|b.asm|..];
  }

  lemma AppendsKeeps(a: Alloc, b: Alloc)
    requires Appends(a, b)
    ensures KeepsKernel(a, b)
  {
    var lines := b.asm[|a.asm|..];
    forall i | 0 <= i < |lines| ensures !lines[i].KernelDir? {
      assert Ordinary(lines[i]);
    }
  }

  lemma EmitKeeps(a: Alloc, lines: seq<Line>)
    requires OneKernel(lines)
    ensures KeepsKernel(a, Emit(a, lines))
  {
    assert Emit(a, lines).asm[|a.asm|..] == lines;
  }

  lemma LowerKeepsKernel(a: Alloc, stmt: Stmt)
    requires Lower(a, stmt).Ok?
    ensures KeepsKernel(a, Lower(a, stmt).value)
  {
    hide LowerAssign, LowerStore, OperandReg, ReleaseOperand, Appends, KeepsKernel;
    if stmt.Assign? || stmt.StoreTo? || stmt.Mark? {
      LowerAppends(a, stmt);
      AppendsKeeps(a, Lower(a, stmt).value);
    } else if stmt.PredBegin? || stmt.GotoZero? || stmt.GotoNonzero? {
      var (b, rs) := OperandReg(a, stmt.cond).value;
      var lines := TestLines(stmt, rs);
      OperandAppends(a, stmt.cond);
      AppendsKeeps(a, b);
      EmitKeeps(b, lines);
      KeepsKernelTrans(a, b, Emit(b, lines));
      ReleaseAppends(Emit(b, lines), stmt.cond, rs);
      SameCode(a, Emit(b, lines), Lower(a, stmt).value);
    } else {
      var lines := match stmt
        case PredEnd => [Plain(POPM)]
        case Barrier => [Plain(BAR)]
        case Return => [Plain(EXIT)]
        case Goto(l) => [Jump(BRA, l)]
        case _ => [];
      EmitKeeps(a, lines);
      SameCode(a, Emit(a, lines), Lower(a, stmt).value);
    }
  }

  lemma SameCode(a: Alloc, b: Alloc, c: Alloc)
    requires KeepsKernel(a, b) && c.asm == b.asm
    ensures KeepsKernel(a, c)
  {
  }

  lemma {:induction false} LowerAllKeepsKernel(a: Alloc, stmts: seq<Stmt>)
    requires LowerAll(a, stmts).Ok?
    ensures KeepsKernel(a, LowerAll(a, stmts).value)
    decreases |stmts|
  {
    hide Lower;
    if stmts != [] {
      var b := Lower(a, stmts[0]).value;
      LowerKeepsKernel(a, stmts[0]);
      LowerAllKeepsKernel(b, stmts[1..]);
      KeepsKernelTrans(a, b, LowerAll(b, stmts[1..]).value);
    }
  }

  // ----- the interface -----

  /** The code of a kernel with the given parameters. */
  function KernelCode(params: seq<string>, body: seq<Stmt>): Outcome<seq<Line>> {
    var section := Prologue(params) + body;
    var a :- LowerAll(Fresh(CountUses(section)), section);
    Ok(a.asm)
  }

  function TextOf(before: seq<Line>, kernel: string, code: seq<Line>): seq<Line> {
    before + [KernelDir(kernel)] + code
  }

  /** At the end of a kernel's code its parameters have the numbers 0, 1, 2, ... in order. The
      spill base has number 32 exactly when it is the first shared symbol the code loads, which
      the parameters, if there are any, see to. */
  lemma KernelNumbers(before: seq<Line>, kernel: string, params: seq<string>, body: seq<Stmt>)
    requires DistinctIgnoringCase(params) && KernelCode(params, body).Ok?
    ensures var code := KernelCode(params, body).value; var p := FirstPass(TextOf(before, kernel, code));
            && OneKernel(code)
            && (forall k :: 0 <= k < |params| ==> ArgSymbol(params[k]) in p.args && p.args[ArgSymbol(params[k])] == k)
            && (SPILL_BASE in p.shared && p.shared[SPILL_BASE] == FIRST_SHARED_ID
                <==> FirstShared(code) == Some(SPILL_BASE))
            && (params != [] ==> FirstShared(code) == Some(SPILL_BASE))
  {
    hide Lower, Upper, PassLine, KeepsKernel, CountUses, FirstShared;
    var a0 := Fresh(CountUses(Prologue(params) + body));
    var start := before + [KernelDir(kernel)];
    var p0 := FirstPass(start);
    assert start[..|before|] == before;
    StartNumbers(FirstPass(before), kernel, params);
    assert params[0..] == params;
    var first := PrologueNumbered(a0, params, 0, p0);
    LowerAllAppend(a0, Prologue(params), body);
    var a1 := LowerAll(a0, Prologue(params)).value;
    assert a1.asm == first;
    LowerAllKeepsKernel(a1, body);
    var code := KernelCode(params, body).value;
    var rest := RestOfCode(a1, LowerAll(a1, body).value);
    assert code == first + rest;
    PassOnConcat(p0, first, rest);
    FirstPassResumed(start, code);
    NumbersStay(PassOn(p0, first), rest);
    FirstSharedNumber(p0, code, SPILL_BASE);
  }

  // ----- a kernel without parameters -----

  /** Takes the address of a shared array, then sets a stack slot. */
  const SHARED_FIRST: seq<Stmt> := [Assign("%a", Shared("buf")), Assign("%slot1", Const(5))]

  const SLOT_CODE: seq<Line> := SpillAddrCode(0) + [Store(STS, None, SPILL_ADDR_REG, 0, 1)]
  const SHARED_FIRST_CODE: seq<Line> := [LoadConst(0, Symbol(SharedSymbol("buf"))), MoveImm(1, 5)] + SLOT_CODE

  lemma SharedFirstLowers(u: map<string, int>) returns (b: Alloc)
    ensures Lower(Fresh(u), SHARED_FIRST[0]) == Ok(b) && b.asm == SHARED_FIRST_CODE[..1]
    ensures b.free != [] && b.free[0] == 1 && b.regs.Keys == {"%a"} && b.spilled == map[] && b.nextSlot == 0
  {
    hide SharedSymbol, SpillAddrCode;
    assert RegsBelow(13)[0] == 0 && RegsBelow(13)[1] == 1;
    b := Lower(Fresh(u), SHARED_FIRST[0]).value;
    assert [] + SHARED_FIRST_CODE[..1] == SHARED_FIRST_CODE[..1];
  }

  lemma SlotLowers(a: Alloc) returns (b: Alloc)
    requires a.free != [] && a.free[0] == 1 && a.regs.Keys == {"%a"} && a.spilled == map[] && a.nextSlot == 0
    ensures Lower(a, SHARED_FIRST[1]) == Ok(b) && b.asm == a.asm + [MoveImm(1, 5)] + SLOT_CODE
  {
    hide SharedSymbol, SpillAddrCode, Without;
    b := Lower(a, SHARED_FIRST[1]).value;
  }

  lemma SharedFirstCode()
    ensures KernelCode([], SHARED_FIRST) == Ok(SHARED_FIRST_CODE)
  {
    hide Lower, SharedSymbol, SLOT_CODE, CountUses;
    assert Prologue([]) + SHARED_FIRST == SHARED_FIRST;
    var u := CountUses(SHARED_FIRST);
    var a := SharedFirstLowers(u);
    var b := SlotLowers(a);
    assert SHARED_FIRST[1..] == [SHARED_FIRST[1]] && [SHARED_FIRST[1]][1..] == [];
    assert LowerAll(a, [SHARED_FIRST[1]]) == Ok(b);
    assert SHARED_FIRST_CODE == SHARED_FIRST_CODE[..1] + [MoveImm(1, 5)] + SLOT_CODE;
  }

  /** Numbering the code of that kernel line by line. */
  lemma SharedFirstNumbers(p: Pass)
    requires p.shared == map[]
    ensures SPILL_BASE in PassOn(p, SHARED_FIRST_CODE).shared
    ensures PassOn(p, SHARED_FIRST_CODE).shared[SPILL_BASE] == FIRST_SHARED_ID + 1
    ensures FirstShared(SHARED_FIRST_CODE) == Some(SharedSymbol("buf"))
  {
    hide PassLine, SpillAddrCode, SLOT_CODE;
    var code := SHARED_FIRST_CODE;
    assert LoadsShared(code[0]) && SharedSymbol("buf")[7] == 'B';
    hide SharedSymbol;
    var p1, p2 := PassLine(p, code[0]), PassLine(PassLine(p, code[0]), code[1]);
    SharedStep(p, code[0]);
    SharedStep(p1, code[1]);
    FirstSpillLine();
    SharedStep(p2, SLOT_CODE[0]);
    assert code[1..][1..] == SLOT_CODE;
    assert PassOn(p, code) == PassOn(p1, code[1..]) == PassOn(p2, SLOT_CODE);
    NumbersStay(PassLine(p2, SLOT_CODE[0]), SLOT_CODE[1..]);
  }

  /** A kernel without parameters that takes the address of a shared array before it spills gives
      that array number 32 and the spill base number 33, past the runtime's table of 33 entries
      when there are no arguments. */
  lemma SpillBaseSecond(before: seq<Line>, kernel: string)
    ensures KernelCode([], SHARED_FIRST).Ok?
    ensures var code := KernelCode([], SHARED_FIRST).value; var p := FirstPass(TextOf(before, kernel, code));
            && FirstShared(code) == Some(SharedSymbol("buf"))
            && SPILL_BASE in p.shared && p.shared[SPILL_BASE] == FIRST_SHARED_ID + 1 == |ConstantsTable([], 0)|
  {
    hide KernelCode, PassLine, PassOn, FirstShared, ConstantsTable, SHARED_FIRST_CODE, SHARED_FIRST;
    SharedFirstCode();
    var start := before + [KernelDir(kernel)];
    assert start[..|before|] == before;
    StartNumbers(FirstPass(before), kernel, []);
    FirstPassResumed(start, SHARED_FIRST_CODE);
    SharedFirstNumbers(FirstPass(start));
  }

  lemma FirstSpillLine()
    ensures |SLOT_CODE| > 0 && OneKernel(SLOT_CODE[1..])
    ensures SLOT_CODE[0] == LoadConst(SPILL_BASE_REG, Symbol(SPILL_BASE))
  {
  }

  lemma StartNumbers(p: Pass, kernel: string, params: seq<string>)
    ensures ParamsNumbered(PassLine(p, KernelDir(kernel)), params, 0)
  {
  }

  lemma RestOfCode(a: Alloc, b: Alloc) returns (rest: seq<Line>)
    requires KeepsKernel(a, b)
    ensures b.asm == a.asm + rest && OneKernel(rest)
  {
    rest := b.asm[|a.asm|..];
  }

  /** The number of a symbol at its use is its number at the end of the kernel. */
  lemma NumberAtUse(start: seq<Line>, code: seq<Line>, after: seq<Line>, i: nat, s: string)
    requires OneKernel(code) && i < |code| && code[i].LoadConst? && code[i].constant == Symbol(s)
    requires IsArg(s) || IsShared(s)
    ensures var p := FirstPass(start + code);
            if IsArg(s) then s in p.args && SymbolId(start + code + after, |start| + i, s) == p.args[s]
            else s in p.shared && SymbolId(start + code + after, |start| + i, s) == p.shared[s]
  {
    hide PassLine, OneKernel, IsArg, IsShared, Number;
    var whole, upto := start + code + after, start + code[..i];
    assert whole[..|start| + i] == upto;
    var p1 := PassLine(FirstPass(upto), code[i]);
    UseNumbers(FirstPass(upto), code[i], s);
    assert start + code == upto + code[i..] && code[i..][0] == code[i] && code[i..][1..] == code[i + 1..];
    FirstPassResumed(upto, code[i..]);
    RestOneKernel(code, i + 1);
    NumbersStay(p1, code[i + 1..]);
  }

  lemma RestOneKernel(code: seq<Line>, i: nat)
    requires OneKernel(code) && i <= |code|
    ensures OneKernel(code[i..])
  {
  }

  /** The line that loads a symbol sees to its number. */
  lemma UseNumbers(p: Pass, line: Line, s: string)
    requires line.LoadConst? && line.constant == Symbol(s) && (IsArg(s) || IsShared(s))
    ensures var q := PassLine(p, line);
            if IsArg(s) then s in q.args && q.args[s] == Number(p.args, s, 0)[s]
            else s in q.shared && q.shared[s] == Number(p.shared, s, FIRST_SHARED_ID)[s]
  {
    hide Scoped;
  }

  /** The word assembled from line i carries the given identifier. */
  predicate EncodesId(text: seq<Line>, i: nat, id: nat)
    requires i <= |text|
  {
    var words, pc := Assemble(text), InstructionCount(text[..i]);
    words.Ok? && pc < |words.value| && Decode(words.value[pc]).imm == id
  }

  /** Constants-table interface. In an assembled text that holds a compiled kernel, every load of
      the k-th parameter encodes identifier k; every load of the spill base encodes identifier 32
      exactly when the spill base is the first shared symbol the kernel loads, as it is in a
      kernel with parameters. */
  lemma LoadsEncodeIds(before: seq<Line>, kernel: string, params: seq<string>, body: seq<Stmt>, after: seq<Line>,
                       code: seq<Line>, text: seq<Line>, i: nat)
    requires DistinctIgnoringCase(params) && KernelCode(params, body) == Ok(code)
    requires text == TextOf(before, kernel, code) + after
    requires KernelsColonFree(text) && KernelsDistinct(text) && Assemble(text).Ok?
    requires i < |code| && code[i].LoadConst?
    ensures text[|before| + 1 + i] == code[i]
    ensures forall k :: 0 <= k < |params| && code[i].constant == Symbol(ArgSymbol(params[k])) ==>
              EncodesId(text, |before| + 1 + i, k)
    ensures code[i].constant == Symbol(SPILL_BASE) ==>
              (EncodesId(text, |before| + 1 + i, FIRST_SHARED_ID) <==> FirstShared(code) == Some(SPILL_BASE))
    ensures params != [] ==> FirstShared(code) == Some(SPILL_BASE)
  {
    hide KernelCode, FirstShared, FirstPass, Upper, KernelsColonFree, KernelsDistinct, SymbolId, Assemble;
    hide InstructionCount, Decode;
    var start, at := before + [KernelDir(kernel)], |before| + 1 + i;
    assert text[at] == code[i] && |start| + i == at;
    KernelNumbers(before, kernel, params, body);
    SpillBaseShared();
    if code[i].constant.Symbol? && (IsArg(code[i].constant.name) || IsShared(code[i].constant.name)) {
      NumberAtUse(start, code, after, i, code[i].constant.name);
      AssembledId(text, at);
    }
    forall k | 0 <= k < |params| && code[i].constant == Symbol(ArgSymbol(params[k]))
      ensures EncodesId(text, at, k)
    {
      ArgSymbolIsArg(params[k]);
    }
  }

  lemma ArgSymbolIsArg(param: string)
    ensures IsArg(ArgSymbol(param))
  {
  }

  lemma AssembledId(text: seq<Line>, at: nat)
    requires KernelsColonFree(text) && KernelsDistinct(text) && Assemble(text).Ok? && at < |text|
    requires text[at].LoadConst? && text[at].constant.Symbol?
    requires IsArg(text[at].constant.name) || IsShared(text[at].constant.name)
    ensures EncodesId(text, at, SymbolId(text, at, text[at].constant.name))
  {
    hide FirstPass, KernelsColonFree, KernelsDistinct, SymbolId, Assemble, InstructionCount, Decode, Carries, LastLabel;
    Assembled(text, at);
  }

  // ----- the runtime's table -----

  const TABLE_WORDS := 33

  /** Arguments from entry 0 on, at least 33 entries, and the spill base word address in entry 32. */
  function ConstantsTable(args: seq<Word>, spillBase: Word): (t: seq<Word>)
    ensures |t| == if |args| < TABLE_WORDS then TABLE_WORDS else |args|
  {
    var padded := if |args| < TABLE_WORDS then args + seq(TABLE_WORDS - |args|, i => 0) else args;
    padded[FIRST_SHARED_ID := spillBase / 4]
  }

  method BuildConstants(args: seq<Word>, spillBase: Word) returns (constants: seq<Word>)
    ensures constants == ConstantsTable(args, spillBase)
  {
    constants := [];
    for i := 0 to |args|
      invariant constants == args[..i]
    {
      constants := constants + [args[i]];
    }
    while |constants| < TABLE_WORDS
      invariant constants == args + seq(|constants| - |args|, i => 0)
      invariant |constants| <= TABLE_WORDS || |constants| == |args|
      invariant |args| <= |constants|
    {
      constants := constants + [0];
    }
    constants := constants[FIRST_SHARED_ID := spillBase / 4];
  }

  /** Every argument keeps its own entry if and only if there are at most 32 of them or the 33rd
      happens to equal the spill base. */
  lemma ArgumentsKept(args: seq<Word>, spillBase: Word)
    ensures (forall k :: 0 <= k < |args| ==> ConstantsTable(args, spillBase)[k] == args[k])
            <==> |args| <= FIRST_SHARED_ID || args[FIRST_SHARED_ID] == spillBase / 4
    ensures ConstantsTable(args, spillBase)[FIRST_SHARED_ID] == spillBase / 4
  {
    if |args| > FIRST_SHARED_ID {
      assert ConstantsTable(args, spillBase)[FIRST_SHARED_ID] == spillBase / 4;
    }
  }

  /** Constant memory as a kernel's code sees it: each symbol is the table entry of its number. */
  ghost predicate Linked(m: Machine, p: Pass, table: seq<Word>) {
    && (forall s :: s in p.args && p.args[s] < |table| ==> s in m.consts && m.consts[s] == table[p.args[s]])
    && (forall s :: s in p.shared && p.shared[s] < |table| ==> s in m.consts && m.consts[s] == table[p.shared[s]])
  }

  /** A kernel of up to 32 parameters launched with that many arguments reads its k-th argument as
      its k-th parameter. It reads the spill base word address as the spill base when that is the
      first shared symbol it loads, as it is when there is a parameter. */
  lemma KernelSeesArguments(m: Machine, before: seq<Line>, kernel: string, params: seq<string>, body: seq<Stmt>,
                            args: seq<Word>, spillBase: Word)
    requires |params| == |args| <= FIRST_SHARED_ID && DistinctIgnoringCase(params) && KernelCode(params, body).Ok?
    requires Linked(m, FirstPass(TextOf(before, kernel, KernelCode(params, body).value)),
                    ConstantsTable(args, spillBase))
    ensures forall k :: 0 <= k < |params| ==> Lookup(m.consts, ArgSymbol(params[k])) == args[k]
    ensures params != [] || FirstShared(KernelCode(params, body).value) == Some(SPILL_BASE) ==>
              Lookup(m.consts, SPILL_BASE) == spillBase / 4
  {
    hide KernelCode, FirstPass, FirstShared, Upper, ConstantsTable;
    KernelNumbers(before, kernel, params, body);
    ArgumentsKept(args, spillBase);
  }
}
