/** The core fetching and decoding instruction words, and what it makes of a compiled kernel. */
module CoreExecution {
  import opened Words
  import opened Isa
  import opened MaskStack
  import opened MiniIr
  import opened Allocation
  import opened EmittedCode
  import opened Encoding
  import opened Assembler
  import opened ConstantsAbi
  import opened Compiler

  const PROGRAM_WORDS := 4096
  const CONSTANT_WORDS := 256

  /** Constant memory, by index. */
  type Constants = nat -> Word

  /** A warp's program counter and one of its lanes. */
  datatype Core = Core(pc: nat, lane: Lane)

  // ----- one word -----

  /** What the execute and memory units of an active lane do with a decoded word. Control transfers
      and opcodes the back end never emits stop the core here. */
  function Perform(m: Machine, constants: Constants, op: Opcode, f: Fields, s: Lane): Lane {
    var x, y := Lookup(s.regs, f.rs1), Lookup(s.regs, f.rs2);
    var fmt := FormatOf(f.imm % 8);
    var unit := FormatOr(FormatOf(MemoryFormat(f.imm)), I32);
    var addr := Effective(x, MemoryOffset(f.imm));
    match op
    case MOV => WriteReg(s, f.rd, Some(x))
    case NOT => WriteReg(s, f.rd, Some(Wrap(-1 - x)))
    case MOVI => WriteReg(s, f.rd, Some(Wrap(f.imm)))
    case LDC => WriteReg(s, f.rd, Some(constants(f.imm % CONSTANT_WORDS)))
    case ADDI => WriteReg(s, f.rd, Some(Wrap(x + f.imm)))
    case SHLI => WriteReg(s, f.rd, Some(Wrap(x * Pow2(f.imm % 32))))
    case ORI => WriteReg(s, f.rd, Some(Wrap(BitOr(x, Wrap(f.imm)))))
    case FTOI => WriteReg(s, f.rd, Some(m.ftoi(x)))
    case ITOF => WriteReg(s, f.rd, if fmt.Some? && !IsFloat(fmt.value) then Some(m.itof(x)) else None)
    case LDG => WriteReg(s, f.rd, Some(ReadMem(s.mem, unit, addr)))
    case LDS => WriteReg(s, f.rd, Some(ReadMem(s.mem, unit, addr)))
    case STG => s.(mem := WriteMem(s.mem, unit, addr, y))
    case STS => s.(mem := WriteMem(s.mem, unit, addr, y))
    case PRED => s.(active := x != 0)
    case PREDN => s.(active := x == 0)
    case _ =>
      if ThreadMeaning(op).Some? then WriteReg(s, f.rd, Some(m.thread(ThreadMeaning(op).value)))
      else WriteReg(s, f.rd, AluResult(m, op, fmt, x, y))
  }

  /** The three-register units; a reserved format tag is not supported. */
  function AluResult(m: Machine, op: Opcode, fmt: Option<Format>, x: Word, y: Word): Option<Word> {
    var meaning := if fmt.None? then None else AluMeaning(op, fmt);
    if meaning.None? then None else Compute(m, meaning.value.0, meaning.value.1, x, y)
  }

  /** One decoded word in any lane: the core itself moves the mask stack and ends the warp. */
  function Issue(m: Machine, constants: Constants, f: Fields, s: Lane): Lane {
    var op := OpcodeOf(f.opcode);
    if op.None? then s.(status := Faulted) else
    match op.value
    case PUSHM =>
      var pushed := PushMask(s.stack, s.active);
      if pushed.None? then s.(status := Faulted) else s.(stack := pushed.value)
    case POPM =>
      var popped := PopMask(s.stack);
      if popped.None? then s.(status := Faulted) else s.(active := popped.value.0, stack := popped.value.1)
    case EXIT => s.(status := Exited)
    case BAR => s
    case NOP => s
    case _ => if s.active then Perform(m, constants, op.value, f, s) else s
  }

  /** Fetch, decode, issue; the counter wraps at the size of instruction memory. */
  function Cycle(m: Machine, constants: Constants, program: seq<nat>, c: Core): Core {
    if c.lane.status != Running then c
    else if c.pc >= |program| then c.(lane := c.lane.(status := Faulted))
    else Core((c.pc + 1) % PROGRAM_WORDS, Issue(m, constants, Decode(program[c.pc]), c.lane))
  }

  function Cycles(m: Machine, constants: Constants, program: seq<nat>, c: Core, n: nat): Core {
    if n == 0 then c else Cycle(m, constants, program, Cycles(m, constants, program, c, n - 1))
  }

  // ----- a word does what its line does -----

  /** A line whose word the core issues without moving elsewhere. */
  predicate Straightforward(line: Line) {
    || Ordinary(line)
    || (line.Plain? && (line.op == PUSHM || line.op == POPM || line.op == EXIT || line.op == BAR))
    || line.Predicate?
  }

  /** Integer operations have no float meaning, float operations no other. */
  lemma AluKinds(op: Opcode)
    ensures IsIntegerOp(op) ==> !IsFloatOp(op) && FloatMeaning(op).None?
    ensures IsFloatOp(op) ==> CompareMeaning(op).None? && FloatMeaning(op).Some?
  {
  }

  lemma AluAgrees(m: Machine, op: Opcode, fmt: Option<Format>, bits: Option<Format>, x: Word, y: Word)
    requires bits == Some(FormatOr(fmt, if IsFloatOp(op) then FP32 else I32)) && (IsIntegerOp(op) || IsFloatOp(op))
    ensures AluResult(m, op, bits, x, y)
            == var meaning := AluMeaning(op, fmt);
               if meaning.None? then None else Compute(m, meaning.value.0, meaning.value.1, x, y)
  {
    hide Compute, CompareMeaning, FloatMeaning, IntegerMeaning, IsIntegerOp, IsFloatOp;
    AluKinds(op);
  }

  predicate Computes(line: Line) {
    (Ordinary(line) && !line.LabelDef?) || line.Predicate?
  }

  lemma AluPerforms(m: Machine, constants: Constants, f: Fields, line: Line, s: Lane)
    requires line.Alu? && Carries(f, line) && Shaped(line)
    ensures Perform(m, constants, line.op, f, s) == Execute(m, line, s)
  {
    hide OpcodeOf, FormatOf, ReadMem, WriteMem, Compute, AluMeaning, AluResult, Effective, BitOr, Pow2;
    AluAgrees(m, line.op, line.fmt, FormatOf(f.imm % 8), Lookup(s.regs, f.rs1), Lookup(s.regs, f.rs2));
  }

  lemma MemoryPerforms(m: Machine, constants: Constants, f: Fields, line: Line, s: Lane)
    requires (line.Load? || line.Store?) && Carries(f, line) && Shaped(line)
    ensures Perform(m, constants, line.op, f, s) == Execute(m, line, s)
  {
    hide OpcodeOf, FormatOf, ReadMem, WriteMem, Compute, AluMeaning, AluResult, Effective, BitOr, Pow2;
  }

  /** The opcode a line's word carries. */
  function OpOf(line: Line): Opcode {
    match line
    case MoveImm(_, _) => MOVI
    case LoadConst(_, _) => LDC
    case KernelDir(_) => NOP
    case LabelDef(_) => NOP
    case CallKernel(_) => CALL
    case _ => line.op
  }

  lemma ImmediatePerforms(m: Machine, constants: Constants, f: Fields, line: Line, s: Lane)
    requires (line.MoveImm? || line.LoadConst? || line.AluImm?) && Computes(line) && Carries(f, line)
    requires line.LoadConst? ==> Lookup(m.consts, line.constant.name) == constants(f.imm % CONSTANT_WORDS)
    ensures Perform(m, constants, OpOf(line), f, s) == Execute(m, line, s)
  {
    hide OpcodeOf, FormatOf, ReadMem, WriteMem, Compute, AluMeaning, AluResult, Effective, BitOr, Pow2, IsArg, IsShared;
  }

  lemma ThreadPerforms(m: Machine, constants: Constants, f: Fields, line: Line, s: Lane)
    requires line.ReadThread? && Computes(line) && Carries(f, line)
    ensures Perform(m, constants, OpOf(line), f, s) == Execute(m, line, s)
  {
    hide OpcodeOf, FormatOf, ReadMem, WriteMem, Compute, AluMeaning, AluResult, Effective, BitOr, Pow2;
  }

  lemma MovePerforms(m: Machine, constants: Constants, f: Fields, line: Line, s: Lane)
    requires (line.Move? || line.Predicate?) && Carries(f, line) && Shaped(line)
    ensures Perform(m, constants, OpOf(line), f, s) == Execute(m, line, s)
  {
    hide OpcodeOf, FormatOf, ReadMem, WriteMem, Compute, AluMeaning, AluResult, Effective, BitOr, Pow2;
  }

  lemma ConvertPerforms(m: Machine, constants: Constants, f: Fields, line: Line, s: Lane)
    requires line.Convert? && Carries(f, line) && Shaped(line)
    ensures Perform(m, constants, OpOf(line), f, s) == Execute(m, line, s)
  {
    hide OpcodeOf, FormatOf, ReadMem, WriteMem, Compute, AluMeaning, AluResult, Effective, BitOr, Pow2;
  }

  lemma CarriedOpcode(f: Fields, line: Line)
    requires Carries(f, line)
    ensures OpcodeOf(f.opcode) == Some(OpOf(line))
  {
    hide OpcodeOf, FormatOf;
  }

  lemma ActiveIssue(m: Machine, constants: Constants, f: Fields, line: Line, s: Lane)
    requires Computes(line) && Shaped(line) && OpcodeOf(f.opcode) == Some(OpOf(line)) && s.status == Running
    requires Perform(m, constants, OpOf(line), f, s) == Execute(m, line, s)
    ensures Issue(m, constants, f, s) == Step(m, line, s)
  {
    hide OpcodeOf, Perform, Execute, PushMask, PopMask;
  }

  lemma MaskIssue(m: Machine, constants: Constants, f: Fields, line: Line, s: Lane)
    requires line.Plain? && Straightforward(line) && OpcodeOf(f.opcode) == Some(line.op) && s.status == Running
    ensures Issue(m, constants, f, s) == Step(m, line, s)
  {
    hide OpcodeOf, Perform, Execute, PushMask, PopMask;
  }

  /** A word that carries a line does to a lane what the line does. */
  lemma IssueIsStep(m: Machine, constants: Constants, f: Fields, line: Line, s: Lane)
    requires Carries(f, line) && Straightforward(line) && Shaped(line) && s.status == Running
    requires line.LoadConst? ==> Lookup(m.consts, line.constant.name) == constants(f.imm % CONSTANT_WORDS)
    ensures Issue(m, constants, f, s) == Step(m, line, s)
  {
    hide Carries, Shaped, Perform, Execute, Issue, Step, OpcodeOf;
    CarriedOpcode(f, line);
    if line.Plain? {
      MaskIssue(m, constants, f, line, s);
    } else {
      LabelsCarryNothing(f, line);
      if line.Alu? { AluPerforms(m, constants, f, line, s); }
      else if line.Load? || line.Store? { MemoryPerforms(m, constants, f, line, s); }
      else if line.MoveImm? || line.LoadConst? || line.AluImm? { ImmediatePerforms(m, constants, f, line, s); }
      else if line.ReadThread? { ThreadPerforms(m, constants, f, line, s); }
      else if line.Convert? { ConvertPerforms(m, constants, f, line, s); }
      else { MovePerforms(m, constants, f, line, s); }
      ActiveIssue(m, constants, f, line, s);
    }
  }

  lemma LabelsCarryNothing(f: Fields, line: Line)
    requires Carries(f, line)
    ensures IsInstruction(line)
  {
  }

  // ----- a kernel's words in instruction memory -----

  /** What each symbol of a kernel reads from constant memory, by the number it has there. */
  function ConstsOf(constants: Constants, p: Pass): map<string, Word> {
    map s | s in p.args.Keys + p.shared.Keys ::
      var id := if IsArg(s) && s in p.args then p.args[s] else if s in p.shared then p.shared[s] else 0;
      constants(id % CONSTANT_WORDS)
  }

  lemma {:induction false} CountConcat(a: seq<Line>, b: seq<Line>)
    ensures InstructionCount(a + b) == InstructionCount(a) + InstructionCount(b)
  {
    if b == [] {
      assert a + b == a;
    } else {
      var init := b[..|b| - 1];
      assert (a + b)[..|a + b| - 1] == a + init;
      CountConcat(a, init);
    }
  }

  /** A text that assembles and fits instruction memory, holding the code of one kernel. */
  ghost predicate Holds(text: seq<Line>, before: seq<Line>, kernel: string, code: seq<Line>, after: seq<Line>) {
    && text == TextOf(before, kernel, code) + after && OneKernel(code)
    && (forall line :: line in code ==> Straightforward(line))
    && KernelsColonFree(text) && KernelsDistinct(text)
    && Assemble(text).Ok? && |Assemble(text).value| <= PROGRAM_WORDS
  }

  /** Where the kernel's words start. */
  function StartOfKernel(before: seq<Line>): nat {
    InstructionCount(before)
  }

  /** The word of line i of the kernel's code, and what it does. */
  lemma WordAt(m: Machine, constants: Constants, text: seq<Line>, before: seq<Line>, kernel: string, code: seq<Line>,
               after: seq<Line>, i: nat, s: Lane)
    requires Holds(text, before, kernel, code, after) && i < |code| && IsInstruction(code[i]) && s.status == Running
    requires m.consts == ConstsOf(constants, FirstPass(TextOf(before, kernel, code)))
    ensures var pc := StartOfKernel(before) + InstructionCount(code[..i]);
      && pc < |Assemble(text).value| && Issue(m, constants, Decode(Assemble(text).value[pc]), s) == Step(m, code[i], s)
  {
    hide InstructionCount, FirstPass, Assemble, Decode, Issue, Step, Carries, Shaped, SymbolId, ConstsOf;
    var start, at := before + [KernelDir(kernel)], |before| + 1 + i;
    assert text == start + code + after && text[at] == code[i] && |start| + i == at;
    assert text[..at] == start + code[..i];
    CountConcat(start, code[..i]);
    StartCount(before, kernel);
    Assembled(text, at);
    assert Straightforward(code[i]);
    if code[i].LoadConst? {
      NumberAtUse(start, code, after, i, code[i].constant.name);
      ConstRead(constants, FirstPass(start + code), code[i].constant.name);
    }
    IssueIsStep(m, constants, Decode(Assemble(text).value[InstructionCount(text[..at])]), code[i], s);
  }

  lemma StartCount(before: seq<Line>, kernel: string)
    ensures InstructionCount(before + [KernelDir(kernel)]) == InstructionCount(before)
  {
    assert (before + [KernelDir(kernel)])[..|before|] == before;
  }

  lemma ConstRead(constants: Constants, p: Pass, s: string)
    requires if IsArg(s) then s in p.args else s in p.shared
    ensures Lookup(ConstsOf(constants, p), s)
            == constants((if IsArg(s) then p.args[s] else p.shared[s]) % CONSTANT_WORDS)
  {
  }

  /** The core running a kernel's words from its start index does to a lane what its assembly text
      does, with every symbol read from constant memory at its number. */
  lemma {:induction false} WordsRun(m: Machine, constants: Constants, text: seq<Line>, before: seq<Line>,
                                    kernel: string, code: seq<Line>, after: seq<Line>, i: nat, s: Lane)
    requires Holds(text, before, kernel, code, after) && i <= |code|
    requires m.consts == ConstsOf(constants, FirstPass(TextOf(before, kernel, code)))
    ensures var n, base := InstructionCount(code[..i]), StartOfKernel(before);
      var c := Cycles(m, constants, Assemble(text).value, Core(base % 4096, s), n);
      && c.lane == Run(m, code[..i], s)
      && (c.lane.status == Running ==> c.pc == (base + n) % 4096)
    decreases i
  {
    hide FirstPass, Assemble, Decode, Issue, Step, ConstsOf, Run, Holds, InstructionCount, Cycle;
    var base := StartOfKernel(before);
    ProgramFits(text, before, kernel, code, after);
    if i == 0 {
      RunNothing(m, s);
      assert InstructionCount(code[..0]) == 0 by { NoInstructions(); }
    } else {
      CountLast(code, i);
      WordsRun(m, constants, text, before, kernel, code, after, i - 1, s);
      var t := Run(m, code[..i - 1], s);
      assert code[..i] == code[..i - 1] + [code[i - 1]];
      RunOne(m, code[..i - 1], code[i - 1], s);
      if t.status != Running {
        StoppedStep(m, code[i - 1], t);
        StoppedCycle(m, constants, Assemble(text).value, t);
      } else if IsInstruction(code[i - 1]) {
        WordAt(m, constants, text, before, kernel, code, after, i - 1, t);
        OneCycle(m, constants, Assemble(text).value, base + InstructionCount(code[..i - 1]), t);
      } else {
        LabelStep(m, code[i - 1], t);
      }
    }
  }

  lemma ProgramFits(text: seq<Line>, before: seq<Line>, kernel: string, code: seq<Line>, after: seq<Line>)
    requires Holds(text, before, kernel, code, after)
    ensures Assemble(text).Ok? && |Assemble(text).value| <= PROGRAM_WORDS
  {
  }

  lemma CountLast(code: seq<Line>, i: nat)
    requires 0 < i <= |code|
    ensures InstructionCount(code[..i])
            == InstructionCount(code[..i - 1]) + (if IsInstruction(code[i - 1]) then 1 else 0)
  {
    assert code[..i][..i - 1] == code[..i - 1];
  }

  lemma NoInstructions()
    ensures InstructionCount([]) == 0
  {
  }

  lemma StoppedCycle(m: Machine, constants: Constants, program: seq<nat>, s: Lane)
    requires s.status != Running
    ensures forall c: Core :: c.lane == s ==> Cycle(m, constants, program, c) == c
  {
  }

  lemma StoppedStep(m: Machine, line: Line, s: Lane)
    requires s.status != Running
    ensures Step(m, line, s) == s
  {
  }

  lemma LabelStep(m: Machine, line: Line, s: Lane)
    requires !IsInstruction(line)
    ensures Step(m, line, s) == s
  {
  }

  lemma OneCycle(m: Machine, constants: Constants, program: seq<nat>, pc: nat, s: Lane)
    requires pc < |program| <= PROGRAM_WORDS && s.status == Running
    ensures Cycle(m, constants, program, Core(pc % PROGRAM_WORDS, s))
            == Core((pc + 1) % PROGRAM_WORDS, Issue(m, constants, Decode(program[pc]), s))
  {
    hide Issue, Decode;
  }

  // ----- what the back end emits is of this kind -----

  predicate AllStraight(code: seq<Line>) {
    forall line :: line in code ==> Straightforward(line)
  }

  ghost predicate Adds(a: Alloc, b: Alloc) {
    a.asm <= b.asm && AllStraight(b.asm[|a.asm|..])
  }

  lemma AddsTransitive(a: Alloc, b: Alloc, c: Alloc)
    requires Adds(a, b) && Adds(b, c)
    ensures Adds(a, c)
  {
    hide Straightforward;
    assert c.asm[|a.asm|..] == b.asm[|a.asm|..] + c.asm[|b.asm|..];
  }

  lemma AppendsAdds(a: Alloc, b: Alloc)
    requires Appends(a, b)
    ensures Adds(a, b)
  {
    hide Ordinary;
    forall line | line in b.asm[|a.asm|..] ensures Straightforward(line) {
      assert Ordinary(line);
    }
  }

  lemma EmitAdds(a: Alloc, lines: seq<Line>)
    requires AllStraight(lines)
    ensures Adds(a, Emit(a, lines))
  {
    assert Emit(a, lines).asm[|a.asm|..] == lines;
  }

  lemma SameAdds(a: Alloc, b: Alloc, c: Alloc)
    requires Adds(a, b) && c.asm == b.asm
    ensures Adds(a, c)
  {
  }

  lemma LowerAdds(a: Alloc, stmt: Stmt)
    requires Straight(stmt) && Lower(a, stmt).Ok?
    ensures Adds(a, Lower(a, stmt).value)
  {
    hide LowerAssign, LowerStore, OperandReg, ReleaseOperand, Appends, Adds;
    if stmt.Assign? || stmt.StoreTo? || stmt.Mark? {
      LowerAppends(a, stmt);
      AppendsAdds(a, Lower(a, stmt).value);
    } else if stmt.PredBegin? {
      var (b, rs) := OperandReg(a, stmt.cond).value;
      OperandAppends(a, stmt.cond);
      AppendsAdds(a, b);
      EmitAdds(b, TestLines(stmt, rs));
      AddsTransitive(a, b, Emit(b, TestLines(stmt, rs)));
      ReleaseAppends(Emit(b, TestLines(stmt, rs)), stmt.cond, rs);
      SameAdds(a, Emit(b, TestLines(stmt, rs)), Lower(a, stmt).value);
    } else {
      var line := if stmt.PredEnd? then Plain(POPM) else if stmt.Barrier? then Plain(BAR) else Plain(EXIT);
      EmitAdds(a, [line]);
      SameAdds(a, Emit(a, [line]), Lower(a, stmt).value);
    }
  }

  /** The code of a section without branches. */
  lemma {:induction false} SectionStraight(a: Alloc, stmts: seq<Stmt>)
    requires Branchless(stmts) && LowerAll(a, stmts).Ok?
    ensures Adds(a, LowerAll(a, stmts).value)
    decreases |stmts|
  {
    hide Lower, Straightforward;
    if stmts != [] {
      assert Straight(stmts[0]);
      var b := Lower(a, stmts[0]).value;
      LowerAdds(a, stmts[0]);
      SectionStraight(b, stmts[1..]);
      AddsTransitive(a, b, LowerAll(b, stmts[1..]).value);
    }
  }

  /** Code that assembles has no immediate too large for its field. */
  lemma AssembledEncodable(text: seq<Line>, before: seq<Line>, kernel: string, code: seq<Line>, after: seq<Line>)
    requires Holds(text, before, kernel, code, after)
    ensures Encodable(code)
  {
    hide InstructionCount, Assemble, KernelsColonFree, KernelsDistinct, SymbolId, Straightforward;
    forall line | line in code && line.AluImm? ensures Fits14(line.imm) {
      var i :| 0 <= i < |code| && code[i] == line;
      assert text[|before| + 1 + i] == line;
      Assembled(text, |before| + 1 + i);
      DecodedRange(Assemble(text).value[InstructionCount(text[..|before| + 1 + i])]);
    }
  }

  lemma DecodedRange(w: nat)
    ensures Fits14(Decode(w).imm)
  {
  }

  lemma {:induction false} SymbolKinds(lines: seq<Line>)
    ensures var p := FirstPass(lines);
            (forall s :: s in p.args ==> IsArg(s)) && (forall s :: s in p.shared ==> !IsArg(s))
  {
    hide IsArg, IsShared, Scoped;
    if lines != [] { SymbolKinds(lines[..|lines| - 1]); }
  }

  /** Constant memory that holds the runtime's table links the kernel to it. */
  lemma TableLinked(m: Machine, constants: Constants, p: Pass, table: seq<Word>)
    requires m.consts == ConstsOf(constants, p) && |table| <= CONSTANT_WORDS
    requires forall i :: 0 <= i < |table| ==> constants(i) == table[i]
    requires (forall s :: s in p.args ==> IsArg(s)) && (forall s :: s in p.shared ==> !IsArg(s))
    ensures Linked(m, p, table)
  {
    hide IsArg;
  }

  /** A kernel that is launched with its arguments reads them from constant memory: the k-th
      parameter is the k-th argument, and the spill base is the runtime's when it is the first shared
      symbol the kernel loads. */
  lemma ArgumentsReachKernel(m: Machine, constants: Constants, before: seq<Line>, kernel: string, params: seq<string>,
                             body: seq<Stmt>, args: seq<Word>, spillBase: Word)
    requires |params| == |args| <= FIRST_SHARED_ID && DistinctIgnoringCase(params) && KernelCode(params, body).Ok?
    requires m.consts == ConstsOf(constants, FirstPass(TextOf(before, kernel, KernelCode(params, body).value)))
    requires var table := ConstantsTable(args, spillBase); forall i :: 0 <= i < |table| ==> constants(i) == table[i]
    ensures forall k :: 0 <= k < |params| ==> Lookup(m.consts, ArgSymbol(params[k])) == args[k]
    ensures params != [] || FirstShared(KernelCode(params, body).value) == Some(SPILL_BASE) ==>
              Lookup(m.consts, SPILL_BASE) == spillBase / 4
  {
    hide KernelCode, FirstPass, FirstShared, Upper, ConstantsTable, ConstsOf, Linked, IsArg;
    var p := FirstPass(TextOf(before, kernel, KernelCode(params, body).value));
    SymbolKinds(TextOf(before, kernel, KernelCode(params, body).value));
    TableLinked(m, constants, p, ConstantsTable(args, spillBase));
    KernelSeesArguments(m, before, kernel, params, body, args, spillBase);
  }
}
