/** Mini-GPU assembly lines and what they do to one lane of a warp. */
module Isa {
  import opened MaskStack
  import opened Words

  datatype Opcode =
    | NOP | MOV | MOVI | LDC | ADD | ADDI | SUB | SUBI | MUL | MULI | DIV | MOD
    | AND | ANDI | OR | ORI | XOR | XORI | NOT | SHL | SHLI | SHR | SHRI
    | SLT | SLE | SGT | SGE | SEQ | SNE | FADD | FSUB | FMUL | LDG | STG | LDS | STS
    | FDIV | FTOI | ITOF | TID | TIDX | BID | BDIM | GDIM | LID | WID
    | PUSHM | PRED | POPM | PREDN | CALL | RET | BRA | BZ | BNZ | BAR | EXIT

  datatype Format = I32 | I16 | I8 | FP32 | FP16 | FP8

  type Reg = nat

  /** The operand of LDC: a symbol still to be numbered, or a number. */
  datatype Constant = Symbol(name: string) | Id(id: int)

  /** Symbols of parameters and of shared arrays are numbered kernel by kernel. */
  predicate IsArg(s: string) { "ARG_" <= s }
  predicate IsShared(s: string) { "SHARED_" <= s }

  /** One line of assembly text, already split into its fields. */
  datatype Line =
    | KernelDir(kernel: string)
    | LabelDef(name: string)
    | Plain(op: Opcode)
    | ReadThread(op: Opcode, rd: Reg)
    | MoveImm(rd: Reg, imm: int)
    | LoadConst(rd: Reg, constant: Constant)
    | Move(op: Opcode, rd: Reg, rs1: Reg)
    | Alu(op: Opcode, fmt: Option<Format>, rd: Reg, rs1: Reg, rs2: Reg)
    | AluImm(op: Opcode, rd: Reg, rs1: Reg, imm: int)
    | Convert(op: Opcode, fmt: Option<Format>, rd: Reg, rs1: Reg)
    | Load(op: Opcode, fmt: Option<Format>, rd: Reg, rs1: Reg, offset: int)
    | Store(op: Opcode, fmt: Option<Format>, rs1: Reg, offset: int, rs2: Reg)
    | Predicate(op: Opcode, rs1: Reg)
    | Jump(op: Opcode, target: string)
    | CallKernel(callee: string)
    | Branch(op: Opcode, rs1: Reg, target: string)

  predicate IsInstruction(line: Line) {
    !line.KernelDir? && !line.LabelDef?
  }

  // ----- what an arithmetic instruction computes -----

  /** The arithmetic a lane can do, independent of how it is spelled in IR or in assembly. */
  datatype Arith =
    | Add | Sub | Mul | Div | Mod | And | Or | Xor | Shl | Shr
    | Lt | Le | Gt | Ge | Eq | Ne

  predicate IsFloat(fmt: Format) {
    fmt.FP32? || fmt.FP16? || fmt.FP8?
  }

  function FormatOr(fmt: Option<Format>, default: Format): Format {
    if fmt.Some? then fmt.value else default
  }

  function CompareMeaning(op: Opcode): Option<Arith> {
    match op
    case SLT => Some(Lt) case SLE => Some(Le) case SGT => Some(Gt)
    case SGE => Some(Ge) case SEQ => Some(Eq) case SNE => Some(Ne)
    case _ => None
  }

  function FloatMeaning(op: Opcode): Option<Arith> {
    match op
    case FADD => Some(Add) case FSUB => Some(Sub) case FMUL => Some(Mul) case FDIV => Some(Div)
    case _ => None
  }

  function IntegerMeaning(op: Opcode): Option<Arith> {
    match op
    case ADD => Some(Add) case SUB => Some(Sub) case MUL => Some(Mul) case DIV => Some(Div) case MOD => Some(Mod)
    case AND => Some(And) case OR => Some(Or) case XOR => Some(Xor) case SHL => Some(Shl) case SHR => Some(Shr)
    case _ => None
  }

  /** The arithmetic of a three-register instruction; the integer units refuse float formats
      except in comparisons, the float units refuse integer formats. */
  function AluMeaning(op: Opcode, fmt: Option<Format>): Option<(Arith, Format)> {
    var i, f := FormatOr(fmt, I32), FormatOr(fmt, FP32);
    if CompareMeaning(op).Some? then Some((CompareMeaning(op).value, i))
    else if FloatMeaning(op).Some? then
      (if IsFloat(f) then Some((FloatMeaning(op).value, f)) else None)
    else if IntegerMeaning(op).Some? && !IsFloat(i) then Some((IntegerMeaning(op).value, i))
    else None
  }

  datatype ThreadValue = GlobalTid | ThreadIdx | BlockIdx | BlockDim | GridDim

  function ThreadMeaning(op: Opcode): Option<ThreadValue> {
    match op
    case TID => Some(GlobalTid)
    case TIDX => Some(ThreadIdx)
    case BID => Some(BlockIdx)
    case BDIM => Some(BlockDim)
    case GDIM => Some(GridDim)
    case _ => None
  }

  /** What a lane sees but does not change: constant memory, its thread values and its
      arithmetic units. An arithmetic result of None is a fault (unsupported, zero divisor). */
  datatype Machine = Machine(
    consts: map<string, Word>,
    thread: ThreadValue -> Word,
    arith: (Arith, Format, Word, Word) -> Option<Word>,
    ftoi: Word -> Word,
    itof: Word -> Word)

  function Compute(m: Machine, op: Arith, fmt: Format, x: Word, y: Word): Option<Word> {
    if op == Add && fmt == I32 then Some(Wrap(x + y)) else m.arith(op, fmt, x, y)
  }

  // ----- data memory: 16-bit addresses, packed formats address bytes -----

  predicate IsPacked(fmt: Format) {
    fmt.I16? || fmt.I8? || fmt.FP16? || fmt.FP8?
  }

  function Effective(base: Word, offset: int): nat {
    (base + offset) % ADDRESS_SPACE
  }

  /** The memory word an access touches. */
  function WordIndex(fmt: Format, addr: nat): nat {
    if IsPacked(fmt) then addr / 4 else addr
  }

  /** The place value of an access inside its word, and the modulus of its width. */
  function PlaceValue(fmt: Format, addr: nat): (place: nat)
    ensures place > 0
  {
    match fmt
    case I8 => Pow2(8 * (addr % 4))
    case FP8 => Pow2(8 * (addr % 4))
    case I16 => Pow2(16 * (addr % 4 / 2))
    case FP16 => Pow2(16 * (addr % 4 / 2))
    case _ => 1
  }

  function Width(fmt: Format): (n: nat)
    ensures n > 0
  {
    match fmt
    case I8 => 0x100
    case FP8 => 0x100
    case I16 => 0x1_0000
    case FP16 => 0x1_0000
    case _ => WORD_MODULUS
  }

  function ReadMem(mem: map<nat, Word>, fmt: Format, addr: nat): Word {
    Wrap(Lookup(mem, WordIndex(fmt, addr)) / PlaceValue(fmt, addr) % Width(fmt))
  }

  function WriteMem(mem: map<nat, Word>, fmt: Format, addr: nat, value: Word): map<nat, Word> {
    var before := Lookup(mem, WordIndex(fmt, addr));
    var place := PlaceValue(fmt, addr);
    var keep := before - before / place % Width(fmt) * place;
    mem[WordIndex(fmt, addr) := Wrap(keep + value % Width(fmt) * place)]
  }

  lemma WholeWordAccess(mem: map<nat, Word>, addr: nat, value: Word)
    ensures WriteMem(mem, I32, addr, value) == mem[addr := value]
    ensures ReadMem(mem, I32, addr) == Lookup(mem, addr)
  {
  }

  // ----- one lane -----

  datatype Status = Running | Exited | Faulted

  datatype Lane = Lane(
    regs: map<Reg, Word>,
    mem: map<nat, Word>,
    active: bool,
    stack: seq<bool>,
    status: Status)

  function WriteReg(s: Lane, rd: Reg, result: Option<Word>): Lane {
    if result.None? then s.(status := Faulted) else s.(regs := s.regs[rd := result.value])
  }

  /** An instruction in an active lane. Control transfers are not straight-line code and fault. */
  function Execute(m: Machine, line: Line, s: Lane): Lane {
    match line
    case ReadThread(op, rd) =>
      var t := ThreadMeaning(op);
      WriteReg(s, rd, if t.Some? then Some(m.thread(t.value)) else None)
    case MoveImm(rd, imm) => WriteReg(s, rd, Some(Wrap(imm)))
    case LoadConst(rd, c) =>
      WriteReg(s, rd, if c.Symbol? then Some(Lookup(m.consts, c.name)) else None)
    case Move(op, rd, rs1) =>
      var x := Lookup(s.regs, rs1);
      WriteReg(s, rd, if op == MOV then Some(x) else if op == NOT then Some(Wrap(-1 - x)) else None)
    case Alu(op, fmt, rd, rs1, rs2) =>
      var meaning := AluMeaning(op, fmt);
      WriteReg(s, rd,
        if meaning.None? then None
        else Compute(m, meaning.value.0, meaning.value.1, Lookup(s.regs, rs1), Lookup(s.regs, rs2)))
    case AluImm(op, rd, rs1, imm) =>
      var x := Lookup(s.regs, rs1);
      WriteReg(s, rd,
        if op == ADDI then Some(Wrap(x + imm))
        else if op == SHLI then Some(Wrap(x * Pow2(imm % 32)))
        else if op == ORI then Some(Wrap(BitOr(x, Wrap(imm))))
        else None)
    case Convert(op, fmt, rd, rs1) =>
      var x := Lookup(s.regs, rs1);
      WriteReg(s, rd,
        if op == FTOI then Some(m.ftoi(x))
        else if op == ITOF && !IsFloat(FormatOr(fmt, I32)) then Some(m.itof(x))
        else None)
    case Load(_, fmt, rd, rs1, offset) =>
      WriteReg(s, rd, Some(ReadMem(s.mem, FormatOr(fmt, I32), Effective(Lookup(s.regs, rs1), offset))))
    case Store(_, fmt, rs1, offset, rs2) =>
      s.(mem := WriteMem(s.mem, FormatOr(fmt, I32), Effective(Lookup(s.regs, rs1), offset), Lookup(s.regs, rs2)))
    case Predicate(op, rs1) =>
      s.(active := if op == PRED then Lookup(s.regs, rs1) != 0 else Lookup(s.regs, rs1) == 0)
    case _ => s.(status := Faulted)
  }

  /** One line in any lane: the mask stack moves for every lane, EXIT ends the whole warp,
      everything else happens only in active lanes. */
  function Step(m: Machine, line: Line, s: Lane): Lane {
    if s.status != Running then s else
    match line
    case KernelDir(_) => s
    case LabelDef(_) => s
    case Plain(PUSHM) =>
      var pushed := PushMask(s.stack, s.active);
      if pushed.None? then s.(status := Faulted) else s.(stack := pushed.value)
    case Plain(POPM) =>
      var popped := PopMask(s.stack);
      if popped.None? then s.(status := Faulted) else s.(active := popped.value.0, stack := popped.value.1)
    case Plain(EXIT) => s.(status := Exited)
    case Plain(BAR) => s
    case Plain(NOP) => s
    case _ => if s.active then Execute(m, line, s) else s
  }

  /** Straight-line execution. */
  function Run(m: Machine, code: seq<Line>, s: Lane): Lane {
    if code == [] then s else Step(m, code[|code| - 1], Run(m, code[..|code| - 1], s))
  }

  lemma RunOne(m: Machine, code: seq<Line>, line: Line, s: Lane)
    ensures Run(m, code + [line], s) == Step(m, line, Run(m, code, s))
  {
    assert (code + [line])[..|code|] == code;
  }

  lemma {:induction false} RunAppend(m: Machine, code: seq<Line>, more: seq<Line>, s: Lane)
    ensures Run(m, code + more, s) == Run(m, more, Run(m, code, s))
  {
    if more == [] {
      assert code + more == code;
    } else {
      var init := more[..|more| - 1];
      assert code + more == (code + init) + [more[|more| - 1]];
      RunOne(m, code + init, more[|more| - 1], s);
      RunAppend(m, code, init, s);
    }
  }

  lemma RunNothing(m: Machine, s: Lane)
    ensures Run(m, [], s) == s
  {
  }

  lemma RunTwo(m: Machine, l1: Line, l2: Line, s: Lane)
    ensures Run(m, [l1], s) == Step(m, l1, s)
    ensures Run(m, [l1, l2], s) == Step(m, l2, Step(m, l1, s))
  {
    RunOne(m, [], l1, s);
    RunOne(m, [l1], l2, s);
    assert [] + [l1] == [l1] && [l1] + [l2] == [l1, l2];
  }
}
