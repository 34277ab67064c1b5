/** Instruction words: packing by the assembler and field extraction by the decoder. */
module Encoding {
  import opened Words
  import opened Isa

  function Code(op: Opcode): (c: nat)
    ensures c < 64
  {
    match op
    case NOP => 0x00 case MOV => 0x01 case MOVI => 0x02 case LDC => 0x03
    case ADD => 0x04 case ADDI => 0x05 case SUB => 0x06 case SUBI => 0x07
    case MUL => 0x08 case MULI => 0x09 case DIV => 0x0A case MOD => 0x0B
    case AND => 0x0C case ANDI => 0x0D case OR => 0x0E case ORI => 0x0F
    case XOR => 0x10 case XORI => 0x11 case NOT => 0x12 case SHL => 0x13
    case SHLI => 0x14 case SHR => 0x15 case SHRI => 0x16 case SLT => 0x17
    case SLE => 0x18 case SGT => 0x19 case SGE => 0x1A case SEQ => 0x1B
    case SNE => 0x1C case FADD => 0x1D case FSUB => 0x1E case FMUL => 0x1F
    case LDG => 0x20 case STG => 0x21 case LDS => 0x22 case STS => 0x23
    case FDIV => 0x24 case FTOI => 0x25 case ITOF => 0x26 case TID => 0x28
    case TIDX => 0x29 case BID => 0x2A case BDIM => 0x2B case GDIM => 0x2C
    case LID => 0x2D case WID => 0x2E case PUSHM => 0x30 case PRED => 0x31
    case POPM => 0x32 case PREDN => 0x33 case CALL => 0x34 case RET => 0x35
    case BRA => 0x38 case BZ => 0x39 case BNZ => 0x3A case BAR => 0x3B case EXIT => 0x3C
  }

  function FormatId(fmt: Format): (n: nat)
    ensures n < 8
  {
    match fmt case I32 => 0 case I16 => 1 case I8 => 2 case FP32 => 3 case FP16 => 4 case FP8 => 5
  }

  /** The hardware's reading of the opcode bits, sixteen codes at a time. */
  function OpcodeOf(c: nat): Option<Opcode> {
    if c < 0x10 then LowOpcode(c)
    else if c < 0x20 then ArithmeticOpcode(c)
    else if c < 0x30 then MemoryOpcode(c)
    else ControlOpcode(c)
  }

  function LowOpcode(c: nat): Option<Opcode> {
    match c
    case 0x00 => Some(NOP) case 0x01 => Some(MOV) case 0x02 => Some(MOVI) case 0x03 => Some(LDC)
    case 0x04 => Some(ADD) case 0x05 => Some(ADDI) case 0x06 => Some(SUB) case 0x07 => Some(SUBI)
    case 0x08 => Some(MUL) case 0x09 => Some(MULI) case 0x0A => Some(DIV) case 0x0B => Some(MOD)
    case 0x0C => Some(AND) case 0x0D => Some(ANDI) case 0x0E => Some(OR) case 0x0F => Some(ORI)
    case _ => None
  }

  function ArithmeticOpcode(c: nat): Option<Opcode> {
    match c
    case 0x10 => Some(XOR) case 0x11 => Some(XORI) case 0x12 => Some(NOT) case 0x13 => Some(SHL)
    case 0x14 => Some(SHLI) case 0x15 => Some(SHR) case 0x16 => Some(SHRI) case 0x17 => Some(SLT)
    case 0x18 => Some(SLE) case 0x19 => Some(SGT) case 0x1A => Some(SGE) case 0x1B => Some(SEQ)
    case 0x1C => Some(SNE) case 0x1D => Some(FADD) case 0x1E => Some(FSUB) case 0x1F => Some(FMUL)
    case _ => None
  }

  function MemoryOpcode(c: nat): Option<Opcode> {
    match c
    case 0x20 => Some(LDG) case 0x21 => Some(STG) case 0x22 => Some(LDS) case 0x23 => Some(STS)
    case 0x24 => Some(FDIV) case 0x25 => Some(FTOI) case 0x26 => Some(ITOF) case 0x28 => Some(TID)
    case 0x29 => Some(TIDX) case 0x2A => Some(BID) case 0x2B => Some(BDIM) case 0x2C => Some(GDIM)
    case 0x2D => Some(LID) case 0x2E => Some(WID)
    case _ => None
  }

  function ControlOpcode(c: nat): Option<Opcode> {
    match c
    case 0x30 => Some(PUSHM) case 0x31 => Some(PRED) case 0x32 => Some(POPM) case 0x33 => Some(PREDN)
    case 0x34 => Some(CALL) case 0x35 => Some(RET) case 0x38 => Some(BRA) case 0x39 => Some(BZ)
    case 0x3A => Some(BNZ) case 0x3B => Some(BAR) case 0x3C => Some(EXIT)
    case _ => None
  }

  /** The hardware's reading of the three format bits. */
  function FormatOf(n: nat): Option<Format> {
    match n
    case 0 => Some(I32) case 1 => Some(I16) case 2 => Some(I8)
    case 3 => Some(FP32) case 4 => Some(FP16) case 5 => Some(FP8)
    case _ => None
  }

  lemma LowReadBack(op: Opcode)
    requires Code(op) < 0x10
    ensures LowOpcode(Code(op)) == Some(op)
  {
  }

  lemma ArithmeticReadBack(op: Opcode)
    requires 0x10 <= Code(op) < 0x20
    ensures ArithmeticOpcode(Code(op)) == Some(op)
  {
  }

  lemma HighReadBack(op: Opcode)
    requires 0x20 <= Code(op)
    ensures OpcodeOf(Code(op)) == Some(op)
  {
    hide LowOpcode, ArithmeticOpcode;
  }

  /** The hardware reads back the opcode the assembler wrote. */
  lemma OpcodeReadBack(op: Opcode)
    ensures OpcodeOf(Code(op)) == Some(op)
  {
    hide Code, LowOpcode, ArithmeticOpcode;
    if Code(op) < 0x10 { LowReadBack(op); }
    else if Code(op) < 0x20 { ArithmeticReadBack(op); }
    else { HighReadBack(op); }
  }

  /** The hardware reads back the format the assembler wrote. */
  lemma FormatReadBack(fmt: Format)
    ensures FormatOf(FormatId(fmt)) == Some(fmt)
  {
  }

  /** What the decoder takes out of a word: opcode bits, registers and the sign-extended immediate. */
  datatype Fields = Fields(opcode: nat, rd: nat, rs1: nat, rs2: nat, imm: int)

  predicate Fits(f: Fields) {
    f.opcode < 64 && f.rd < 16 && f.rs1 < 16 && f.rs2 < 16 && -0x2000 <= f.imm < 0x2000
  }

  /** Shifts the fields into place and ors them together; a value out of range raises. */
  function Pack(f: Fields): Outcome<nat> {
    if !Fits(f) then Raise
    else Ok(BitOr(BitOr(BitOr(BitOr(f.opcode * 0x400_0000, f.rd * 0x40_0000), f.rs1 * 0x4_0000), f.rs2 * 0x4000),
                  f.imm % 0x4000))
  }

  function Decode(w: nat): Fields {
    var imm14 := w % 0x4000;
    Fields(w / 0x400_0000 % 64, w / 0x40_0000 % 16, w / 0x4_0000 % 16, w / 0x4000 % 16,
           if imm14 >= 0x2000 then imm14 - 0x4000 else imm14)
  }

  /** A memory immediate holds a signed 11-bit word offset above a 3-bit format tag. */
  function MemoryOffset(imm: int): int { imm / 8 }
  function MemoryFormat(imm: int): nat { imm % 8 }

  lemma Powers()
    ensures Pow2(4) == 16 && Pow2(14) == 0x4000 && Pow2(18) == 0x4_0000
    ensures Pow2(22) == 0x40_0000 && Pow2(26) == 0x400_0000
  {
    assert Pow2(2) == 4;
    assert Pow2(10) == 4 * Pow2(8) && Pow2(8) == 4 * Pow2(6) && Pow2(6) == 4 * Pow2(4);
    assert Pow2(14) == 4 * Pow2(12) && Pow2(12) == 4 * Pow2(10);
    assert Pow2(18) == 4 * Pow2(16) && Pow2(16) == 4 * Pow2(14);
    assert Pow2(22) == 4 * Pow2(20) && Pow2(20) == 4 * Pow2(18);
    assert Pow2(26) == 4 * Pow2(24) && Pow2(24) == 4 * Pow2(22);
  }

  /** Oring disjoint fields is adding them. */
  lemma PackIsSum(f: Fields)
    requires Fits(f)
    ensures Pack(f) == Ok((((f.opcode * 16 + f.rd) * 16 + f.rs1) * 16 + f.rs2) * 0x4000 + f.imm % 0x4000)
  {
    hide BitOr, Pow2;
    Powers();
    BitOrDisjoint(f.opcode, f.rd * 0x40_0000, 26);
    BitOrDisjoint(f.opcode * 16 + f.rd, f.rs1 * 0x4_0000, 22);
    BitOrDisjoint((f.opcode * 16 + f.rd) * 16 + f.rs1, f.rs2 * 0x4000, 18);
    BitOrDisjoint(((f.opcode * 16 + f.rd) * 16 + f.rs1) * 16 + f.rs2, f.imm % 0x4000, 14);
  }

  /** Decoding inverts packing, and what does not fit is refused. */
  lemma DecodePack(f: Fields)
    ensures Pack(f).Ok? <==> Fits(f)
    ensures Pack(f).Ok? ==> Pack(f).value < WORD_MODULUS && Decode(Pack(f).value) == f
  {
    if Fits(f) {
      hide Pack;
      PackIsSum(f);
      DecodeSum(f, Pack(f).value);
    }
  }

  lemma DecodeSum(f: Fields, w: nat)
    requires Fits(f) && w == (((f.opcode * 16 + f.rd) * 16 + f.rs1) * 16 + f.rs2) * 0x4000 + f.imm % 0x4000
    ensures w < WORD_MODULUS && Decode(w) == f
  {
    var a := f.opcode * 16 + f.rd;
    var b := a * 16 + f.rs1;
    var c := b * 16 + f.rs2;
    LowPart(c, f.imm % 0x4000, w);
    Quotients(w);
    Digit(b, f.rs2);
    Digit(a, f.rs1);
    Digit(f.opcode, f.rd);
  }

  lemma LowPart(c: nat, r: nat, w: nat)
    requires r < 0x4000 && w == c * 0x4000 + r
    ensures w / 0x4000 == c && w % 0x4000 == r
  {
  }

  lemma Quotients(w: nat)
    ensures w / 0x4_0000 == w / 0x4000 / 16
    ensures w / 0x40_0000 == w / 0x4000 / 16 / 16
    ensures w / 0x400_0000 == w / 0x4000 / 16 / 16 / 16
  {
  }

  lemma Digit(q: nat, d: nat)
    requires d < 16
    ensures (q * 16 + d) / 16 == q && (q * 16 + d) % 16 == d
  {
  }

  // ----- one line -----

  predicate IsZeroOp(op: Opcode) { op.NOP? || op.PUSHM? || op.POPM? || op.BAR? || op.EXIT? || op.RET? }

  predicate IsThreadOp(op: Opcode) {
    op.TID? || op.TIDX? || op.BID? || op.BDIM? || op.GDIM? || op.LID? || op.WID?
  }

  predicate IsIntegerOp(op: Opcode) {
    op.ADD? || op.SUB? || op.MUL? || op.DIV? || op.MOD? || op.AND? || op.OR? || op.XOR? || op.SHL? || op.SHR?
    || op.SLT? || op.SLE? || op.SGT? || op.SGE? || op.SEQ? || op.SNE?
  }

  predicate IsFloatOp(op: Opcode) { op.FADD? || op.FSUB? || op.FMUL? || op.FDIV? }

  predicate IsImmediateOp(op: Opcode) {
    op.ADDI? || op.SUBI? || op.MULI? || op.ANDI? || op.ORI? || op.XORI? || op.SHLI? || op.SHRI?
  }

  /** The labels of a program: instruction indices by scoped name. */
  type Labels = map<string, nat>

  function BranchOffset(target: string, pc: nat, labels: Labels): Outcome<int> {
    if target in labels then Ok(labels[target] - (pc + 1)) else Raise
  }

  function MemoryImm(offset: int, fmt: Option<Format>): Outcome<int> {
    if -0x400 <= offset < 0x400 then Ok(offset * 8 + FormatId(FormatOr(fmt, I32))) else Raise
  }

  /** The fields of one scoped instruction; an opcode of the wrong shape raises. */
  function FieldsOf(line: Line, pc: nat, labels: Labels): Outcome<Fields> {
    match line
    case Plain(op) => if IsZeroOp(op) then Ok(Fields(Code(op), 0, 0, 0, 0)) else Raise
    case ReadThread(op, rd) => if IsThreadOp(op) then Ok(Fields(Code(op), rd, 0, 0, 0)) else Raise
    case MoveImm(rd, imm) => Ok(Fields(Code(MOVI), rd, 0, 0, imm))
    case LoadConst(rd, c) => if c.Id? then Ok(Fields(Code(LDC), rd, 0, 0, c.id)) else Raise
    case Move(op, rd, rs1) => if op.MOV? || op.NOT? then Ok(Fields(Code(op), rd, rs1, 0, 0)) else Raise
    case Alu(op, fmt, rd, rs1, rs2) =>
      if IsIntegerOp(op) then Ok(Fields(Code(op), rd, rs1, rs2, FormatId(FormatOr(fmt, I32))))
      else if IsFloatOp(op) then Ok(Fields(Code(op), rd, rs1, rs2, FormatId(FormatOr(fmt, FP32))))
      else Raise
    case AluImm(op, rd, rs1, imm) => if IsImmediateOp(op) then Ok(Fields(Code(op), rd, rs1, 0, imm)) else Raise
    case Convert(op, fmt, rd, rs1) =>
      if op.FTOI? then Ok(Fields(Code(op), rd, rs1, 0, FormatId(FormatOr(fmt, FP32))))
      else if op.ITOF? then Ok(Fields(Code(op), rd, rs1, 0, FormatId(FormatOr(fmt, I32))))
      else Raise
    case Load(op, fmt, rd, rs1, offset) =>
      var imm :- MemoryImm(offset, fmt);
      if op.LDG? || op.LDS? then Ok(Fields(Code(op), rd, rs1, 0, imm)) else Raise
    case Store(op, fmt, rs1, offset, rs2) =>
      var imm :- MemoryImm(offset, fmt);
      if op.STG? || op.STS? then Ok(Fields(Code(op), 0, rs1, rs2, imm)) else Raise
    case Predicate(op, rs1) => if op.PRED? || op.PREDN? then Ok(Fields(Code(op), 0, rs1, 0, 0)) else Raise
    case Jump(op, target) =>
      var imm :- BranchOffset(target, pc, labels);
      if op.BRA? || op.CALL? then Ok(Fields(Code(op), 0, 0, 0, imm)) else Raise
    case CallKernel(callee) =>
      var imm :- BranchOffset(callee, pc, labels);
      Ok(Fields(Code(CALL), 0, 0, 0, imm))
    case Branch(op, rs1, target) =>
      var imm :- BranchOffset(target, pc, labels);
      if op.BZ? || op.BNZ? then Ok(Fields(Code(op), 0, rs1, 0, imm)) else Raise
    case KernelDir(_) => Raise
    case LabelDef(_) => Raise
  }

  function Encode(line: Line, pc: nat, labels: Labels): Outcome<nat> {
    var f :- FieldsOf(line, pc, labels);
    Pack(f)
  }

  /** A decoded word carries the opcode, registers, immediate, memory offset and format of a line. */
  predicate Carries(f: Fields, line: Line) {
    var op := OpcodeOf(f.opcode);
    match line
    case Plain(o) => op == Some(o)
    case ReadThread(o, rd) => op == Some(o) && f.rd == rd
    case MoveImm(rd, imm) => op == Some(MOVI) && f.rd == rd && f.imm == imm
    case LoadConst(rd, c) => op == Some(LDC) && f.rd == rd && (c.Id? ==> f.imm == c.id)
    case Move(o, rd, rs1) => op == Some(o) && f.rd == rd && f.rs1 == rs1
    case Alu(o, fmt, rd, rs1, rs2) =>
      op == Some(o) && f.rd == rd && f.rs1 == rs1 && f.rs2 == rs2
      && FormatOf(f.imm % 8) == Some(FormatOr(fmt, if IsFloatOp(o) then FP32 else I32))
    case AluImm(o, rd, rs1, imm) => op == Some(o) && f.rd == rd && f.rs1 == rs1 && f.imm == imm
    case Convert(o, fmt, rd, rs1) =>
      op == Some(o) && f.rd == rd && f.rs1 == rs1
      && FormatOf(f.imm % 8) == Some(FormatOr(fmt, if o.FTOI? then FP32 else I32))
    case Load(o, fmt, rd, rs1, offset) =>
      op == Some(o) && f.rd == rd && f.rs1 == rs1
      && MemoryOffset(f.imm) == offset && FormatOf(MemoryFormat(f.imm)) == Some(FormatOr(fmt, I32))
    case Store(o, fmt, rs1, offset, rs2) =>
      op == Some(o) && f.rs1 == rs1 && f.rs2 == rs2
      && MemoryOffset(f.imm) == offset && FormatOf(MemoryFormat(f.imm)) == Some(FormatOr(fmt, I32))
    case Predicate(o, rs1) => op == Some(o) && f.rs1 == rs1
    case Jump(o, _) => op == Some(o)
    case CallKernel(_) => op == Some(CALL)
    case Branch(o, rs1, _) => op == Some(o) && f.rs1 == rs1
    case _ => false
  }

  /** The opcode of a line takes the line's operands. */
  predicate Shaped(line: Line) {
    match line
    case Plain(op) => op in {NOP, PUSHM, POPM, BAR, EXIT, RET}
    case ReadThread(op, _) => op in {TID, TIDX, BID, BDIM, GDIM, LID, WID}
    case Move(op, _, _) => op in {MOV, NOT}
    case Alu(op, _, _, _, _) =>
      || op in {ADD, SUB, MUL, DIV, MOD, AND, OR, XOR, SHL, SHR}
      || op in {SLT, SLE, SGT, SGE, SEQ, SNE, FADD, FSUB, FMUL, FDIV}
    case AluImm(op, _, _, _) => op in {ADDI, SUBI, MULI, ANDI, ORI, XORI, SHLI, SHRI}
    case Convert(op, _, _, _) => op in {FTOI, ITOF}
    case Load(op, _, _, _, _) => op in {LDG, LDS}
    case Store(op, _, _, _, _) => op in {STG, STS}
    case Predicate(op, _) => op in {PRED, PREDN}
    case Jump(op, _) => op in {BRA, CALL}
    case Branch(op, _, _) => op in {BZ, BNZ}
    case MoveImm(_, _) => true
    case LoadConst(_, _) => true
    case CallKernel(_) => true
    case KernelDir(_) => false
    case LabelDef(_) => false
  }

  /** Every word the assembler produces decodes to the fields of its line. */
  lemma EncodeCarries(line: Line, pc: nat, labels: Labels)
    requires Encode(line, pc, labels).Ok?
    ensures Encode(line, pc, labels).value < WORD_MODULUS
    ensures var f := Decode(Encode(line, pc, labels).value);
            && Carries(f, line) && Shaped(line)
            && (line.Jump? || line.Branch? ==> line.target in labels && pc + 1 + f.imm == labels[line.target])
            && (line.CallKernel? ==> line.callee in labels && pc + 1 + f.imm == labels[line.callee])
  {
    hide Pack, Decode, Code, OpcodeOf, FormatOf, FormatId;
    DecodePack(FieldsOf(line, pc, labels).value);
    forall op: Opcode ensures OpcodeOf(Code(op)) == Some(op) { OpcodeReadBack(op); }
    forall fmt: Format ensures FormatId(fmt) < 8 && FormatOf(FormatId(fmt)) == Some(fmt) { FormatReadBack(fmt); }
  }
}
