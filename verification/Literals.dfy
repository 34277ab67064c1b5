/** Integer literals of any width are built exactly by MOVI, SHLI and ORI. */
module Literals {
  import opened Words
  import opened Isa
  import opened Allocation

  // ----- literals -----

  lemma ByteShift(w: Word, k: nat)
    requires k < 3
    ensures w / Pow2(8 * k) == w / Pow2(8 * (k + 1)) * 0x100 + ByteOf(w, k)
    ensures ByteOf(w, k) < 0x100 && 0 <= w / Pow2(8 * k) < WORD_MODULUS
  {
    assert Pow2(8) == 0x100 && Pow2(16) == 0x1_0000 && Pow2(24) == 0x100_0000 by {
      assert Pow2(4) == 16;
      assert Pow2(12) == 16 * Pow2(8);
      assert Pow2(20) == 16 * Pow2(16);
    }
  }

  lemma TopByte(w: Word)
    ensures ByteOf(w, 3) == w / Pow2(24) < 0x100 && w / Pow2(0) == w
  {
    assert Pow2(24) == 0x100_0000 by {
      assert Pow2(4) == 16;
      assert Pow2(12) == 16 * Pow2(8);
      assert Pow2(20) == 16 * Pow2(16);
    }
  }

  /** Two lanes that differ in one register only. */
  ghost predicate Differ1(s: Lane, t: Lane, reg: Reg) {
    t == s.(regs := t.regs) && forall r: Reg :: r != reg ==> Lookup(t.regs, r) == Lookup(s.regs, r)
  }

  lemma ShiftStep(m: Machine, s: Lane, reg: Reg)
    requires s.status == Running && s.active && Lookup(s.regs, reg) * 0x100 < WORD_MODULUS
    ensures Step(m, AluImm(SHLI, reg, reg, 8), s) == s.(regs := s.regs[reg := Lookup(s.regs, reg) * 0x100])
  {
    EightBits();
    hide Pow2, BitOr;
  }

  lemma OrStep(m: Machine, s: Lane, reg: Reg, x: nat, byte: nat)
    requires s.status == Running && s.active && byte < 0x100
    requires x * 0x100 + byte < WORD_MODULUS && Lookup(s.regs, reg) == x * 0x100
    ensures Step(m, AluImm(ORI, reg, reg, byte), s) == s.(regs := s.regs[reg := x * 0x100 + byte])
  {
    hide BitOr, Pow2;
    OrByte(x, byte);
  }

  lemma OrByte(x: nat, byte: nat)
    requires byte < 0x100
    ensures BitOr(x * 0x100, byte) == x * 0x100 + byte
  {
    EightBits();
    BitOrDisjoint(x, byte, 8);
  }

  /** One SHLI/ORI pair appends a byte to the register. */
  lemma ByteCodeRun(m: Machine, s: Lane, reg: Reg, byte: nat)
    requires s.status == Running && s.active && byte < 0x100
    requires Lookup(s.regs, reg) * 0x100 + byte < WORD_MODULUS
    ensures var t := Run(m, ByteCode(reg, byte), s);
      Differ1(s, t, reg) && Lookup(t.regs, reg) == Lookup(s.regs, reg) * 0x100 + byte
  {
    hide Step;
    var shift, or := AluImm(SHLI, reg, reg, 8), AluImm(ORI, reg, reg, byte);
    RunTwo(m, shift, or, s);
    ShiftStep(m, s, reg);
    assert ByteCode(reg, byte) == if byte != 0 then [shift, or] else [shift];
    if byte != 0 { OrStep(m, Step(m, shift, s), reg, Lookup(s.regs, reg), byte); }
  }

  lemma MoveImmStep(m: Machine, s: Lane, reg: Reg, n: int)
    requires s.status == Running && s.active
    ensures Step(m, MoveImm(reg, n), s) == s.(regs := s.regs[reg := Wrap(n)])
  {
  }

  /** From the high bytes to the whole word, one byte at a time. */
  lemma {:induction false} BytesRun(m: Machine, s: Lane, reg: Reg, w: Word, k: nat)
    requires s.status == Running && s.active && k <= 3
    requires Lookup(s.regs, reg) == w / Pow2(8 * k)
    ensures var t := Run(m, BytesCode(reg, w, k), s);
      Differ1(s, t, reg) && Lookup(t.regs, reg) == w
    decreases k
  {
    hide ByteCode, ByteOf, Run, Step;
    if k == 0 {
      RunEmpty(m, s);
    } else {
      ByteShift(w, k - 1);
      var code := ByteCode(reg, ByteOf(w, k - 1));
      ByteCodeRun(m, s, reg, ByteOf(w, k - 1));
      BytesRun(m, Run(m, code, s), reg, w, k - 1);
      RunAppend(m, code, BytesCode(reg, w, k - 1), s);
    }
  }

  lemma RunEmpty(m: Machine, s: Lane)
    ensures Run(m, [], s) == s
  {
  }

  /** Literal code loads the literal modulo 2^32, whatever its width and sign. */
  lemma LiteralRun(m: Machine, s: Lane, reg: Reg, n: int)
    requires s.status == Running && s.active
    ensures var t := Run(m, LiteralCode(reg, n), s);
      Differ1(s, t, reg) && Lookup(t.regs, reg) == Wrap(n)
  {
    hide ByteOf, Pow2, Run, Step, BytesCode;
    var w := Wrap(n);
    var top := if Fits14(n) then n else ByteOf(w, 3);
    var first := [MoveImm(reg, top)];
    RunTwo(m, MoveImm(reg, top), MoveImm(reg, top), s);
    MoveImmStep(m, s, reg, top);
    if !Fits14(n) {
      TopByte(w);
      BytesRun(m, Run(m, first, s), reg, w, 3);
      RunAppend(m, first, BytesCode(reg, w, 3), s);
    }
  }
}
