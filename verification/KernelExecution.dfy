/** The whole tool chain: from a kernel's control-flow graph to the instruction words the core runs. */
module KernelExecution {
  import opened Words
  import opened Cfg
  import opened CommonMerge
  import opened MiniIr
  import opened Allocation
  import opened EmittedCode
  import opened Assembler
  import opened ConstantsAbi
  import opened Compiler
  import opened Structurizer
  import opened KernelLowering
  import opened KernelCompilation
  import opened KernelOutcomes
  import opened CoreExecution
  import opened CompiledText
  import opened AcceptedText
  import opened SectionLowering
  import opened RegisterSupply
  import opened QuietSections
  import E = Encoding
  import I = Isa

  /** A kernel's code as the back end lowers it, in a text that assembles and fits instruction memory. */
  ghost predicate Assembles(text: seq<I.Line>, before: seq<I.Line>, kernel: string, section: seq<Stmt>,
                            after: seq<I.Line>, slots: nat)
  {
    var a0 := Fresh(CountUses(section));
    var a := LowerAll(a0, section);
    && SelfUsesSafe(a0, section) && QuietInside(a0, section, {}, [{}]) && a.Ok? && a.value.nextSlot <= slots
    && text == TextOf(before, kernel, a.value.asm) + after
    && KernelsColonFree(text) && KernelsDistinct(text)
    && Assemble(text).Ok? && |Assemble(text).value| <= PROGRAM_WORDS
  }

  lemma AssemblesHolds(text: seq<I.Line>, before: seq<I.Line>, kernel: string, section: seq<Stmt>,
                       after: seq<I.Line>, slots: nat)
    requires Assembles(text, before, kernel, section, after, slots) && Branchless(section)
    ensures Holds(text, before, kernel, LowerAll(Fresh(CountUses(section)), section).value.asm, after)
  {
    hide SelfUsesSafe, QuietInside, LowerAll, CountUses, KernelsColonFree, KernelsDistinct, Assemble, TextOf;
    hide Branchless;
    var a0 := Fresh(CountUses(section));
    var code := LowerAll(a0, section).value.asm;
    SectionStraight(a0, section);
    assert code[|a0.asm|..] == code;
    StraightOneKernel(code);
  }

  lemma StraightOneKernel(code: seq<I.Line>)
    requires AllStraight(code)
    ensures OneKernel(code)
  {
    forall i | 0 <= i < |code| ensures !code[i].KernelDir? {
      assert Straightforward(code[i]);
    }
  }

  /** From control-flow graph to words. Structurize an acyclic structured kernel, lower it, assemble
      it with whatever else the text holds, and let the core fetch the words from the kernel's start
      index: for every lane whose own blocks, followed along its own branches, never get stuck, the
      warp ends and the lane has the memory those blocks leave, outside its spill window. Symbols
      are read from constant memory at the numbers the assembler gave them. */
  lemma KernelExecuted(m: I.Machine, constants: Constants, slots: nat, p: Blocks, g: Graph, order: seq<Label>,
                       rank: Label -> nat, entry: Label, exit: Label, text: seq<I.Line>, before: seq<I.Line>,
                       kernel: string, after: seq<I.Line>, start: I.Lane, mem: map<nat, Word>)
    requires Ordering(g, order) && StructuredKernel(g, rank, entry) && Tidy(p) && NegatesConditions(m)
    requires exit in g && g[exit] == Ret && Connected(g, entry, exit)
    requires DefinesConditions(p, g) && start.status == I.Running && start.stack == []
    requires Arm(g, order, rank, entry, exit) ==> Nest(g, order, rank, entry, exit) <= 4
    requires if start.active then OwnPathLeaves(m, slots, p, g, entry, exit, start, mem) else mem == start.mem
    requires Assembles(text, before, kernel, KernelSection(p, g, order, entry), after, slots)
    requires var section := KernelSection(p, g, order, entry);
      var code := LowerAll(Fresh(CountUses(section)), section).value.asm;
      m.consts == ConstsOf(constants, FirstPass(TextOf(before, kernel, code)))
    ensures var section := KernelSection(p, g, order, entry);
      var code := LowerAll(Fresh(CountUses(section)), section).value.asm;
      var c := Cycles(m, constants, Assemble(text).value, Core(StartOfKernel(before) % 4096, start),
                      InstructionCount(code));
      && c.lane.status == I.Exited
      && forall w: nat :: !InSpillWindow(m, slots, w) ==> Lookup(c.lane.mem, w) == Lookup(mem, w)
  {
    hide Ordering, StructuredKernel, Arm, Tidy, NegatesConditions, DefinesConditions, LowerAll, Encodable, Holds;
    hide QuietInside, SelfUsesSafe, Connected, I.Run, InSpillWindow, KernelSection, OwnPathLeaves, Nest, Branchless;
    hide Cycles, Assemble, FirstPass, ConstsOf, TextOf, InstructionCount, KernelsColonFree, KernelsDistinct;
    var section := KernelSection(p, g, order, entry);
    var code := LowerAll(Fresh(CountUses(section)), section).value.asm;
    KernelParts(m, slots, p, g, order, rank, entry, exit, start);
    AssemblesHolds(text, before, kernel, section, after, slots);
    AssembledEncodable(text, before, kernel, code, after);
    KernelCompiled(m, slots, p, g, order, rank, entry, exit, start, mem);
    WordsRun(m, constants, text, before, kernel, code, after, |code|, start);
    assert code[..|code|] == code;
  }

  // ----- kernels small enough for everything to succeed -----

  /** A section the back end takes whatever its lanes do: branchless, its operations exist and its
      operands were assigned before, no assignment reads what it defines, parameters go to new
      values, and it names at most thirteen values. */
  ghost predicate SmallSection(section: seq<Stmt>, all: set<string>) {
    && Branchless(section) && Sound({}, section) && LoadsParametersFirst(section, {})
    && (forall stmt :: stmt in section ==> NoSelfUse(stmt) && Names(stmt) <= all) && |all| <= 13
  }

  lemma SmallSectionLowers(section: seq<Stmt>, all: set<string>)
    requires SmallSection(section, all)
    ensures var a0 := Fresh(CountUses(section));
      && SelfUsesSafe(a0, section) && QuietInside(a0, section, {}, [{}]) && LowerAll(a0, section).Ok?
      && FitsRegisters(START, section)
  {
    hide SelfUsesSafe, QuietInside, LowerAll, Names, Sound, NoSelfUse, LoadsParametersFirst, FitsRegisters;
    FewFits(START, section, all);
    SectionLowers(section);
    FewValuesQuiet(section, all);
    NoSelfUsesSafe(Fresh(CountUses(section)), section);
  }

  /** A lowered kernel alone in its text. */
  lemma SmallText(k: Kernel)
    requires Lowers(k) && Branchless(k.section) && ColonFree(k.name)
    ensures ProgramText([k]) == TextOf([], k.name, Lowered(k).asm) + []
    ensures KernelsColonFree(ProgramText([k])) && KernelsDistinct(ProgramText([k]))
  {
    hide LowerAll, Branchless;
    var a0, code := Fresh(CountUses(k.section)), Lowered(k).asm;
    SectionStraight(a0, k.section);
    assert code[|a0.asm|..] == code;
    StraightOneKernel(code);
    assert ProgramText([k]) == [I.KernelDir(k.name)] + code + ProgramText([]);
  }

  lemma AssembledLength(lines: seq<I.Line>)
    requires Assemble(lines).Ok?
    ensures |Assemble(lines).value| == InstructionCount(lines)
  {
    hide FirstPass, InstructionCount, E.Encode;
    var p := FirstPass(lines);
    FirstPassPlaces(lines);
    if p.instructions != [] { EncodeAllAt(p.instructions, 0, p.labels, NO_NUMBERS, 0); }
  }

  /** Such a kernel, alone in its text, meets every premise on compiling and assembling when it fits
      instruction memory, spills to 2048 slots at most and its symbols can be numbered. */
  lemma SmallKernelAssembles(kernel: string, section: seq<Stmt>, all: set<string>, slots: nat)
    requires SmallSection(section, all) && ColonFree(kernel) && Lowers(Kernel(kernel, section))
    requires Lowered(Kernel(kernel, section)).nextSlot <= 2048 && Lowered(Kernel(kernel, section)).nextSlot <= slots
    requires var text := ProgramText([Kernel(kernel, section)]);
      InstructionCount(text) <= 4096 && forall i :: 0 <= i < |text| && I.IsInstruction(text[i]) ==> Roomy(text, i)
    ensures Assembles(ProgramText([Kernel(kernel, section)]), [], kernel, section, [], slots)
  {
    hide SelfUsesSafe, QuietInside, LowerAll, Names, Sound, NoSelfUse, LoadsParametersFirst, FitsRegisters;
    hide Roomy, Assemble, InstructionCount, ProgramText, TextOf, KernelsColonFree, KernelsDistinct, Branchless;
    var k := Kernel(kernel, section);
    SmallSectionLowers(section, all);
    SmallText(k);
    SimpleProgramAssembles([k]);
    AssembledLength(ProgramText([k]));
  }
}
