/** Which assembly texts the assembler accepts, read off their lines. */
module AcceptedText {
  import opened Words
  import opened Isa
  import opened Encoding
  import opened Assembler

  // ----- one line -----

  predicate RegistersFit(line: Line) {
    match line
    case ReadThread(_, rd) => rd < 16
    case MoveImm(rd, _) => rd < 16
    case LoadConst(rd, _) => rd < 16
    case Move(_, rd, rs1) => rd < 16 && rs1 < 16
    case Alu(_, _, rd, rs1, rs2) => rd < 16 && rs1 < 16 && rs2 < 16
    case AluImm(_, rd, rs1, _) => rd < 16 && rs1 < 16
    case Convert(_, _, rd, rs1) => rd < 16 && rs1 < 16
    case Load(_, _, rd, rs1, _) => rd < 16 && rs1 < 16
    case Store(_, _, rs1, _, rs2) => rs1 < 16 && rs2 < 16
    case Predicate(_, rs1) => rs1 < 16
    case Branch(_, rs1, _) => rs1 < 16
    case _ => true
  }

  /** Immediates have 14 bits, memory offsets 11. */
  predicate ImmediatesFit(line: Line) {
    match line
    case MoveImm(_, imm) => -0x2000 <= imm < 0x2000
    case AluImm(_, _, _, imm) => -0x2000 <= imm < 0x2000
    case LoadConst(_, Id(id)) => -0x2000 <= id < 0x2000
    case Load(_, _, _, _, offset) => -0x400 <= offset < 0x400
    case Store(_, _, _, offset, _) => -0x400 <= offset < 0x400
    case _ => true
  }

  /** The label table's key for the label an instruction jumps to. */
  function Target(line: Line): Option<string> {
    match line
    case Jump(_, target) => Some(target)
    case Branch(_, _, target) => Some(target)
    case CallKernel(callee) => Some(callee)
    case _ => None
  }

  lemma EncodeExactly(line: Line, pc: nat, labels: Labels)
    ensures Encode(line, pc, labels).Ok? <==>
              && Shaped(line) && RegistersFit(line) && ImmediatesFit(line)
              && !(line.LoadConst? && line.constant.Symbol?)
              && (Target(line).Some? ==>
                    && Target(line).value in labels && -0x2000 <= labels[Target(line).value] - (pc + 1) < 0x2000)
  {
    hide Pack, Decode, Code, FormatId;
    if FieldsOf(line, pc, labels).Ok? {
      DecodePack(FieldsOf(line, pc, labels).value);
    }
  }

  lemma {:induction false} EncodeAllExactly(lines: seq<Line>, pc: nat, labels: Labels, n: Numbers)
    ensures EncodeAll(lines, pc, labels, n).Ok? <==>
              forall k :: 0 <= k < |lines| ==> Encode(Resolve(NumbersAt(n, lines, k), lines[k]).1, pc + k, labels).Ok?
    decreases |lines|
  {
    hide Encode, Resolve;
    if lines != [] {
      var (next, line) := Resolve(n, lines[0]);
      EncodeAllExactly(lines[1..], pc + 1, labels, next);
      assert NumbersAt(n, lines, 0) == n;
      forall k | 0 <= k < |lines| - 1
        ensures NumbersAt(n, lines, k + 1) == NumbersAt(next, lines[1..], k) && lines[1..][k] == lines[k + 1]
      {
        NumbersShift(n, lines, k + 1);
      }
      hide EncodeAll;
    }
  }

  // ----- lines and instructions -----

  /** An instruction with its label scoped and its kernel-local constant numbered. */
  function Localised(lines: seq<Line>, i: nat): Line
    requires i < |lines|
  {
    match lines[i]
    case Jump(op, target) => Jump(op, Scoped(ScopeAt(lines, i), target))
    case Branch(op, rs1, target) => Branch(op, rs1, Scoped(ScopeAt(lines, i), target))
    case LoadConst(rd, Symbol(s)) =>
      if IsArg(s) || IsShared(s) then LoadConst(rd, Id(SymbolId(lines, i, s))) else lines[i]
    case _ => lines[i]
  }

  lemma InstructionIs(lines: seq<Line>, i: nat)
    requires i < |lines| && IsInstruction(lines[i])
    ensures InstructionCount(lines[..i]) < |FirstPass(lines).instructions|
    ensures FirstPass(lines).instructions[InstructionCount(lines[..i])] == Localised(lines, i)
  {
    hide InstructionCount, ScopeAt, FirstPass;
    FirstPassPlaces(lines[..i]);
    ScopeAtPrefix(lines, i, i);
    InstructionAt(lines, i);
  }

  /** Every instruction comes from a line. */
  lemma {:induction false} LineOf(lines: seq<Line>, k: nat) returns (i: nat)
    requires k < InstructionCount(lines)
    ensures i < |lines| && IsInstruction(lines[i]) && InstructionCount(lines[..i]) == k
    decreases |lines|
  {
    var n := |lines| - 1;
    if k < InstructionCount(lines[..n]) {
      i := LineOf(lines[..n], k);
      assert lines[..n][..i] == lines[..i];
    } else {
      i := n;
    }
  }

  /** The numbers given out to other constants before line i. */
  function NumbersBefore(lines: seq<Line>): Numbers {
    NumbersAt(NO_NUMBERS, FirstPass(lines).instructions, |FirstPass(lines).instructions|)
  }

  lemma {:induction false} NumbersPrefix(n: Numbers, lines: seq<Line>, more: seq<Line>, k: nat)
    requires k <= |lines| && lines <= more
    ensures NumbersAt(n, lines, k) == NumbersAt(n, more, k)
    decreases k
  {
    hide Resolve;
    if k > 0 { NumbersPrefix(n, lines, more, k - 1); }
  }

  lemma {:induction false} FirstPassGrows(lines: seq<Line>, i: nat)
    requires i <= |lines|
    ensures FirstPass(lines[..i]).instructions <= FirstPass(lines).instructions
    decreases |lines|
  {
    hide PassLine;
    var n := |lines| - 1;
    if i == |lines| {
      assert lines[..i] == lines;
    } else {
      FirstPassGrows(lines[..n], i);
      assert lines[..n][..i] == lines[..i];
      PassLineExtends(FirstPass(lines[..n]), lines[n]);
    }
  }

  /** The instruction that is encoded for line i. */
  function Encoded(lines: seq<Line>, i: nat): Line
    requires i < |lines|
  {
    Resolve(NumbersBefore(lines[..i]), Localised(lines, i)).1
  }

  predicate LineEncodes(lines: seq<Line>, i: nat)
    requires i < |lines|
  {
    Encode(Encoded(lines, i), InstructionCount(lines[..i]), FirstPass(lines).labels).Ok?
  }

  predicate InstructionEncodes(lines: seq<Line>, k: nat)
    requires k < |FirstPass(lines).instructions|
  {
    var p := FirstPass(lines);
    Encode(Resolve(NumbersAt(NO_NUMBERS, p.instructions, k), p.instructions[k]).1, k, p.labels).Ok?
  }

  lemma EncodesAlike(lines: seq<Line>, i: nat)
    requires i < |lines| && IsInstruction(lines[i])
    ensures var k := InstructionCount(lines[..i]);
      k < |FirstPass(lines).instructions| && (LineEncodes(lines, i) <==> InstructionEncodes(lines, k))
  {
    hide Encode, Resolve, FirstPass, InstructionCount, Localised, NumbersAt;
    InstructionIs(lines, i);
    FirstPassPlaces(lines[..i]);
    FirstPassGrows(lines, i);
    NumbersPrefix(NO_NUMBERS, FirstPass(lines[..i]).instructions, FirstPass(lines).instructions,
                  InstructionCount(lines[..i]));
  }

  lemma AssemblesByInstruction(lines: seq<Line>)
    ensures Assemble(lines).Ok? <==>
              forall k :: 0 <= k < |FirstPass(lines).instructions| ==> InstructionEncodes(lines, k)
  {
    hide Encode, Resolve, FirstPass, NumbersAt, EncodeAll;
    var p := FirstPass(lines);
    EncodeAllExactly(p.instructions, 0, p.labels, NO_NUMBERS);
    forall k | 0 <= k < |p.instructions|
      ensures InstructionEncodes(lines, k)
              <==> Encode(Resolve(NumbersAt(NO_NUMBERS, p.instructions, k), p.instructions[k]).1, 0 + k, p.labels).Ok?
    {
    }
  }

  lemma AssemblesByLine(lines: seq<Line>)
    ensures Assemble(lines).Ok? <==>
              forall i :: 0 <= i < |lines| && IsInstruction(lines[i]) ==> LineEncodes(lines, i)
  {
    hide FirstPass, InstructionCount, Assemble, LineEncodes, InstructionEncodes, IsInstruction;
    AssemblesByInstruction(lines);
    FirstPassPlaces(lines);
    forall i | 0 <= i < |lines| && IsInstruction(lines[i]) && Assemble(lines).Ok? ensures LineEncodes(lines, i) {
      EncodesAlike(lines, i);
    }
    if forall i :: 0 <= i < |lines| && IsInstruction(lines[i]) ==> LineEncodes(lines, i) {
      forall k | 0 <= k < |FirstPass(lines).instructions| ensures InstructionEncodes(lines, k) {
        var i := LineOf(lines, k);
        EncodesAlike(lines, i);
      }
    }
  }

  // ----- how many constants are loaded -----

  /** Symbols of parameters and shared arrays are local to their kernel. */
  predicate Local(s: string) { IsArg(s) || IsShared(s) }

  function Family(s: string): Kind {
    if IsArg(s) then ArgKind else if IsShared(s) then SharedKind else KindOf(s)
  }

  /** What one line loads. */
  function Loads(line: Line, local: bool, kind: Kind): set<string> {
    if line.LoadConst? && line.constant.Symbol? && Local(line.constant.name) == local
       && Family(line.constant.name) == kind then {line.constant.name} else {}
  }

  /** The distinct symbols of a family that a text loads; for local ones, since its last kernel
      directive. */
  function Loaded(lines: seq<Line>, local: bool, kind: Kind): set<string> {
    if lines == [] then {}
    else
      var n := |lines| - 1;
      if local && lines[n].KernelDir? then {} else Loaded(lines[..n], local, kind) + Loads(lines[n], local, kind)
  }

  /** Names numbered from a base on, below the base plus their count. */
  ghost predicate Dense(ids: map<string, nat>, base: nat) {
    forall s :: s in ids ==> base <= ids[s] < base + |ids|
  }

  lemma NumberKeeps(ids: map<string, nat>, s: string, base: nat)
    requires Dense(ids, base)
    ensures Dense(Number(ids, s, base), base) && Number(ids, s, base).Keys == ids.Keys + {s}
  {
  }

  lemma PassLocals(p: Pass, line: Line)
    ensures var q := PassLine(p, line);
      && q.args == (if line.KernelDir? then map[]
                    else if Loads(line, true, ArgKind) != {} then Number(p.args, line.constant.name, 0) else p.args)
      && q.shared == (if line.KernelDir? then map[]
                      else if Loads(line, true, SharedKind) != {}
                      then Number(p.shared, line.constant.name, FIRST_SHARED_ID) else p.shared)
  {
    hide IsArg, IsShared, KindOf, Number;
  }

  lemma {:induction false} ArgsNumbered(lines: seq<Line>)
    ensures var p := FirstPass(lines); p.args.Keys == Loaded(lines, true, ArgKind) && Dense(p.args, 0)
  {
    if lines != [] {
      hide PassLine, Number, Loads, Dense;
      var p, line := FirstPass(lines[..|lines| - 1]), lines[|lines| - 1];
      ArgsNumbered(lines[..|lines| - 1]);
      PassLocals(p, line);
      NothingDense(0);
      if Loads(line, true, ArgKind) != {} {
        LoadsOne(line, true, ArgKind);
        NumberKeeps(p.args, line.constant.name, 0);
      }
    }
  }

  lemma {:induction false} SharedNumbered(lines: seq<Line>)
    ensures var p := FirstPass(lines);
      p.shared.Keys == Loaded(lines, true, SharedKind) && Dense(p.shared, FIRST_SHARED_ID)
  {
    if lines != [] {
      hide PassLine, Number, Loads, Dense;
      var p, line := FirstPass(lines[..|lines| - 1]), lines[|lines| - 1];
      SharedNumbered(lines[..|lines| - 1]);
      PassLocals(p, line);
      NothingDense(FIRST_SHARED_ID);
      if Loads(line, true, SharedKind) != {} {
        LoadsOne(line, true, SharedKind);
        NumberKeeps(p.shared, line.constant.name, FIRST_SHARED_ID);
      }
    }
  }

  lemma NothingDense(base: nat)
    ensures Dense(map[], base)
  {
  }

  lemma LoadsOne(line: Line, local: bool, kind: Kind)
    requires Loads(line, local, kind) != {}
    ensures line.LoadConst? && line.constant.Symbol? && Loads(line, local, kind) == {line.constant.name}
  {
    hide Family, Local;
  }

  lemma NumbersStep(lines: seq<Line>)
    requires lines != []
    ensures var n := |lines| - 1;
      NumbersBefore(lines) == (if IsInstruction(lines[n]) then Resolve(NumbersBefore(lines[..n]), Localised(lines, n)).0
                               else NumbersBefore(lines[..n]))
  {
    var n := |lines| - 1;
    var p, q := FirstPass(lines[..n]), FirstPass(lines);
    if IsInstruction(lines[n]) {
      InstructionIs(lines, n);
      FirstPassPlaces(lines);
      FirstPassPlaces(lines[..n]);
      FirstPassGrows(lines, n);
      hide FirstPass, Resolve, Localised;
      NumbersPrefix(NO_NUMBERS, p.instructions, q.instructions, |p.instructions|);
    } else {
      hide NumbersAt, InstructionCount, ScopeAt;
    }
  }

  /** Each family's numbers are used up to its count of names. */
  ghost predicate Tallied(n: Numbers, kind: Kind, names: set<string>) {
    && (forall s :: s in names <==> s in n.ids && KindOf(s) == kind)
    && Next(n, kind) == First(kind) + |names|
  }

  lemma ConstIdIs(n: Numbers, name: string, kind: Kind)
    ensures var next := ConstId(n, name).0;
      if name in n.ids then next == n
      else next.ids.Keys == n.ids.Keys + {name}
           && Next(next, kind) == Next(n, kind) + (if KindOf(name) == kind then 1 else 0)
  {
    hide ConstSymbol, IsArg, IsShared;
  }

  lemma ConstIdTallies(n: Numbers, name: string, kind: Kind, names: set<string>)
    requires Tallied(n, kind, names)
    ensures Tallied(ConstId(n, name).0, kind, if KindOf(name) == kind then names + {name} else names)
  {
    ConstIdIs(n, name, kind);
    hide ConstId, Next, KindOf;
    if name in names { assert names + {name} == names; }
  }

  /** Only loads of other symbols draw on the numbers of the whole text. */
  lemma OthersStep(lines: seq<Line>)
    requires lines != []
    ensures var line, before := lines[|lines| - 1], NumbersBefore(lines[..|lines| - 1]);
      NumbersBefore(lines) == (if line.LoadConst? && line.constant.Symbol? && !Local(line.constant.name)
                               then ConstId(before, line.constant.name).0 else before)
  {
    hide NumbersBefore, ConstId, ScopeAt, SymbolId, IsArg, IsShared;
    NumbersStep(lines);
  }

  lemma {:induction false} OthersNumbered(lines: seq<Line>, kind: Kind)
    ensures Numbered(NumbersBefore(lines)) && Tallied(NumbersBefore(lines), kind, Loaded(lines, false, kind))
  {
    hide Numbered, Tallied, NumbersBefore, ConstId, KindOf, Local;
    if lines == [] {
      NothingNumbered(kind);
    } else {
      var n := |lines| - 1;
      OthersNumbered(lines[..n], kind);
      OthersStep(lines);
      LoadedStep(lines, kind);
      if lines[n].LoadConst? && lines[n].constant.Symbol? && !Local(lines[n].constant.name) {
        ConstIdTallies(NumbersBefore(lines[..n]), lines[n].constant.name, kind, Loaded(lines[..n], false, kind));
        ConstIdNumbers(NumbersBefore(lines[..n]), lines[n].constant.name);
      }
    }
  }

  lemma LoadedStep(lines: seq<Line>, kind: Kind)
    requires lines != []
    ensures var line, names := lines[|lines| - 1], Loaded(lines[..|lines| - 1], false, kind);
      Loaded(lines, false, kind)
      == (if line.LoadConst? && line.constant.Symbol? && !Local(line.constant.name)
             && KindOf(line.constant.name) == kind then names + {line.constant.name} else names)
  {
    hide KindOf, IsArg, IsShared;
  }

  lemma NothingNumbered(kind: Kind)
    ensures Numbered(NumbersBefore([])) && Tallied(NumbersBefore([]), kind, Loaded([], false, kind))
  {
    NoneNumbered();
    assert NumbersBefore([]) == NO_NUMBERS;
  }

  // ----- acceptance -----

  /** The number that a loaded symbol gets at line i. */
  function ConstantNumber(lines: seq<Line>, i: nat): nat
    requires i < |lines| && lines[i].LoadConst? && lines[i].constant.Symbol?
  {
    var s := lines[i].constant.name;
    if Local(s) then SymbolId(lines, i, s) else ConstId(NumbersBefore(lines[..i]), s).1
  }

  /** A new symbol gets the next number of its family, and an old one a smaller one. */
  lemma ConstantNumberIs(lines: seq<Line>, i: nat)
    requires i < |lines| && lines[i].LoadConst? && lines[i].constant.Symbol?
    ensures var s := lines[i].constant.name; var names := Loaded(lines[..i], Local(s), Family(s));
      && First(Family(s)) <= ConstantNumber(lines, i)
      && (s in names ==> ConstantNumber(lines, i) < First(Family(s)) + |names|)
      && (s !in names ==> ConstantNumber(lines, i) == First(Family(s)) + |names|)
  {
    hide FirstPass, NumbersBefore, IsArg, IsShared, ConstSymbol;
    var s := lines[i].constant.name;
    if Local(s) {
      ArgsNumbered(lines[..i]);
      SharedNumbered(lines[..i]);
    } else {
      OthersNumbered(lines[..i], KindOf(s));
    }
  }

  /** The symbols of one family are so few that their numbers fit the immediate. */
  predicate Roomy(lines: seq<Line>, i: nat)
    requires i < |lines|
  {
    lines[i].LoadConst? && lines[i].constant.Symbol? ==>
      var s := lines[i].constant.name;
      var room := match Family(s) case ArgKind => 0x2000 case SharedKind => 0x2000 - 32 case ConstKind => 0x2000 - 64;
      |Loaded(lines[..i + 1], Local(s), Family(s))| <= room
  }

  predicate NumberFits(lines: seq<Line>, i: nat)
    requires i < |lines|
  {
    lines[i].LoadConst? && lines[i].constant.Symbol? ==> ConstantNumber(lines, i) < 0x2000
  }

  lemma RoomyFits(lines: seq<Line>, i: nat)
    requires i < |lines| && Roomy(lines, i)
    ensures NumberFits(lines, i)
  {
    hide ConstantNumber, Local, KindOf, IsArg, IsShared;
    if lines[i].LoadConst? && lines[i].constant.Symbol? {
      ConstantNumberIs(lines, i);
      LoadedNext(lines, i);
      var s := lines[i].constant.name;
      var names := Loaded(lines[..i], Local(s), Family(s));
      if s in names { assert names + {s} == names; }
    }
  }

  lemma LoadedNext(lines: seq<Line>, i: nat)
    requires i < |lines| && lines[i].LoadConst? && lines[i].constant.Symbol?
    ensures var s := lines[i].constant.name;
      Loaded(lines[..i + 1], Local(s), Family(s)) == Loaded(lines[..i], Local(s), Family(s)) + {s}
  {
    hide KindOf, IsArg, IsShared;
    assert lines[..i + 1][..i] == lines[..i];
  }

  lemma {:induction false} FitsRoomy(lines: seq<Line>, i: nat, local: bool, kind: Kind)
    requires i <= |lines| && forall j :: 0 <= j < i ==> NumberFits(lines, j)
    ensures |Loaded(lines[..i], local, kind)| <= 0x2000 - First(kind)
  {
    hide ConstantNumber, Local, KindOf, IsArg, IsShared;
    if i > 0 {
      FitsRoomy(lines, i - 1, local, kind);
      assert lines[..i][..i - 1] == lines[..i - 1];
      var line := lines[i - 1];
      if Loads(line, local, kind) != {} {
        assert NumberFits(lines, i - 1);
        ConstantNumberIs(lines, i - 1);
        LoadedNext(lines, i - 1);
        var names := Loaded(lines[..i - 1], local, kind);
        if line.constant.name in names { assert names + {line.constant.name} == names; }
      }
    }
  }

  /** The numbers of all loaded symbols fit exactly when no family outgrows its range. */
  lemma AllNumbersFit(lines: seq<Line>)
    ensures (forall i :: 0 <= i < |lines| ==> NumberFits(lines, i))
            <==> (forall i :: 0 <= i < |lines| ==> Roomy(lines, i))
  {
    hide NumberFits, Roomy;
    forall i | 0 <= i < |lines| && Roomy(lines, i) ensures NumberFits(lines, i) { RoomyFits(lines, i); }
    if forall i :: 0 <= i < |lines| ==> NumberFits(lines, i) {
      forall i | 0 <= i < |lines| ensures Roomy(lines, i) { RoomAt(lines, i); }
    }
  }

  lemma RoomAt(lines: seq<Line>, i: nat)
    requires i < |lines| && forall j :: 0 <= j < |lines| ==> NumberFits(lines, j)
    ensures Roomy(lines, i)
  {
    hide NumberFits, Local, KindOf, IsArg, IsShared;
    if lines[i].LoadConst? && lines[i].constant.Symbol? {
      FitsRoomy(lines, i + 1, Local(lines[i].constant.name), Family(lines[i].constant.name));
    }
  }

  /** The key of the label an instruction leads to: labels belong to their kernel, callees to all. */
  function Destination(lines: seq<Line>, i: nat): Option<string>
    requires i < |lines|
  {
    match lines[i]
    case Jump(_, target) => Some(Scoped(ScopeAt(lines, i), target))
    case Branch(_, _, target) => Some(Scoped(ScopeAt(lines, i), target))
    case CallKernel(callee) => Some(callee)
    case _ => None
  }

  /** The last definition of the label an instruction leads to is near enough. */
  ghost predicate Reaches(lines: seq<Line>, i: nat)
    requires i < |lines|
  {
    Destination(lines, i).Some? ==>
      exists q ::
        && 0 <= q < |lines| && Defines(lines, q) == Destination(lines, i)
        && (forall r :: q < r < |lines| ==> Defines(lines, r) != Destination(lines, i))
        && -0x2000 <= InstructionCount(lines[..q]) - (InstructionCount(lines[..i]) + 1) < 0x2000
  }

  lemma DefinitionUnique(lines: seq<Line>, key: string, p: nat, q: nat)
    requires p < |lines| && q < |lines| && Defines(lines, p) == Some(key) == Defines(lines, q)
    requires forall r :: p < r < |lines| ==> Defines(lines, r) != Some(key)
    requires forall r :: q < r < |lines| ==> Defines(lines, r) != Some(key)
    ensures p == q
  {
  }

  lemma ReachesExactly(lines: seq<Line>, i: nat)
    requires i < |lines|
    ensures Reaches(lines, i) <==>
              (Destination(lines, i).Some? ==>
                 var key, labels := Destination(lines, i).value, FirstPass(lines).labels;
                 key in labels && -0x2000 <= labels[key] - (InstructionCount(lines[..i]) + 1) < 0x2000)
  {
    hide Destination, FirstPass, Defines, InstructionCount;
    if Destination(lines, i).Some? {
      var key := Destination(lines, i).value;
      LabelTable(lines, key);
      if key in FirstPass(lines).labels {
        var q :| 0 <= q < |lines| && Defines(lines, q) == Some(key)
          && FirstPass(lines).labels[key] == InstructionCount(lines[..q])
          && forall r :: q < r < |lines| ==> Defines(lines, r) != Some(key);
        forall p | 0 <= p < |lines| && Defines(lines, p) == Some(key)
          && (forall r :: p < r < |lines| ==> Defines(lines, r) != Some(key))
          ensures p == q
        {
          DefinitionUnique(lines, key, p, q);
        }
      }
    }
  }

  lemma LineEncodesExactly(lines: seq<Line>, i: nat)
    requires i < |lines| && IsInstruction(lines[i])
    ensures LineEncodes(lines, i) <==>
              && Shaped(lines[i]) && RegistersFit(lines[i]) && ImmediatesFit(lines[i])
              && Reaches(lines, i) && NumberFits(lines, i)
  {
    hide ScopeAt, InstructionCount, FirstPass, Encode, IsArg, IsShared, SymbolId, ConstId, Reaches, NumbersBefore;
    EncodeExactly(Encoded(lines, i), InstructionCount(lines[..i]), FirstPass(lines).labels);
    ReachesExactly(lines, i);
  }

  /** A text is accepted exactly when every instruction has an opcode that takes its operands,
      registers below 16, immediates of 14 bits and memory offsets of 11, every jump, branch and call
      leads to a defined label near enough, and each family of symbols leaves its numbers in range. */
  lemma AssemblesExactly(lines: seq<Line>)
    ensures Assemble(lines).Ok? <==>
              forall i :: 0 <= i < |lines| && IsInstruction(lines[i]) ==>
                && Shaped(lines[i]) && RegistersFit(lines[i]) && ImmediatesFit(lines[i])
                && Reaches(lines, i) && Roomy(lines, i)
  {
    hide Assemble, LineEncodes, Shaped, RegistersFit, ImmediatesFit, Reaches, Roomy, NumberFits;
    AssemblesByLine(lines);
    AllNumbersFit(lines);
    forall i | 0 <= i < |lines| && IsInstruction(lines[i])
      ensures LineEncodes(lines, i) <==>
        && Shaped(lines[i]) && RegistersFit(lines[i]) && ImmediatesFit(lines[i])
        && Reaches(lines, i) && NumberFits(lines, i)
    {
      LineEncodesExactly(lines, i);
    }
    forall i | 0 <= i < |lines| && !IsInstruction(lines[i]) ensures Roomy(lines, i) && NumberFits(lines, i) {
      NothingLoaded(lines, i);
    }
  }

  lemma NothingLoaded(lines: seq<Line>, i: nat)
    requires i < |lines| && !IsInstruction(lines[i])
    ensures Roomy(lines, i) && NumberFits(lines, i)
  {
  }
}
