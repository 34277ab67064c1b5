/** The two-pass assembler: labels and constants by kernel, then words. */
module Assembler {
  import opened Words
  import opened Isa
  import opened Encoding

  const GLOBAL := "__global__"
  const FIRST_SHARED_ID := 32
  const FIRST_CONST_ID := 64

  /** A directive without a name opens the global scope. */
  function ScopeName(kernel: string): string {
    if kernel == "" then GLOBAL else kernel
  }

  function Scoped(scope: string, name: string): string {
    scope + ":" + name
  }

  // ----- the first pass -----

  datatype Pass = Pass(scope: string, labels: Labels, instructions: seq<Line>,
                       args: map<string, nat>, shared: map<string, nat>)

  function Number(ids: map<string, nat>, s: string, base: nat): map<string, nat> {
    if s in ids then ids else ids[s := base + |ids|]
  }

  /** One instruction with its label scoped and its kernel-local constant numbered. */
  function ScopeLine(p: Pass, line: Line): Pass {
    match line
    case Jump(op, target) => p.(instructions := p.instructions + [Jump(op, Scoped(p.scope, target))])
    case Branch(op, rs1, target) => p.(instructions := p.instructions + [Branch(op, rs1, Scoped(p.scope, target))])
    case LoadConst(rd, Symbol(s)) =>
      if IsArg(s) then
        var args := Number(p.args, s, 0);
        p.(args := args, instructions := p.instructions + [LoadConst(rd, Id(args[s]))])
      else if IsShared(s) then
        var shared := Number(p.shared, s, FIRST_SHARED_ID);
        p.(shared := shared, instructions := p.instructions + [LoadConst(rd, Id(shared[s]))])
      else p.(instructions := p.instructions + [line])
    case _ => p.(instructions := p.instructions + [line])
  }

  function PassLine(p: Pass, line: Line): Pass {
    match line
    case KernelDir(k) => Pass(ScopeName(k), p.labels[ScopeName(k) := |p.instructions|], p.instructions, map[], map[])
    case LabelDef(l) => p.(labels := p.labels[Scoped(p.scope, l) := |p.instructions|])
    case _ => ScopeLine(p, line)
  }

  function FirstPass(lines: seq<Line>): Pass {
    if lines == [] then Pass(GLOBAL, map[], [], map[], map[])
    else PassLine(FirstPass(lines[..|lines| - 1]), lines[|lines| - 1])
  }

  // ----- the second pass -----

  /** Other symbols are numbered as they are met. */
  datatype Numbers = Numbers(ids: map<string, nat>, nextArg: nat, nextShared: nat, nextConst: nat)

  const NO_NUMBERS := Numbers(map[], 0, FIRST_SHARED_ID, FIRST_CONST_ID)

  function AfterColon(s: string): string
  {
    if s == "" then ""
    else if s[0] == ':' then s[1..]
    else AfterColon(s[1..])
  }

  function ConstSymbol(name: string): string {
    if ':' in name then AfterColon(name) else name
  }

  function ConstId(n: Numbers, name: string): (Numbers, nat) {
    if name in n.ids then (n, n.ids[name])
    else
      var symbol := ConstSymbol(name);
      if IsArg(symbol) then (n.(ids := n.ids[name := n.nextArg], nextArg := n.nextArg + 1), n.nextArg)
      else if IsShared(symbol) then
        (n.(ids := n.ids[name := n.nextShared], nextShared := n.nextShared + 1), n.nextShared)
      else (n.(ids := n.ids[name := n.nextConst], nextConst := n.nextConst + 1), n.nextConst)
  }

  function Resolve(n: Numbers, line: Line): (Numbers, Line) {
    if line.LoadConst? && line.constant.Symbol? then
      var (next, id) := ConstId(n, line.constant.name);
      (next, LoadConst(line.rd, Id(id)))
    else (n, line)
  }

  function EncodeAll(lines: seq<Line>, pc: nat, labels: Labels, n: Numbers): Outcome<seq<nat>>
    decreases |lines|
  {
    if lines == [] then Ok([])
    else
      var (next, line) := Resolve(n, lines[0]);
      var w :- Encode(line, pc, labels);
      var ws :- EncodeAll(lines[1..], pc + 1, labels, next);
      Ok([w] + ws)
  }

  function Assemble(lines: seq<Line>): Outcome<seq<nat>> {
    var p := FirstPass(lines);
    EncodeAll(p.instructions, 0, p.labels, NO_NUMBERS)
  }

  // ----- where things are in the text -----

  /** How many instructions a text holds. */
  function InstructionCount(lines: seq<Line>): nat {
    if lines == [] then 0
    else InstructionCount(lines[..|lines| - 1]) + (if IsInstruction(lines[|lines| - 1]) then 1 else 0)
  }

  /** The scope in force at line i: that of the last kernel directive above it. */
  function ScopeAt(lines: seq<Line>, i: nat): string
    requires i <= |lines|
  {
    if i == 0 then GLOBAL
    else if lines[i - 1].KernelDir? then ScopeName(lines[i - 1].kernel)
    else ScopeAt(lines, i - 1)
  }

  /** The label a line defines, as a key of the label table. */
  function Defines(lines: seq<Line>, i: nat): Option<string>
    requires i < |lines|
  {
    match lines[i]
    case KernelDir(k) => Some(ScopeName(k))
    case LabelDef(l) => Some(Scoped(ScopeAt(lines, i), l))
    case _ => None
  }

  lemma {:induction false} ScopeAtPrefix(lines: seq<Line>, n: nat, i: nat)
    requires i <= n <= |lines|
    ensures ScopeAt(lines[..n], i) == ScopeAt(lines, i)
    decreases i
  {
    if i > 0 { ScopeAtPrefix(lines, n, i - 1); }
  }

  lemma {:induction false} FirstPassPlaces(lines: seq<Line>)
    ensures |FirstPass(lines).instructions| == InstructionCount(lines)
    ensures FirstPass(lines).scope == ScopeAt(lines, |lines|)
  {
    if lines != [] {
      var init := lines[..|lines| - 1];
      FirstPassPlaces(init);
      ScopeAtPrefix(lines, |init|, |init|);
    }
  }

  /** The label table maps each defined key to the index of the instruction after its last
      definition, and holds nothing else. */
  lemma {:induction false} LabelTable(lines: seq<Line>, key: string)
    ensures key in FirstPass(lines).labels ==>
              exists q :: 0 <= q < |lines| && Defines(lines, q) == Some(key)
                && FirstPass(lines).labels[key] == InstructionCount(lines[..q])
                && forall r :: q < r < |lines| ==> Defines(lines, r) != Some(key)
    ensures key !in FirstPass(lines).labels ==> forall q :: 0 <= q < |lines| ==> Defines(lines, q) != Some(key)
  {
    hide InstructionCount, ScopeAt, FirstPass, Defines;
    if lines == [] {
      NoLabels();
    } else {
      var n := |lines| - 1;
      var init := lines[..n];
      LabelTable(init, key);
      forall q | 0 <= q < n ensures Defines(init, q) == Defines(lines, q) && init[..q] == lines[..q] {
        DefinesPrefix(lines, n, q);
      }
      LastLineLabels(lines, key);
      if Defines(lines, n) != Some(key) && key in FirstPass(lines).labels {
        assert key in FirstPass(init).labels && FirstPass(lines).labels[key] == FirstPass(init).labels[key];
        var q :| 0 <= q < n && Defines(init, q) == Some(key)
          && FirstPass(init).labels[key] == InstructionCount(init[..q])
          && forall r :: q < r < n ==> Defines(init, r) != Some(key);
        assert Defines(lines, q) == Some(key) && FirstPass(lines).labels[key] == InstructionCount(lines[..q]);
      }
    }
  }

  lemma NoLabels()
    ensures FirstPass([]).labels == map[]
  {
  }

  lemma DefinesPrefix(lines: seq<Line>, n: nat, q: nat)
    requires q < n <= |lines|
    ensures Defines(lines[..n], q) == Defines(lines, q) && lines[..n][..q] == lines[..q]
  {
    ScopeAtPrefix(lines, n, q);
  }

  /** What the last line of a text does to the label table. */
  lemma LastLineLabels(lines: seq<Line>, key: string)
    requires lines != []
    ensures var n := |lines| - 1; var before, after := FirstPass(lines[..n]).labels, FirstPass(lines).labels;
            if Defines(lines, n) == Some(key) then key in after && after[key] == InstructionCount(lines[..n])
            else (key in after <==> key in before) && (key in after ==> after[key] == before[key])
  {
    hide InstructionCount, ScopeAt, ScopeLine;
    var n := |lines| - 1;
    FirstPassPlaces(lines[..n]);
    ScopeAtPrefix(lines, n, n);
    ScopeLineKeeps(FirstPass(lines[..n]), lines[n]);
  }

  /** The instruction of line i sits at the index the instructions above it give. */
  lemma {:induction false} InstructionAt(lines: seq<Line>, i: nat)
    requires i < |lines| && IsInstruction(lines[i])
    ensures InstructionCount(lines[..i]) < |FirstPass(lines).instructions|
    ensures FirstPass(lines).instructions[InstructionCount(lines[..i])]
            == ScopeLine(FirstPass(lines[..i]), lines[i]).instructions[|FirstPass(lines[..i]).instructions|]
    decreases |lines|
  {
    hide ScopeLine, InstructionCount, PassLine;
    var n := |lines| - 1;
    FirstPassPlaces(lines[..i]);
    PassLineExtends(FirstPass(lines[..n]), lines[n]);
    if i < n {
      InstructionAt(lines[..n], i);
      assert lines[..n][..i] == lines[..i];
    }
  }

  lemma PassLineExtends(p: Pass, line: Line)
    ensures p.instructions <= PassLine(p, line).instructions
    ensures IsInstruction(line) ==>
              PassLine(p, line) == ScopeLine(p, line) && |ScopeLine(p, line).instructions| == |p.instructions| + 1
  {
  }

  // ----- names -----

  predicate ColonFree(s: string) {
    ':' !in s
  }

  lemma ScopedInjective(a: string, x: string, b: string, y: string)
    requires ColonFree(a) && ColonFree(b) && Scoped(a, x) == Scoped(b, y)
    ensures a == b && x == y
  {
    var s, t := Scoped(a, x), Scoped(b, y);
    assert s[|a|] == ':' && t[|b|] == ':';
    assert forall k :: 0 <= k < |a| ==> s[k] != ':';
    assert forall k :: 0 <= k < |b| ==> t[k] != ':';
    assert a == s[..|a|] && b == t[..|b|];
    assert x == s[|a| + 1..] && y == t[|b| + 1..];
  }

  lemma ScopedHasColon(a: string, x: string)
    ensures !ColonFree(Scoped(a, x))
  {
    assert Scoped(a, x)[|a|] == ':';
  }

  predicate KernelsColonFree(lines: seq<Line>) {
    forall i :: 0 <= i < |lines| && lines[i].KernelDir? ==> ColonFree(lines[i].kernel)
  }

  lemma {:induction false} ScopesColonFree(lines: seq<Line>, i: nat)
    requires KernelsColonFree(lines) && i <= |lines|
    ensures ColonFree(ScopeAt(lines, i))
    decreases i
  {
    if i > 0 { ScopesColonFree(lines, i - 1); }
  }

  /** Line q holds the last definition of a label in the scope of line i. */
  ghost predicate LastLabel(lines: seq<Line>, i: nat, name: string, q: nat)
    requires i < |lines|
  {
    && q < |lines| && lines[q] == LabelDef(name) && ScopeAt(lines, q) == ScopeAt(lines, i)
    && forall r :: q < r < |lines| && lines[r] == LabelDef(name) ==> ScopeAt(lines, r) != ScopeAt(lines, i)
  }

  /** A scoped label is found in its own kernel and nowhere else. */
  lemma LabelOfScope(lines: seq<Line>, i: nat, name: string) returns (q: nat)
    requires KernelsColonFree(lines) && i < |lines|
    requires Scoped(ScopeAt(lines, i), name) in FirstPass(lines).labels
    ensures LastLabel(lines, i, name, q)
    ensures FirstPass(lines).labels[Scoped(ScopeAt(lines, i), name)] == InstructionCount(lines[..q])
  {
    hide InstructionCount, ScopeAt, FirstPass;
    var key := Scoped(ScopeAt(lines, i), name);
    LabelTable(lines, key);
    q :| 0 <= q < |lines| && Defines(lines, q) == Some(key)
      && FirstPass(lines).labels[key] == InstructionCount(lines[..q])
      && forall r :: q < r < |lines| ==> Defines(lines, r) != Some(key);
    ScopedHasColon(ScopeAt(lines, i), name);
    ScopesColonFree(lines, i);
    ScopesColonFree(lines, q);
    assert lines[q].LabelDef?;
    ScopedInjective(ScopeAt(lines, q), lines[q].name, ScopeAt(lines, i), name);
    forall r | q < r < |lines| && lines[r] == LabelDef(name) ensures ScopeAt(lines, r) != ScopeAt(lines, i) {
      assert Defines(lines, r) == Some(Scoped(ScopeAt(lines, r), name));
    }
  }

  /** Kernel names are given at most once. */
  predicate KernelsDistinct(lines: seq<Line>) {
    forall i, j :: 0 <= i < j < |lines| && lines[i].KernelDir? && lines[j].KernelDir? ==>
      ScopeName(lines[i].kernel) != ScopeName(lines[j].kernel)
  }

  /** A kernel's name stands for the index of its first instruction. */
  lemma KernelLabel(lines: seq<Line>, q: nat)
    requires KernelsColonFree(lines) && KernelsDistinct(lines) && q < |lines| && lines[q].KernelDir?
    ensures ScopeName(lines[q].kernel) in FirstPass(lines).labels
    ensures FirstPass(lines).labels[ScopeName(lines[q].kernel)] == InstructionCount(lines[..q])
  {
    hide InstructionCount, ScopeAt, FirstPass, KernelsColonFree, KernelsDistinct, ScopeName;
    var key := ScopeName(lines[q].kernel);
    LabelTable(lines, key);
    assert Defines(lines, q) == Some(key);
    ScopeNameColonFree(lines, q);
    var p := KernelOfLabel(lines, key);
    SameKernel(lines, p, q);
  }

  lemma SameKernel(lines: seq<Line>, p: nat, q: nat)
    requires KernelsDistinct(lines) && p < |lines| && q < |lines| && lines[p].KernelDir? && lines[q].KernelDir?
    requires ScopeName(lines[p].kernel) == ScopeName(lines[q].kernel)
    ensures p == q
  {
  }

  lemma ScopeNameColonFree(lines: seq<Line>, q: nat)
    requires KernelsColonFree(lines) && q < |lines| && lines[q].KernelDir?
    ensures ColonFree(ScopeName(lines[q].kernel))
  {
  }

  lemma KernelOfLabel(lines: seq<Line>, key: string) returns (q: nat)
    requires KernelsColonFree(lines) && KernelsDistinct(lines) && ColonFree(key) && key in FirstPass(lines).labels
    ensures q < |lines| && lines[q].KernelDir? && ScopeName(lines[q].kernel) == key
    ensures FirstPass(lines).labels[key] == InstructionCount(lines[..q])
  {
    hide InstructionCount, ScopeAt, FirstPass;
    LabelTable(lines, key);
    q :| 0 <= q < |lines| && Defines(lines, q) == Some(key)
      && FirstPass(lines).labels[key] == InstructionCount(lines[..q])
      && forall r :: q < r < |lines| ==> Defines(lines, r) != Some(key);
    if lines[q].LabelDef? { ScopedHasColon(ScopeAt(lines, q), lines[q].name); }
  }

  // ----- the whole assembler -----

  // ----- the numbers of other symbols -----

  datatype Kind = ArgKind | SharedKind | ConstKind

  function KindOf(name: string): Kind {
    var symbol := ConstSymbol(name);
    if IsArg(symbol) then ArgKind else if IsShared(symbol) then SharedKind else ConstKind
  }

  function First(k: Kind): nat {
    match k
    case ArgKind => 0
    case SharedKind => FIRST_SHARED_ID
    case ConstKind => FIRST_CONST_ID
  }

  function Next(n: Numbers, k: Kind): nat {
    match k
    case ArgKind => n.nextArg
    case SharedKind => n.nextShared
    case ConstKind => n.nextConst
  }

  /** Names of one kind have distinct numbers, from the kind's first one on. */
  ghost predicate Numbered(n: Numbers) {
    && FIRST_SHARED_ID <= n.nextShared && FIRST_CONST_ID <= n.nextConst
    && (forall s :: s in n.ids ==> First(KindOf(s)) <= n.ids[s] < Next(n, KindOf(s)))
    && (forall s, t :: s in n.ids && t in n.ids && KindOf(s) == KindOf(t) && n.ids[s] == n.ids[t] ==> s == t)
  }

  /** Numbering a name keeps names of one kind apart and never renumbers one. */
  lemma ConstIdNumbers(n: Numbers, name: string)
    requires Numbered(n)
    ensures var (next, id) := ConstId(n, name);
            && Numbered(next) && name in next.ids && next.ids[name] == id
            && forall s :: s in n.ids ==> s in next.ids && next.ids[s] == n.ids[s]
  {
    hide ConstSymbol;
  }

  /** The numbers given out before line k. */
  function NumbersAt(n: Numbers, lines: seq<Line>, k: nat): Numbers
    requires k <= |lines|
  {
    if k == 0 then n else Resolve(NumbersAt(n, lines, k - 1), lines[k - 1]).0
  }

  lemma {:induction false} NumbersShift(n: Numbers, lines: seq<Line>, k: nat)
    requires 0 < k <= |lines|
    ensures NumbersAt(n, lines, k) == NumbersAt(Resolve(n, lines[0]).0, lines[1..], k - 1)
    decreases k
  {
    hide Resolve;
    if k > 1 { NumbersShift(n, lines, k - 1); } else { assert NumbersAt(n, lines, 0) == n; }
  }

  lemma {:induction false} NumbersGrow(n: Numbers, lines: seq<Line>, i: nat, j: nat)
    requires Numbered(n) && i <= j <= |lines|
    ensures Numbered(NumbersAt(n, lines, j))
    ensures forall s :: s in NumbersAt(n, lines, i).ids ==>
              s in NumbersAt(n, lines, j).ids && NumbersAt(n, lines, j).ids[s] == NumbersAt(n, lines, i).ids[s]
    decreases j
  {
    hide Numbered, ConstId;
    if j > 0 {
      NumbersGrow(n, lines, if i < j then i else j - 1, j - 1);
      if lines[j - 1].LoadConst? && lines[j - 1].constant.Symbol? {
        ConstIdNumbers(NumbersAt(n, lines, j - 1), lines[j - 1].constant.name);
      }
    }
  }

  lemma {:induction false} EncodeAllAt(lines: seq<Line>, pc: nat, labels: Labels, n: Numbers, k: nat)
    requires EncodeAll(lines, pc, labels, n).Ok? && k < |lines|
    ensures |EncodeAll(lines, pc, labels, n).value| == |lines|
    ensures Encode(Resolve(NumbersAt(n, lines, k), lines[k]).1, pc + k, labels)
            == Ok(EncodeAll(lines, pc, labels, n).value[k])
    decreases |lines|
  {
    hide Encode, Resolve;
    var (next, line) := Resolve(n, lines[0]);
    if k == 0 {
      if |lines| > 1 { EncodeAllAt(lines[1..], pc + 1, labels, next, 0); }
    } else {
      EncodeAllAt(lines[1..], pc + 1, labels, next, k - 1);
      NumbersShift(n, lines, k);
    }
  }

  /** A line that loads a symbol which is neither a parameter's nor a shared one's. */
  predicate LoadsOther(line: Line) {
    line.LoadConst? && line.constant.Symbol?
    && !IsArg(line.constant.name) && !IsShared(line.constant.name) && KindOf(line.constant.name).ConstKind?
  }

  /** Other constants are numbered from 64 on, over the whole text: two loads carry the same number
      exactly when they name the same symbol. */
  lemma OtherConstants(lines: seq<Line>, i: nat, j: nat)
    requires Assemble(lines).Ok? && i < |lines| && j < |lines| && LoadsOther(lines[i]) && LoadsOther(lines[j])
    ensures var p, q := InstructionCount(lines[..i]), InstructionCount(lines[..j]);
            && p < |Assemble(lines).value| && q < |Assemble(lines).value|
            && var x, y := Decode(Assemble(lines).value[p]).imm, Decode(Assemble(lines).value[q]).imm;
               x >= FIRST_CONST_ID && (x == y <==> lines[i].constant.name == lines[j].constant.name)
  {
    hide InstructionCount, FirstPass, EncodeAll, Encode, Decode, NumbersAt, KindOf, Assemble;
    var last := NumbersAt(NO_NUMBERS, FirstPass(lines).instructions, |FirstPass(lines).instructions|);
    NumbersGrow(NO_NUMBERS, FirstPass(lines).instructions, 0, |FirstPass(lines).instructions|);
    OtherNumber(lines, i);
    OtherNumber(lines, j);
  }

  /** The number of such a load is the one its symbol has once all are given out. */
  lemma OtherNumber(lines: seq<Line>, i: nat)
    requires Assemble(lines).Ok? && i < |lines| && LoadsOther(lines[i])
    ensures var pc, all := InstructionCount(lines[..i]), FirstPass(lines).instructions;
            var last, s := NumbersAt(NO_NUMBERS, all, |all|), lines[i].constant.name;
            && pc < |Assemble(lines).value| && s in last.ids
            && Decode(Assemble(lines).value[pc]).imm == last.ids[s]
  {
    hide InstructionCount, FirstPass, EncodeAll, Encode, Decode, Numbered, KindOf, ConstId;
    var p, pc := FirstPass(lines), InstructionCount(lines[..i]);
    FirstPassPlaces(lines);
    FirstPassPlaces(lines[..i]);
    InstructionAt(lines, i);
    assert p.instructions[pc] == lines[i];
    EncodeAllAt(p.instructions, 0, p.labels, NO_NUMBERS, pc);
    EncodeCarries(Resolve(NumbersAt(NO_NUMBERS, p.instructions, pc), p.instructions[pc]).1, pc, p.labels);
    NoneNumbered();
    NumbersGrow(NO_NUMBERS, p.instructions, 0, pc);
    ConstIdNumbers(NumbersAt(NO_NUMBERS, p.instructions, pc), lines[i].constant.name);
    NumbersGrow(NO_NUMBERS, p.instructions, pc + 1, |p.instructions|);
  }

  lemma NoneNumbered()
    ensures Numbered(NO_NUMBERS)
  {
  }

  /** The number a kernel-local symbol has at line i. */
  function SymbolId(lines: seq<Line>, i: nat, s: string): nat
    requires i <= |lines| && (IsArg(s) || IsShared(s))
  {
    var p := FirstPass(lines[..i]);
    if IsArg(s) then Number(p.args, s, 0)[s] else Number(p.shared, s, FIRST_SHARED_ID)[s]
  }

  /** Assembler correctness. For every text that assembles, the word of each instruction decodes to
      its opcode, registers, immediate, memory offset and format; a branch leads to the
      instruction after the last definition of its label in its own kernel, a kernel call to the
      kernel's first instruction, and a kernel-local constant to its number. */
  lemma Assembled(lines: seq<Line>, i: nat)
    requires KernelsColonFree(lines) && KernelsDistinct(lines) && Assemble(lines).Ok?
    requires i < |lines| && IsInstruction(lines[i])
    ensures |Assemble(lines).value| == InstructionCount(lines)
    ensures var pc := InstructionCount(lines[..i]);
            && pc < |Assemble(lines).value|
            && var f := Decode(Assemble(lines).value[pc]);
               && Carries(f, lines[i]) && Shaped(lines[i])
               && (lines[i].Jump? || lines[i].Branch? ==>
                     exists q: nat ::
                       LastLabel(lines, i, lines[i].target, q) && pc + 1 + f.imm == InstructionCount(lines[..q]))
               && (lines[i].CallKernel? && ColonFree(lines[i].callee) ==>
                     exists q: nat ::
                       q < |lines| && lines[q].KernelDir? && ScopeName(lines[q].kernel) == lines[i].callee
                       && pc + 1 + f.imm == InstructionCount(lines[..q]))
               && (lines[i].LoadConst? && lines[i].constant.Symbol?
                   && (IsArg(lines[i].constant.name) || IsShared(lines[i].constant.name)) ==>
                     f.imm == SymbolId(lines, i, lines[i].constant.name))
  {
    hide InstructionCount, ScopeAt, FirstPass, EncodeAll, Encode, Decode, LastLabel;
    var p, pc, line := FirstPass(lines), InstructionCount(lines[..i]), lines[i];
    FirstPassPlaces(lines);
    FirstPassPlaces(lines[..i]);
    ScopeAtPrefix(lines, i, i);
    InstructionAt(lines, i);
    EncodeAllAt(p.instructions, 0, p.labels, NO_NUMBERS, pc);
    var resolved := Resolve(NumbersAt(NO_NUMBERS, p.instructions, pc), p.instructions[pc]).1;
    EncodeCarries(resolved, pc, p.labels);
    if line.Jump? || line.Branch? {
      var q := LabelOfScope(lines, i, line.target);
    }
    if line.CallKernel? && ColonFree(line.callee) {
      var q := KernelOfLabel(lines, line.callee);
    }
  }

  // ----- the assembler as it runs -----

  class AssemblerState {
    var labels: Labels
    var constants: map<string, nat>
    var nextArgId: nat
    var nextSharedId: nat
    var nextConstId: nat

    constructor ()
      ensures labels == map[] && Ids() == NO_NUMBERS
    {
      labels, constants, nextArgId, nextSharedId, nextConstId := map[], map[], 0, FIRST_SHARED_ID, FIRST_CONST_ID;
    }

    function Ids(): Numbers
      reads this
    {
      Numbers(constants, nextArgId, nextSharedId, nextConstId)
    }

    method AssignId(name: string) returns (id: nat)
      modifies this
      ensures (Ids(), id) == ConstId(old(Ids()), name) && labels == old(labels)
    {
      if name in constants {
        return constants[name];
      }
      var symbol := ConstSymbol(name);
      if IsArg(symbol) {
        id := nextArgId;
        nextArgId := nextArgId + 1;
      } else if IsShared(symbol) {
        id := nextSharedId;
        nextSharedId := nextSharedId + 1;
      } else {
        id := nextConstId;
        nextConstId := nextConstId + 1;
      }
      constants := constants[name := id];
    }
  }

  /** Collects labels and numbers kernel-local constants, line by line. */
  method ParseProgram(lines: seq<Line>) returns (instructions: seq<Line>, state: AssemblerState)
    ensures fresh(state) && state.labels == FirstPass(lines).labels && state.Ids() == NO_NUMBERS
    ensures instructions == FirstPass(lines).instructions
  {
    hide ScopeLine;
    state := new AssemblerState();
    instructions := [];
    var scope := GLOBAL;
    var argIds: map<string, nat>, sharedIds: map<string, nat> := map[], map[];
    for i := 0 to |lines|
      invariant fresh(state) && state.Ids() == NO_NUMBERS
      invariant Pass(scope, state.labels, instructions, argIds, sharedIds) == FirstPass(lines[..i])
    {
      assert lines[..i + 1][..i] == lines[..i];
      var line := lines[i];
      if line.KernelDir? {
        scope := ScopeName(line.kernel);
        state.labels := state.labels[scope := |instructions|];
        state.nextArgId, state.nextSharedId := 0, FIRST_SHARED_ID;
        argIds, sharedIds := map[], map[];
      } else if line.LabelDef? {
        state.labels := state.labels[Scoped(scope, line.name) := |instructions|];
      } else {
        var scoped := ScopeLine(Pass(scope, state.labels, instructions, argIds, sharedIds), line);
        ScopeLineKeeps(Pass(scope, state.labels, instructions, argIds, sharedIds), line);
        instructions, argIds, sharedIds := scoped.instructions, scoped.args, scoped.shared;
      }
    }
    assert lines[..|lines|] == lines;
  }

  lemma ScopeLineKeeps(p: Pass, line: Line)
    ensures ScopeLine(p, line).scope == p.scope && ScopeLine(p, line).labels == p.labels
  {
  }

  /** Encodes every instruction in order, numbering other symbols as they are met. */
  method IsaToWords(lines: seq<Line>) returns (words: Outcome<seq<nat>>)
    ensures words == Assemble(lines)
  {
    hide FirstPass, Encode, ConstId, EncodeAll;
    var instructions, state := ParseProgram(lines);
    var ws: seq<nat> := [];
    var pc := 0;
    assert instructions[0..] == instructions;
    AfterShift([], 0, EncodeAll(instructions, 0, state.labels, state.Ids()));
    while pc < |instructions|
      invariant pc <= |instructions| && fresh(state) && state.labels == FirstPass(lines).labels
      invariant Assemble(lines) == After(ws, EncodeAll(instructions[pc..], pc, state.labels, state.Ids()))
    {
      var line := instructions[pc];
      EncodeAllStep(instructions, pc, state.labels, state.Ids());
      ghost var ids := state.Ids();
      if line.LoadConst? && line.constant.Symbol? {
        var id := state.AssignId(line.constant.name);
        line := LoadConst(line.rd, Id(id));
      }
      assert (state.Ids(), line) == Resolve(ids, instructions[pc]);
      var word := Encode(line, pc, state.labels);
      if word.Raise? {
        return Raise;
      }
      AfterShift(ws, word.value, EncodeAll(instructions[pc + 1..], pc + 1, state.labels, state.Ids()));
      ws := ws + [word.value];
      pc := pc + 1;
    }
    assert instructions[pc..] == [];
    EncodeNothing(pc, state.labels, state.Ids());
    assert ws + [] == ws;
    return Ok(ws);
  }

  /** Words already produced, in front of the outcome for the rest. */
  function After(ws: seq<nat>, rest: Outcome<seq<nat>>): Outcome<seq<nat>> {
    if rest.Ok? then Ok(ws + rest.value) else Raise
  }

  lemma AfterShift(ws: seq<nat>, w: nat, rest: Outcome<seq<nat>>)
    ensures After(ws, After([w], rest)) == After(ws + [w], rest)
    ensures After([], rest) == rest
  {
    if rest.Ok? {
      assert ws + ([w] + rest.value) == ws + [w] + rest.value;
      assert [] + rest.value == rest.value;
    }
  }

  lemma EncodeAllStep(lines: seq<Line>, pc: nat, labels: Labels, n: Numbers)
    requires pc < |lines|
    ensures var (next, line) := Resolve(n, lines[pc]);
            EncodeAll(lines[pc..], pc, labels, n)
            == match Encode(line, pc, labels)
               case Raise => Raise
               case Ok(w) => After([w], EncodeAll(lines[pc + 1..], pc + 1, labels, next))
  {
    hide Encode;
    assert lines[pc..][1..] == lines[pc + 1..];
  }

  lemma EncodeNothing(pc: nat, labels: Labels, n: Numbers)
    ensures EncodeAll([], pc, labels, n) == Ok([])
  {
  }

  /** The kernel symbols of a text with their start indices. */
  function KernelSymbols(lines: seq<Line>): seq<(string, nat)> {
    if lines == [] then []
    else
      var n := |lines| - 1;
      KernelSymbols(lines[..n])
      + (if lines[n].KernelDir? && lines[n].kernel != "" then [(lines[n].kernel, InstructionCount(lines[..n]))] else [])
  }

  method KernelMap(lines: seq<Line>) returns (symbols: seq<(string, nat)>, words: nat)
    ensures symbols == KernelSymbols(lines) && words == InstructionCount(lines)
  {
    symbols := [];
    words := 0;
    for i := 0 to |lines|
      invariant symbols == KernelSymbols(lines[..i]) && words == InstructionCount(lines[..i])
    {
      assert lines[..i + 1][..i] == lines[..i];
      if lines[i].KernelDir? {
        if lines[i].kernel != "" {
          symbols := symbols + [(lines[i].kernel, words)];
        }
      } else if !lines[i].LabelDef? {
        words := words + 1;
      }
    }
    assert lines[..|lines|] == lines;
  }

  lemma {:induction false} SymbolAt(lines: seq<Line>, k: nat) returns (q: nat)
    requires k < |KernelSymbols(lines)|
    ensures q < |lines| && lines[q].KernelDir? && lines[q].kernel != ""
    ensures KernelSymbols(lines)[k] == (lines[q].kernel, InstructionCount(lines[..q]))
    decreases |lines|
  {
    var n := |lines| - 1;
    if k < |KernelSymbols(lines[..n])| {
      q := SymbolAt(lines[..n], k);
      assert lines[..n][..q] == lines[..q];
    } else {
      q := n;
    }
  }

  /** The published map gives every kernel the start index the assembler's label table has. */
  lemma KernelMapAgrees(lines: seq<Line>, k: nat)
    requires KernelsColonFree(lines) && KernelsDistinct(lines) && k < |KernelSymbols(lines)|
    ensures var (name, pc) := KernelSymbols(lines)[k];
            name in FirstPass(lines).labels && FirstPass(lines).labels[name] == pc
  {
    var q := SymbolAt(lines, k);
    KernelLabel(lines, q);
  }
}
