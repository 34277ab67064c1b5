/** Which lanes get through a compiled kernel, and with what memory: the lane's own blocks, followed
    along its own branches, decide, and the nesting of the mask regions. */
module KernelOutcomes {
  import opened Words
  import opened Cfg
  import opened CommonMerge
  import opened MaskStack
  import opened MiniIr
  import opened Allocation
  import opened EmittedCode
  import opened Compiler
  import opened Structurizer
  import opened StructuredRegions
  import opened KernelLowering
  import opened KernelCompilation
  import I = Isa
  import M = MaskMachine

  // ----- conditions are defined where they are tested -----

  /** A block assigns its own condition. */
  predicate Assigns(stmts: seq<Stmt>, n: string) {
    exists stmt :: stmt in stmts && stmt.Assign? && stmt.dst == n
  }

  /** Every block that branches assigns its condition. */
  ghost predicate DefinesConditions(p: Blocks, g: Graph) {
    forall b :: b in g && g[b].CondBr? ==> Assigns(p.code(b), p.cond(b))
  }

  /** Names once defined stay defined. */
  lemma {:induction false} NamesStay(m: I.Machine, slots: nat, stmts: seq<Stmt>, x: IrLane)
    requires IrRun(m, slots, stmts, x).Ok?
    ensures x.env.Keys <= IrRun(m, slots, stmts, x).value.env.Keys
    decreases |stmts|
  {
    hide Touches, UnaryResult, ArithResult;
    if stmts != [] {
      NamesStay(m, slots, stmts[1..], IrStep(m, slots, stmts[0], x).value);
    }
  }

  lemma FlatStep(m: I.Machine, slots: nat, stmt: Stmt, x: IrLane)
    requires Flat(stmt) && x.active && x.status == I.Running && IrStep(m, slots, stmt, x).Ok?
    ensures var st := IrStep(m, slots, stmt, x).value;
      st.active && (stmt.Assign? && st.status == I.Running ==> stmt.dst in st.env)
  {
    hide Touches, UnaryResult, ArithResult;
  }

  /** A block that runs to its end in an active lane has defined what it assigns. */
  lemma {:induction false} AssignedDefined(m: I.Machine, slots: nat, stmts: seq<Stmt>, x: IrLane, n: string)
    requires (forall stmt :: stmt in stmts ==> Flat(stmt)) && x.active && x.status == I.Running && Assigns(stmts, n)
    requires IrRun(m, slots, stmts, x).Ok? && IrRun(m, slots, stmts, x).value.status == I.Running
    ensures n in IrRun(m, slots, stmts, x).value.env
    decreases |stmts|
  {
    hide IrStep;
    assert Flat(stmts[0]);
    FlatStep(m, slots, stmts[0], x);
    var st := IrStep(m, slots, stmts[0], x).value;
    if st.status != I.Running {
      StoppedRun(m, slots, stmts[1..], st);
    } else if stmts[0].Assign? && stmts[0].dst == n {
      NamesStay(m, slots, stmts[1..], st);
    } else {
      AssignedDefined(m, slots, stmts[1..], st, n);
    }
  }

  // ----- emitted code tests only conditions of blocks it has run -----

  /** Blocks that have run and assigned their condition, and conditions that have been negated. */
  datatype Ran = Ran(blocks: set<Label>, negated: set<Label>)

  /** What every active lane has run, and what had been run where each open region began. */
  datatype Trail = Trail(now: Ran, saved: seq<Ran>)

  /** A region opens on the condition of a block run before it, or on its negation; after the region
      only what was run before it is known. */
  ghost function Next(p: Blocks, line: M.Line, t: Trail): Option<Trail> {
    match line
    case Body(b) =>
      Some(if Assigns(p.code(b), p.cond(b)) then t.(now := t.now.(blocks := t.now.blocks + {b})) else t)
    case Negate(b) =>
      if b in t.now.blocks then Some(t.(now := t.now.(negated := t.now.negated + {b}))) else None
    case PredBegin(b) => if b in t.now.blocks then Some(t.(saved := t.saved + [t.now])) else None
    case PredBeginNot(b) => if b in t.now.negated then Some(t.(saved := t.saved + [t.now])) else None
    case PredEnd =>
      if t.saved == [] then None else Some(Trail(t.saved[|t.saved| - 1], t.saved[..|t.saved| - 1]))
    case Return => Some(t)
  }

  ghost predicate Announced(p: Blocks, code: seq<M.Line>, t: Trail)
    decreases |code|
  {
    code == [] || (Next(p, code[0], t).Some? && Announced(p, code[1..], Next(p, code[0], t).value))
  }

  predicate Below(x: Trail, y: Trail) {
    && x.now.blocks <= y.now.blocks && x.now.negated <= y.now.negated && |x.saved| == |y.saved|
    && forall k :: 0 <= k < |x.saved| ==>
         x.saved[k].blocks <= y.saved[k].blocks && x.saved[k].negated <= y.saved[k].negated
  }

  lemma NextBelow(p: Blocks, line: M.Line, t: Trail, u: Trail)
    requires Below(t, u) && Next(p, line, t).Some?
    ensures Next(p, line, u).Some? && Below(Next(p, line, t).value, Next(p, line, u).value)
  {
    hide Assigns;
  }

  /** Having run more does no harm. */
  lemma {:induction false} MoreRan(p: Blocks, code: seq<M.Line>, t: Trail, u: Trail)
    requires Announced(p, code, t) && Below(t, u)
    ensures Announced(p, code, u)
    decreases |code|
  {
    hide Next, Below;
    if code != [] {
      NextBelow(p, code[0], t, u);
      MoreRan(p, code[1..], Next(p, code[0], t).value, Next(p, code[0], u).value);
    }
  }

  lemma AnnouncedFirst(p: Blocks, line: M.Line, rest: seq<M.Line>, t: Trail)
    requires Next(p, line, t).Some? && Announced(p, rest, Next(p, line, t).value)
    ensures Announced(p, [line] + rest, t)
  {
    assert ([line] + rest)[1..] == rest;
  }

  lemma NextBody(p: Blocks, b: Label, rest: seq<M.Line>, t: Trail) returns (after: Trail)
    requires Announced(p, rest, t)
    ensures Next(p, M.Body(b), t) == Some(after) && Announced(p, rest, after)
    ensures Assigns(p.code(b), p.cond(b)) ==> b in after.now.blocks
  {
    hide Assigns;
    after := Next(p, M.Body(b), t).value;
    MoreRan(p, rest, t, after);
  }

  /** Around the code of an arm: what is known inside its region. */
  lemma Inside(p: Blocks, b: Label, rest: seq<M.Line>, t: Trail) returns (u: Trail)
    requires Announced(p, rest, t) && b in t.now.blocks
    ensures u == t.(saved := t.saved + [t.now]) && Next(p, M.PredBegin(b), t) == Some(u)
    ensures Announced(p, [M.PredEnd] + rest, u)
  {
    u := t.(saved := t.saved + [t.now]);
    assert u.saved[..|t.saved|] == t.saved;
    AnnouncedFirst(p, M.PredEnd, rest, u);
  }

  lemma Negated(p: Blocks, b: Label, rest: seq<M.Line>, t: Trail) returns (u: Trail)
    requires Announced(p, rest, t) && b in t.now.blocks
    ensures var n := t.(now := t.now.(negated := t.now.negated + {b}));
      && Next(p, M.Negate(b), t) == Some(n) && Next(p, M.PredBeginNot(b), n) == Some(u)
      && Announced(p, [M.PredEnd] + rest, u)
  {
    var n := t.(now := t.now.(negated := t.now.negated + {b}));
    MoreRan(p, rest, t, n);
    u := n.(saved := n.saved + [n.now]);
    assert u.saved[..|t.saved|] == t.saved;
    AnnouncedFirst(p, M.PredEnd, rest, u);
  }

  lemma SecondAnnounced(p: Blocks, b: Label, inner: seq<M.Line>, t: Trail)
    requires b in t.now.blocks
    requires var n := t.(now := t.now.(negated := t.now.negated + {b}));
      Next(p, M.PredBeginNot(b), n).Some? && Announced(p, inner, Next(p, M.PredBeginNot(b), n).value)
    ensures Announced(p, [M.Negate(b)] + ([M.PredBeginNot(b)] + inner), t)
  {
    hide Announced;
    var n := t.(now := t.now.(negated := t.now.negated + {b}));
    AnnouncedFirst(p, M.PredBeginNot(b), inner, n);
    AnnouncedFirst(p, M.Negate(b), [M.PredBeginNot(b)] + inner, t);
  }

  lemma FirstAnnounced(p: Blocks, b: Label, inner: seq<M.Line>, t: Trail, after: Trail)
    requires Next(p, M.Body(b), t) == Some(after) && Next(p, M.PredBegin(b), after).Some?
    requires Announced(p, inner, Next(p, M.PredBegin(b), after).value)
    ensures Announced(p, [M.Body(b)] + ([M.PredBegin(b)] + inner), t)
  {
    hide Announced, Next;
    AnnouncedFirst(p, M.PredBegin(b), inner, after);
    AnnouncedFirst(p, M.Body(b), [M.PredBegin(b)] + inner, t);
  }

  lemma BranchParts(name: Label, a: seq<M.Line>, b: Option<seq<M.Line>>, rest: seq<M.Line>)
    ensures BranchCode(name, a, b) + rest
      == [M.Body(name)] + ([M.PredBegin(name)] + (a + ([M.PredEnd]
         + (if b.None? then rest
            else [M.Negate(name)] + ([M.PredBeginNot(name)] + (b.value + ([M.PredEnd] + rest)))))))
  {
    if b.None? {
      assert BranchCode(name, a, b) + rest == [M.Body(name)] + ([M.PredBegin(name)] + (a + ([M.PredEnd] + rest)));
    } else {
      var second := [M.Negate(name)] + ([M.PredBeginNot(name)] + (b.value + ([M.PredEnd] + rest)));
      assert BranchCode(name, a, b) + rest == [M.Body(name)] + ([M.PredBegin(name)] + (a + ([M.PredEnd] + second)));
    }
  }

  /** Code that may be put in front of any code that may follow without it. */
  ghost predicate Prefixable(p: Blocks, a: seq<M.Line>) {
    forall rest, t :: Announced(p, rest, t) ==> Announced(p, a + rest, t)
  }

  lemma PrefixConcat(p: Blocks, a: seq<M.Line>, b: seq<M.Line>)
    requires Prefixable(p, a) && Prefixable(p, b)
    ensures Prefixable(p, a + b)
  {
    hide Announced;
    forall rest, t | Announced(p, rest, t) ensures Announced(p, a + b + rest, t) {
      assert Announced(p, b + rest, t);
      assert a + b + rest == a + (b + rest);
    }
  }

  lemma BodyPrefixable(p: Blocks, b: Label)
    ensures Prefixable(p, [M.Body(b)])
  {
    hide Announced, Next, Assigns;
    forall rest, t | Announced(p, rest, t) ensures Announced(p, [M.Body(b)] + rest, t) {
      var after := NextBody(p, b, rest, t);
      AnnouncedFirst(p, M.Body(b), rest, t);
    }
  }

  /** The mask regions of a branch, around such arms. */
  lemma BranchPrefixable(p: Blocks, name: Label, a: seq<M.Line>, b: Option<seq<M.Line>>)
    requires Assigns(p.code(name), p.cond(name)) && Prefixable(p, a) && (b.Some? ==> Prefixable(p, b.value))
    ensures Prefixable(p, BranchCode(name, a, b))
  {
    hide Announced, Next, Assigns, BranchCode, Prefixable;
    forall rest, t | Announced(p, rest, t) ensures Announced(p, BranchCode(name, a, b) + rest, t) {
      BranchAnnounced(p, name, a, b, rest, t);
    }
    AllPrefixes(p, BranchCode(name, a, b));
  }

  lemma AllPrefixes(p: Blocks, a: seq<M.Line>)
    requires forall rest, t :: Announced(p, rest, t) ==> Announced(p, a + rest, t)
    ensures Prefixable(p, a)
  {
  }

  lemma UsePrefix(p: Blocks, a: seq<M.Line>, rest: seq<M.Line>, t: Trail)
    requires Prefixable(p, a) && Announced(p, rest, t)
    ensures Announced(p, a + rest, t)
  {
  }

  lemma BranchAnnounced(p: Blocks, name: Label, a: seq<M.Line>, b: Option<seq<M.Line>>, rest: seq<M.Line>, t: Trail)
    requires Assigns(p.code(name), p.cond(name)) && Prefixable(p, a) && (b.Some? ==> Prefixable(p, b.value))
    requires Announced(p, rest, t)
    ensures Announced(p, BranchCode(name, a, b) + rest, t)
  {
    hide Announced, Next, Assigns, BranchCode, Prefixable;
    var after := NextBody(p, name, rest, t);
    var second := if b.None? then rest
                  else [M.Negate(name)] + ([M.PredBeginNot(name)] + (b.value + ([M.PredEnd] + rest)));
    if b.Some? {
      var u := Negated(p, name, rest, after);
      UsePrefix(p, b.value, [M.PredEnd] + rest, u);
      SecondAnnounced(p, name, b.value + ([M.PredEnd] + rest), after);
    }
    var v := Inside(p, name, second, after);
    UsePrefix(p, a, [M.PredEnd] + second, v);
    FirstAnnounced(p, name, a + ([M.PredEnd] + second), t, after);
    BranchParts(name, a, b, rest);
  }

  /** The code of a region is of this kind. */
  lemma {:induction false} CodePrefixable(p: Blocks, g: Graph, order: seq<Label>, rank: Label -> nat, name: Label,
                                          stop: Label)
    requires Ordering(g, order) && Arm(g, order, rank, name, stop) && DefinesConditions(p, g)
    ensures Prefixable(p, Code(g, order, rank, name, stop))
    decreases rank(name)
  {
    hide Ordering, IsMerge, Code, Arm, ArmsCode, BranchCode, Prefixable, Assigns;
    CodeUnfold(g, order, rank, name, stop);
    if name == stop {
      NothingPrefixable(p);
    } else {
      match g[name]
      case Br(n) =>
        BodyPrefixable(p, name);
        CodePrefixable(p, g, order, rank, n, stop);
        PrefixConcat(p, [M.Body(name)], Code(g, order, rank, n, stop));
      case CondBr(yes, no) =>
        ArmParts(g, order, rank, name, stop);
        ArmsUnfold(g, order, rank, name, stop);
        var j := MergeOf(g, order, yes, no).value;
        CodePrefixable(p, g, order, rank, yes, j);
        CodePrefixable(p, g, order, rank, no, j);
        CodePrefixable(p, g, order, rank, j, stop);
        BranchPrefixable(p, name, Code(g, order, rank, yes, j),
                         if no == j then None else Some(Code(g, order, rank, no, j)));
        PrefixConcat(p, ArmsCode(g, order, rank, name, stop), Code(g, order, rank, j, stop));
    }
  }

  lemma NothingPrefixable(p: Blocks)
    ensures Prefixable(p, [])
  {
    forall rest, t | Announced(p, rest, t) ensures Announced(p, [] + rest, t) {
      assert [] + rest == rest;
    }
  }

  // ----- the IR goes on as long as the lane's blocks do -----

  predicate Defined(p: Blocks, env: map<string, Word>, r: Ran) {
    (forall b :: b in r.blocks ==> p.cond(b) in env) && (forall b :: b in r.negated ==> p.negated(b) in env)
  }

  /** Where the lane is active it has run what the trail says, and so where it will be active again. */
  ghost predicate Followed(p: Blocks, ir: IrLane, t: Trail) {
    && |t.saved| == |ir.stack|
    && (ir.active ==> Defined(p, ir.env, t.now))
    && forall k :: 0 <= k < |t.saved| ==> ir.stack[k] ==> Defined(p, ir.env, t.saved[k])
  }

  lemma DefinedGrows(p: Blocks, x: map<string, Word>, y: map<string, Word>, r: Ran)
    requires Defined(p, x, r) && x.Keys <= y.Keys
    ensures Defined(p, y, r)
  {
  }

  /** The lane knows more names, with the same masks. */
  lemma FollowedGrows(p: Blocks, ir: IrLane, st: IrLane, t: Trail)
    requires Followed(p, ir, t) && st.stack == ir.stack && st.active == ir.active && ir.env.Keys <= st.env.Keys
    ensures Followed(p, st, t)
  {
    hide Defined;
    if ir.active { DefinedGrows(p, ir.env, st.env, t.now); }
    forall k | 0 <= k < |t.saved| && ir.stack[k] ensures Defined(p, st.env, t.saved[k]) {
      DefinedGrows(p, ir.env, st.env, t.saved[k]);
    }
  }

  /** A block that leaves the lane's data unstuck runs to its end in the IR. */
  lemma BodyRuns(m: I.Machine, slots: nat, p: Blocks, b: Label, v: M.View<Data>, ir: IrLane)
    requires Tidy(p) && Mirrors(p, v, ir)
    requires M.Step(BlockEffects(m, slots, p), M.Body(b), v).value.lane.user.Data?
    ensures var r := IrRun(m, slots, p.code(b), ir);
      r.Ok? && r.value.status == I.Running && r.value.active == ir.active && r.value.stack == ir.stack
  {
    hide Tidy, IrRun, SameVisible, FlagsAgree, SameHidden;
    CodePlain(p, b);
    if !ir.active {
      IdleRun(m, slots, p, p.code(b), ir);
    } else {
      var d := v.lane.user;
      var alone := IrLane(d.env, d.mem, true, [], I.Running);
      VisibleSymmetric(p, d.env, ir.env);
      RunAlike(m, slots, p, p.code(b), ir, alone);
    }
  }

  lemma BodyFollows(m: I.Machine, slots: nat, p: Blocks, b: Label, v: M.View<Data>, ir: IrLane, t: Trail)
    requires Tidy(p) && Mirrors(p, v, ir) && Followed(p, ir, t)
    requires M.Step(BlockEffects(m, slots, p), M.Body(b), v).value.lane.user.Data?
    ensures var r := IrRun(m, slots, p.code(b), ir);
      r.Ok? && r.value.status == I.Running && Followed(p, r.value, Next(p, M.Body(b), t).value)
  {
    hide Tidy, IrRun, Assigns, Defined, BlockEffects;
    BodyRuns(m, slots, p, b, v, ir);
    NamesStay(m, slots, p.code(b), ir);
    var st := IrRun(m, slots, p.code(b), ir).value;
    FollowedGrows(p, ir, st, t);
    if Assigns(p.code(b), p.cond(b)) && ir.active {
      CodeFlat(p, b);
      AssignedDefined(m, slots, p.code(b), ir, p.cond(b));
      OneMoreDefined(p, st.env, t.now, b);
    }
  }

  lemma CodeFlat(p: Blocks, b: Label)
    requires Tidy(p)
    ensures forall stmt :: stmt in p.code(b) ==> Flat(stmt)
  {
    CodePlain(p, b);
    hide Tidy;
  }

  lemma OneMoreDefined(p: Blocks, env: map<string, Word>, r: Ran, b: Label)
    requires Defined(p, env, r) && p.cond(b) in env
    ensures Defined(p, env, r.(blocks := r.blocks + {b}))
  {
  }

  lemma NegateFollows(m: I.Machine, slots: nat, p: Blocks, b: Label, ir: IrLane, t: Trail)
    requires NegatesConditions(m) && ir.status == I.Running && Followed(p, ir, t) && b in t.now.blocks
    ensures var r := IrStep(m, slots, LineCode(p, M.Negate(b))[0], ir);
      r.Ok? && r.value.status == I.Running && Followed(p, r.value, Next(p, M.Negate(b), t).value)
  {
    hide NegatesConditions, Defined;
    if ir.active {
      ConditionDefined(p, ir.env, t.now, b);
      NegateRuns(m, slots, p, b, ir);
      var st := IrStep(m, slots, LineCode(p, M.Negate(b))[0], ir).value;
      FollowedGrows(p, ir, st, t);
      NegatedDefined(p, st.env, t.now, b);
    }
  }

  lemma ConditionDefined(p: Blocks, env: map<string, Word>, r: Ran, b: Label)
    requires Defined(p, env, r)
    ensures (b in r.blocks ==> p.cond(b) in env) && (b in r.negated ==> p.negated(b) in env)
  {
  }

  lemma NegatedDefined(p: Blocks, env: map<string, Word>, r: Ran, b: Label)
    requires Defined(p, env, r) && p.negated(b) in env
    ensures Defined(p, env, r.(negated := r.negated + {b}))
  {
  }

  lemma NegateRuns(m: I.Machine, slots: nat, p: Blocks, b: Label, ir: IrLane)
    requires NegatesConditions(m) && ir.status == I.Running && ir.active && p.cond(b) in ir.env
    ensures IrStep(m, slots, LineCode(p, M.Negate(b))[0], ir)
            == Ok(ir.(env := ir.env[p.negated(b) := if ir.env[p.cond(b)] == 0 then 1 else 0]))
  {
  }

  /** Opening and closing regions. */
  lemma MaskFollows(m: I.Machine, slots: nat, p: Blocks, line: M.Line, v: M.View<Data>, ir: IrLane, t: Trail)
    requires Mirrors(p, v, ir) && Followed(p, ir, t) && (line.PredBegin? || line.PredBeginNot? || line.PredEnd?)
    requires M.Step(BlockEffects(m, slots, p), line, v).Some? && Next(p, line, t).Some?
    ensures var r := IrStep(m, slots, LineCode(p, line)[0], ir);
      r.Ok? && r.value.status == I.Running && Followed(p, r.value, Next(p, line, t).value)
  {
    hide SameVisible, FlagsAgree, Defined, BlockEffects;
    if !line.PredEnd? && ir.active { ConditionDefined(p, ir.env, t.now, line.name); }
  }

  /** One emitted line: the IR goes on with the lane of the mask machine. */
  lemma LineFollows(m: I.Machine, slots: nat, p: Blocks, line: M.Line, v: M.View<Data>, ir: IrLane, t: Trail)
    requires Tidy(p) && NegatesConditions(m) && Mirrors(p, v, ir) && Followed(p, ir, t) && !line.Return?
    requires var u := M.Step(BlockEffects(m, slots, p), line, v); u.Some? && u.value.lane.user.Data?
    requires Next(p, line, t).Some?
    ensures var r := IrRun(m, slots, LineCode(p, line), ir);
      r.Ok? && r.value.status == I.Running && Followed(p, r.value, Next(p, line, t).value)
  {
    hide Tidy, Mirrors, BlockEffects, M.Step, IrStep, Followed, NegatesConditions;
    if line.Body? {
      BodyFollows(m, slots, p, line.name, v, ir, t);
    } else {
      RunSingle(m, slots, LineCode(p, line)[0], ir);
      if line.Negate? {
        MirrorsRunning(p, v, ir);
        NegateFollows(m, slots, p, line.name, ir, t);
      } else {
        MaskFollows(m, slots, p, line, v, ir, t);
      }
    }
  }

  lemma MirrorsRunning(p: Blocks, v: M.View<Data>, ir: IrLane)
    requires Mirrors(p, v, ir)
    ensures ir.status == I.Running
  {
  }

  /** A stuck lane stays stuck. */
  lemma {:induction false} StuckStays(m: I.Machine, slots: nat, p: Blocks, code: seq<M.Line>, v: M.View<Data>)
    requires v.lane.user.Stuck? && M.Steps(BlockEffects(m, slots, p), code, v).Some?
    ensures M.Steps(BlockEffects(m, slots, p), code, v).value.lane.user.Stuck?
    decreases |code|
  {
    if code != [] {
      StuckStays(m, slots, p, code[1..], M.Step(BlockEffects(m, slots, p), code[0], v).value);
    }
  }

  /** Emitted code, the other way round: as long as the lane's blocks do not get stuck the
      predicated IR neither raises nor faults. */
  lemma {:induction false} CodeFollows(m: I.Machine, slots: nat, p: Blocks, code: seq<M.Line>, v: M.View<Data>,
                                       ir: IrLane, t: Trail)
    requires Tidy(p) && NegatesConditions(m) && Mirrors(p, v, ir) && Followed(p, ir, t)
    requires Announced(p, code, t) && ReturnFree(code)
    requires var u := M.Steps(BlockEffects(m, slots, p), code, v); u.Some? && u.value.lane.user.Data?
    ensures var r := IrRun(m, slots, Flatten(p, code), ir); r.Ok? && r.value.status == I.Running
    decreases |code|
  {
    hide Tidy, Mirrors, BlockEffects, M.Step, LineCode, NegatesConditions, Next, Followed, IrRun;
    if code == [] {
      MirrorsRunning(p, v, ir);
      NothingRuns(m, slots, ir);
    } else {
      var first, rest := LineCode(p, code[0]), Flatten(p, code[1..]);
      var u := M.Step(BlockEffects(m, slots, p), code[0], v).value;
      if u.lane.user.Stuck? { StuckStays(m, slots, p, code[1..], u); }
      LineFollows(m, slots, p, code[0], v, ir, t);
      LineMirrors(m, slots, p, code[0], v, ir);
      IrRunAppend(m, slots, first, rest, ir);
      CodeFollows(m, slots, p, code[1..], u, IrRun(m, slots, first, ir).value, Next(p, code[0], t).value);
    }
  }

  lemma NothingRuns(m: I.Machine, slots: nat, ir: IrLane)
    ensures IrRun(m, slots, [], ir) == Ok(ir)
  {
  }

  // ----- whole kernels -----

  /** The lane's own blocks, followed along its own branches through the return block, never get
      stuck, and leave the given memory. */
  ghost predicate OwnPathLeaves(m: I.Machine, slots: nat, p: Blocks, g: Graph, entry: Label, exit: Label,
                                start: I.Lane, mem: map<nat, Word>)
  {
    exists after: M.Lane<Data> ::
      Completes(g, BlockEffects(m, slots, p), entry, exit, Newborn(start.mem), after)
      && after.user.Data? && after.user.mem == mem
  }

  /** A lane has one path, so one final memory. */
  lemma OwnPathOnce(m: I.Machine, slots: nat, p: Blocks, g: Graph, entry: Label, exit: Label, start: I.Lane,
                    mem: map<nat, Word>, other: map<nat, Word>)
    requires OwnPathLeaves(m, slots, p, g, entry, exit, start, mem)
    requires OwnPathLeaves(m, slots, p, g, entry, exit, start, other)
    ensures mem == other
  {
    hide BlockEffects, Leads;
    var fx, lane := BlockEffects(m, slots, p), Newborn(start.mem);
    var a: M.Lane<Data> :| Completes(g, fx, entry, exit, lane, a) && a.user.Data? && a.user.mem == mem;
    var b: M.Lane<Data> :| Completes(g, fx, entry, exit, lane, b) && b.user.Data? && b.user.mem == other;
    CompletesOnce(g, fx, entry, exit, lane, a, b);
  }

  /** What the predicated IR of a structured region and the block behind it does to one lane: it
      goes on exactly when the regions fit the mask stack and the lane's own path never gets stuck. */
  lemma RegionGoesOn(m: I.Machine, slots: nat, p: Blocks, g: Graph, order: seq<Label>, rank: Label -> nat,
                     entry: Label, exit: Label, start: I.Lane, mem: map<nat, Word>)
    requires Ordering(g, order) && Arm(g, order, rank, entry, exit) && Tidy(p) && NegatesConditions(m)
    requires DefinesConditions(p, g) && start.status == I.Running && start.stack == []
    requires Nest(g, order, rank, entry, exit) <= 4
    requires start.active ==> OwnPathLeaves(m, slots, p, g, entry, exit, start, mem)
    ensures var r := IrRun(m, slots, Flatten(p, Code(g, order, rank, entry, exit) + [M.Body(exit)]), StartOf(start));
            r.Ok? && r.value.status == I.Running
  {
    hide Ordering, Arm, Code, Tidy, NegatesConditions, DefinesConditions, IrRun, Flatten, M.Steps, BlockEffects;
    hide Nest, Walk, WalkFor, Prefixable, Announced, Next, ReturnFree;
    var fx, v, code := BlockEffects(m, slots, p), StartView(start), Code(g, order, rank, entry, exit);
    StartMirrors(p, start);
    M.StepsConcat(fx, code, [M.Body(exit)], v);
    RegionLands(g, order, rank, fx, entry, exit, v);
    StepsBody(fx, exit, M.Steps(fx, code, v).value);
    if start.active {
      ArmLeads(g, order, rank, fx, entry, exit, v.lane, rank(entry));
      assert Leads(g, fx, entry, exit, v.lane, Walk(g, rank, fx, entry, exit, v.lane));
      LeavesUnstuck(m, slots, p, g, entry, exit, start, mem, Walk(g, rank, fx, entry, exit, v.lane));
    }
    var t := Trail(Ran({}, {}), []);
    CodePrefixable(p, g, order, rank, entry, exit);
    BodyAnnounced(p, exit, t);
    UsePrefix(p, code, [M.Body(exit)], t);
    CodeReturnFree(g, order, rank, entry, exit);
    BodyReturnFree(code, exit);
    CodeFollows(m, slots, p, code + [M.Body(exit)], v, StartOf(start), t);
  }

  lemma LeavesUnstuck(m: I.Machine, slots: nat, p: Blocks, g: Graph, entry: Label, exit: Label, start: I.Lane,
                      mem: map<nat, Word>, there: M.Lane<Data>)
    requires OwnPathLeaves(m, slots, p, g, entry, exit, start, mem)
    requires Leads(g, BlockEffects(m, slots, p), entry, exit, Newborn(start.mem), there)
    ensures M.RunBlock(BlockEffects(m, slots, p), exit, there).user.Data?
  {
    hide BlockEffects, Leads;
    var fx, lane := BlockEffects(m, slots, p), Newborn(start.mem);
    var a: M.Lane<Data> :| Completes(g, fx, entry, exit, lane, a) && a.user.Data? && a.user.mem == mem;
    assert Completes(g, fx, entry, exit, lane, M.RunBlock(fx, exit, there));
    CompletesOnce(g, fx, entry, exit, lane, a, M.RunBlock(fx, exit, there));
  }

  lemma BodyAnnounced(p: Blocks, b: Label, t: Trail)
    ensures Announced(p, [M.Body(b)], t)
  {
    assert [M.Body(b)][1..] == [];
  }

  lemma BodyReturnFree(code: seq<M.Line>, b: Label)
    requires ReturnFree(code)
    ensures ReturnFree(code + [M.Body(b)])
  {
  }

  /** The predicated IR of a kernel, as the region and the return block behind it. */
  lemma KernelParts(m: I.Machine, slots: nat, p: Blocks, g: Graph, order: seq<Label>, rank: Label -> nat,
                    entry: Label, exit: Label, start: I.Lane)
    requires Ordering(g, order) && StructuredKernel(g, rank, entry) && Tidy(p)
    requires exit in g && g[exit] == Ret && Connected(g, entry, exit) && start.status == I.Running
    ensures Arm(g, order, rank, entry, exit) && Branchless(KernelSection(p, g, order, entry))
    ensures var r := IrRun(m, slots, KernelSection(p, g, order, entry), StartOf(start));
      var q := IrRun(m, slots, Flatten(p, Code(g, order, rank, entry, exit) + [M.Body(exit)]), StartOf(start));
      && (r.Ok? <==> q.Ok?)
      && (r.Ok? ==> (r.value.status == I.Exited <==> q.value.status == I.Running)
                    && r.value == q.value.(status := r.value.status))
  {
    hide Ordering, StructuredKernel, Arm, Code, Tidy, IrRun, Flatten, Connected, EmitBlock, Structured;
    var only := KernelReturn(g, rank, entry);
    StructuredArm(g, order, rank, entry, exit);
    SpineEmits(g, order, rank, entry, exit, {});
    var code := Code(g, order, rank, entry, exit) + [M.Body(exit)];
    assert Code(g, order, rank, entry, exit) + [M.Body(exit), M.Return] == code + [M.Return];
    FlattenAppend(p, code, [M.Return]);
    FlattenReturn(p);
    IrRunAppend(m, slots, Flatten(p, code), [Return], StartOf(start));
    CodeReturnFree(g, order, rank, entry, exit);
    if IrRun(m, slots, Flatten(p, code), StartOf(start)).Ok? {
      NeverExits(m, slots, p, code, StartOf(start));
      ReturnEnds(m, slots, IrRun(m, slots, Flatten(p, code), StartOf(start)).value);
    }
    FlattenStraight(p, code + [M.Return]);
  }

  /** Structurizing a kernel preserves its meaning, lane by lane. The predicated IR of an acyclic
      structured kernel ends, for a lane, exactly when its mask regions fit the mask stack and the
      lane's own blocks, followed along its own branches, never get stuck; and it ends with the
      memory they leave. A lane that is idle from the start changes nothing. */
  lemma KernelExits(m: I.Machine, slots: nat, p: Blocks, g: Graph, order: seq<Label>, rank: Label -> nat,
                    entry: Label, exit: Label, start: I.Lane)
    requires Ordering(g, order) && StructuredKernel(g, rank, entry) && Tidy(p) && NegatesConditions(m)
    requires exit in g && g[exit] == Ret && Connected(g, entry, exit)
    requires DefinesConditions(p, g) && start.status == I.Running && start.stack == []
    ensures Arm(g, order, rank, entry, exit)
    ensures var r := IrRun(m, slots, KernelSection(p, g, order, entry), StartOf(start));
      && (r.Ok? && r.value.status == I.Exited <==>
            Nest(g, order, rank, entry, exit) <= 4
            && (start.active ==> exists mem :: OwnPathLeaves(m, slots, p, g, entry, exit, start, mem)))
      && (r.Ok? && r.value.status == I.Exited ==>
            if start.active then OwnPathLeaves(m, slots, p, g, entry, exit, start, r.value.mem)
            else r.value.mem == start.mem)
  {
    hide Ordering, StructuredKernel, Arm, Code, Tidy, NegatesConditions, DefinesConditions, IrRun, Flatten, Nest;
    hide BlockEffects, Connected, Completes, EmitBlock, KernelSection;
    KernelParts(m, slots, p, g, order, rank, entry, exit, start);
    var q := IrRun(m, slots, Flatten(p, Code(g, order, rank, entry, exit) + [M.Body(exit)]), StartOf(start));
    if q.Ok? && q.value.status == I.Running {
      RegionMeaning(m, slots, p, g, order, rank, entry, exit, start);
      RegionFits(m, slots, p, g, order, rank, entry, exit, start);
      assert start.active ==> OwnPathLeaves(m, slots, p, g, entry, exit, start, q.value.mem);
    }
    if Nest(g, order, rank, entry, exit) <= 4 {
      if start.active {
        if mem :| OwnPathLeaves(m, slots, p, g, entry, exit, start, mem) {
          RegionGoesOn(m, slots, p, g, order, rank, entry, exit, start, mem);
        }
      } else {
        RegionGoesOn(m, slots, p, g, order, rank, entry, exit, start, start.mem);
      }
    }
  }

  /** Compilation of a whole kernel preserves branching and meaning at once. Structurize and lower
      an acyclic structured kernel; if lowering moves no needed value inside a predicate, the code
      assembles and the mask regions fit the stack, then for every lane whose own blocks, followed
      along its own branches, never get stuck the assembly ends, and leaves the lane the memory they
      leave it. */
  lemma KernelCompiled(m: I.Machine, slots: nat, p: Blocks, g: Graph, order: seq<Label>, rank: Label -> nat,
                       entry: Label, exit: Label, start: I.Lane, mem: map<nat, Word>)
    requires Ordering(g, order) && StructuredKernel(g, rank, entry) && Tidy(p) && NegatesConditions(m)
    requires exit in g && g[exit] == Ret && Connected(g, entry, exit)
    requires DefinesConditions(p, g) && start.status == I.Running && start.stack == []
    requires Arm(g, order, rank, entry, exit) ==> Nest(g, order, rank, entry, exit) <= 4
    requires if start.active then OwnPathLeaves(m, slots, p, g, entry, exit, start, mem) else mem == start.mem
    requires var section := KernelSection(p, g, order, entry);
      var a0 := Fresh(CountUses(section));
      var a := LowerAll(a0, section);
      && SelfUsesSafe(a0, section) && QuietInside(a0, section, {}, [{}])
      && a.Ok? && Encodable(a.value.asm) && a.value.nextSlot <= slots
    ensures var section := KernelSection(p, g, order, entry);
      var s := I.Run(m, LowerAll(Fresh(CountUses(section)), section).value.asm, start);
      && s.status == I.Exited
      && forall w: nat :: !InSpillWindow(m, slots, w) ==> Lookup(s.mem, w) == Lookup(mem, w)
  {
    hide Ordering, StructuredKernel, Arm, Tidy, NegatesConditions, DefinesConditions, IrRun, LowerAll, Encodable;
    hide QuietInside, SelfUsesSafe, Connected, I.Run, InSpillWindow, KernelSection, OwnPathLeaves, Nest;
    KernelParts(m, slots, p, g, order, rank, entry, exit, start);
    KernelExits(m, slots, p, g, order, rank, entry, exit, start);
    var section := KernelSection(p, g, order, entry);
    var r := IrRun(m, slots, section, StartOf(start));
    assert r.Ok? && r.value.status == I.Exited;
    if start.active { OwnPathOnce(m, slots, p, g, entry, exit, start, mem, r.value.mem); }
    EveryLanePreserved(m, slots, start, section);
  }

  /** Code that goes on has not filled the mask stack. */
  lemma RegionFits(m: I.Machine, slots: nat, p: Blocks, g: Graph, order: seq<Label>, rank: Label -> nat,
                   entry: Label, exit: Label, start: I.Lane)
    requires Ordering(g, order) && Arm(g, order, rank, entry, exit) && Tidy(p) && NegatesConditions(m)
    requires start.status == I.Running && start.stack == []
    requires var r := IrRun(m, slots, Flatten(p, Code(g, order, rank, entry, exit) + [M.Body(exit)]), StartOf(start));
             r.Ok? && r.value.status == I.Running
    ensures Nest(g, order, rank, entry, exit) <= 4
  {
    hide Ordering, Arm, Code, Tidy, NegatesConditions, IrRun, Flatten, M.Steps, BlockEffects, Nest, Walk;
    var fx, v, code := BlockEffects(m, slots, p), StartView(start), Code(g, order, rank, entry, exit);
    StartMirrors(p, start);
    CodeMirrors(m, slots, p, code + [M.Body(exit)], v, StartOf(start));
    M.StepsConcat(fx, code, [M.Body(exit)], v);
    RegionLands(g, order, rank, fx, entry, exit, v);
  }

  lemma FlattenReturn(p: Blocks)
    ensures Flatten(p, [M.Return]) == [Return]
  {
    assert [M.Return][1..] == [];
  }

  lemma ReturnEnds(m: I.Machine, slots: nat, st: IrLane)
    ensures IrRun(m, slots, [Return], st) == Ok(if st.status == I.Running then st.(status := I.Exited) else st)
  {
    RunSingle(m, slots, Return, st);
  }
}
