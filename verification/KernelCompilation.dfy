/** The structurizer and the back end together: a kernel's control-flow graph of IR blocks, lowered
    to predicated IR, lowered to assembly, and run by one lane of a warp. */
module KernelCompilation {
  import opened Words
  import opened Cfg
  import opened CommonMerge
  import opened MiniIr
  import opened Compiler
  import opened Structurizer
  import opened KernelLowering
  import I = Isa
  import M = MaskMachine

  // ----- blocks of IR statements -----

  /** Each block's statements, the temporary its branch condition is in, and the temporary that
      takes the negated condition. */
  datatype Blocks = Blocks(code: Label -> seq<Stmt>, cond: Label -> string, negated: Label -> string)

  predicate Flat(stmt: Stmt) {
    stmt.Assign? || stmt.StoreTo? || stmt.Barrier? || stmt.Mark?
  }

  ghost predicate IsNegated(p: Blocks, x: string) {
    exists b :: p.negated(b) == x
  }

  /** A statement that has nothing to do with negated conditions. */
  ghost predicate Plain(p: Blocks, stmt: Stmt) {
    && Flat(stmt)
    && (stmt.Assign? ==> !IsNegated(p, stmt.dst))
    && (forall o :: o in Operands(stmt) && o.Val? ==> !IsNegated(p, o.name))
  }

  /** Blocks are plain, a condition is only written by its own block, and negated conditions have
      names of their own. */
  ghost predicate Tidy(p: Blocks) {
    && (forall b, stmt :: stmt in p.code(b) ==> Plain(p, stmt))
    && (forall b, c, stmt :: b != c && stmt in p.code(c) && stmt.Assign? ==> stmt.dst != p.cond(b))
    && (forall b, c :: p.negated(b) == p.negated(c) ==> b == c)
    && (forall b :: !IsNegated(p, p.cond(b)))
  }

  /** The IR statements of one emitted line. */
  function LineCode(p: Blocks, line: M.Line): seq<Stmt> {
    match line
    case Body(b) => p.code(b)
    case PredBegin(b) => [PredBegin(Val(p.cond(b)))]
    case Negate(b) => [Assign(p.negated(b), Binary(I.Eq, None, Val(p.cond(b)), Lit(0)))]
    case PredBeginNot(b) => [PredBegin(Val(p.negated(b)))]
    case PredEnd => [PredEnd]
    case Return => [Return]
  }

  function Flatten(p: Blocks, code: seq<M.Line>): seq<Stmt>
    decreases |code|
  {
    if code == [] then [] else LineCode(p, code[0]) + Flatten(p, code[1..])
  }

  lemma {:induction false} FlattenAppend(p: Blocks, code: seq<M.Line>, more: seq<M.Line>)
    ensures Flatten(p, code + more) == Flatten(p, code) + Flatten(p, more)
    decreases |code|
  {
    hide LineCode;
    if code == [] {
      assert code + more == more;
    } else {
      assert (code + more)[1..] == code[1..] + more;
      FlattenAppend(p, code[1..], more);
    }
  }

  // ----- what a block does to a lane -----

  /** What a lane's blocks work on; Stuck once a block has raised or faulted. */
  datatype Data = Data(env: map<string, Word>, mem: map<nat, Word>) | Stuck

  ghost function RunStmts(m: I.Machine, slots: nat, stmts: seq<Stmt>, d: Data): Data {
    if d.Stuck? then Stuck else
    var r := IrRun(m, slots, stmts, IrLane(d.env, d.mem, true, [], I.Running));
    if r.Ok? && r.value.status == I.Running then Data(r.value.env, r.value.mem) else Stuck
  }

  ghost predicate Nonzero(env: map<string, Word>, x: string) {
    x in env && env[x] != 0
  }

  /** The blocks of a kernel as effects on a lane. */
  ghost function BlockEffects(m: I.Machine, slots: nat, p: Blocks): M.Effects<Data> {
    M.Effects((b, d) => RunStmts(m, slots, p.code(b), d), (b, d: Data) => d.Data? && Nonzero(d.env, p.cond(b)))
  }

  // ----- statements do not see negated conditions -----

  ghost predicate SameVisible(p: Blocks, x: map<string, Word>, y: map<string, Word>) {
    forall n :: !IsNegated(p, n) ==> (n in x <==> n in y) && (n in x ==> x[n] == y[n])
  }

  ghost predicate SameHidden(p: Blocks, x: map<string, Word>, y: map<string, Word>) {
    forall n :: IsNegated(p, n) ==> (n in x <==> n in y) && (n in x ==> x[n] == y[n])
  }

  /** Two lanes that differ in negated conditions and masks only. */
  ghost predicate Alike(p: Blocks, x: IrLane, y: IrLane) {
    x.mem == y.mem && x.status == y.status && SameVisible(p, x.env, y.env)
  }

  lemma EvalAlike(p: Blocks, x: map<string, Word>, y: map<string, Word>, o: Operand)
    requires SameVisible(p, x, y) && (o.Val? ==> !IsNegated(p, o.name))
    ensures Eval(o, x) == Eval(o, y)
  {
  }

  lemma BindAlike(p: Blocks, x: IrLane, y: IrLane, dst: string, r: Option<Word>)
    requires Alike(p, x, y) && !IsNegated(p, dst)
    ensures Alike(p, Bind(x, dst, r), Bind(y, dst, r)) && SameHidden(p, Bind(x, dst, r).env, x.env)
    ensures Bind(x, dst, r).active == x.active && Bind(x, dst, r).stack == x.stack
  {
    hide IsNegated;
  }

  lemma StepAlike(m: I.Machine, slots: nat, p: Blocks, stmt: Stmt, x: IrLane, y: IrLane)
    requires Plain(p, stmt) && Alike(p, x, y) && x.active && y.active
    ensures var s, t := IrStep(m, slots, stmt, x), IrStep(m, slots, stmt, y);
      && (s.Ok? <==> t.Ok?)
      && (s.Ok? ==> Alike(p, s.value, t.value) && SameHidden(p, s.value.env, x.env)
                    && s.value.active && s.value.stack == x.stack && t.value.active)
  {
    hide IsNegated, Touches, UnaryResult, ArithResult, SameVisible, SameHidden, Bind, Eval, Alike;
    AlikeFields(p, x, y);
    HiddenSelf(p, x.env);
    if x.status != I.Running { return; }
    forall o | o in Operands(stmt) ensures Eval(o, x.env) == Eval(o, y.env) { EvalAlike(p, x.env, y.env, o); }
    match stmt
    case Assign(dst, rhs) => AssignAlike(m, slots, p, dst, rhs, x, y);
    case StoreTo(_, fmt, a, v) =>
      assert a in Operands(stmt) && v in Operands(stmt);
      if IrStep(m, slots, stmt, x).Ok? { AlikeMem(p, x, y, IrStep(m, slots, stmt, x).value.mem); }
    case _ =>
  }

  lemma AlikeFields(p: Blocks, x: IrLane, y: IrLane)
    requires Alike(p, x, y)
    ensures x.mem == y.mem && x.status == y.status && SameVisible(p, x.env, y.env)
  {
  }

  lemma AlikeMem(p: Blocks, x: IrLane, y: IrLane, mem: map<nat, Word>)
    requires Alike(p, x, y)
    ensures Alike(p, x.(mem := mem), y.(mem := mem))
  {
  }

  lemma HiddenSelf(p: Blocks, x: map<string, Word>)
    ensures SameHidden(p, x, x)
  {
  }

  lemma AssignAlike(m: I.Machine, slots: nat, p: Blocks, dst: string, rhs: Rhs, x: IrLane, y: IrLane)
    requires Alike(p, x, y) && !IsNegated(p, dst) && x.active && y.active && x.status == I.Running
    requires x.mem == y.mem && forall o :: o in RhsOperands(rhs) ==> Eval(o, x.env) == Eval(o, y.env)
    ensures var s, t := EvalAssign(m, slots, dst, rhs, x), EvalAssign(m, slots, dst, rhs, y);
      && (s.Ok? <==> t.Ok?)
      && (s.Ok? ==> Alike(p, s.value, t.value) && SameHidden(p, s.value.env, x.env)
                    && s.value.active && s.value.stack == x.stack && t.value.active)
  {
    hide IsNegated, Touches, UnaryResult, ArithResult, SameVisible, SameHidden, Bind, Eval, Alike;
    forall r ensures Alike(p, Bind(x, dst, r), Bind(y, dst, r)) && SameHidden(p, Bind(x, dst, r).env, x.env)
      && Bind(x, dst, r).active && Bind(x, dst, r).stack == x.stack && Bind(y, dst, r).active
    {
      BindAlike(p, x, y, dst, r);
      BindMasks(x, dst, r);
      BindMasks(y, dst, r);
    }
    match rhs
    case Unary(_, _, o) => assert o in RhsOperands(rhs);
    case Binary(_, _, o, q) => assert o in RhsOperands(rhs) && q in RhsOperands(rhs);
    case _ =>
  }

  lemma BindMasks(x: IrLane, dst: string, r: Option<Word>)
    ensures Bind(x, dst, r).active == x.active && Bind(x, dst, r).stack == x.stack
  {
  }

  predicate SameAt(x: map<string, Word>, y: map<string, Word>, n: string) {
    (n in x <==> n in y) && (n in x ==> x[n] == y[n])
  }

  lemma SameAtTrans(p: Blocks, x: map<string, Word>, y: map<string, Word>, z: map<string, Word>)
    requires SameHidden(p, x, y) && SameHidden(p, y, z)
    ensures SameHidden(p, x, z)
  {
  }

  lemma {:induction false} RunAlike(m: I.Machine, slots: nat, p: Blocks, stmts: seq<Stmt>, x: IrLane, y: IrLane)
    requires forall stmt :: stmt in stmts ==> Plain(p, stmt)
    requires Alike(p, x, y) && x.active && y.active
    ensures var s, t := IrRun(m, slots, stmts, x), IrRun(m, slots, stmts, y);
      && (s.Ok? <==> t.Ok?)
      && (s.Ok? ==> Alike(p, s.value, t.value) && SameHidden(p, s.value.env, x.env)
                    && s.value.active && s.value.stack == x.stack)
    decreases |stmts|
  {
    hide Plain, IrStep, Alike, SameHidden;
    HiddenSelf(p, x.env);
    if stmts != [] {
      assert Plain(p, stmts[0]);
      StepAlike(m, slots, p, stmts[0], x, y);
      var s, t := IrStep(m, slots, stmts[0], x), IrStep(m, slots, stmts[0], y);
      if s.Ok? {
        RunAlike(m, slots, p, stmts[1..], s.value, t.value);
        var r := IrRun(m, slots, stmts[1..], s.value);
        if r.Ok? { SameAtTrans(p, r.value.env, s.value.env, x.env); }
      }
    }
  }

  /** A name no statement assigns keeps its value. */
  lemma {:induction false} Unassigned(m: I.Machine, slots: nat, stmts: seq<Stmt>, x: IrLane, n: string)
    requires forall stmt :: stmt in stmts ==> stmt.Assign? ==> stmt.dst != n
    requires IrRun(m, slots, stmts, x).Ok?
    ensures SameAt(IrRun(m, slots, stmts, x).value.env, x.env, n)
    decreases |stmts|
  {
    if stmts != [] {
      assert stmts[0] in stmts;
      UnassignedStep(m, slots, stmts[0], x, n);
      Unassigned(m, slots, stmts[1..], IrStep(m, slots, stmts[0], x).value, n);
    }
  }

  lemma UnassignedStep(m: I.Machine, slots: nat, stmt: Stmt, x: IrLane, n: string)
    requires (stmt.Assign? ==> stmt.dst != n) && IrStep(m, slots, stmt, x).Ok?
    ensures SameAt(IrStep(m, slots, stmt, x).value.env, x.env, n)
  {
    hide Touches, UnaryResult, ArithResult;
  }

  /** An idle lane runs a plain block without moving. */
  lemma {:induction false} IdleRun(m: I.Machine, slots: nat, p: Blocks, stmts: seq<Stmt>, x: IrLane)
    requires (forall stmt :: stmt in stmts ==> Plain(p, stmt)) && !x.active
    ensures IrRun(m, slots, stmts, x) == Ok(x)
    decreases |stmts|
  {
    hide Touches, EvalAssign;
    if stmts != [] {
      assert Plain(p, stmts[0]);
      IdleRun(m, slots, p, stmts[1..], x);
    }
  }

  // ----- one lane of predicated IR, and the same lane of the mask machine -----

  /** The lane of the mask machine has the IR lane's masks, memory and values, and its flags are the
      IR's condition temporaries. */
  ghost predicate Mirrors(p: Blocks, v: M.View<Data>, ir: IrLane) {
    && ir.status == I.Running && !v.exited && ir.active == v.active && ir.stack == v.stack
    && v.lane.user.Data? && v.lane.user.mem == ir.mem && SameVisible(p, v.lane.user.env, ir.env)
    && FlagsAgree(p, v, ir.env)
  }

  ghost predicate FlagsAgree(p: Blocks, v: M.View<Data>, env: map<string, Word>) {
    forall b :: (M.Flag(v.lane.conds, b) <==> Nonzero(env, p.cond(b)))
                && (M.Flag(v.negs, b) <==> Nonzero(env, p.negated(b)))
  }

  /** The comparison with zero that negates a condition. */
  ghost predicate NegatesConditions(m: I.Machine) {
    forall x: Word :: m.arith(I.Eq, I.I32, x, 0) == Some(if x == 0 then 1 else 0)
  }

  lemma BodyMirrors(m: I.Machine, slots: nat, p: Blocks, b: Label, v: M.View<Data>, ir: IrLane)
    requires Tidy(p) && Mirrors(p, v, ir)
    requires IrRun(m, slots, p.code(b), ir).Ok? && IrRun(m, slots, p.code(b), ir).value.status == I.Running
    ensures var u := M.Step(BlockEffects(m, slots, p), M.Body(b), v);
      u.Some? && Mirrors(p, u.value, IrRun(m, slots, p.code(b), ir).value)
  {
    hide Tidy, IrRun, SameVisible, FlagsAgree, SameHidden;
    CodePlain(p, b);
    if !ir.active {
      IdleRun(m, slots, p, p.code(b), ir);
    } else {
      var d := v.lane.user;
      var alone := IrLane(d.env, d.mem, true, [], I.Running);
      VisibleSymmetric(p, d.env, ir.env);
      RunAlike(m, slots, p, p.code(b), ir, alone);
      var st, after := IrRun(m, slots, p.code(b), ir).value, IrRun(m, slots, p.code(b), alone).value;
      VisibleSymmetric(p, st.env, after.env);
      var u := M.Step(BlockEffects(m, slots, p), M.Body(b), v).value;
      assert u.lane.user == Data(after.env, after.mem);
      BodyFlags(m, slots, p, b, v, u, ir, st);
    }
  }

  lemma CodePlain(p: Blocks, b: Label)
    requires Tidy(p)
    ensures forall stmt :: stmt in p.code(b) ==> Plain(p, stmt)
  {
  }

  lemma VisibleSymmetric(p: Blocks, x: map<string, Word>, y: map<string, Word>)
    requires SameVisible(p, x, y)
    ensures SameVisible(p, y, x)
  {
  }

  lemma BodyFlags(m: I.Machine, slots: nat, p: Blocks, b: Label, v: M.View<Data>, u: M.View<Data>,
                  ir: IrLane, st: IrLane)
    requires Tidy(p) && FlagsAgree(p, v, ir.env) && IrRun(m, slots, p.code(b), ir) == Ok(st)
    requires SameHidden(p, st.env, ir.env) && u.lane.user.Data? && SameVisible(p, u.lane.user.env, st.env)
    requires u.negs == v.negs && u.lane.conds == v.lane.conds[b := Nonzero(u.lane.user.env, p.cond(b))]
    ensures FlagsAgree(p, u, st.env)
  {
    hide IrRun, Plain;
    forall c ensures (M.Flag(u.lane.conds, c) <==> Nonzero(st.env, p.cond(c)))
      && (M.Flag(u.negs, c) <==> Nonzero(st.env, p.negated(c)))
    {
      assert IsNegated(p, p.negated(c)) && !IsNegated(p, p.cond(c));
      if c != b { Unassigned(m, slots, p.code(b), ir, p.cond(c)); }
    }
  }

  lemma NegateMirrors(m: I.Machine, slots: nat, p: Blocks, b: Label, v: M.View<Data>, ir: IrLane)
    requires Tidy(p) && NegatesConditions(m) && Mirrors(p, v, ir)
    requires var stmt := LineCode(p, M.Negate(b))[0]; IrStep(m, slots, stmt, ir).Ok?
    ensures var u := M.Step(BlockEffects(m, slots, p), M.Negate(b), v);
      u.Some? && Mirrors(p, u.value, IrStep(m, slots, LineCode(p, M.Negate(b))[0], ir).value)
  {
    hide Tidy, NegatesConditions, SameVisible, FlagsAgree, BlockEffects;
    if ir.active {
      var u := M.Step(BlockEffects(m, slots, p), M.Negate(b), v).value;
      NegateSteps(m, slots, p, b, ir);
      NegateVisible(p, v.lane.user.env, ir.env, b, if ir.env[p.cond(b)] == 0 then 1 else 0);
      NegateFlags(p, b, v, ir.env);
    }
  }

  lemma NegateSteps(m: I.Machine, slots: nat, p: Blocks, b: Label, ir: IrLane)
    requires NegatesConditions(m) && ir.status == I.Running && ir.active
    requires IrStep(m, slots, LineCode(p, M.Negate(b))[0], ir).Ok?
    ensures p.cond(b) in ir.env
    ensures IrStep(m, slots, LineCode(p, M.Negate(b))[0], ir)
            == Ok(ir.(env := ir.env[p.negated(b) := if ir.env[p.cond(b)] == 0 then 1 else 0]))
  {
  }

  lemma NegateVisible(p: Blocks, x: map<string, Word>, env: map<string, Word>, b: Label, w: Word)
    requires SameVisible(p, x, env)
    ensures SameVisible(p, x, env[p.negated(b) := w])
  {
    assert IsNegated(p, p.negated(b));
  }

  lemma NegateFlags(p: Blocks, b: Label, v: M.View<Data>, env: map<string, Word>)
    requires Tidy(p) && FlagsAgree(p, v, env) && p.cond(b) in env
    ensures FlagsAgree(p, v.(negs := v.negs[b := !M.Flag(v.lane.conds, b)]),
                       env[p.negated(b) := if env[p.cond(b)] == 0 then 1 else 0])
  {
    hide Plain;
    var u, after := v.(negs := v.negs[b := !M.Flag(v.lane.conds, b)]),
                    env[p.negated(b) := if env[p.cond(b)] == 0 then 1 else 0];
    forall c ensures (M.Flag(u.lane.conds, c) <==> Nonzero(after, p.cond(c)))
      && (M.Flag(u.negs, c) <==> Nonzero(after, p.negated(c)))
    {
      assert IsNegated(p, p.negated(b)) && !IsNegated(p, p.cond(c));
      FlagsAt(p, v, env, c);
    }
  }

  lemma MaskMirrors(m: I.Machine, slots: nat, p: Blocks, line: M.Line, v: M.View<Data>, ir: IrLane)
    requires Mirrors(p, v, ir) && (line.PredBegin? || line.PredBeginNot? || line.PredEnd?)
    requires var r := IrStep(m, slots, LineCode(p, line)[0], ir); r.Ok? && r.value.status == I.Running
    ensures var u := M.Step(BlockEffects(m, slots, p), line, v);
      u.Some? && Mirrors(p, u.value, IrStep(m, slots, LineCode(p, line)[0], ir).value)
  {
    hide SameVisible, FlagsAgree;
    if line.PredBegin? || line.PredBeginNot? { FlagsAt(p, v, ir.env, line.name); }
    var u := M.Step(BlockEffects(m, slots, p), line, v);
    if u.Some? { FlagsKept(p, v, u.value, ir.env); }
  }

  lemma FlagsAt(p: Blocks, v: M.View<Data>, env: map<string, Word>, b: Label)
    requires FlagsAgree(p, v, env)
    ensures (M.Flag(v.lane.conds, b) <==> Nonzero(env, p.cond(b)))
            && (M.Flag(v.negs, b) <==> Nonzero(env, p.negated(b)))
  {
  }

  lemma FlagsKept(p: Blocks, v: M.View<Data>, u: M.View<Data>, env: map<string, Word>)
    requires FlagsAgree(p, v, env) && u.lane == v.lane && u.negs == v.negs
    ensures FlagsAgree(p, u, env)
  {
  }

  /** One emitted line. */
  lemma LineMirrors(m: I.Machine, slots: nat, p: Blocks, line: M.Line, v: M.View<Data>, ir: IrLane)
    requires Tidy(p) && NegatesConditions(m) && Mirrors(p, v, ir)
    requires var r := IrRun(m, slots, LineCode(p, line), ir); r.Ok? && r.value.status == I.Running
    ensures var u := M.Step(BlockEffects(m, slots, p), line, v);
      u.Some? && Mirrors(p, u.value, IrRun(m, slots, LineCode(p, line), ir).value)
  {
    hide Tidy, Mirrors, BlockEffects, M.Step, IrStep;
    match line
    case Body(b) => BodyMirrors(m, slots, p, b, v, ir);
    case Negate(b) =>
      RunSingle(m, slots, LineCode(p, line)[0], ir);
      NegateMirrors(m, slots, p, b, v, ir);
    case Return =>
      RunSingle(m, slots, Return, ir);
      ReturnExits(m, slots, p, v, ir);
    case _ =>
      RunSingle(m, slots, LineCode(p, line)[0], ir);
      MaskMirrors(m, slots, p, line, v, ir);
  }

  lemma ReturnExits(m: I.Machine, slots: nat, p: Blocks, v: M.View<Data>, ir: IrLane)
    requires Mirrors(p, v, ir)
    ensures IrStep(m, slots, Return, ir) == Ok(ir.(status := I.Exited))
  {
  }

  lemma RunSingle(m: I.Machine, slots: nat, stmt: Stmt, ir: IrLane)
    ensures IrRun(m, slots, [stmt], ir) == IrStep(m, slots, stmt, ir)
  {
    hide IrStep;
    assert [stmt][1..] == [];
  }

  /** Emitted code: the lane of predicated IR and the lane of the mask machine stay together for as
      long as the IR goes on. */
  lemma {:induction false} CodeMirrors(m: I.Machine, slots: nat, p: Blocks, code: seq<M.Line>, v: M.View<Data>,
                                       ir: IrLane)
    requires Tidy(p) && NegatesConditions(m) && Mirrors(p, v, ir)
    requires var r := IrRun(m, slots, Flatten(p, code), ir); r.Ok? && r.value.status == I.Running
    ensures var u := M.Steps(BlockEffects(m, slots, p), code, v);
      u.Some? && Mirrors(p, u.value, IrRun(m, slots, Flatten(p, code), ir).value)
    decreases |code|
  {
    hide Tidy, Mirrors, BlockEffects, M.Step, LineCode, NegatesConditions;
    if code != [] {
      hide IrRun;
      var first, rest := LineCode(p, code[0]), Flatten(p, code[1..]);
      IrRunAppend(m, slots, first, rest, ir);
      var st := IrRun(m, slots, first, ir).value;
      if st.status != I.Running { StoppedRun(m, slots, rest, st); }
      LineMirrors(m, slots, p, code[0], v, ir);
      CodeMirrors(m, slots, p, code[1..], M.Step(BlockEffects(m, slots, p), code[0], v).value, st);
    }
  }

  // ----- whole kernels -----

  /** The predicated IR of a kernel. */
  ghost function KernelSection(p: Blocks, g: Graph, order: seq<Label>, entry: Label): seq<Stmt>
    requires Ordering(g, order)
  {
    var e := EmitBlock(g, order, entry, {});
    if e.Emitted? then Flatten(p, e.code) else []
  }

  lemma {:induction false} FlattenStraight(p: Blocks, code: seq<M.Line>)
    requires Tidy(p)
    ensures Branchless(Flatten(p, code))
    decreases |code|
  {
    hide Tidy;
    if code != [] {
      FlattenStraight(p, code[1..]);
      if code[0].Body? { CodePlain(p, code[0].name); }
      forall stmt | stmt in LineCode(p, code[0]) ensures Straight(stmt) {
        assert code[0].Body? ==> Plain(p, stmt);
      }
    }
  }

  predicate ReturnFree(code: seq<M.Line>) {
    forall line :: line in code ==> !line.Return?
  }

  /** No return is emitted before a region's stop block. */
  lemma {:induction false} CodeReturnFree(g: Graph, order: seq<Label>, rank: Label -> nat, name: Label, stop: Label)
    requires Ordering(g, order) && Arm(g, order, rank, name, stop)
    ensures ReturnFree(Code(g, order, rank, name, stop))
    decreases rank(name)
  {
    hide Ordering, IsMerge, Code, Arm, ArmsCode;
    CodeUnfold(g, order, rank, name, stop);
    if name != stop {
      match g[name]
      case Br(n) => CodeReturnFree(g, order, rank, n, stop);
      case CondBr(t, f) =>
        ArmParts(g, order, rank, name, stop);
        ArmsUnfold(g, order, rank, name, stop);
        var j := MergeOf(g, order, t, f).value;
        CodeReturnFree(g, order, rank, t, j);
        CodeReturnFree(g, order, rank, f, j);
        CodeReturnFree(g, order, rank, j, stop);
    }
  }

  /** Without a return a lane does not end the warp. */
  lemma {:induction false} NeverExits(m: I.Machine, slots: nat, p: Blocks, code: seq<M.Line>, ir: IrLane)
    requires Tidy(p) && ReturnFree(code) && ir.status != I.Exited && IrRun(m, slots, Flatten(p, code), ir).Ok?
    ensures IrRun(m, slots, Flatten(p, code), ir).value.status != I.Exited
    decreases |code|
  {
    hide Tidy, LineCode;
    if code != [] {
      var first, rest := LineCode(p, code[0]), Flatten(p, code[1..]);
      hide IrRun;
      IrRunAppend(m, slots, first, rest, ir);
      LineReturnFree(p, code[0]);
      StmtsNeverExit(m, slots, first, ir);
      NeverExits(m, slots, p, code[1..], IrRun(m, slots, first, ir).value);
    }
  }

  lemma LineReturnFree(p: Blocks, line: M.Line)
    requires Tidy(p) && !line.Return?
    ensures forall stmt :: stmt in LineCode(p, line) ==> !stmt.Return?
  {
    if line.Body? { CodePlain(p, line.name); }
    hide Tidy;
    forall stmt | stmt in LineCode(p, line) ensures !stmt.Return? {
      assert line.Body? ==> Plain(p, stmt);
    }
  }

  lemma {:induction false} StmtsNeverExit(m: I.Machine, slots: nat, stmts: seq<Stmt>, ir: IrLane)
    requires (forall stmt :: stmt in stmts ==> !stmt.Return?) && ir.status != I.Exited && IrRun(m, slots, stmts, ir).Ok?
    ensures IrRun(m, slots, stmts, ir).value.status != I.Exited
    decreases |stmts|
  {
    hide Touches, UnaryResult, ArithResult;
    if stmts != [] {
      assert stmts[0] in stmts;
      StmtsNeverExit(m, slots, stmts[1..], IrStep(m, slots, stmts[0], ir).value);
    }
  }

  /** A lane before any block has run. */
  function Newborn(mem: map<nat, Word>): M.Lane<Data> {
    M.Lane(Data(map[], mem), map[])
  }

  /** The mask machine's view of a lane that starts a kernel. */
  function StartView(start: I.Lane): M.View<Data> {
    M.View(Newborn(start.mem), map[], start.active, [], false)
  }

  lemma StartMirrors(p: Blocks, start: I.Lane)
    requires start.status == I.Running && start.stack == []
    ensures Mirrors(p, StartView(start), StartOf(start))
  {
  }

  /** What the predicated IR of a structured region and the block behind it does to one lane: if the
      lane goes on, its own branches have led it to that block, which it has run. */
  lemma RegionMeaning(m: I.Machine, slots: nat, p: Blocks, g: Graph, order: seq<Label>, rank: Label -> nat,
                      entry: Label, exit: Label, start: I.Lane)
    requires Ordering(g, order) && Arm(g, order, rank, entry, exit) && Tidy(p) && NegatesConditions(m)
    requires start.status == I.Running && start.stack == []
    requires var r := IrRun(m, slots, Flatten(p, Code(g, order, rank, entry, exit) + [M.Body(exit)]), StartOf(start));
             r.Ok? && r.value.status == I.Running
    ensures var fx, st := BlockEffects(m, slots, p),
              IrRun(m, slots, Flatten(p, Code(g, order, rank, entry, exit) + [M.Body(exit)]), StartOf(start)).value;
            if start.active then
              exists after: M.Lane<Data> :: Completes(g, fx, entry, exit, Newborn(start.mem), after)
                && after.user.Data? && after.user.mem == st.mem
            else st.mem == start.mem
  {
    hide Ordering, Arm, Code, Tidy, NegatesConditions, IrRun, Flatten, M.Steps, BlockEffects, Nest, Walk, WalkFor;
    var fx, v, code := BlockEffects(m, slots, p), StartView(start), Code(g, order, rank, entry, exit);
    StartMirrors(p, start);
    CodeMirrors(m, slots, p, code + [M.Body(exit)], v, StartOf(start));
    M.StepsConcat(fx, code, [M.Body(exit)], v);
    RegionLands(g, order, rank, fx, entry, exit, v);
    ArmLeads(g, order, rank, fx, entry, exit, v.lane, rank(entry));
    StepsBody(fx, exit, M.Steps(fx, code, v).value);
    var u := M.Steps(fx, code + [M.Body(exit)], v).value;
    if start.active {
      var there := Walk(g, rank, fx, entry, exit, v.lane);
      assert Leads(g, fx, entry, exit, v.lane, there);
      assert u.lane == M.RunBlock(fx, exit, there);
      assert Completes(g, fx, entry, exit, Newborn(start.mem), u.lane);
    }
  }
}
