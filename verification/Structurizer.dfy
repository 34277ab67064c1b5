/** Lowering of branches to mask regions, and the proof that it preserves every lane's path. */
module Structurizer {
  import opened Words
  import opened Cfg
  import opened CommonMerge
  import opened MaskMachine
  import opened MaskStack

  /** What lowering produces: code, an unsupported branch shape, or a loop (not modelled). */
  datatype Emission = Emitted(code: seq<Line>) | Unsupported | LoopTail

  function Then(a: Emission, b: Emission): Emission {
    if a.Emitted? && b.Emitted? then Emitted(a.code + b.code)
    else if a.Emitted? then b else a
  }

  /** The mask regions of one branch and what follows them; there is no second region when the
      false arm is empty. */
  function EmitBranch(name: Label, whenTrue: Emission, whenFalse: Option<Emission>, rest: Emission): Emission {
    Then(Then(Then(Emitted([Body(name), PredBegin(name)]), whenTrue), Emitted([PredEnd])),
         Then(if whenFalse.None? then Emitted([])
              else Then(Then(Emitted([Negate(name), PredBeginNot(name)]), whenFalse.value), Emitted([PredEnd])),
              rest))
  }

  predicate HasBackedge(g: Graph, name: Label) {
    exists b :: b in g && b != name && g[b] == Br(name)
  }

  /** A branch is lowered as a loop header when its true arm leads back to it. */
  ghost predicate IsLoop(g: Graph, name: Label, t: Label, f: Label) {
    HasBackedge(g, name) && Avoiding(g, t, name, f)
  }

  ghost function EmitRegion(g: Graph, order: seq<Label>, name: Label, stop: Label, seen: set<Label>): Emission
    requires Ordering(g, order)
    decreases g.Keys - seen
  {
    if name == stop || name in seen then Emitted([])
    else if name !in g then Unsupported
    else
      var inner := seen + {name};
      match g[name]
      case Ret => Emitted([Body(name), Return])
      case Br(n) => Then(Emitted([Body(name)]), EmitRegion(g, order, n, stop, inner))
      case CondBr(t, f) =>
        if IsLoop(g, name, t, f) then LoopTail
        else match MergeOf(g, order, t, f)
          case None => Unsupported
          case Some(m) =>
            EmitBranch(name, EmitRegion(g, order, t, m, inner),
                       if f == m then None else Some(EmitRegion(g, order, f, m, inner)),
                       EmitRegion(g, order, m, stop, inner))
  }

  /** The spine of a kernel: like a region without a stop block, whose arms start afresh. */
  ghost function EmitBlock(g: Graph, order: seq<Label>, name: Label, visited: set<Label>): Emission
    requires Ordering(g, order)
    decreases g.Keys - visited
  {
    if name in visited then Emitted([])
    else if name !in g then Unsupported
    else
      var inner := visited + {name};
      match g[name]
      case Ret => Emitted([Body(name), Return])
      case Br(n) => Then(Emitted([Body(name)]), EmitBlock(g, order, n, inner))
      case CondBr(t, f) =>
        if IsLoop(g, name, t, f) then LoopTail
        else match MergeOf(g, order, t, f)
          case None => Unsupported
          case Some(m) =>
            EmitBranch(name, EmitRegion(g, order, t, m, {}),
                       if f == m then None else Some(EmitRegion(g, order, f, m, {})),
                       EmitBlock(g, order, m, inner))
  }

  /** A header that another block jumps back to, and that its true arm reaches without the false one, is
      taken for a loop wherever it is lowered. */
  lemma LoopRefused(g: Graph, order: seq<Label>, name: Label, t: Label, f: Label, from: Label, path: seq<Label>,
                    stop: Label, seen: set<Label>)
    requires Ordering(g, order) && name in g && g[name] == CondBr(t, f) && name != stop && name !in seen
    requires from in g && from != name && g[from] == Br(name)
    requires Links(g, path, t, name) && f !in path
    ensures EmitRegion(g, order, name, stop, seen) == LoopTail == EmitBlock(g, order, name, seen)
  {
    assert HasBackedge(g, name);
  }

  // ----- the path a lane takes -----

  /** The state a lane reaches at the stop block by taking its own branches, if it gets there
      within n blocks. */
  function WalkFor<S>(g: Graph, fx: Effects<S>, name: Label, stop: Label, lane: Lane<S>, n: nat): Option<Lane<S>>
    decreases n
  {
    if name == stop then Some(lane)
    else if name !in g || n == 0 then None
    else
      var next := RunBlock(fx, name, lane);
      match g[name]
      case Ret => None
      case Br(to) => WalkFor(g, fx, to, stop, next, n - 1)
      case CondBr(t, f) => WalkFor(g, fx, if Flag(next.conds, name) then t else f, stop, next, n - 1)
  }

  /** A lane's own branches lead it to the stop block, in the state `after`. */
  ghost predicate Leads<S(!new)>(g: Graph, fx: Effects<S>, name: Label, stop: Label, lane: Lane<S>, after: Lane<S>) {
    exists n: nat :: WalkFor(g, fx, name, stop, lane, n) == Some(after)
  }

  /** The same path as a function, followed while ranks fall. */
  function Walk<S>(g: Graph, rank: Label -> nat, fx: Effects<S>, name: Label, stop: Label, lane: Lane<S>): Lane<S>
    decreases rank(name)
  {
    if name == stop || name !in g then lane
    else
      var next := RunBlock(fx, name, lane);
      match g[name]
      case Ret => next
      case Br(n) =>
        if rank(n) < rank(name) then Walk(g, rank, fx, n, stop, next) else next
      case CondBr(t, f) =>
        var arm := if Flag(next.conds, name) then t else f;
        if rank(arm) < rank(name) then Walk(g, rank, fx, arm, stop, next) else next
  }

  // ----- regions whose arms meet -----

  /** From `name`, ranks fall on every path until it reaches `stop`, which it does without
      returning; and at every branch on the way, none of them a loop header, both arms lead to
      the merge point chosen for it. */
  ghost predicate Arm(g: Graph, order: seq<Label>, rank: Label -> nat, name: Label, stop: Label)
    requires Ordering(g, order)
    decreases rank(name)
  {
    name == stop
    || (name in g &&
        match g[name]
        case Ret => false
        case Br(n) => rank(n) < rank(name) && Arm(g, order, rank, n, stop)
        case CondBr(t, f) =>
          && !IsLoop(g, name, t, f) && rank(t) < rank(name) && rank(f) < rank(name)
          && match MergeOf(g, order, t, f)
             case None => false
             case Some(m) =>
               && rank(m) < rank(name)
               && Arm(g, order, rank, t, m) && Arm(g, order, rank, f, m) && Arm(g, order, rank, m, stop))
  }

  /** The code of such a region. */
  ghost function Code(g: Graph, order: seq<Label>, rank: Label -> nat, name: Label, stop: Label): seq<Line>
    requires Ordering(g, order) && Arm(g, order, rank, name, stop)
    decreases rank(name), 1
  {
    if name == stop then []
    else
      match g[name]
      case Br(n) =>
        [Body(name)] + Code(g, order, rank, n, stop)
      case CondBr(t, f) =>
        ArmsCode(g, order, rank, name, stop) + Code(g, order, rank, MergeOf(g, order, t, f).value, stop)
  }

  ghost function ArmsCode(g: Graph, order: seq<Label>, rank: Label -> nat, name: Label, stop: Label): seq<Line>
    requires Ordering(g, order) && Arm(g, order, rank, name, stop)
    requires name != stop && g[name].CondBr?
    decreases rank(name), 0
  {
    var t, f := g[name].whenTrue, g[name].whenFalse;
    var m := MergeOf(g, order, t, f).value;
    BranchCode(name, Code(g, order, rank, t, m), if f == m then None else Some(Code(g, order, rank, f, m)))
  }

  /** The mask regions of one branch; there is no second one when the false arm is empty. */
  function BranchCode(name: Label, whenTrue: seq<Line>, whenFalse: Option<seq<Line>>): seq<Line> {
    [Body(name)] + ([PredBegin(name)] + whenTrue + [PredEnd])
    + (if whenFalse.None? then []
       else [Negate(name)] + ([PredBeginNot(name)] + whenFalse.value + [PredEnd]))
  }

  /** How deep mask regions nest in the code. */
  ghost function Nest(g: Graph, order: seq<Label>, rank: Label -> nat, name: Label, stop: Label): nat
    requires Ordering(g, order) && Arm(g, order, rank, name, stop)
    decreases rank(name), 1
  {
    if name == stop then 0
    else
      match g[name]
      case Br(n) =>
        Nest(g, order, rank, n, stop)
      case CondBr(t, f) =>
        Max(ArmsNest(g, order, rank, name, stop), Nest(g, order, rank, MergeOf(g, order, t, f).value, stop))
  }

  ghost function ArmsNest(g: Graph, order: seq<Label>, rank: Label -> nat, name: Label, stop: Label): nat
    requires Ordering(g, order) && Arm(g, order, rank, name, stop)
    requires name != stop && g[name].CondBr?
    decreases rank(name), 0
  {
    var t, f := g[name].whenTrue, g[name].whenFalse;
    var m := MergeOf(g, order, t, f).value;
    Max(1 + Nest(g, order, rank, t, m), if f == m then 0 else 1 + Nest(g, order, rank, f, m))
  }

  // ----- the emitter produces that code -----

  ghost predicate Above(rank: Label -> nat, seen: set<Label>, name: Label) {
    forall s :: s in seen ==> rank(name) < rank(s)
  }

  lemma {:induction false} EmitsCode(g: Graph, order: seq<Label>, rank: Label -> nat, name: Label, stop: Label,
                                     seen: set<Label>)
    requires Ordering(g, order) && Arm(g, order, rank, name, stop) && Above(rank, seen, name)
    ensures EmitRegion(g, order, name, stop, seen) == Emitted(Code(g, order, rank, name, stop))
    decreases rank(name)
  {
    hide Ordering, IsLoop, BranchCode, EmitBranch;
    if name != stop {
      assert name !in seen;
      var inner := seen + {name};
      match g[name]
      case Br(n) =>
        EmitsCode(g, order, rank, n, stop, inner);
      case CondBr(t, f) =>
        var m := MergeOf(g, order, t, f).value;
        EmitsCode(g, order, rank, t, m, inner);
        if f != m { EmitsCode(g, order, rank, f, m, inner); }
        EmitsCode(g, order, rank, m, stop, inner);
        BranchEmits(name, Code(g, order, rank, t, m), if f == m then None else Some(Code(g, order, rank, f, m)),
                    Code(g, order, rank, m, stop));
    }
  }

  lemma BranchEmits(name: Label, a: seq<Line>, b: Option<seq<Line>>, rest: seq<Line>)
    ensures EmitBranch(name, Emitted(a), if b.None? then None else Some(Emitted(b.value)), Emitted(rest))
            == Emitted(BranchCode(name, a, b) + rest)
  {
    if b.None? {
      assert [Body(name), PredBegin(name)] + a + [PredEnd] + ([] + rest) == BranchCode(name, a, b) + rest;
    } else {
      assert [Body(name), PredBegin(name)] + a + [PredEnd]
             + ([Negate(name), PredBeginNot(name)] + b.value + [PredEnd] + rest) == BranchCode(name, a, b) + rest;
    }
  }

  // ----- running that code -----

  /** Blocks on the way leave the conditions of blocks of higher rank alone. */
  lemma {:induction false} WalkKeepsConds<S>(g: Graph, rank: Label -> nat, fx: Effects<S>, name: Label, stop: Label,
                                             lane: Lane<S>, other: Label)
    requires rank(name) < rank(other)
    ensures Flag(Walk(g, rank, fx, name, stop, lane).conds, other) == Flag(lane.conds, other)
    decreases rank(name)
  {
    if name != stop && name in g {
      var next := RunBlock(fx, name, lane);
      match g[name]
      case Ret =>
      case Br(n) =>
        if rank(n) < rank(name) { WalkKeepsConds(g, rank, fx, n, stop, next, other); }
      case CondBr(t, f) =>
        var arm := if Flag(next.conds, name) then t else f;
        if rank(arm) < rank(name) { WalkKeepsConds(g, rank, fx, arm, stop, next, other); }
    }
  }

  lemma {:induction false} ArmRank(g: Graph, order: seq<Label>, rank: Label -> nat, name: Label, stop: Label)
    requires Ordering(g, order) && Arm(g, order, rank, name, stop)
    ensures name == stop || rank(stop) < rank(name)
    decreases rank(name)
  {
    hide Ordering;
    if name != stop {
      match g[name]
      case Br(n) =>
        ArmRank(g, order, rank, n, stop);
      case CondBr(t, f) =>
        ArmRank(g, order, rank, MergeOf(g, order, t, f).value, stop);
    }
  }

  /** Walking to a later stop is walking to the merge point first and on from there. */
  lemma {:induction false} WalkThrough<S>(g: Graph, order: seq<Label>, rank: Label -> nat, fx: Effects<S>,
                                          name: Label, m: Label, stop: Label, lane: Lane<S>)
    requires Ordering(g, order)
    requires Arm(g, order, rank, name, m) && Arm(g, order, rank, m, stop)
    ensures Walk(g, rank, fx, name, stop, lane) == Walk(g, rank, fx, m, stop, Walk(g, rank, fx, name, m, lane))
    decreases rank(name)
  {
    hide Ordering;
    if name != m {
      ArmRank(g, order, rank, name, m);
      ArmRank(g, order, rank, m, stop);
      var next := RunBlock(fx, name, lane);
      match g[name]
      case Br(n) =>
        WalkThrough(g, order, rank, fx, n, m, stop, next);
      case CondBr(t, f) =>
        var j := MergeOf(g, order, t, f).value;
        var arm := if Flag(next.conds, name) then t else f;
        var there := Walk(g, rank, fx, arm, j, next);
        WalkThrough(g, order, rank, fx, arm, j, m, next);
        ArmRank(g, order, rank, j, m);
        ArmThrough(g, order, rank, j, m, stop);
        WalkThrough(g, order, rank, fx, arm, j, stop, next);
        WalkThrough(g, order, rank, fx, j, m, stop, there);
    }
  }

  lemma {:induction false} ArmThrough(g: Graph, order: seq<Label>, rank: Label -> nat, name: Label, m: Label,
                                      stop: Label)
    requires Ordering(g, order)
    requires Arm(g, order, rank, name, m) && Arm(g, order, rank, m, stop)
    ensures Arm(g, order, rank, name, stop)
    decreases rank(name)
  {
    hide Ordering;
    if name != m {
      match g[name]
      case Br(n) =>
        ArmThrough(g, order, rank, n, m, stop);
      case CondBr(t, f) =>
        ArmThrough(g, order, rank, MergeOf(g, order, t, f).value, m, stop);
    }
  }

  /** From such a region every lane's own branches lead to the stop block. */
  lemma {:induction false} ArmLeads<S>(g: Graph, order: seq<Label>, rank: Label -> nat, fx: Effects<S>,
                                       name: Label, stop: Label, lane: Lane<S>, n: nat)
    requires Ordering(g, order) && Arm(g, order, rank, name, stop) && n >= rank(name)
    ensures WalkFor(g, fx, name, stop, lane, n) == Some(Walk(g, rank, fx, name, stop, lane))
    decreases rank(name)
  {
    hide Ordering, IsMerge, IsLoop;
    if name != stop {
      var next := RunBlock(fx, name, lane);
      match g[name]
      case Br(to) =>
        ArmLeads(g, order, rank, fx, to, stop, next, n - 1);
      case CondBr(t, f) =>
        var arm := if Flag(next.conds, name) then t else f;
        ArmThrough(g, order, rank, arm, MergeOf(g, order, t, f).value, stop);
        ArmLeads(g, order, rank, fx, arm, stop, next, n - 1);
    }
  }

  /** More steps change nothing, so a lane is led to one state only. */
  lemma {:induction false} WalkForMore<S>(g: Graph, fx: Effects<S>, name: Label, stop: Label, lane: Lane<S>,
                                          n: nat, more: nat)
    requires WalkFor(g, fx, name, stop, lane, n).Some? && n <= more
    ensures WalkFor(g, fx, name, stop, lane, more) == WalkFor(g, fx, name, stop, lane, n)
    decreases n
  {
    if name != stop {
      var next := RunBlock(fx, name, lane);
      match g[name]
      case Br(to) => WalkForMore(g, fx, to, stop, next, n - 1, more - 1);
      case CondBr(t, f) =>
        WalkForMore(g, fx, if Flag(next.conds, name) then t else f, stop, next, n - 1, more - 1);
    }
  }

  lemma LeadsOnce<S(!new)>(g: Graph, fx: Effects<S>, name: Label, stop: Label, lane: Lane<S>, a: Lane<S>, b: Lane<S>)
    requires Leads(g, fx, name, stop, lane, a) && Leads(g, fx, name, stop, lane, b)
    ensures a == b
  {
    var n: nat :| WalkFor(g, fx, name, stop, lane, n) == Some(a);
    var k: nat :| WalkFor(g, fx, name, stop, lane, k) == Some(b);
    if n <= k { WalkForMore(g, fx, name, stop, lane, n, k); } else { WalkForMore(g, fx, name, stop, lane, k, n); }
  }

  /** The mask regions of one branch leave an active lane where its own arm leads. */
  lemma BranchLands<S>(fx: Effects<S>, name: Label, a: seq<Line>, b: Option<seq<Line>>, v: View<S>,
                       afterTrue: Lane<S>, afterFalse: Lane<S>, m: nat, n: nat)
    requires |v.stack| <= MASK_STACK_DEPTH && !v.exited
    requires var next := if v.active then RunBlock(fx, name, v.lane) else v.lane;
             var taken := v.active && Flag(next.conds, name);
             var inside := if taken then afterTrue else next;
             && (b.None? ==> afterFalse == next)
             && (taken ==> Flag(afterTrue.conds, name))
             && (|v.stack| < MASK_STACK_DEPTH ==>
                   Lands(fx, a, Opened(v.(lane := next), Flag(next.conds, name)), inside, m))
             && (b.Some? ==> forall u: View<S> ::
                   |u.stack| <= MASK_STACK_DEPTH && !u.exited
                   && u.lane == inside && u.active == (v.active && !taken) ==>
                     Lands(fx, b.value, u, if u.active then afterFalse else inside, n))
    ensures var next := if v.active then RunBlock(fx, name, v.lane) else v.lane;
            Lands(fx, BranchCode(name, a, b), v,
                  if !v.active then v.lane else if Flag(next.conds, name) then afterTrue else afterFalse,
                  Max(1 + m, if b.None? then 0 else 1 + n))
  {
    hide Lands, Flag, Steps;
    var next := if v.active then RunBlock(fx, name, v.lane) else v.lane;
    var v1 := v.(lane := next);
    var taken := v.active && Flag(next.conds, name);
    var inside := if taken then afterTrue else next;
    var after := if !v.active then v.lane else if taken then afterTrue else afterFalse;
    var first, region := [Body(name)], [PredBegin(name)] + a + [PredEnd];
    LandsBody(fx, name, v);
    StepsBody(fx, name, v);
    LandsRegion(fx, PredBegin(name), a, v1, inside, m);
    LandsConcat(fx, first, region, v, next, inside, 0, m + 1);
    if b.None? {
      assert BranchCode(name, a, b) == first + region;
      return;
    }
    var second := [Negate(name)] + ([PredBeginNot(name)] + b.value + [PredEnd]);
    if |v.stack| + m + 1 <= MASK_STACK_DEPTH {
      var w := LandsAt(fx, first + region, v, inside, m + 1);
      SecondRegionLands(fx, name, b.value, w, afterFalse, n);
      LandsConcat(fx, first + region, second, v, inside, after, m + 1, n + 1);
    } else {
      FullStops(fx, first + region, v, inside, m + 1);
      LandsConcat(fx, first + region, second, v, inside, after, m + 1, n + 1);
    }
  }

  lemma StepsBody<S>(fx: Effects<S>, name: Label, v: View<S>)
    requires !v.exited
    ensures Steps(fx, [Body(name)], v) == Some(v.(lane := if v.active then RunBlock(fx, name, v.lane) else v.lane))
  {
    assert [Body(name)][1..] == [];
  }

  lemma LandsAt<S>(fx: Effects<S>, code: seq<Line>, v: View<S>, after: Lane<S>, n: nat) returns (w: View<S>)
    requires Lands(fx, code, v, after, n) && |v.stack| + n <= MASK_STACK_DEPTH
    ensures Steps(fx, code, v) == Some(w) && !w.exited
    ensures w.lane == after && w.active == v.active && w.stack == v.stack
  {
    w := Steps(fx, code, v).value;
  }

  lemma FullStops<S>(fx: Effects<S>, code: seq<Line>, v: View<S>, after: Lane<S>, n: nat)
    requires Lands(fx, code, v, after, n) && |v.stack| + n > MASK_STACK_DEPTH
    ensures Steps(fx, code, v) == None
  {
  }

  /** The region on the negated condition, whose instruction reads the condition again. */
  lemma SecondRegionLands<S>(fx: Effects<S>, name: Label, b: seq<Line>, w: View<S>, afterFalse: Lane<S>, n: nat)
    requires |w.stack| <= MASK_STACK_DEPTH && !w.exited
    requires forall u: View<S> ::
               |u.stack| <= MASK_STACK_DEPTH && !u.exited && u.lane == w.lane
               && u.active == (w.active && !Flag(w.lane.conds, name)) ==>
                 Lands(fx, b, u, if u.active then afterFalse else w.lane, n)
    ensures Lands(fx, [Negate(name)] + ([PredBeginNot(name)] + b + [PredEnd]), w,
                  if w.active && !Flag(w.lane.conds, name) then afterFalse else w.lane, n + 1)
  {
    hide Lands;
    var region := [PredBeginNot(name)] + b + [PredEnd];
    var w1 := if w.active then w.(negs := w.negs[name := !Flag(w.lane.conds, name)]) else w;
    var after := if w.active && !Flag(w.lane.conds, name) then afterFalse else w.lane;
    LandsRegion(fx, PredBeginNot(name), b, w1, after, n);
    NegateFirst(fx, name, region, w, w1, after, n + 1);
  }

  lemma NegateFirst<S>(fx: Effects<S>, name: Label, region: seq<Line>, w: View<S>, w1: View<S>, after: Lane<S>, n: nat)
    requires !w.exited
    requires w1 == if w.active then w.(negs := w.negs[name := !Flag(w.lane.conds, name)]) else w
    requires Lands(fx, region, w1, after, n)
    ensures Lands(fx, [Negate(name)] + region, w, after, n)
  {
    assert ([Negate(name)] + region)[1..] == region;
  }

  /** One lane running a region's code: an active lane ends in the state its own path leads to, an
      inactive lane is untouched, mask and stack come back as they were, and the core faults
      exactly when the nesting does not fit the free stack entries. */
  lemma {:induction false} RegionLands<S>(g: Graph, order: seq<Label>, rank: Label -> nat, fx: Effects<S>,
                                          name: Label, stop: Label, v: View<S>)
    requires Ordering(g, order) && Arm(g, order, rank, name, stop)
    requires |v.stack| <= MASK_STACK_DEPTH && !v.exited
    ensures Lands(fx, Code(g, order, rank, name, stop), v,
                  if v.active then Walk(g, rank, fx, name, stop, v.lane) else v.lane,
                  Nest(g, order, rank, name, stop))
    decreases rank(name), 1
  {
    hide Ordering, Lands, Steps, Flag, BranchCode, RunBlock;
    if name == stop {
      LandsEmpty(fx, v);
    } else {
      var next := if v.active then RunBlock(fx, name, v.lane) else v.lane;
      match g[name]
      case Br(n) =>
        LandsBody(fx, name, v);
        StepsBody(fx, name, v);
        RegionLands(g, order, rank, fx, n, stop, v.(lane := next));
        LandsConcat(fx, [Body(name)], Code(g, order, rank, n, stop), v, next,
                    if v.active then Walk(g, rank, fx, n, stop, next) else v.lane, 0, Nest(g, order, rank, n, stop));
      case CondBr(t, f) =>
        var j := MergeOf(g, order, t, f).value;
        var arm := if Flag(next.conds, name) then t else f;
        var middle := if v.active then Walk(g, rank, fx, arm, j, next) else v.lane;
        var after := if v.active then Walk(g, rank, fx, j, stop, middle) else v.lane;
        RegionBranchLands(g, order, rank, fx, name, stop, v);
        forall w: View<S> | w.lane == middle && w.active == v.active && w.stack == v.stack && !w.exited
          ensures Lands(fx, Code(g, order, rank, j, stop), w, after, Nest(g, order, rank, j, stop))
        {
          RegionLands(g, order, rank, fx, j, stop, w);
        }
        LandsThen(fx, ArmsCode(g, order, rank, name, stop), Code(g, order, rank, j, stop), v, middle, after,
                  ArmsNest(g, order, rank, name, stop), Nest(g, order, rank, j, stop));
        WalkThrough(g, order, rank, fx, arm, j, stop, next);
    }
  }

  /** The same for the mask regions of one branch, which lead each lane to the merge point. */
  lemma {:induction false} RegionBranchLands<S>(g: Graph, order: seq<Label>, rank: Label -> nat, fx: Effects<S>,
                                                name: Label, stop: Label, v: View<S>)
    requires Ordering(g, order) && Arm(g, order, rank, name, stop)
    requires |v.stack| <= MASK_STACK_DEPTH && !v.exited && name != stop && g[name].CondBr?
    ensures var t, f := g[name].whenTrue, g[name].whenFalse;
            var j, next := MergeOf(g, order, t, f).value, RunBlock(fx, name, v.lane);
            Lands(fx, ArmsCode(g, order, rank, name, stop), v,
                  if v.active then Walk(g, rank, fx, if Flag(next.conds, name) then t else f, j, next) else v.lane,
                  ArmsNest(g, order, rank, name, stop))
    decreases rank(name), 0
  {
    hide Ordering, IsMerge, Lands, Steps, Flag, BranchCode, RunBlock, Arm, Walk, Code, Nest, Opened;
    ArmParts(g, order, rank, name, stop);
    var t, f := g[name].whenTrue, g[name].whenFalse;
    var next := if v.active then RunBlock(fx, name, v.lane) else v.lane;
    var j := MergeOf(g, order, t, f).value;
    var cond := Flag(next.conds, name);
    var afterTrue, afterFalse := Walk(g, rank, fx, t, j, next), Walk(g, rank, fx, f, j, next);
    var inside := if v.active && cond then afterTrue else next;
    WalkKeepsConds(g, rank, fx, t, j, next, name);
    if |v.stack| < MASK_STACK_DEPTH {
      OpenedFields(v.(lane := next), cond);
      RegionLands(g, order, rank, fx, t, j, Opened(v.(lane := next), cond));
    }
    forall u: View<S>
      | |u.stack| <= MASK_STACK_DEPTH && !u.exited && u.lane == inside && u.active == (v.active && !(v.active && cond))
      ensures Lands(fx, Code(g, order, rank, f, j), u,
                    if u.active then afterFalse else inside, Nest(g, order, rank, f, j))
    {
      RegionLands(g, order, rank, fx, f, j, u);
    }
    WalkStops(g, rank, fx, j, next);
    BranchLands(fx, name, Code(g, order, rank, t, j), if f == j then None else Some(Code(g, order, rank, f, j)), v,
                afterTrue, afterFalse, Nest(g, order, rank, t, j), Nest(g, order, rank, f, j));
  }

  lemma WalkStops<S>(g: Graph, rank: Label -> nat, fx: Effects<S>, name: Label, lane: Lane<S>)
    ensures Walk(g, rank, fx, name, name, lane) == lane
  {
  }

  lemma OpenedFields<S>(v: View<S>, cond: bool)
    ensures var u := Opened(v, cond);
            u.lane == v.lane && u.active == (v.active && cond) && |u.stack| == |v.stack| + 1 && u.exited == v.exited
  {
  }

  /** The parts of a branch region. */
  lemma ArmParts(g: Graph, order: seq<Label>, rank: Label -> nat, name: Label, stop: Label)
    requires Ordering(g, order) && Arm(g, order, rank, name, stop)
    requires name != stop && g[name].CondBr?
    ensures name in g
    ensures var t, f := g[name].whenTrue, g[name].whenFalse;
            var j := MergeOf(g, order, t, f);
            && j.Some? && Arm(g, order, rank, t, j.value) && Arm(g, order, rank, f, j.value)
            && Arm(g, order, rank, j.value, stop) && !IsLoop(g, name, t, f)
            && rank(t) < rank(name) && rank(f) < rank(name) && rank(j.value) < rank(name)
  {
    var t, f := g[name].whenTrue, g[name].whenFalse;
  }

  lemma LandsThen<S>(fx: Effects<S>, a: seq<Line>, b: seq<Line>, v: View<S>, middle: Lane<S>, after: Lane<S>,
                     m: nat, n: nat)
    requires Lands(fx, a, v, middle, m)
    requires forall w: View<S> ::
               w.lane == middle && w.active == v.active && w.stack == v.stack && !w.exited ==> Lands(fx, b, w, after, n)
    ensures Lands(fx, a + b, v, after, Max(m, n))
  {
    hide Steps;
    LandsConcat(fx, a, b, v, middle, after, m, n);
  }
}
