/** The emitter as the compiler runs it, and its main theorems on whole warps. */
module KernelLowering {
  import opened Words
  import opened Cfg
  import opened CommonMerge
  import opened KernelReturns
  import opened MaskMachine
  import opened MaskStack
  import opened Reachability
  import opened Structurizer
  import opened StructuredRegions

  // ----- warps -----

  /** Code that lands in every lane brings mask and stack back and moves the active lanes only. */
  lemma WarpLands<S>(fx: Effects<S>, code: seq<Line>, w: Warp<S>, after: seq<Lane<S>>, nest: nat)
    requires Shaped(w) && |w.lanes| > 0 && |after| == |w.lanes|
    requires forall i :: 0 <= i < |w.lanes| ==> Lands(fx, code, Project(w, i), after[i], nest)
    ensures ExecAll(fx, code, w).Some? <==> |w.stack| + nest <= MASK_STACK_DEPTH
    ensures ExecAll(fx, code, w).Some? ==>
              var v := ExecAll(fx, code, w).value;
              v.lanes == after && v.mask == w.mask && v.stack == w.stack && !v.exited
  {
    hide ExecAll, Steps;
    ExecAllProjects(fx, code, w, 0);
    assert Lands(fx, code, Project(w, 0), after[0], nest);
    if ExecAll(fx, code, w).Some? {
      var v := ExecAll(fx, code, w).value;
      forall i | 0 <= i < |w.lanes|
        ensures v.lanes[i] == after[i] && v.mask[i] == w.mask[i] && Project(v, i).stack == Project(w, i).stack
      {
        ExecAllProjects(fx, code, w, i);
        assert Lands(fx, code, Project(w, i), after[i], nest);
      }
      StacksEqual(v, w);
    }
  }

  lemma StacksEqual<S>(v: Warp<S>, w: Warp<S>)
    requires Shaped(v) && Shaped(w) && |v.lanes| == |w.lanes| > 0
    requires forall i :: 0 <= i < |w.lanes| ==> Project(v, i).stack == Project(w, i).stack
    ensures v.stack == w.stack
  {
    assert |v.stack| == |Project(v, 0).stack| == |Project(w, 0).stack|;
    forall k | 0 <= k < |v.stack| ensures v.stack[k] == w.stack[k] {
      forall i | 0 <= i < |w.lanes| ensures v.stack[k][i] == w.stack[k][i] {
        assert Project(v, i).stack[k] == Project(w, i).stack[k];
      }
    }
  }

  /** Each active lane is where its own branches lead, and the others have not moved. */
  ghost predicate OwnPaths<S(!new)>(g: Graph, fx: Effects<S>, name: Label, stop: Label, w: Warp<S>, after: seq<Lane<S>>)
    requires Shaped(w)
  {
    && |after| == |w.lanes|
    && forall i :: 0 <= i < |after| ==>
         if w.mask[i] then Leads(g, fx, name, stop, w.lanes[i], after[i]) else after[i] == w.lanes[i]
  }

  /** Own paths determine where every lane is. */
  lemma OwnPathsOnce<S(!new)>(g: Graph, fx: Effects<S>, name: Label, stop: Label, w: Warp<S>, a: seq<Lane<S>>,
                              b: seq<Lane<S>>)
    requires Shaped(w) && OwnPaths(g, fx, name, stop, w, a) && OwnPaths(g, fx, name, stop, w, b)
    ensures a == b
  {
    hide Leads;
    forall i | 0 <= i < |a| ensures a[i] == b[i] {
      if w.mask[i] { LeadsOnce(g, fx, name, stop, w.lanes[i], a[i], b[i]); }
    }
  }

  /** What RegionPreserved says of a region's code. */
  lemma CodePreserves<S(!new)>(g: Graph, order: seq<Label>, rank: Label -> nat, fx: Effects<S>,
                               name: Label, stop: Label, w: Warp<S>)
    requires Ordering(g, order) && Arm(g, order, rank, name, stop)
    requires Shaped(w) && |w.lanes| > 0 && |w.stack| <= MASK_STACK_DEPTH && !w.exited
    ensures var run := ExecAll(fx, Code(g, order, rank, name, stop), w);
            && (run.Some? <==> |w.stack| + Nest(g, order, rank, name, stop) <= 4)
            && (run.Some? ==>
                  && OwnPaths(g, fx, name, stop, w, run.value.lanes)
                  && run.value.mask == w.mask && run.value.stack == w.stack && !run.value.exited)
  {
    hide Ordering, Lands, ExecAll, Code, Nest, Walk, Arm, WalkFor;
    var after := seq(|w.lanes|, i requires 0 <= i < |w.lanes| =>
      if w.mask[i] then Walk(g, rank, fx, name, stop, w.lanes[i]) else w.lanes[i]);
    forall i | 0 <= i < |w.lanes|
      ensures Lands(fx, Code(g, order, rank, name, stop), Project(w, i), after[i], Nest(g, order, rank, name, stop))
      ensures w.mask[i] ==> Leads(g, fx, name, stop, w.lanes[i], after[i])
    {
      RegionLands(g, order, rank, fx, name, stop, Project(w, i));
      ArmLeads(g, order, rank, fx, name, stop, w.lanes[i], rank(name));
    }
    WarpLands(fx, Code(g, order, rank, name, stop), w, after, Nest(g, order, rank, name, stop));
  }

  /** Predicated lowering preserves branching. For every acyclic structured region, in whatever
      function, the emitter succeeds; its code stops the core exactly when the nesting exceeds the
      free mask-stack entries, and otherwise leaves each active lane in the state its own branches
      lead to, leaves inactive lanes alone, and brings mask and stack back unchanged. */
  lemma RegionPreserved<S(!new)>(g: Graph, order: seq<Label>, rank: Label -> nat, fx: Effects<S>,
                                 name: Label, stop: Label, w: Warp<S>)
    requires Ordering(g, order) && stop in g && Structured(g, rank, name, stop)
    requires Shaped(w) && |w.lanes| > 0 && |w.stack| <= MASK_STACK_DEPTH && !w.exited
    ensures Arm(g, order, rank, name, stop)
    ensures EmitRegion(g, order, name, stop, {}).Emitted?
    ensures var run := ExecAll(fx, EmitRegion(g, order, name, stop, {}).code, w);
            && (run.Some? <==> |w.stack| + Nest(g, order, rank, name, stop) <= 4)
            && (run.Some? ==>
                  && OwnPaths(g, fx, name, stop, w, run.value.lanes)
                  && run.value.mask == w.mask && run.value.stack == w.stack && !run.value.exited)
  {
    hide Ordering, Structured, ExecAll, Code, Nest, Arm, OwnPaths;
    StructuredArm(g, order, rank, name, stop);
    EmitsCode(g, order, rank, name, stop, {});
    CodePreserves(g, order, rank, fx, name, stop, w);
  }

  /** The emitted code holds every block between the region's entry and its stop exactly once. */
  lemma RegionEmitsOnce(g: Graph, order: seq<Label>, rank: Label -> nat, name: Label, stop: Label, b: Label)
    requires Ordering(g, order) && stop in g && Structured(g, rank, name, stop)
    ensures EmitRegion(g, order, name, stop, {}).Emitted?
    ensures Occurrences(EmitRegion(g, order, name, stop, {}).code, b) == if Before(g, name, stop, b) then 1 else 0
  {
    StructuredArm(g, order, rank, name, stop);
    EmitsCode(g, order, rank, name, stop, {});
    EachBlockOnce(g, order, rank, name, stop, b);
  }

  // ----- whole kernels -----

  lemma {:induction false} SpineEmits(g: Graph, order: seq<Label>, rank: Label -> nat, name: Label, exit: Label,
                                      visited: set<Label>)
    requires Ordering(g, order) && exit in g && g[exit] == Ret
    requires Arm(g, order, rank, name, exit) && Above(rank, visited, name)
    ensures EmitBlock(g, order, name, visited) == Emitted(Code(g, order, rank, name, exit) + [Body(exit), Return])
    decreases rank(name)
  {
    hide Ordering, IsMerge, IsLoop, EmitBlock, EmitRegion, Code, Nest, Arm, ArmsCode, BranchCode, EmitBranch;
    var inner := visited + {name};
    CodeUnfold(g, order, rank, name, exit);
    SpineUnfold(g, order, name, visited);
    if name != exit {
      match g[name]
      case Br(n) =>
        SpineEmits(g, order, rank, n, exit, inner);
        assert [Body(name)] + (Code(g, order, rank, n, exit) + [Body(exit), Return])
               == [Body(name)] + Code(g, order, rank, n, exit) + [Body(exit), Return];
      case CondBr(t, f) =>
        ArmParts(g, order, rank, name, exit);
        var m := MergeOf(g, order, t, f).value;
        SpineEmits(g, order, rank, m, exit, inner);
        EmitsCode(g, order, rank, t, m, {});
        EmitsCode(g, order, rank, f, m, {});
        var a, rest := ArmsCode(g, order, rank, name, exit), Code(g, order, rank, m, exit);
        ArmsUnfold(g, order, rank, name, exit);
        BranchEmits(name, Code(g, order, rank, t, m), if f == m then None else Some(Code(g, order, rank, f, m)),
                    rest + [Body(exit), Return]);
        assert a + (rest + [Body(exit), Return]) == a + rest + [Body(exit), Return];
    }
  }

  lemma SpineUnfold(g: Graph, order: seq<Label>, name: Label, visited: set<Label>)
    requires Ordering(g, order) && name in g && name !in visited
    ensures g[name] == Ret ==> EmitBlock(g, order, name, visited) == Emitted([Body(name), Return])
    ensures g[name].Br? ==>
              EmitBlock(g, order, name, visited)
              == Then(Emitted([Body(name)]), EmitBlock(g, order, g[name].target, visited + {name}))
    ensures g[name].CondBr? ==>
              var t, f := g[name].whenTrue, g[name].whenFalse;
              !IsLoop(g, name, t, f) && MergeOf(g, order, t, f).Some? ==>
                var m := MergeOf(g, order, t, f).value;
                EmitBlock(g, order, name, visited)
                == EmitBranch(name, EmitRegion(g, order, t, m, {}),
                              if f == m then None else Some(EmitRegion(g, order, f, m, {})),
                              EmitBlock(g, order, m, visited + {name}))
  {
    hide Ordering, EmitRegion, EmitBranch, IsLoop;
  }

  lemma CodeUnfold(g: Graph, order: seq<Label>, rank: Label -> nat, name: Label, stop: Label)
    requires Ordering(g, order) && Arm(g, order, rank, name, stop)
    ensures name == stop ==> Code(g, order, rank, name, stop) == []
    ensures name != stop ==> name in g && g[name] != Ret
    ensures name != stop && g[name].Br? ==> rank(g[name].target) < rank(name)
    ensures name != stop && g[name].Br? ==>
              Arm(g, order, rank, g[name].target, stop)
              && Code(g, order, rank, name, stop) == [Body(name)] + Code(g, order, rank, g[name].target, stop)
    ensures name != stop && g[name].CondBr? ==>
              var j := MergeOf(g, order, g[name].whenTrue, g[name].whenFalse);
              j.Some? && Arm(g, order, rank, j.value, stop)
              && Code(g, order, rank, name, stop)
                 == ArmsCode(g, order, rank, name, stop) + Code(g, order, rank, j.value, stop)
  {
    hide Ordering, ArmsCode;
    if name != stop && g[name].CondBr? { ArmParts(g, order, rank, name, stop); }
  }

  lemma ArmsUnfold(g: Graph, order: seq<Label>, rank: Label -> nat, name: Label, stop: Label)
    requires Ordering(g, order) && Arm(g, order, rank, name, stop) && name != stop && g[name].CondBr?
    ensures var t, f := g[name].whenTrue, g[name].whenFalse;
            var j := MergeOf(g, order, t, f);
            && j.Some? && Arm(g, order, rank, t, j.value) && Arm(g, order, rank, f, j.value)
            && ArmsCode(g, order, rank, name, stop)
               == BranchCode(name, Code(g, order, rank, t, j.value),
                             if f == j.value then None else Some(Code(g, order, rank, f, j.value)))
  {
    hide Ordering, IsMerge, Code, BranchCode;
  }

  lemma FinalBlock<S>(fx: Effects<S>, exit: Label, v: Warp<S>)
    requires Shaped(v) && !v.exited
    ensures var run := ExecAll(fx, [Body(exit), Return], v);
            && run.Some? && |run.value.lanes| == |v.lanes| && run.value.exited
            && forall i :: 0 <= i < |v.lanes| ==>
                 run.value.lanes[i] == if v.mask[i] then RunBlock(fx, exit, v.lanes[i]) else v.lanes[i]
  {
    assert [Body(exit), Return][1..] == [Return] && [Return][1..] == [];
  }

  lemma {:induction false} ExecAllConcat<S>(fx: Effects<S>, a: seq<Line>, b: seq<Line>, w: Warp<S>)
    requires Shaped(w)
    ensures ExecAll(fx, a + b, w) == match ExecAll(fx, a, w) case None => None case Some(v) => ExecAll(fx, b, v)
    decreases |a|
  {
    hide Exec;
    if a == [] {
      assert a + b == b;
    } else {
      assert (a + b)[1..] == a[1..] + b;
      match Exec(fx, a[0], w)
      case None =>
      case Some(v) => ExecAllConcat(fx, a[1..], b, v);
    }
  }

  /** A lane's own branches lead it to the return block, which leaves it in the state `after`. */
  ghost predicate Completes<S(!new)>(g: Graph, fx: Effects<S>, entry: Label, exit: Label, lane: Lane<S>,
                                     after: Lane<S>)
  {
    exists there: Lane<S> :: Leads(g, fx, entry, exit, lane, there) && after == RunBlock(fx, exit, there)
  }

  lemma CompletesOnce<S(!new)>(g: Graph, fx: Effects<S>, entry: Label, exit: Label, lane: Lane<S>, a: Lane<S>,
                               b: Lane<S>)
    requires Completes(g, fx, entry, exit, lane, a) && Completes(g, fx, entry, exit, lane, b)
    ensures a == b
  {
    hide Leads;
    var x: Lane<S> :| Leads(g, fx, entry, exit, lane, x) && a == RunBlock(fx, exit, x);
    var y: Lane<S> :| Leads(g, fx, entry, exit, lane, y) && b == RunBlock(fx, exit, y);
    LeadsOnce(g, fx, entry, exit, lane, x, y);
  }

  /** Every reachable block of the kernel exists and falls in rank, and its arms, if it branches,
      reach the blocks they share only through one join block. */
  ghost predicate StructuredKernel(g: Graph, rank: Label -> nat, entry: Label) {
    forall b :: Connected(g, entry, b) ==>
      b in g && Falls(g, rank, b) && (g[b].CondBr? ==> Meets(g, g[b].whenTrue, g[b].whenFalse))
  }

  /** All paths of such a kernel end in one return block, up to which it is a structured region. */
  lemma KernelReturn(g: Graph, rank: Label -> nat, entry: Label) returns (exit: Label)
    requires StructuredKernel(g, rank, entry)
    ensures exit in g && g[exit] == Ret && Connected(g, entry, exit) && Structured(g, rank, entry, exit)
    ensures forall r :: Connected(g, entry, r) && r in g && g[r] == Ret ==> r == exit
  {
    hide Connected, Joins;
    forall b | Connected(g, entry, b) ensures Sharing(g, b) { MeetingShares(g, b); }
    exit := SomeReturn(g, rank, entry);
    forall r | Connected(g, entry, r) && r in g && g[r] == Ret ensures r == exit {
      OneReturn(g, rank, entry, r, exit);
    }
    forall b | Before(g, entry, exit, b) ensures Tame(g, rank, b) {
      AvoidingConnected(g, entry, b, exit);
      NotItself(g, entry, exit);
    }
  }

  lemma MeetingShares(g: Graph, b: Label)
    requires b in g && (g[b].CondBr? ==> Meets(g, g[b].whenTrue, g[b].whenFalse))
    ensures Sharing(g, b)
  {
    if g[b].CondBr? && g[b].whenTrue != g[b].whenFalse {
      var j :| Joins(g, g[b].whenTrue, g[b].whenFalse, j);
    }
  }

  /** A structured acyclic kernel has one return block, and its code takes every active lane along
      its own path there, runs that block and ends the warp, as long as the mask regions fit the
      stack. */
  lemma KernelPreserved<S(!new)>(g: Graph, order: seq<Label>, rank: Label -> nat, fx: Effects<S>, entry: Label,
                                 w: Warp<S>)
    returns (exit: Label)
    requires Ordering(g, order) && StructuredKernel(g, rank, entry)
    requires Shaped(w) && |w.lanes| > 0 && |w.stack| <= MASK_STACK_DEPTH && !w.exited
    ensures exit in g && g[exit] == Ret && Connected(g, entry, exit)
    ensures forall r :: Connected(g, entry, r) && r in g && g[r] == Ret ==> r == exit
    ensures Arm(g, order, rank, entry, exit) && EmitBlock(g, order, entry, {}).Emitted?
    ensures var run := ExecAll(fx, EmitBlock(g, order, entry, {}).code, w);
            && (run.Some? <==> |w.stack| + Nest(g, order, rank, entry, exit) <= 4)
            && (run.Some? ==> run.value.exited && forall i :: 0 <= i < |w.lanes| ==>
                  if w.mask[i] then Completes(g, fx, entry, exit, w.lanes[i], run.value.lanes[i])
                  else run.value.lanes[i] == w.lanes[i])
  {
    hide Ordering, Structured, ExecAll, Code, Nest, Leads, RunBlock, StructuredKernel, Connected, Arm, EmitBlock;
    exit := KernelReturn(g, rank, entry);
    StructuredArm(g, order, rank, entry, exit);
    CodePreserves(g, order, rank, fx, entry, exit, w);
    SpineEmits(g, order, rank, entry, exit, {});
    var code := Code(g, order, rank, entry, exit);
    ExecAllConcat(fx, code, [Body(exit), Return], w);
    if ExecAll(fx, code, w).Some? {
      FinalBlock(fx, exit, ExecAll(fx, code, w).value);
    }
  }

  // ----- the emitter -----

  class LowerState {
    var lines: seq<Line>
    var visited: set<Label>

    constructor ()
      ensures lines == [] && visited == {}
    {
      lines, visited := [], {};
    }

    method Emit(line: Line)
      modifies this`lines
      ensures lines == old(lines) + [line]
    {
      lines := lines + [line];
    }

    /** Appends the region's code; false when lowering raises or meets a loop header, in which
        case what was appended so far stays. */
    method EmitRegionUntil(g: Graph, order: seq<Label>, name: Label, stop: Label, seen: set<Label>) returns (ok: bool)
      requires Ordering(g, order)
      modifies this`lines
      ensures var e := EmitRegion(g, order, name, stop, seen);
              ok == e.Emitted? && (ok ==> lines == old(lines) + e.code)
      decreases g.Keys - seen, 0
    {
      hide Ordering, IsMerge, IsLoop, BranchCode, EmitBranch;
      if name == stop || name in seen {
        return true;
      }
      if name !in g {
        return false;
      }
      var inner := seen + {name};
      match g[name]
      case Ret =>
        Emit(Body(name));
        Emit(Return);
        return true;
      case Br(n) =>
        Emit(Body(name));
        ok := EmitRegionUntil(g, order, n, stop, inner);
      case CondBr(t, f) =>
        var loop := LoopHeader(g, name, t, f);
        if loop {
          return false;
        }
        var merge := Merge(g, order, t, f);
        MergeUnique(g, order, t, f, merge, MergeOf(g, order, t, f));
        if merge.None? {
          return false;
        }
        ok := EmitArms(g, order, name, t, f, merge.value, inner);
        EmitBranchCode(name, EmitRegion(g, order, t, merge.value, inner),
                       if f == merge.value then None else Some(EmitRegion(g, order, f, merge.value, inner)),
                       EmitRegion(g, order, merge.value, stop, inner));
        if ok {
          ok := EmitRegionUntil(g, order, merge.value, stop, inner);
        }
    }

    /** The body of a branch block and its mask regions. */
    method EmitArms(g: Graph, order: seq<Label>, name: Label, t: Label, f: Label, m: Label, seen: set<Label>)
      returns (ok: bool)
      requires Ordering(g, order)
      modifies this`lines
      ensures var a, b := EmitRegion(g, order, t, m, seen), EmitRegion(g, order, f, m, seen);
              && ok == (a.Emitted? && (f == m || b.Emitted?))
              && (ok ==> lines == old(lines) + BranchCode(name, a.code, if f == m then None else Some(b.code)))
      decreases g.Keys - seen, 1
    {
      hide Ordering, EmitRegion;
      ghost var a, b := EmitRegion(g, order, t, m, seen), EmitRegion(g, order, f, m, seen);
      Emit(Body(name));
      Emit(PredBegin(name));
      ok := EmitRegionUntil(g, order, t, m, seen);
      if !ok { return; }
      Emit(PredEnd);
      if f != m {
        Emit(Negate(name));
        Emit(PredBeginNot(name));
        ok := EmitRegionUntil(g, order, f, m, seen);
        if !ok { return; }
        Emit(PredEnd);
      }
      assert lines == old(lines) + BranchCode(name, a.code, if f == m then None else Some(b.code));
    }

    /** Appends the code of a kernel from a block of its spine. */
    method EmitBlockFrom(g: Graph, order: seq<Label>, name: Label) returns (ok: bool)
      requires Ordering(g, order)
      modifies this
      ensures var e := EmitBlock(g, order, name, old(visited));
              ok == e.Emitted? && (ok ==> lines == old(lines) + e.code)
      decreases g.Keys - visited
    {
      hide Ordering, IsMerge, IsLoop, BranchCode, EmitBranch, EmitRegion;
      if name in visited {
        return true;
      }
      if name !in g {
        visited := visited + {name};
        return false;
      }
      visited := visited + {name};
      match g[name]
      case Ret =>
        Emit(Body(name));
        Emit(Return);
        return true;
      case Br(n) =>
        Emit(Body(name));
        ok := EmitBlockFrom(g, order, n);
      case CondBr(t, f) =>
        var loop := LoopHeader(g, name, t, f);
        if loop {
          return false;
        }
        var merge := Merge(g, order, t, f);
        MergeUnique(g, order, t, f, merge, MergeOf(g, order, t, f));
        if merge.None? {
          return false;
        }
        ok := EmitArms(g, order, name, t, f, merge.value, {});
        EmitBranchCode(name, EmitRegion(g, order, t, merge.value, {}),
                       if f == merge.value then None else Some(EmitRegion(g, order, f, merge.value, {})),
                       EmitBlock(g, order, merge.value, visited));
        if ok {
          ok := EmitBlockFrom(g, order, merge.value);
        }
    }
  }

  lemma EmitBranchCode(name: Label, a: Emission, b: Option<Emission>, rest: Emission)
    ensures var e := EmitBranch(name, a, b, rest);
            && (e.Emitted? <==> a.Emitted? && (b.None? || b.value.Emitted?) && rest.Emitted?)
            && (e.Emitted? ==>
                  e.code == BranchCode(name, a.code, if b.None? then None else Some(b.value.code)) + rest.code)
  {
    if a.Emitted? && (b.None? || b.value.Emitted?) && rest.Emitted? {
      BranchEmits(name, a.code, if b.None? then None else Some(b.value.code), rest.code);
    }
  }

  /** The loop-header test, with a fresh seen set for its search. */
  method LoopHeader(g: Graph, name: Label, t: Label, f: Label) returns (loop: bool)
    ensures loop <==> IsLoop(g, name, t, f)
    ensures loop <==>
              && (exists from :: from in g && from != name && g[from] == Br(name))
              && (exists path :: Links(g, path, t, name) && f !in path)
  {
    if !HasBackedge(g, name) {
      return false;
    }
    loop := ReachesAvoiding(g, t, name, f);
  }
}
