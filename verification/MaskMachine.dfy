/** Lock-step execution of predicated code under an active mask and a mask stack. */
module MaskMachine {
  import opened Words
  import opened Cfg
  import opened MaskStack

  /** Emitted code: a block body, a mask region opened on a block's condition or on its negation,
      the instruction computing the negation, the end of a region, and a return. */
  datatype Line =
    | Body(name: Label)
    | PredBegin(name: Label)
    | Negate(name: Label)
    | PredBeginNot(name: Label)
    | PredEnd
    | Return

  /** What blocks do to a lane's state and how their branch conditions come out. */
  datatype Effects<!S> = Effects(step: (Label, S) -> S, test: (Label, S) -> bool)

  /** A lane's state and the condition temporaries blocks have computed in it. Each condition is a
      fresh temporary, so only its own block writes it. */
  datatype Lane<S> = Lane(user: S, conds: map<Label, bool>)

  function RunBlock<S>(fx: Effects<S>, name: Label, lane: Lane<S>): Lane<S> {
    var user := fx.step(name, lane.user);
    Lane(user, lane.conds[name := fx.test(name, user)])
  }

  predicate Flag(flags: map<Label, bool>, name: Label) {
    name in flags && flags[name]
  }

  // ----- the warp -----

  datatype Warp<S> = Warp(
    lanes: seq<Lane<S>>,
    negs: seq<map<Label, bool>>,
    mask: seq<bool>,
    stack: seq<seq<bool>>,
    exited: bool)

  predicate Shaped<S>(w: Warp<S>) {
    |w.negs| == |w.lanes| && |w.mask| == |w.lanes| && forall k :: 0 <= k < |w.stack| ==> |w.stack[k]| == |w.lanes|
  }

  /** One instruction; a push on a full stack and a pop on an empty one stop the core, and a
      return ends the warp. */
  function Exec<S>(fx: Effects<S>, line: Line, w: Warp<S>): (r: Option<Warp<S>>)
    requires Shaped(w)
    ensures r.Some? ==> Shaped(r.value) && |r.value.lanes| == |w.lanes|
  {
    var n := |w.lanes|;
    if w.exited then Some(w) else
    match line
    case Body(b) =>
      Some(w.(lanes := seq(n, i requires 0 <= i < n => if w.mask[i] then RunBlock(fx, b, w.lanes[i]) else w.lanes[i])))
    case Negate(b) =>
      Some(w.(negs := seq(n, i requires 0 <= i < n =>
        if w.mask[i] then w.negs[i][b := !Flag(w.lanes[i].conds, b)] else w.negs[i])))
    case PredBegin(b) =>
      var pushed := PushMask(w.stack, w.mask);
      if pushed.None? then None
      else Some(w.(stack := pushed.value,
                   mask := seq(n, i requires 0 <= i < n => w.mask[i] && Flag(w.lanes[i].conds, b))))
    case PredBeginNot(b) =>
      var pushed := PushMask(w.stack, w.mask);
      if pushed.None? then None
      else Some(w.(stack := pushed.value,
                   mask := seq(n, i requires 0 <= i < n => w.mask[i] && Flag(w.negs[i], b))))
    case PredEnd =>
      var popped := PopMask(w.stack);
      if popped.None? then None else Some(w.(mask := popped.value.0, stack := popped.value.1))
    case Return => Some(w.(exited := true))
  }

  function ExecAll<S>(fx: Effects<S>, code: seq<Line>, w: Warp<S>): (r: Option<Warp<S>>)
    requires Shaped(w)
    ensures r.Some? ==> Shaped(r.value) && |r.value.lanes| == |w.lanes|
    decreases |code|
  {
    if code == [] then Some(w)
    else match Exec(fx, code[0], w)
      case None => None
      case Some(v) => ExecAll(fx, code[1..], v)
  }

  // ----- one lane of it -----

  datatype View<S> = View(lane: Lane<S>, negs: map<Label, bool>, active: bool, stack: seq<bool>, exited: bool)

  function Step<S>(fx: Effects<S>, line: Line, v: View<S>): Option<View<S>> {
    if v.exited then Some(v) else
    match line
    case Body(b) => Some(if v.active then v.(lane := RunBlock(fx, b, v.lane)) else v)
    case Negate(b) => Some(if v.active then v.(negs := v.negs[b := !Flag(v.lane.conds, b)]) else v)
    case PredBegin(b) =>
      var pushed := PushMask(v.stack, v.active);
      if pushed.None? then None else Some(v.(stack := pushed.value, active := v.active && Flag(v.lane.conds, b)))
    case PredBeginNot(b) =>
      var pushed := PushMask(v.stack, v.active);
      if pushed.None? then None else Some(v.(stack := pushed.value, active := v.active && Flag(v.negs, b)))
    case PredEnd =>
      var popped := PopMask(v.stack);
      if popped.None? then None else Some(v.(active := popped.value.0, stack := popped.value.1))
    case Return => Some(v.(exited := true))
  }

  function Steps<S>(fx: Effects<S>, code: seq<Line>, v: View<S>): Option<View<S>>
    decreases |code|
  {
    if code == [] then Some(v)
    else match Step(fx, code[0], v)
      case None => None
      case Some(u) => Steps(fx, code[1..], u)
  }

  function Project<S>(w: Warp<S>, i: nat): View<S>
    requires Shaped(w) && i < |w.lanes|
  {
    View(w.lanes[i], w.negs[i], w.mask[i], seq(|w.stack|, k requires 0 <= k < |w.stack| => w.stack[k][i]), w.exited)
  }

  lemma ExecProjects<S>(fx: Effects<S>, line: Line, w: Warp<S>, i: nat)
    requires Shaped(w) && i < |w.lanes|
    ensures Exec(fx, line, w).Some? <==> Step(fx, line, Project(w, i)).Some?
    ensures Exec(fx, line, w).Some? ==> Project(Exec(fx, line, w).value, i) == Step(fx, line, Project(w, i)).value
  {
    if Exec(fx, line, w).Some? {
      var a, b := Project(Exec(fx, line, w).value, i), Step(fx, line, Project(w, i)).value;
      assert a.stack == b.stack;
    }
  }

  /** A warp running straight-line predicated code is its lanes running it one by one. */
  lemma {:induction false} ExecAllProjects<S>(fx: Effects<S>, code: seq<Line>, w: Warp<S>, i: nat)
    requires Shaped(w) && i < |w.lanes|
    ensures ExecAll(fx, code, w).Some? <==> Steps(fx, code, Project(w, i)).Some?
    ensures ExecAll(fx, code, w).Some? ==>
              Project(ExecAll(fx, code, w).value, i) == Steps(fx, code, Project(w, i)).value
    decreases |code|
  {
    hide Exec, Step, Project;
    if code != [] {
      ExecProjects(fx, code[0], w, i);
      if Exec(fx, code[0], w).Some? {
        ExecAllProjects(fx, code[1..], Exec(fx, code[0], w).value, i);
      }
    }
  }

  lemma {:induction false} StepsConcat<S>(fx: Effects<S>, a: seq<Line>, b: seq<Line>, v: View<S>)
    ensures Steps(fx, a + b, v) == match Steps(fx, a, v) case None => None case Some(u) => Steps(fx, b, u)
    decreases |a|
  {
    hide Step;
    if a == [] {
      assert a + b == b;
    } else {
      assert (a + b)[1..] == a[1..] + b;
      match Step(fx, a[0], v)
      case None =>
      case Some(u) => StepsConcat(fx, a[1..], b, u);
    }
  }

  // ----- balanced code -----

  /** Code that runs to the end exactly when the stack has `nest` free entries, and then leaves
      the mask and the stack as they were and the lane as given. */
  predicate Lands<S(==)>(fx: Effects<S>, code: seq<Line>, v: View<S>, after: Lane<S>, nest: nat) {
    var r := Steps(fx, code, v);
    && (r.Some? <==> |v.stack| + nest <= MASK_STACK_DEPTH)
    && (r.Some? ==>
          r.value.lane == after && r.value.active == v.active && r.value.stack == v.stack && !r.value.exited)
  }

  lemma LandsEmpty<S>(fx: Effects<S>, v: View<S>)
    requires |v.stack| <= MASK_STACK_DEPTH && !v.exited
    ensures Lands(fx, [], v, v.lane, 0)
  {
  }

  lemma LandsBody<S>(fx: Effects<S>, name: Label, v: View<S>)
    requires |v.stack| <= MASK_STACK_DEPTH && !v.exited
    ensures Lands(fx, [Body(name)], v, if v.active then RunBlock(fx, name, v.lane) else v.lane, 0)
  {
    assert [Body(name)][1..] == [];
  }

  /** Two balanced pieces in a row. */
  lemma LandsConcat<S>(fx: Effects<S>, a: seq<Line>, b: seq<Line>, v: View<S>, middle: Lane<S>, after: Lane<S>,
                       m: nat, n: nat)
    requires Lands(fx, a, v, middle, m)
    requires Steps(fx, a, v).Some? ==> Lands(fx, b, Steps(fx, a, v).value, after, n)
    ensures Lands(fx, a + b, v, after, Max(m, n))
  {
    hide Step;
    StepsConcat(fx, a, b, v);
  }

  /** The state inside a region opened with the given condition. */
  function Opened<S>(v: View<S>, cond: bool): View<S> {
    v.(stack := v.stack + [v.active], active := v.active && cond)
  }

  /** A region around balanced code is balanced and needs one more stack entry. */
  lemma LandsRegion<S>(fx: Effects<S>, opening: Line, code: seq<Line>, v: View<S>, after: Lane<S>, n: nat)
    requires opening.PredBegin? || opening.PredBeginNot?
    requires |v.stack| <= MASK_STACK_DEPTH && !v.exited
    requires var cond := Flag(if opening.PredBegin? then v.lane.conds else v.negs, opening.name);
             |v.stack| < MASK_STACK_DEPTH ==> Lands(fx, code, Opened(v, cond), after, n)
    ensures Lands(fx, [opening] + code + [PredEnd], v, after, n + 1)
  {
    hide Flag;
    var whole := [opening] + code + [PredEnd];
    assert whole[1..] == code + [PredEnd];
    if |v.stack| < MASK_STACK_DEPTH {
      var cond := Flag(if opening.PredBegin? then v.lane.conds else v.negs, opening.name);
      StepsConcat(fx, code, [PredEnd], Opened(v, cond));
      assert [PredEnd][1..] == [];
      assert Opened(v, cond).stack[..|v.stack|] == v.stack;
    }
  }
}
