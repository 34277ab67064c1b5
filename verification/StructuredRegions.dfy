/** Which control-flow graphs the structurizer handles, stated on paths alone, and what their
    lowered code does on a whole warp. */
module StructuredRegions {
  import opened Words
  import opened Cfg
  import opened CommonMerge
  import opened MaskMachine
  import opened Structurizer

  /** b is visited on the way from `name`, before `stop`. */
  ghost predicate Before(g: Graph, name: Label, stop: Label, b: Label) {
    Avoiding(g, name, b, stop)
  }

  /** The arms of a branch meet in a block of their own. */
  ghost predicate Meets(g: Graph, t: Label, f: Label) {
    t == f || exists j :: Joins(g, t, f, j)
  }

  /** A block that exists and does not return, whose edges lead to lower ranks, and whose arms, if
      it branches, reach the blocks they share only through one join block. */
  ghost predicate Tame(g: Graph, rank: Label -> nat, b: Label) {
    && b in g && g[b] != Ret && Falls(g, rank, b)
    && (g[b].CondBr? ==> Meets(g, g[b].whenTrue, g[b].whenFalse))
  }

  /** An acyclic structured region: the blocks before the stop block are tame. Nothing is asked of
      the rest of the function, which may loop. */
  ghost predicate Structured(g: Graph, rank: Label -> nat, name: Label, stop: Label) {
    forall b :: Before(g, name, stop, b) ==> Tame(g, rank, b)
  }

  // ----- paths that avoid a label -----

  lemma BeforeSelf(g: Graph, name: Label, stop: Label)
    requires name != stop
    ensures Before(g, name, stop, name)
  {
    AvoidingSelf(g, name, stop);
  }

  lemma BeforeStep(g: Graph, name: Label, n: Label, stop: Label, b: Label)
    requires name != stop && Edge(g, name, n) && Before(g, n, stop, b)
    ensures Before(g, name, stop, b)
  {
    var p :| Links(g, p, n, b) && stop !in p;
    LinksStep(g, p, name, n, b);
  }

  /** The blocks before the stop are the first one and those before it from a successor. */
  lemma BeforeFirst(g: Graph, name: Label, stop: Label, b: Label) returns (n: Label)
    requires Before(g, name, stop, b) && b != name
    ensures name != stop && Edge(g, name, n) && Before(g, n, stop, b)
  {
    var p :| Links(g, p, name, b) && stop !in p;
    assert |p| > 1 && p[0] in p;
    LinksTail(g, p, name, b);
    n := p[1];
    assert stop !in p[1..];
  }

  lemma BeforeJoin(g: Graph, a: Label, b: Label, c: Label, stop: Label)
    requires Before(g, a, stop, b) && Before(g, b, stop, c)
    ensures Before(g, a, stop, c)
  {
    var p :| Links(g, p, a, b) && stop !in p;
    var q :| Links(g, q, b, c) && stop !in q;
    LinksJoin(g, p, q, a, b, c);
    assert stop !in q[1..];
  }

  lemma StructuredStep(g: Graph, rank: Label -> nat, name: Label, n: Label, stop: Label)
    requires Structured(g, rank, name, stop) && name != stop && Edge(g, name, n)
    ensures Structured(g, rank, n, stop)
  {
    forall b | Before(g, n, stop, b) ensures Tame(g, rank, b) {
      BeforeStep(g, name, n, stop, b);
    }
  }

  /** Some path of a structured region leads to its stop block and meets it only at the end. */
  lemma {:induction false} StopReached(g: Graph, rank: Label -> nat, name: Label, stop: Label) returns (p: seq<Label>)
    requires Structured(g, rank, name, stop)
    ensures Links(g, p, name, stop) && stop !in p[..|p| - 1] && Connected(g, name, stop)
    ensures name != stop ==> rank(stop) < rank(name)
    decreases rank(name)
  {
    if name == stop {
      LinksSelf(g, name);
      p := [name];
    } else {
      FirstExists(g, rank, name, stop);
      var n := Succ(g[name])[0];
      assert Edge(g, name, n);
      StructuredStep(g, rank, name, n, stop);
      var q := StopReached(g, rank, n, stop);
      LinksStep(g, q, name, n, stop);
      p := [name] + q;
      assert p[..|p| - 1] == [name] + q[..|q| - 1];
    }
  }

  /** A block before the stop is no cycle back: its rank is not above the first block's. */
  lemma BeforeFalls(g: Graph, rank: Label -> nat, name: Label, stop: Label, b: Label)
    requires Structured(g, rank, name, stop) && Before(g, name, stop, b)
    ensures b == name || rank(b) < rank(name)
  {
    var p :| Links(g, p, name, b) && stop !in p;
    forall i | 0 <= i < |p| - 1 ensures Falls(g, rank, p[i]) {
      LinksPrefix(g, p, name, b, i);
      assert stop !in p[..i + 1];
      assert Before(g, name, stop, p[i]);
    }
    RankFalls(g, rank, p, name, b);
  }

  /** A block reached without the join block is reached without the stop block too. */
  lemma AvoidsStop(g: Graph, a: Label, j: Label, stop: Label, b: Label)
    requires Before(g, a, j, b) && (stop == j || !Avoiding(g, a, stop, j))
    ensures Before(g, a, stop, b)
  {
    var p :| Links(g, p, a, b) && j !in p;
    if stop in p {
      var i :| 0 <= i < |p| && p[i] == stop;
      LinksPrefix(g, p, a, b, i);
    }
  }

  /** A join block that no path to the stop block avoids comes before it. */
  lemma PrefixBefore(g: Graph, rank: Label -> nat, a: Label, j: Label, stop: Label)
    requires Structured(g, rank, a, stop) && j != stop && !Avoiding(g, a, stop, j)
    ensures Before(g, a, stop, j)
  {
    var p := StopReached(g, rank, a, stop);
    var i :| 0 <= i < |p| && p[i] == j;
    LinksPrefix(g, p, a, stop, i);
    assert p[..i + 1] <= p[..|p| - 1];
    assert stop !in p[..i + 1];
  }

  // ----- the parts of a structured branch -----

  lemma ArmStructured(g: Graph, rank: Label -> nat, name: Label, a: Label, j: Label, stop: Label)
    requires Structured(g, rank, name, stop) && name != stop && Edge(g, name, a)
    requires stop == j || !Avoiding(g, a, stop, j)
    ensures Structured(g, rank, a, j)
  {
    forall b | Before(g, a, j, b) ensures Tame(g, rank, b) {
      AvoidsStop(g, a, j, stop, b);
      BeforeStep(g, name, a, stop, b);
    }
  }

  lemma RestStructured(g: Graph, rank: Label -> nat, name: Label, a: Label, j: Label, stop: Label)
    requires Structured(g, rank, name, stop) && name != stop && Edge(g, name, a)
    requires Connected(g, a, stop) && (stop == j || !Avoiding(g, a, stop, j))
    ensures Structured(g, rank, j, stop)
    ensures j != stop ==> Before(g, name, stop, j)
  {
    if j != stop {
      StructuredStep(g, rank, name, a, stop);
      PrefixBefore(g, rank, a, j, stop);
      BeforeStep(g, name, a, stop, j);
      forall b | Before(g, j, stop, b) ensures Tame(g, rank, b) {
        BeforeJoin(g, name, j, b, stop);
      }
    }
  }

  /** The join block of a branch, which is the merge point the lowering picks. */
  lemma BranchParts(g: Graph, order: seq<Label>, rank: Label -> nat, name: Label, stop: Label) returns (j: Label)
    requires Ordering(g, order) && stop in g && Structured(g, rank, name, stop)
    requires name != stop && name in g && g[name].CondBr?
    ensures var t, f := g[name].whenTrue, g[name].whenFalse;
            && MergeOf(g, order, t, f) == Some(j) && (t == f ==> j == t) && (t != f ==> Joins(g, t, f, j)) && j in g
            && Structured(g, rank, t, j) && Structured(g, rank, f, j) && Structured(g, rank, j, stop)
            && (stop == j || (!Avoiding(g, t, stop, j) && !Avoiding(g, f, stop, j)))
            && Connected(g, t, stop) && Connected(g, f, stop)
            && rank(t) < rank(name) && rank(f) < rank(name) && rank(j) < rank(name) && !IsLoop(g, name, t, f)
  {
    hide Ordering, Structured, Joins, IsLoop;
    var t, f := g[name].whenTrue, g[name].whenFalse;
    assert Edge(g, name, t) && Edge(g, name, f);
    StructuredStep(g, rank, name, t, stop);
    StructuredStep(g, rank, name, f, stop);
    var p := StopReached(g, rank, t, stop);
    p := StopReached(g, rank, f, stop);
    BranchMeets(g, rank, name, stop);
    if t == f {
      j := t;
      BeginsHere(g, t, stop);
      if t != stop { FirstExists(g, rank, t, stop); }
    } else {
      j :| Joins(g, t, f, j);
      JoinIsChosen(g, order, t, f, j, MergeOf(g, order, t, f));
      JoinBlocks(g, t, f, j, stop);
    }
    ArmStructured(g, rank, name, t, j, stop);
    ArmStructured(g, rank, name, f, j, stop);
    RestStructured(g, rank, name, t, j, stop);
    p := StopReached(g, rank, t, j);
    FirstExists(g, rank, name, stop);
    NoLoop(g, rank, name, t, f, j, stop);
  }

  /** A branch of an acyclic structured region is not taken for a loop header, whatever loops the
      rest of the function has: an arm that led back to it would be shared and not behind the join. */
  lemma NoLoop(g: Graph, rank: Label -> nat, name: Label, t: Label, f: Label, j: Label, stop: Label)
    requires name in g && g[name] == CondBr(t, f) && Falls(g, rank, name)
    requires Structured(g, rank, t, j) && (t == f ==> j == t) && (t != f ==> Joins(g, t, f, j))
    requires stop in g && Structured(g, rank, f, stop)
    ensures !IsLoop(g, name, t, f)
  {
    hide Structured;
    if Avoiding(g, t, name, f) {
      BeginsHere(g, t, name);
      assert Edge(g, name, t) && Edge(g, name, f);
      if f == j {
        NotBehind(g, rank, name, t, j);
      } else {
        AvoidingConnected(g, t, name, f);
        LinksSelf(g, f);
        ConnectedStep(g, name, f, f);
        ConnectedJoin(g, t, name, f);
        if f != stop { FirstExists(g, rank, f, stop); }
        SharedArm(g, t, f, j);
      }
    }
  }

  lemma SharedArm(g: Graph, t: Label, f: Label, j: Label)
    requires Joins(g, t, f, j) && f in g && Connected(g, t, f)
    ensures f == j
  {
    if f != j { AvoidingSelf(g, f, j); }
  }

  lemma BranchMeets(g: Graph, rank: Label -> nat, name: Label, stop: Label)
    requires Structured(g, rank, name, stop) && name != stop && name in g && g[name].CondBr?
    ensures Meets(g, g[name].whenTrue, g[name].whenFalse)
  {
    BeforeSelf(g, name, stop);
  }

  lemma FirstExists(g: Graph, rank: Label -> nat, name: Label, stop: Label)
    requires Structured(g, rank, name, stop) && name != stop
    ensures Tame(g, rank, name)
  {
    BeforeSelf(g, name, stop);
  }

  lemma BeginsHere(g: Graph, t: Label, stop: Label)
    ensures !Avoiding(g, t, stop, t)
  {
  }

  lemma JoinBlocks(g: Graph, t: Label, f: Label, j: Label, stop: Label)
    requires Joins(g, t, f, j) && stop in g && Connected(g, t, stop) && Connected(g, f, stop)
    ensures j in g && (stop == j || (!Avoiding(g, t, stop, j) && !Avoiding(g, f, stop, j)))
  {
    assert Common(g, t, f, stop);
  }

  /** The condition on paths gives the recursive one the proof of the code follows. */
  lemma {:induction false} StructuredArm(g: Graph, order: seq<Label>, rank: Label -> nat, name: Label, stop: Label)
    requires Ordering(g, order) && stop in g && Structured(g, rank, name, stop)
    ensures Arm(g, order, rank, name, stop)
    decreases rank(name)
  {
    hide Ordering, Structured, Joins;
    if name != stop {
      FirstExists(g, rank, name, stop);
      match g[name]
      case Br(n) =>
        assert Edge(g, name, n);
        StructuredStep(g, rank, name, n, stop);
        StructuredArm(g, order, rank, n, stop);
      case CondBr(t, f) =>
        var j := BranchParts(g, order, rank, name, stop);
        StructuredArm(g, order, rank, t, j);
        StructuredArm(g, order, rank, f, j);
        StructuredArm(g, order, rank, j, stop);
    }
  }

  // ----- every block once -----

  function Occurrences(code: seq<Line>, b: Label): nat {
    if code == [] then 0 else (if code[0] == Body(b) then 1 else 0) + Occurrences(code[1..], b)
  }

  lemma {:induction false} OccurrencesConcat(p: seq<Line>, q: seq<Line>, b: Label)
    ensures Occurrences(p + q, b) == Occurrences(p, b) + Occurrences(q, b)
  {
    if p == [] {
      assert p + q == q;
    } else {
      assert (p + q)[1..] == p[1..] + q;
      OccurrencesConcat(p[1..], q, b);
    }
  }

  lemma OccurrencesOne(line: Line, b: Label)
    ensures Occurrences([line], b) == if line == Body(b) then 1 else 0
  {
    assert [line][1..] == [];
  }

  lemma OccurrencesBranch(name: Label, p: seq<Line>, q: Option<seq<Line>>, b: Label)
    ensures Occurrences(BranchCode(name, p, q), b)
            == (if b == name then 1 else 0) + Occurrences(p, b) + (if q.None? then 0 else Occurrences(q.value, b))
  {
    hide Occurrences;
    OccurrencesOne(Body(name), b);
    OccurrencesOne(PredBegin(name), b);
    OccurrencesOne(PredBeginNot(name), b);
    OccurrencesOne(Negate(name), b);
    OccurrencesOne(PredEnd, b);
    OccurrencesConcat([PredBegin(name)], p, b);
    OccurrencesConcat([PredBegin(name)] + p, [PredEnd], b);
    OccurrencesConcat([Body(name)], [PredBegin(name)] + p + [PredEnd], b);
    if q.Some? {
      OccurrencesConcat([PredBeginNot(name)], q.value, b);
      OccurrencesConcat([PredBeginNot(name)] + q.value, [PredEnd], b);
      OccurrencesConcat([Negate(name)], [PredBeginNot(name)] + q.value + [PredEnd], b);
      OccurrencesConcat([Body(name)] + ([PredBegin(name)] + p + [PredEnd]),
                        [Negate(name)] + ([PredBeginNot(name)] + q.value + [PredEnd]), b);
    } else {
      assert BranchCode(name, p, q) == [Body(name)] + ([PredBegin(name)] + p + [PredEnd]);
    }
  }

  ghost function One(p: bool): nat { if p then 1 else 0 }

  /** The blocks before the stop are split by the join block: either arm up to it, or what comes
      after it, and never two of these. */
  lemma BranchSplits(g: Graph, rank: Label -> nat, name: Label, j: Label, stop: Label, b: Label)
    requires Structured(g, rank, name, stop) && name != stop && name in g && g[name].CondBr?
    requires var t, f := g[name].whenTrue, g[name].whenFalse;
             && (t == f ==> j == t) && (t != f ==> Joins(g, t, f, j))
             && Structured(g, rank, t, j) && Structured(g, rank, f, j)
             && (stop == j || (!Avoiding(g, t, stop, j) && !Avoiding(g, f, stop, j)))
             && Connected(g, t, stop) && Connected(g, f, stop)
    ensures var t, f := g[name].whenTrue, g[name].whenFalse;
            One(Before(g, name, stop, b))
            == One(b == name) + One(Before(g, t, j, b)) + One(Before(g, f, j, b)) + One(Before(g, j, stop, b))
  {
    hide Structured, Joins;
    var t, f := g[name].whenTrue, g[name].whenFalse;
    assert Edge(g, name, t) && Edge(g, name, f);
    RestStructured(g, rank, name, t, j, stop);
    if b == name {
      BeforeSelf(g, name, stop);
      FirstExists(g, rank, name, stop);
      NotBehind(g, rank, name, t, j);
      NotBehind(g, rank, name, f, j);
      var p := StopReached(g, rank, t, j);
      if Before(g, j, stop, name) {
        BeforeFalls(g, rank, j, stop, name);
      }
    } else {
      if Before(g, t, j, b) { AvoidsStop(g, t, j, stop, b); BeforeStep(g, name, t, stop, b); }
      if Before(g, f, j, b) { AvoidsStop(g, f, j, stop, b); BeforeStep(g, name, f, stop, b); }
      if Before(g, j, stop, b) {
        if j == stop { BeginsStop(g, stop, b); } else { BeforeJoin(g, name, j, b, stop); }
      }
      if Before(g, name, stop, b) {
        var n := BeforeFirst(g, name, stop, b);
        AroundJoin(g, n, j, stop, b);
      }
      if t == f {
        BeginsStop(g, t, b);
      } else {
        SharedBehindJoin(g, rank, t, f, j, stop, b);
      }
    }
  }

  lemma BeginsStop(g: Graph, stop: Label, b: Label)
    ensures !Before(g, stop, stop, b)
  {
  }

  lemma NotBehind(g: Graph, rank: Label -> nat, name: Label, n: Label, j: Label)
    requires Edge(g, name, n) && Falls(g, rank, name) && Structured(g, rank, n, j)
    ensures !Before(g, n, j, name)
  {
    hide Structured;
    if Before(g, n, j, name) {
      BeforeFalls(g, rank, n, j, name);
    }
  }

  lemma AroundJoin(g: Graph, n: Label, j: Label, stop: Label, b: Label)
    requires Before(g, n, stop, b)
    ensures Before(g, n, j, b) || Before(g, j, stop, b)
  {
    var p :| Links(g, p, n, b) && stop !in p;
    if j in p {
      var i :| 0 <= i < |p| && p[i] == j;
      LinksPrefix(g, p, n, b, i);
      assert stop !in p[i..];
    }
  }

  lemma SharedBehindJoin(g: Graph, rank: Label -> nat, t: Label, f: Label, j: Label, stop: Label, b: Label)
    requires Joins(g, t, f, j) && Structured(g, rank, t, j) && Structured(g, rank, f, j)
    ensures !(Before(g, t, j, b) && Before(g, f, j, b))
    ensures !(Before(g, t, j, b) && Before(g, j, stop, b))
    ensures !(Before(g, f, j, b) && Before(g, j, stop, b))
  {
    if Before(g, t, j, b) || Before(g, f, j, b) {
      if Before(g, t, j, b) { AvoidingConnected(g, t, b, j); BeginsHere(g, j, b); }
      if Before(g, f, j, b) { AvoidingConnected(g, f, b, j); }
      if Before(g, j, stop, b) {
        AvoidingConnected(g, j, b, stop);
        ConnectedJoin(g, t, j, b);
        ConnectedJoin(g, f, j, b);
      }
      NotItself(g, t, j);
      NotItself(g, f, j);
      if Connected(g, t, b) && Connected(g, f, b) {
        assert Common(g, t, f, b);
      }
    }
  }

  lemma NotItself(g: Graph, a: Label, j: Label)
    ensures !Before(g, a, j, j)
  {
    forall p | Links(g, p, a, j) ensures j in p {
      assert p[|p| - 1] in p;
    }
  }

  /** The lowered code holds each block on the way exactly once, and no others. */
  lemma {:induction false} EachBlockOnce(g: Graph, order: seq<Label>, rank: Label -> nat, name: Label, stop: Label,
                                         b: Label)
    requires Ordering(g, order) && stop in g && Structured(g, rank, name, stop)
    requires Arm(g, order, rank, name, stop)
    ensures Occurrences(Code(g, order, rank, name, stop), b) == One(Before(g, name, stop, b))
    decreases rank(name)
  {
    hide Ordering, Structured, Joins, Occurrences, BranchCode, Before;
    if name == stop {
      BeginsStop(g, stop, b);
      assert Occurrences([], b) == 0 by { NoOccurrences(b); }
    } else {
      match g[name]
      case Br(n) =>
        assert Edge(g, name, n);
        StructuredStep(g, rank, name, n, stop);
        FirstExists(g, rank, name, stop);
        EachBlockOnce(g, order, rank, n, stop, b);
        OccurrencesConcat([Body(name)], Code(g, order, rank, n, stop), b);
        OccurrencesOne(Body(name), b);
        LineSplits(g, rank, name, n, stop, b);
      case CondBr(t, f) =>
        ArmParts(g, order, rank, name, stop);
        var j := BranchParts(g, order, rank, name, stop);
        BranchSplits(g, rank, name, j, stop, b);
        EachBlockOnce(g, order, rank, t, j, b);
        EachBlockOnce(g, order, rank, f, j, b);
        EachBlockOnce(g, order, rank, j, stop, b);
        var second := if f == j then None else Some(Code(g, order, rank, f, j));
        if f == j { BeginsStop(g, j, b); }
        OccurrencesBranch(name, Code(g, order, rank, t, j), second, b);
        OccurrencesConcat(ArmsCode(g, order, rank, name, stop), Code(g, order, rank, j, stop), b);
    }
  }

  lemma NoOccurrences(b: Label)
    ensures Occurrences([], b) == 0
  {
  }

  lemma LineSplits(g: Graph, rank: Label -> nat, name: Label, n: Label, stop: Label, b: Label)
    requires name in g && g[name] == Br(n) && name != stop && Falls(g, rank, name) && Structured(g, rank, n, stop)
    ensures One(Before(g, name, stop, b)) == One(b == name) + One(Before(g, n, stop, b))
  {
    assert Edge(g, name, n);
    if b == name {
      BeforeSelf(g, name, stop);
      NotBehind(g, rank, name, n, stop);
    } else {
      if Before(g, n, stop, b) { BeforeStep(g, name, n, stop, b); }
      if Before(g, name, stop, b) { var m := BeforeFirst(g, name, stop, b); }
    }
  }
}
