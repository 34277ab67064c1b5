/** Why an acyclic kernel that can be lowered has one return block: arms that share no block are
    rejected, and two returns would leave such arms somewhere. */
module KernelReturns {
  import opened Cfg
  import opened CommonMerge
  import opened Structurizer
  import opened StructuredRegions

  ghost predicate FallsFrom(g: Graph, rank: Label -> nat, name: Label) {
    forall b :: Connected(g, name, b) ==> Falls(g, rank, b)
  }

  /** Some block can be reached from both arms. */
  ghost predicate Shares(g: Graph, t: Label, f: Label) {
    t == f || exists x :: Common(g, t, f, x)
  }

  ghost predicate Sharing(g: Graph, b: Label) {
    b in g && (g[b].CondBr? ==> Shares(g, g[b].whenTrue, g[b].whenFalse))
  }

  ghost predicate SharingFrom(g: Graph, name: Label) {
    forall b :: Connected(g, name, b) ==> Sharing(g, b)
  }

  lemma FallsFromStep(g: Graph, rank: Label -> nat, name: Label, n: Label)
    requires FallsFrom(g, rank, name) && Connected(g, name, n)
    ensures FallsFrom(g, rank, n)
  {
    forall b | Connected(g, n, b) ensures Falls(g, rank, b) { ConnectedJoin(g, name, n, b); }
  }

  lemma SharingFromStep(g: Graph, name: Label, n: Label)
    requires SharingFrom(g, name) && Connected(g, name, n)
    ensures SharingFrom(g, n)
  {
    forall b | Connected(g, n, b) ensures Sharing(g, b) { ConnectedJoin(g, name, n, b); }
  }

  lemma Successor(g: Graph, rank: Label -> nat, name: Label, n: Label)
    requires FallsFrom(g, rank, name) && Edge(g, name, n)
    ensures Connected(g, name, n) && rank(n) < rank(name) && FallsFrom(g, rank, n)
  {
    LinksSelf(g, name);
    LinksSelf(g, n);
    ConnectedStep(g, name, n, n);
    FallsFromStep(g, rank, name, n);
  }

  lemma FirstStep(g: Graph, name: Label, b: Label) returns (n: Label)
    requires Connected(g, name, b) && b != name
    ensures Edge(g, name, n) && Connected(g, n, b)
  {
    var p :| Links(g, p, name, b);
    LinksTail(g, p, name, b);
    n := p[1];
  }

  lemma ConnectedFalls(g: Graph, rank: Label -> nat, name: Label, b: Label)
    requires FallsFrom(g, rank, name) && Connected(g, name, b)
    ensures b == name || rank(b) < rank(name)
  {
    var p :| Links(g, p, name, b);
    forall i | 0 <= i < |p| - 1 ensures Falls(g, rank, p[i]) {
      LinksPrefix(g, p, name, b, i);
      assert Connected(g, name, p[i]);
    }
    RankFalls(g, rank, p, name, b);
  }

  // ----- one return -----

  lemma {:induction false} SomeReturn(g: Graph, rank: Label -> nat, name: Label) returns (r: Label)
    requires FallsFrom(g, rank, name) && SharingFrom(g, name)
    ensures Connected(g, name, r) && r in g && g[r] == Ret
    decreases rank(name)
  {
    LinksSelf(g, name);
    assert Sharing(g, name);
    if g[name] == Ret {
      r := name;
    } else {
      var n := Succ(g[name])[0];
      Successor(g, rank, name, n);
      SharingFromStep(g, name, n);
      r := SomeReturn(g, rank, n);
      ConnectedStep(g, name, n, r);
    }
  }

  /** When the arms of every branch share a block, all paths end in the same return block. */
  lemma {:induction false} OneReturn(g: Graph, rank: Label -> nat, name: Label, r: Label, s: Label)
    requires FallsFrom(g, rank, name) && SharingFrom(g, name)
    requires Connected(g, name, r) && r in g && g[r] == Ret && Connected(g, name, s) && s in g && g[s] == Ret
    ensures r == s
    decreases rank(name)
  {
    hide FallsFrom, SharingFrom, Connected;
    if r == name {
      ReturnAlone(g, name, s);
    } else if s == name {
      ReturnAlone(g, name, r);
    } else {
      var a := FirstStep(g, name, r);
      var b := FirstStep(g, name, s);
      Successor(g, rank, name, a);
      Successor(g, rank, name, b);
      SharingFromStep(g, name, a);
      SharingFromStep(g, name, b);
      if a == b {
        OneReturn(g, rank, a, r, s);
      } else {
        var x := SharedBlock(g, name, a, b);
        FallsFromStep(g, rank, a, x);
        SharingFromStep(g, a, x);
        var u := SomeReturn(g, rank, x);
        ConnectedJoin(g, a, x, u);
        ConnectedJoin(g, b, x, u);
        OneReturn(g, rank, a, r, u);
        OneReturn(g, rank, b, s, u);
      }
    }
  }

  lemma ReturnAlone(g: Graph, r: Label, s: Label)
    requires r in g && g[r] == Ret && Connected(g, r, s)
    ensures r == s
  {
    if r != s { var n := FirstStep(g, r, s); }
  }

  lemma SharedBlock(g: Graph, name: Label, a: Label, b: Label) returns (x: Label)
    requires SharingFrom(g, name) && Edge(g, name, a) && Edge(g, name, b) && a != b
    ensures Connected(g, a, x) && Connected(g, b, x)
  {
    LinksSelf(g, name);
    assert Sharing(g, name);
    var t, f := g[name].whenTrue, g[name].whenFalse;
    x :| Common(g, t, f, x);
  }

  // ----- what the emitter visits -----

  lemma MergeShares(g: Graph, order: seq<Label>, rank: Label -> nat, name: Label)
    requires Ordering(g, order) && FallsFrom(g, rank, name) && name in g && g[name].CondBr?
    requires MergeOf(g, order, g[name].whenTrue, g[name].whenFalse).Some?
    ensures Sharing(g, name)
    ensures var m := MergeOf(g, order, g[name].whenTrue, g[name].whenFalse).value;
            Connected(g, name, m) && rank(m) < rank(name) && FallsFrom(g, rank, m)
  {
    hide Ordering, Connected, FallsFrom;
    var t, f := g[name].whenTrue, g[name].whenFalse;
    var m := MergeOf(g, order, t, f);
    Successor(g, rank, name, t);
    NoMergeIffDisjoint(g, order, t, f, m);
    if t == f { LinksConnected(g, t); }
    ConnectedFalls(g, rank, t, m.value);
    FallsFromStep(g, rank, t, m.value);
    ConnectedJoin(g, name, t, m.value);
  }

  lemma LinksConnected(g: Graph, a: Label)
    ensures Connected(g, a, a)
  {
    LinksSelf(g, a);
  }

  /** Emitting a region visits every block before its stop, and finds a merge point at each branch. */
  lemma {:induction false} RegionVisits(g: Graph, order: seq<Label>, rank: Label -> nat, name: Label, stop: Label,
                                        seen: set<Label>, b: Label)
    requires Ordering(g, order) && FallsFrom(g, rank, name) && Above(rank, seen, name)
    requires EmitRegion(g, order, name, stop, seen).Emitted? && Before(g, name, stop, b)
    ensures Sharing(g, b)
    decreases rank(name)
  {
    hide Ordering, IsMerge, IsLoop, FallsFrom, Sharing, Before, Connected;
    if name == stop { BeginsStop(g, stop, b); }
    assert name !in seen;
    var inner := seen + {name};
    if b == name {
      if g[name].CondBr? { MergeShares(g, order, rank, name); } else { BranchFree(g, name); }
    } else {
      var n := BeforeFirst(g, name, stop, b);
      Successor(g, rank, name, n);
      match g[name]
      case Br(_) => RegionVisits(g, order, rank, n, stop, inner, b);
      case CondBr(t, f) =>
        MergeShares(g, order, rank, name);
        var m := MergeOf(g, order, t, f).value;
        AroundJoin(g, n, m, stop, b);
        if Before(g, n, m, b) {
          if n == m { BeginsStop(g, m, b); }
          RegionVisits(g, order, rank, n, m, inner, b);
        } else {
          RegionVisits(g, order, rank, m, stop, inner, b);
        }
    }
  }

  lemma BranchFree(g: Graph, name: Label)
    requires name in g && !g[name].CondBr?
    ensures Sharing(g, name)
  {
  }

  /** A path either avoids m or leads on from it. */
  lemma Around(g: Graph, n: Label, m: Label, b: Label)
    requires Connected(g, n, b)
    ensures Before(g, n, m, b) || Connected(g, m, b)
  {
    var p :| Links(g, p, n, b);
    if m in p {
      var i :| 0 <= i < |p| && p[i] == m;
      LinksPrefix(g, p, n, b, i);
    }
  }

  lemma {:induction false} SpineVisits(g: Graph, order: seq<Label>, rank: Label -> nat, name: Label,
                                       visited: set<Label>, b: Label)
    requires Ordering(g, order) && FallsFrom(g, rank, name) && Above(rank, visited, name)
    requires EmitBlock(g, order, name, visited).Emitted? && Connected(g, name, b)
    ensures Sharing(g, b)
    decreases rank(name)
  {
    hide Ordering, IsMerge, IsLoop, FallsFrom, Sharing, Before, Connected, EmitRegion;
    assert name !in visited;
    var inner := visited + {name};
    if b == name {
      if g[name].CondBr? { MergeShares(g, order, rank, name); } else { BranchFree(g, name); }
    } else {
      var n := FirstStep(g, name, b);
      Successor(g, rank, name, n);
      match g[name]
      case Br(_) => SpineVisits(g, order, rank, n, inner, b);
      case CondBr(t, f) =>
        MergeShares(g, order, rank, name);
        var m := MergeOf(g, order, t, f).value;
        Around(g, n, m, b);
        if Before(g, n, m, b) {
          if n == m { BeginsStop(g, m, b); }
          RegionVisits(g, order, rank, n, m, {}, b);
        } else {
          SpineVisits(g, order, rank, m, inner, b);
        }
    }
  }

  /** An acyclic kernel with two reachable return blocks cannot be lowered. */
  lemma LoweredReturnsOnce(g: Graph, order: seq<Label>, rank: Label -> nat, entry: Label, r: Label, s: Label)
    requires Ordering(g, order) && FallsFrom(g, rank, entry) && EmitBlock(g, order, entry, {}).Emitted?
    requires Connected(g, entry, r) && r in g && g[r] == Ret && Connected(g, entry, s) && s in g && g[s] == Ret
    ensures r == s
  {
    hide Ordering, FallsFrom, Sharing, Connected, EmitBlock;
    forall b | Connected(g, entry, b) ensures Sharing(g, b) {
      SpineVisits(g, order, rank, entry, {}, b);
    }
    OneReturn(g, rank, entry, r, s);
  }
}
