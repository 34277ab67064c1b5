/** A kernel with one branch: what the structurizer makes of it, and that it is one the theorems about
    whole kernels speak of. */
module DiamondKernel {
  import opened Words
  import opened Cfg
  import opened CommonMerge
  import opened MiniIr
  import opened Structurizer
  import opened StructuredRegions
  import opened KernelLowering
  import opened KernelCompilation
  import opened KernelOutcomes
  import I = Isa
  import M = MaskMachine

  const GRAPH: Graph :=
    map["entry" := CondBr("then", "else"), "then" := Br("join"), "else" := Br("join"), "join" := Ret]
  const ORDER: seq<Label> := ["entry", "then", "else", "join"]
  const RANK: Label -> nat := b => if b == "entry" then 2 else if b == "join" then 0 else 1

  /** The entry block computes the condition; the two arms store it in different places. */
  function CodeOf(b: Label): seq<Stmt> {
    if b == "entry" then [Assign("%c:entry", Thread(I.GlobalTid))]
    else if b == "then" then [StoreTo(Global, None, Lit(0), Val("%c:entry"))]
    else if b == "else" then [StoreTo(Global, None, Lit(4), Val("%c:entry"))]
    else []
  }

  function CondOf(b: Label): string { "%c:" + b }

  function NegatedOf(b: Label): string { "%n:" + b }

  const BLOCKS := Blocks(CodeOf, CondOf, NegatedOf)

  lemma {:induction false} StaysInside(g: Graph, inside: set<Label>, p: seq<Label>, a: Label, b: Label)
    requires Links(g, p, a, b) && a in inside && forall x, y :: x in inside && Edge(g, x, y) ==> y in inside
    ensures b in inside
    decreases |p|
  {
    if |p| > 1 {
      LinksTail(g, p, a, b);
      StaysInside(g, inside, p[1..], p[1], b);
    }
  }

  lemma Closed(inside: set<Label>, a: Label)
    requires inside in {{"entry", "then", "else", "join"}, {"then", "join"}, {"else", "join"}} && a in inside
    ensures forall b :: Connected(GRAPH, a, b) ==> b in inside
  {
    forall b | Connected(GRAPH, a, b) ensures b in inside {
      var p :| Links(GRAPH, p, a, b);
      StaysInside(GRAPH, inside, p, a, b);
    }
  }

  lemma ArmsJoin()
    ensures Joins(GRAPH, "then", "else", "join")
  {
    Closed({"then", "join"}, "then");
    Closed({"else", "join"}, "else");
    LinksSelf(GRAPH, "join");
    ConnectedStep(GRAPH, "then", "join", "join");
    ConnectedStep(GRAPH, "else", "join", "join");
  }

  lemma BlockTame(b: Label)
    requires b in {"entry", "then", "else", "join"}
    ensures b in GRAPH && Falls(GRAPH, RANK, b)
    ensures GRAPH[b].CondBr? ==> Meets(GRAPH, GRAPH[b].whenTrue, GRAPH[b].whenFalse)
  {
    hide Joins;
    ArmsJoin();
  }

  lemma NamesApart(b: Label, c: Label)
    ensures NegatedOf(b) != CondOf(c)
    ensures (CondOf(b) == CondOf(c) ==> b == c) && (NegatedOf(b) == NegatedOf(c) ==> b == c)
  {
    assert NegatedOf(b)[1] == 'n' && CondOf(c)[1] == 'c';
    assert CondOf(b)[3..] == b && CondOf(c)[3..] == c && NegatedOf(b)[3..] == b && NegatedOf(c)[3..] == c;
  }

  lemma NotNegated(c: Label)
    ensures !IsNegated(BLOCKS, CondOf(c))
  {
    hide NegatedOf, CondOf;
    forall b ensures BLOCKS.negated(b) != CondOf(c) { NamesApart(b, c); }
  }

  lemma BlockPlain(b: Label, stmt: Stmt)
    requires stmt in CodeOf(b)
    ensures Plain(BLOCKS, stmt) && (stmt.Assign? ==> stmt.dst == CondOf(b))
  {
    hide IsNegated;
    NotNegated("entry");
    assert CondOf("entry") == "%c:entry";
    forall o | o in Operands(stmt) && o.Val? ensures o.name == "%c:entry" {}
  }

  lemma BlocksTidy()
    ensures Tidy(BLOCKS) && DefinesConditions(BLOCKS, GRAPH)
  {
    EntryAssigns();
    hide Plain, IsNegated, CodeOf, CondOf, NegatedOf, DefinesConditions;
    forall b, stmt | stmt in CodeOf(b) ensures Plain(BLOCKS, stmt) && (stmt.Assign? ==> stmt.dst == CondOf(b)) {
      BlockPlain(b, stmt);
    }
    forall b, c ensures NegatedOf(b) == NegatedOf(c) ==> b == c
      ensures CondOf(b) == CondOf(c) ==> b == c
    {
      NamesApart(b, c);
    }
    forall b ensures !IsNegated(BLOCKS, CondOf(b)) { NotNegated(b); }
  }

  lemma EntryAssigns()
    ensures DefinesConditions(BLOCKS, GRAPH)
  {
    var stmt := Assign("%c:entry", Thread(I.GlobalTid));
    assert CondOf("entry") == "%c:entry";
    assert stmt in CodeOf("entry") && stmt.Assign? && stmt.dst == CondOf("entry");
  }

  /** The kernel meets what the theorems ask of control flow and of blocks. */
  lemma DiamondQualifies()
    ensures Ordering(GRAPH, ORDER) && StructuredKernel(GRAPH, RANK, "entry")
    ensures GRAPH["join"] == Ret && Connected(GRAPH, "entry", "join")
    ensures Tidy(BLOCKS) && DefinesConditions(BLOCKS, GRAPH)
  {
    hide Connected, Falls, Meets, Tidy, DefinesConditions;
    Closed({"entry", "then", "else", "join"}, "entry");
    forall b | Connected(GRAPH, "entry", b)
      ensures b in GRAPH && Falls(GRAPH, RANK, b)
      ensures GRAPH[b].CondBr? ==> Meets(GRAPH, GRAPH[b].whenTrue, GRAPH[b].whenFalse)
    {
      BlockTame(b);
    }
    LinksSelf(GRAPH, "join");
    ConnectedStep(GRAPH, "then", "join", "join");
    ConnectedStep(GRAPH, "entry", "then", "join");
    BlocksTidy();
  }

  lemma DiamondOrdered()
    ensures Ordering(GRAPH, ORDER)
  {
    assert ORDER[0] == "entry" && ORDER[1] == "then" && ORDER[2] == "else" && ORDER[3] == "join";
  }

  /** The code of the diamond: both arms in regions of their own, the second under the negated condition. */
  lemma DiamondCode()
    ensures Ordering(GRAPH, ORDER)
    ensures EmitBlock(GRAPH, ORDER, "entry", {}) == Emitted([
      M.Body("entry"), M.PredBegin("entry"), M.Body("then"), M.PredEnd,
      M.Negate("entry"), M.PredBeginNot("entry"), M.Body("else"), M.PredEnd,
      M.Body("join"), M.Return])
  {
    DiamondOrdered();
    hide Ordering, IsMerge, IsLoop, EmitRegion, EmitBranch, Joins;
    ArmsJoin();
    JoinIsChosen(GRAPH, ORDER, "then", "else", "join", MergeOf(GRAPH, ORDER, "then", "else"));
    NotALoop();
    ArmCode("then");
    ArmCode("else");
    JoinCode({"entry"});
    assert {} + {"entry"} == {"entry"};
    assert EmitBlock(GRAPH, ORDER, "entry", {})
        == EmitBranch("entry", Emitted([M.Body("then")]), Some(Emitted([M.Body("else")])),
                      Emitted([M.Body("join"), M.Return]));
    BranchText();
  }

  lemma BranchText()
    ensures EmitBranch("entry", Emitted([M.Body("then")]), Some(Emitted([M.Body("else")])),
                       Emitted([M.Body("join"), M.Return]))
            == Emitted([
      M.Body("entry"), M.PredBegin("entry"), M.Body("then"), M.PredEnd,
      M.Negate("entry"), M.PredBeginNot("entry"), M.Body("else"), M.PredEnd,
      M.Body("join"), M.Return])
  {
  }

  lemma NotALoop()
    ensures !IsLoop(GRAPH, "entry", "then", "else")
  {
  }

  lemma ArmCode(arm: Label)
    requires arm in {"then", "else"}
    ensures Ordering(GRAPH, ORDER) && EmitRegion(GRAPH, ORDER, arm, "join", {}) == Emitted([M.Body(arm)])
  {
    DiamondOrdered();
    hide Ordering;
    assert EmitRegion(GRAPH, ORDER, "join", "join", {arm}) == Emitted([]);
  }

  lemma JoinCode(visited: set<Label>)
    requires "join" !in visited
    ensures Ordering(GRAPH, ORDER) && EmitBlock(GRAPH, ORDER, "join", visited) == Emitted([M.Body("join"), M.Return])
  {
    DiamondOrdered();
    hide Ordering;
  }
}
