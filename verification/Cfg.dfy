/** Control-flow graphs of LLVM functions: paths, and the ranks that order acyclic parts of them. */
module Cfg {
  type Label = string

  /** A block without a terminator behaves like a return. */
  datatype Term = Ret | Br(target: Label) | CondBr(whenTrue: Label, whenFalse: Label)

  type Graph = map<Label, Term>

  function Succ(t: Term): seq<Label> {
    match t
    case Ret => []
    case Br(n) => [n]
    case CondBr(a, b) => [a, b]
  }

  predicate Edge(g: Graph, a: Label, b: Label) {
    a in g && b in Succ(g[a])
  }

  predicate IsPath(g: Graph, p: seq<Label>) {
    p != [] && forall i :: 0 <= i < |p| - 1 ==> Edge(g, p[i], p[i + 1])
  }

  predicate Links(g: Graph, p: seq<Label>, a: Label, b: Label) {
    IsPath(g, p) && p[0] == a && p[|p| - 1] == b
  }

  /** Some path leads from a to b; every block on it but the last exists. */
  ghost predicate Connected(g: Graph, a: Label, b: Label) {
    exists p :: Links(g, p, a, b)
  }

  /** Some path leads from a to b and never visits the avoided label, ends included. */
  ghost predicate Avoiding(g: Graph, a: Label, b: Label, avoid: Label) {
    exists p :: Links(g, p, a, b) && avoid !in p
  }

  lemma LinksSelf(g: Graph, a: Label)
    ensures Links(g, [a], a, a) && Connected(g, a, a)
  {
    assert Links(g, [a], a, a);
  }

  lemma LinksStep(g: Graph, p: seq<Label>, a: Label, n: Label, b: Label)
    requires Edge(g, a, n) && Links(g, p, n, b)
    ensures Links(g, [a] + p, a, b) && |[a] + p| == |p| + 1
  {
    var q := [a] + p;
    forall i | 0 <= i < |q| - 1 ensures Edge(g, q[i], q[i + 1]) {
      if i > 0 { assert q[i] == p[i - 1] && q[i + 1] == p[i]; }
    }
  }

  lemma LinksTail(g: Graph, p: seq<Label>, a: Label, b: Label)
    requires Links(g, p, a, b) && |p| > 1
    ensures Edge(g, a, p[1]) && Links(g, p[1..], p[1], b)
  {
    var q := p[1..];
    forall i | 0 <= i < |q| - 1 ensures Edge(g, q[i], q[i + 1]) {
      assert Edge(g, p[i + 1], p[i + 2]);
    }
  }

  lemma LinksPrefix(g: Graph, p: seq<Label>, a: Label, b: Label, i: nat)
    requires Links(g, p, a, b) && i < |p|
    ensures Links(g, p[..i + 1], a, p[i]) && Links(g, p[i..], p[i], b)
  {
  }

  lemma LinksJoin(g: Graph, p: seq<Label>, q: seq<Label>, a: Label, b: Label, c: Label)
    requires Links(g, p, a, b) && Links(g, q, b, c)
    ensures Links(g, p + q[1..], a, c) && |p + q[1..]| == |p| + |q| - 1
  {
    var r := p + q[1..];
    forall i | 0 <= i < |r| - 1 ensures Edge(g, r[i], r[i + 1]) {
      if i >= |p| - 1 {
        assert r[i] == q[i - (|p| - 1)] && r[i + 1] == q[i + 1 - (|p| - 1)];
      }
    }
  }

  lemma ConnectedJoin(g: Graph, a: Label, b: Label, c: Label)
    requires Connected(g, a, b) && Connected(g, b, c)
    ensures Connected(g, a, c)
  {
    var p :| Links(g, p, a, b);
    var q :| Links(g, q, b, c);
    LinksJoin(g, p, q, a, b, c);
  }

  lemma AvoidingConnected(g: Graph, a: Label, b: Label, avoid: Label)
    requires Avoiding(g, a, b, avoid)
    ensures Connected(g, a, b)
  {
    var p :| Links(g, p, a, b) && avoid !in p;
  }

  lemma AvoidingSelf(g: Graph, a: Label, avoid: Label)
    requires a != avoid
    ensures Avoiding(g, a, a, avoid)
  {
    LinksSelf(g, a);
  }

  lemma ConnectedStep(g: Graph, a: Label, n: Label, b: Label)
    requires Edge(g, a, n) && Connected(g, n, b)
    ensures Connected(g, a, b)
  {
    var p :| Links(g, p, n, b);
    LinksStep(g, p, a, n, b);
  }

  /** Every edge out of a label leads to one of lower rank; labels that satisfy this form no cycle. */
  ghost predicate Falls(g: Graph, rank: Label -> nat, a: Label) {
    forall b :: Edge(g, a, b) ==> rank(b) < rank(a)
  }

  /** Ranks fall along a path whose labels, but perhaps the last, all fall. */
  lemma {:induction false} RankFalls(g: Graph, rank: Label -> nat, p: seq<Label>, a: Label, b: Label)
    requires Links(g, p, a, b) && forall i :: 0 <= i < |p| - 1 ==> Falls(g, rank, p[i])
    ensures |p| == 1 ==> a == b
    ensures |p| > 1 ==> rank(b) < rank(a)
    decreases |p|
  {
    if |p| > 1 {
      LinksTail(g, p, a, b);
      assert Falls(g, rank, p[0]);
      RankFalls(g, rank, p[1..], p[1], b);
    }
  }
}
