/** Depth-first reachability with a shared set of seen labels. */
module Reachability {
  import opened Cfg

  /** The set every recursive call adds to. */
  class Seen {
    var labels: set<Label>
    constructor ()
      ensures labels == {}
    {
      labels := {};
    }
  }

  /** A label the search need not enter: avoided, already seen, or not a block; never the target. */
  predicate Settled(g: Graph, m: Label, target: Label, avoid: Label, seen: set<Label>) {
    m == avoid || (m != target && (m in seen || m !in g))
  }

  /** Every successor of a label in `done` is settled. */
  ghost predicate Closed(g: Graph, done: set<Label>, target: Label, avoid: Label, seen: set<Label>) {
    forall a, b :: a in done && Edge(g, a, b) ==> Settled(g, b, target, avoid, seen)
  }

  /** A path that starts on a settled label of a closed set never reaches the target. */
  lemma {:induction false} ClosedStopsPaths(g: Graph, p: seq<Label>, a: Label, target: Label, avoid: Label,
                                            seen: set<Label>)
    requires Closed(g, seen, target, avoid, seen) && Settled(g, a, target, avoid, seen)
    requires Links(g, p, a, target)
    ensures avoid in p
    decreases |p|
  {
    if a != avoid && |p| > 1 {
      LinksTail(g, p, a, target);
      ClosedStopsPaths(g, p[1..], p[1], target, avoid, seen);
    }
  }

  lemma AvoidingStep(g: Graph, a: Label, n: Label, b: Label, avoid: Label)
    requires a != avoid && Edge(g, a, n) && Avoiding(g, n, b, avoid)
    ensures Avoiding(g, a, b, avoid)
  {
    var p :| Links(g, p, n, b) && avoid !in p;
    LinksStep(g, p, a, n, b);
  }

  /** Searches from start, adding every entered label to the shared set. A failed search leaves
      everything it entered closed. */
  method Search(g: Graph, start: Label, target: Label, avoid: Label, seen: Seen) returns (found: bool)
    modifies seen
    ensures old(seen.labels) <= seen.labels <= old(seen.labels) + g.Keys
    ensures found ==> Avoiding(g, start, target, avoid)
    ensures !found ==> Settled(g, start, target, avoid, seen.labels)
    ensures !found ==> Closed(g, seen.labels - old(seen.labels), target, avoid, seen.labels)
    decreases g.Keys - seen.labels
  {
    if start == avoid {
      return false;
    }
    if start == target {
      AvoidingSelf(g, start, avoid);
      return true;
    }
    if start in seen.labels || start !in g {
      return false;
    }
    ghost var before := seen.labels;
    seen.labels := seen.labels + {start};
    match g[start]
    case Ret =>
      return false;
    case Br(n) =>
      found := Search(g, n, target, avoid, seen);
      if found { AvoidingStep(g, start, n, target, avoid); }
    case CondBr(t, f) =>
      found := Search(g, t, target, avoid, seen);
      if found {
        AvoidingStep(g, start, t, target, avoid);
        return;
      }
      ghost var between := seen.labels;
      found := Search(g, f, target, avoid, seen);
      if found { AvoidingStep(g, start, f, target, avoid); }
  }

  /** Started on an empty set the search is exact on every graph, cyclic ones included: it
      succeeds if and only if some path from start to target never visits the avoided label. */
  method ReachesAvoiding(g: Graph, start: Label, target: Label, avoid: Label) returns (found: bool)
    ensures found <==> Avoiding(g, start, target, avoid)
  {
    var seen := new Seen();
    found := Search(g, start, target, avoid, seen);
    if !found {
      forall p | Links(g, p, start, target) ensures avoid in p {
        ClosedStopsPaths(g, p, start, target, avoid, seen.labels);
      }
    }
  }
}
