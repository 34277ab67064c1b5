/** The block chosen as the meeting point of two branch arms. */
module CommonMerge {
  import opened Words
  import opened Cfg
  import opened MergePoint

  // ----- shortest distances as a function -----

  ghost function LeastSteps(g: Graph, a: Label, b: Label, bound: nat): (d: nat)
    requires WithinSteps(g, a, b, bound)
    ensures d <= bound && WithinSteps(g, a, b, d) && forall e: nat :: WithinSteps(g, a, b, e) ==> d <= e
  {
    if bound > 0 && WithinSteps(g, a, b, bound - 1) then LeastSteps(g, a, b, bound - 1)
    else
      assert forall e: nat :: e < bound ==> !WithinSteps(g, a, b, e);
      bound
  }

  ghost function ShortestDistance(g: Graph, a: Label, b: Label): (d: nat)
    requires Connected(g, a, b)
    ensures Shortest(g, a, b, d)
  {
    var p :| Links(g, p, a, b);
    assert WithinSteps(g, a, b, |p| - 1);
    var d := LeastSteps(g, a, b, |p| - 1);
    assert forall q :: Links(g, q, a, b) ==> WithinSteps(g, a, b, |q| - 1);
    d
  }

  ghost function DistanceMap(g: Graph, start: Label): (out: map<Label, nat>)
    ensures Distances(g, start, out)
  {
    map l | l in g && Connected(g, start, l) :: ShortestDistance(g, start, l)
  }

  // ----- the choice -----

  function Position(order: seq<Label>, l: Label): nat {
    if order == [] || order[0] == l then 0 else 1 + Position(order[1..], l)
  }

  /** The order of the selection key: larger distance, then sum of distances, then position. */
  predicate KeyLess(dl: map<Label, nat>, dr: map<Label, nat>, order: seq<Label>, a: Label, b: Label)
    requires a in dl && a in dr && b in dl && b in dr
  {
    var ma, mb := Max(dl[a], dr[a]), Max(dl[b], dr[b]);
    var sa, sb := dl[a] + dr[a], dl[b] + dr[b];
    ma < mb || (ma == mb && (sa < sb || (sa == sb && Position(order, a) < Position(order, b))))
  }

  ghost predicate Chosen(dl: map<Label, nat>, dr: map<Label, nat>, order: seq<Label>, m: Label) {
    m in dl && m in dr && forall x :: x in dl && x in dr && x != m ==> KeyLess(dl, dr, order, m, x)
  }

  /** None when no existing block is reachable from both arms, and otherwise the block with the
      least key; equal arms meet at once. */
  ghost predicate IsMerge(g: Graph, order: seq<Label>, left: Label, right: Label, r: Option<Label>) {
    if left == right then r == Some(left)
    else
      var dl, dr := DistanceMap(g, left), DistanceMap(g, right);
      if dl.Keys * dr.Keys == {} then r == None
      else r.Some? && Chosen(dl, dr, order, r.value)
  }

  ghost predicate Ordering(g: Graph, order: seq<Label>) {
    && (forall l :: l in order <==> l in g)
    && (forall i, j :: 0 <= i < j < |order| ==> order[i] != order[j])
  }

  lemma {:induction false} PositionOf(order: seq<Label>, i: nat)
    requires i < |order| && forall a, b :: 0 <= a < b < |order| ==> order[a] != order[b]
    ensures Position(order, order[i]) == i
    decreases |order|
  {
    if i > 0 { PositionOf(order[1..], i - 1); }
  }

  lemma PositionsDiffer(g: Graph, order: seq<Label>, a: Label, b: Label)
    requires Ordering(g, order) && a in g && b in g && a != b
    ensures Position(order, a) != Position(order, b)
  {
    var i :| 0 <= i < |order| && order[i] == a;
    var j :| 0 <= j < |order| && order[j] == b;
    PositionOf(order, i);
    PositionOf(order, j);
  }

  lemma MergeUnique(g: Graph, order: seq<Label>, left: Label, right: Label, r: Option<Label>, s: Option<Label>)
    requires IsMerge(g, order, left, right, r) && IsMerge(g, order, left, right, s)
    ensures r == s
  {
    hide DistanceMap, KeyLess;
    if left != right && r != None && r != s {
      KeyLessOneWay(DistanceMap(g, left), DistanceMap(g, right), order, r.value, s.value);
    }
  }

  lemma KeyLessOneWay(dl: map<Label, nat>, dr: map<Label, nat>, order: seq<Label>, a: Label, b: Label)
    requires a in dl && a in dr && b in dl && b in dr
    ensures !(KeyLess(dl, dr, order, a, b) && KeyLess(dl, dr, order, b, a))
  {
  }

  /** The best of the blocks seen so far. */
  ghost predicate LeastSoFar(dl: map<Label, nat>, dr: map<Label, nat>, order: seq<Label>,
                             seen: set<Label>, best: Label) {
    && (forall x :: x in seen ==> x in dl && x in dr) && best in seen
    && forall x :: x in seen && x != best ==> KeyLess(dl, dr, order, best, x)
  }

  lemma LeastWith(g: Graph, dl: map<Label, nat>, dr: map<Label, nat>, order: seq<Label>,
                  seen: set<Label>, best: Label, x: Label)
    requires Ordering(g, order) && LeastSoFar(dl, dr, order, seen, best)
    requires x in dl && x in dr && x !in seen && x in g && best in g
    ensures LeastSoFar(dl, dr, order, seen + {x}, if KeyLess(dl, dr, order, x, best) then x else best)
  {
    hide KeyLess;
    KeyLessTotal(g, dl, dr, order, x, best);
    if KeyLess(dl, dr, order, x, best) {
      forall y | y in seen && y != best ensures KeyLess(dl, dr, order, x, y) {
        KeyLessChain(dl, dr, order, x, best, y);
      }
    }
  }

  /** Takes the minimum in whatever order the common blocks are visited. */
  method MinByKey(g: Graph, dl: map<Label, nat>, dr: map<Label, nat>, order: seq<Label>, common: set<Label>)
    returns (best: Label)
    requires Ordering(g, order) && common != {} && common <= dl.Keys && common <= dr.Keys && common <= g.Keys
    ensures LeastSoFar(dl, dr, order, common, best)
  {
    hide Ordering, KeyLess, LeastSoFar;
    best :| best in common;
    var rest := common - {best};
    ghost var seen := {best};
    FirstLeast(dl, dr, order, best);
    while rest != {}
      invariant rest <= common && best in common && seen + rest == common && seen !! rest
      invariant LeastSoFar(dl, dr, order, seen, best)
      decreases |rest|
    {
      var x: Label :| x in rest;
      LeastWith(g, dl, dr, order, seen, best, x);
      if KeyLess(dl, dr, order, x, best) {
        best := x;
      }
      seen := seen + {x};
      rest := rest - {x};
    }
    assert seen == common;
  }

  /** Takes the nearest of the blocks both arms reach; none when they share no block. */
  method Merge(g: Graph, order: seq<Label>, left: Label, right: Label) returns (r: Option<Label>)
    requires Ordering(g, order)
    ensures IsMerge(g, order, left, right, r)
    ensures left == right ==> r == Some(left)
    ensures left != right && r.Some? ==> Nearest(g, order, left, right, r.value)
    ensures r.None? ==> forall x :: !Common(g, left, right, x)
  {
    hide Distances, Ordering, KeyLess, LeastSoFar, DistanceMap, Chosen, Common, Nearest;
    if left == right {
      return Some(left);
    }
    var dl := ReachableLabelDistances(g, left);
    var dr := ReachableLabelDistances(g, right);
    DistancesUnique(g, left, dl, DistanceMap(g, left));
    DistancesUnique(g, right, dr, DistanceMap(g, right));
    var common := dl.Keys * dr.Keys;
    if common == {} {
      NoMergeIffDisjoint(g, order, left, right, None);
      return None;
    }
    InGraph(g, left, dl);
    var best := MinByKey(g, dl, dr, order, common);
    LeastIsChosen(dl, dr, order, common, best);
    MergeIsNearest(g, order, left, right, best);
    return Some(best);
  }

  lemma FirstLeast(dl: map<Label, nat>, dr: map<Label, nat>, order: seq<Label>, best: Label)
    requires best in dl && best in dr
    ensures LeastSoFar(dl, dr, order, {best}, best)
  {
  }

  lemma LeastIsChosen(dl: map<Label, nat>, dr: map<Label, nat>, order: seq<Label>, common: set<Label>, best: Label)
    requires common == dl.Keys * dr.Keys && LeastSoFar(dl, dr, order, common, best)
    ensures Chosen(dl, dr, order, best)
  {
  }

  lemma InGraph(g: Graph, start: Label, d: map<Label, nat>)
    requires Distances(g, start, d)
    ensures forall x :: x in d ==> x in g
  {
  }

  lemma KeyLessTotal(g: Graph, dl: map<Label, nat>, dr: map<Label, nat>, order: seq<Label>, a: Label, b: Label)
    requires Ordering(g, order) && a in g && b in g && a != b && a in dl && a in dr && b in dl && b in dr
    ensures KeyLess(dl, dr, order, a, b) || KeyLess(dl, dr, order, b, a)
  {
    PositionsDiffer(g, order, a, b);
  }

  lemma KeyLessChain(dl: map<Label, nat>, dr: map<Label, nat>, order: seq<Label>, a: Label, b: Label, c: Label)
    requires a in dl && a in dr && b in dl && b in dr && c in dl && c in dr
    requires KeyLess(dl, dr, order, a, b) && KeyLess(dl, dr, order, b, c)
    ensures KeyLess(dl, dr, order, a, c)
  {
  }

  lemma {:induction false} LeastExists(g: Graph, dl: map<Label, nat>, dr: map<Label, nat>, order: seq<Label>,
                                       common: set<Label>)
    returns (best: Label)
    requires Ordering(g, order) && common != {} && common <= dl.Keys && common <= dr.Keys && common <= g.Keys
    ensures LeastSoFar(dl, dr, order, common, best)
    decreases |common|
  {
    hide Ordering, KeyLess, LeastSoFar;
    var x: Label :| x in common;
    if common == {x} {
      FirstLeast(dl, dr, order, x);
      best := x;
    } else {
      var b := LeastExists(g, dl, dr, order, common - {x});
      assert b in common - {x} by { LeastMember(dl, dr, order, common - {x}, b); }
      LeastWith(g, dl, dr, order, common - {x}, b, x);
      assert common - {x} + {x} == common;
      best := if KeyLess(dl, dr, order, x, b) then x else b;
    }
  }

  lemma LeastMember(dl: map<Label, nat>, dr: map<Label, nat>, order: seq<Label>, seen: set<Label>, best: Label)
    requires LeastSoFar(dl, dr, order, seen, best)
    ensures best in seen
  {
  }

  lemma MergeExists(g: Graph, order: seq<Label>, left: Label, right: Label) returns (r: Option<Label>)
    requires Ordering(g, order)
    ensures IsMerge(g, order, left, right, r)
  {
    hide Ordering, DistanceMap, Chosen;
    var dl, dr := DistanceMap(g, left), DistanceMap(g, right);
    var common := dl.Keys * dr.Keys;
    if left == right {
      r := Some(left);
    } else if common == {} {
      r := None;
    } else {
      InGraph(g, left, dl);
      var best := LeastExists(g, dl, dr, order, common);
      LeastIsChosen(dl, dr, order, common, best);
      r := Some(best);
    }
  }

  lemma SomeMerge(g: Graph, order: seq<Label>, left: Label, right: Label)
    requires Ordering(g, order)
    ensures exists r :: IsMerge(g, order, left, right, r)
  {
    var r := MergeExists(g, order, left, right);
  }

  /** The merge point, as a function. */
  ghost function MergeOf(g: Graph, order: seq<Label>, left: Label, right: Label): (r: Option<Label>)
    requires Ordering(g, order)
    ensures IsMerge(g, order, left, right, r)
  {
    SomeMerge(g, order, left, right);
    var r :| IsMerge(g, order, left, right, r);
    r
  }

  // ----- what the choice means -----

  /** Blocks that exist and can be reached from both arms. */
  ghost predicate Common(g: Graph, left: Label, right: Label, x: Label) {
    x in g && Connected(g, left, x) && Connected(g, right, x)
  }

  /** No merge point exactly when distinct arms share no reachable block. */
  lemma NoMergeIffDisjoint(g: Graph, order: seq<Label>, left: Label, right: Label, r: Option<Label>)
    requires IsMerge(g, order, left, right, r)
    ensures r == None <==> left != right && forall x :: !Common(g, left, right, x)
    ensures r != None && left != right ==> Common(g, left, right, r.value)
  {
    if left != right {
      var dl, dr := DistanceMap(g, left), DistanceMap(g, right);
      forall x ensures Common(g, left, right, x) <==> x in dl.Keys * dr.Keys {
      }
    }
  }

  /** m lies before x: its farther arm is closer than x's, or as close with a smaller sum of distances,
      or both are the same and it comes first in the order. */
  predicate Nearer(order: seq<Label>, m: Label, lm: nat, rm: nat, x: Label, lx: nat, rx: nat) {
    var far, other := if lm >= rm then lm else rm, if lx >= rx then lx else rx;
    || far < other
    || (far == other && lm + rm < lx + rx)
    || (far == other && lm + rm == lx + rx && exists i, j :: 0 <= i < j < |order| && order[i] == m && order[j] == x)
  }

  /** m is shared by both arms and nearer than every other shared block. */
  ghost predicate Nearest(g: Graph, order: seq<Label>, left: Label, right: Label, m: Label) {
    && Common(g, left, right, m)
    && forall x, lm, rm, lx, rx ::
         && x != m && Common(g, left, right, x)
         && Shortest(g, left, m, lm) && Shortest(g, right, m, rm)
         && Shortest(g, left, x, lx) && Shortest(g, right, x, rx)
         ==> Nearer(order, m, lm, rm, x, lx, rx)
  }

  lemma PositionsOrder(g: Graph, order: seq<Label>, a: Label, b: Label)
    requires Ordering(g, order) && a in g && b in g
    ensures Position(order, a) < Position(order, b)
            <==> exists i, j :: 0 <= i < j < |order| && order[i] == a && order[j] == b
  {
    var i :| 0 <= i < |order| && order[i] == a;
    var j :| 0 <= j < |order| && order[j] == b;
    PositionOf(order, i);
    PositionOf(order, j);
  }

  lemma SharedByBoth(g: Graph, left: Label, right: Label, x: Label)
    ensures Common(g, left, right, x) <==> x in DistanceMap(g, left) && x in DistanceMap(g, right)
    ensures Common(g, left, right, x) ==>
              Shortest(g, left, x, DistanceMap(g, left)[x]) && Shortest(g, right, x, DistanceMap(g, right)[x])
  {
  }

  lemma KeyIsNearer(g: Graph, dl: map<Label, nat>, dr: map<Label, nat>, order: seq<Label>, m: Label, x: Label)
    requires Ordering(g, order) && m in g && x in g && m in dl && m in dr && x in dl && x in dr
    ensures KeyLess(dl, dr, order, m, x) <==> Nearer(order, m, dl[m], dr[m], x, dl[x], dr[x])
  {
    PositionsOrder(g, order, m, x);
  }

  /** The chosen block is the nearest shared one, and only that block is chosen. */
  lemma MergeIsNearest(g: Graph, order: seq<Label>, left: Label, right: Label, m: Label)
    requires Ordering(g, order) && left != right
    ensures IsMerge(g, order, left, right, Some(m)) <==> Nearest(g, order, left, right, m)
  {
    hide DistanceMap, Shortest, KeyLess, Ordering, Nearer, Common;
    var dl, dr := DistanceMap(g, left), DistanceMap(g, right);
    SharedByBoth(g, left, right, m);
    if Common(g, left, right, m) {
      forall x ensures Common(g, left, right, x) <==> x in dl && x in dr
        ensures Common(g, left, right, x) ==> Shortest(g, left, x, dl[x]) && Shortest(g, right, x, dr[x])
        ensures Common(g, left, right, x) ==>
                  (KeyLess(dl, dr, order, m, x) <==> Nearer(order, m, dl[m], dr[m], x, dl[x], dr[x]))
      {
        SharedByBoth(g, left, right, x);
        if Common(g, left, right, x) {
          InTheGraph(g, left, right, m);
          InTheGraph(g, left, right, x);
          KeyIsNearer(g, dl, dr, order, m, x);
        }
      }
      forall start, x, d, e | Shortest(g, start, x, d) && Shortest(g, start, x, e) ensures d == e {
        ShortestUnique(g, start, x, d, e);
      }
      assert m in dl.Keys * dr.Keys;
    }
  }

  lemma InTheGraph(g: Graph, left: Label, right: Label, x: Label)
    requires Common(g, left, right, x)
    ensures x in g
  {
  }

  /** The same, read off two shared blocks: the chosen one is no farther by the larger of its two
      shortest distances, on a tie no farther by their sum, and on a second tie it comes first. */
  lemma ChosenNoFarther(g: Graph, order: seq<Label>, left: Label, right: Label, m: Label, x: Label,
                        lm: nat, rm: nat, lx: nat, rx: nat)
    requires Ordering(g, order) && left != right && IsMerge(g, order, left, right, Some(m))
    requires Common(g, left, right, x) && x != m
    requires Shortest(g, left, m, lm) && Shortest(g, right, m, rm)
    requires Shortest(g, left, x, lx) && Shortest(g, right, x, rx)
    ensures (lm <= lx || lm <= rx) && (rm <= lx || rm <= rx)
    ensures (lm >= lx && lm >= rx) || (rm >= lx && rm >= rx) ==> lm + rm <= lx + rx
    ensures ((lm >= lx && lm >= rx) || (rm >= lx && rm >= rx)) && lm + rm == lx + rx ==>
              exists i, j :: 0 <= i < j < |order| && order[i] == m && order[j] == x
  {
    hide IsMerge, Shortest, Ordering, Common;
    MergeIsNearest(g, order, left, right, m);
    assert Nearer(order, m, lm, rm, x, lx, rx);
  }

  /** J joins two arms when both reach it, and reach every shared block only through it. */
  ghost predicate Joins(g: Graph, left: Label, right: Label, j: Label) {
    && Common(g, left, right, j)
    && (forall x :: Common(g, left, right, x) && x != j ==> !Avoiding(g, left, x, j) && !Avoiding(g, right, x, j))
  }

  lemma JoinIsCloser(g: Graph, start: Label, j: Label, x: Label)
    requires Connected(g, start, j) && Connected(g, start, x) && x != j && !Avoiding(g, start, x, j)
    ensures ShortestDistance(g, start, j) < ShortestDistance(g, start, x)
  {
    var d := ShortestDistance(g, start, x);
    var p :| Links(g, p, start, x) && |p| <= d + 1;
    assert j in p;
    var i :| 0 <= i < |p| && p[i] == j;
    LinksPrefix(g, p, start, x, i);
    assert |p[..i + 1]| == i + 1 <= |p| - 1;
  }

  /** A block that joins the two arms is the one chosen. */
  lemma JoinIsChosen(g: Graph, order: seq<Label>, left: Label, right: Label, j: Label, r: Option<Label>)
    requires left != right && Joins(g, left, right, j) && IsMerge(g, order, left, right, r)
    ensures r == Some(j)
  {
    hide Shortest, Distances, Ordering, Links;
    var dl, dr := DistanceMap(g, left), DistanceMap(g, right);
    assert j in dl.Keys * dr.Keys;
    var m := r.value;
    if m != j {
      assert Common(g, left, right, m);
      JoinIsCloser(g, left, j, m);
      JoinIsCloser(g, right, j, m);
    }
  }
}
