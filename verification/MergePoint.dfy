/** Breadth-first distances and the choice of the block where two branch arms meet. */
module MergePoint {
  import opened Cfg

  ghost predicate WithinSteps(g: Graph, start: Label, l: Label, d: nat) {
    exists p :: Links(g, p, start, l) && |p| <= d + 1
  }

  /** d is the number of edges on a shortest path. */
  ghost predicate Shortest(g: Graph, start: Label, l: Label, d: nat) {
    WithinSteps(g, start, l, d) && forall p :: Links(g, p, start, l) ==> d + 1 <= |p|
  }

  /** Exactly the existing blocks reachable from start, each with its shortest distance. */
  ghost predicate Distances(g: Graph, start: Label, out: map<Label, nat>) {
    && (forall l :: l in out <==> l in g && Connected(g, start, l))
    && (forall l :: l in out ==> Shortest(g, start, l, out[l]))
  }

  lemma ShortestUnique(g: Graph, start: Label, l: Label, d: nat, e: nat)
    requires Shortest(g, start, l, d) && Shortest(g, start, l, e)
    ensures d == e
  {
    var p :| Links(g, p, start, l) && |p| <= d + 1;
    var q :| Links(g, q, start, l) && |q| <= e + 1;
  }

  lemma DistancesUnique(g: Graph, start: Label, out: map<Label, nat>, other: map<Label, nat>)
    requires Distances(g, start, out) && Distances(g, start, other)
    ensures out == other
  {
    forall l | l in out ensures l in other && out[l] == other[l] {
      ShortestUnique(g, start, l, out[l], other[l]);
    }
  }

  // ----- the queue of the breadth-first search -----

  datatype Pending = Pending(name: Label, distance: nat)

  /** Distances never decrease along the queue, and what is pending spans at most two of them. */
  ghost predicate Layered(queue: seq<Pending>, index: nat) {
    && (forall i, j :: 0 <= i < j < |queue| ==> queue[i].distance <= queue[j].distance)
    && (forall j :: index < |queue| && index <= j < |queue| ==> queue[j].distance <= queue[index].distance + 1)
  }

  /** Each queued label lies within its distance of the start, by a path of existing blocks. */
  ghost predicate Sourced(g: Graph, start: Label, queue: seq<Pending>) {
    forall i :: 0 <= i < |queue| ==> WithinSteps(g, start, queue[i].name, queue[i].distance)
  }

  /** Each settled label came off the queue with the distance it has. */
  ghost predicate Popped(g: Graph, out: map<Label, nat>, queue: seq<Pending>, index: nat) {
    forall l :: l in out ==> l in g && exists i :: 0 <= i < index <= |queue| && queue[i] == Pending(l, out[l])
  }

  /** A successor is settled no more than one step further, or waits in the queue. */
  ghost predicate Covered(out: map<Label, nat>, queue: seq<Pending>, index: nat, m: Label, d: nat) {
    (m in out && out[m] <= d) || exists j :: index <= j < |queue| && queue[j] == Pending(m, d)
  }

  ghost predicate Expanded(g: Graph, out: map<Label, nat>, queue: seq<Pending>, index: nat) {
    forall l, m :: l in out && Edge(g, l, m) && m in g ==> Covered(out, queue, index, m, out[l] + 1)
  }

  lemma PoppedBelow(g: Graph, out: map<Label, nat>, queue: seq<Pending>, index: nat, l: Label)
    requires Popped(g, out, queue, index) && Layered(queue, index) && index < |queue| && l in out
    ensures out[l] <= queue[index].distance
  {
  }

  lemma StepFurther(g: Graph, start: Label, l: Label, m: Label, d: nat)
    requires WithinSteps(g, start, l, d) && Edge(g, l, m)
    ensures WithinSteps(g, start, m, d + 1)
  {
    var p :| Links(g, p, start, l) && |p| <= d + 1;
    LinksSelf(g, m);
    LinksStep(g, [m], l, m, m);
    LinksJoin(g, p, [l] + [m], start, l, m);
  }

  /** Appending the successors of the label at distance d keeps the queue layered. */
  lemma LayeredAppend(queue: seq<Pending>, index: nat, more: seq<Pending>)
    requires Layered(queue, index) && index < |queue|
    requires forall k :: 0 <= k < |more| ==> more[k].distance == queue[index].distance + 1
    ensures Layered(queue + more, index + 1)
  {
    var q, d := queue + more, queue[index].distance;
    assert forall k :: |queue| <= k < |q| ==> q[k] == more[k - |queue|];
  }

  /** Taking a pending label off the queue: it is settled, or it had been already. */
  lemma CoveredAdvance(out: map<Label, nat>, after: map<Label, nat>, queue: seq<Pending>, more: seq<Pending>,
                       index: nat, m: Label, d: nat)
    requires index < |queue| && Covered(out, queue, index, m, d)
    requires forall l :: l in out ==> l in after && after[l] == out[l]
    requires queue[index].name == m ==> m in after && after[m] <= queue[index].distance
    ensures Covered(after, queue + more, index + 1, m, d)
  {
    if !(m in out && out[m] <= d) {
      var j :| index <= j < |queue| && queue[j] == Pending(m, d);
      if j > index { assert (queue + more)[j] == Pending(m, d); }
    }
  }

  /** With the queue used up, no path is shorter than the settled distance of its end. */
  lemma {:induction false} NoShorterPath(g: Graph, start: Label, out: map<Label, nat>, queue: seq<Pending>,
                                         p: seq<Label>, l: Label)
    requires Expanded(g, out, queue, |queue|) && Popped(g, out, queue, |queue|)
    requires start in out && out[start] == 0 && Links(g, p, start, l) && l in g
    ensures l in out && out[l] + 1 <= |p|
    decreases |p|
  {
    if |p| > 1 {
      var k := p[|p| - 2];
      LinksPrefix(g, p, start, l, |p| - 2);
      assert Edge(g, k, l);
      NoShorterPath(g, start, out, queue, p[..|p| - 1], k);
      assert Covered(out, queue, |queue|, l, out[k] + 1);
    }
  }

  /** What the search keeps about its queue and the distances settled so far. */
  ghost predicate Searching(g: Graph, start: Label, out: map<Label, nat>, queue: seq<Pending>, index: nat) {
    && index <= |queue| && |queue| >= 1 && queue[0] == Pending(start, 0)
    && out.Keys <= g.Keys && (index > 0 && start in g ==> start in out && out[start] == 0)
    && Layered(queue, index) && Sourced(g, start, queue)
    && Popped(g, out, queue, index) && Expanded(g, out, queue, index)
  }

  /** What a settled block puts on the queue. */
  function Onward(t: Term, distance: nat): (more: seq<Pending>)
    ensures |more| == |Succ(t)| && forall k :: 0 <= k < |more| ==> more[k] == Pending(Succ(t)[k], distance)
  {
    match t
    case Ret => []
    case Br(n) => [Pending(n, distance)]
    case CondBr(n, m) => [Pending(n, distance), Pending(m, distance)]
  }

  /** Breadth-first search is exact: it settles the reachable existing blocks and no others, each
      with its shortest edge distance. */
  method ReachableLabelDistances(g: Graph, start: Label) returns (out: map<Label, nat>)
    ensures Distances(g, start, out)
  {
    hide Searching, Distances;
    out := map[];
    var queue := [Pending(start, 0)];
    var index := 0;
    SearchStart(g, start);
    while index < |queue|
      invariant index <= |queue| && Searching(g, start, out, queue, index)
      decreases |g.Keys - out.Keys|, |queue| - index
    {
      var name, distance := queue[index].name, queue[index].distance;
      if name in out || name !in g {
        SearchAgain(g, start, out, queue, index);
        index := index + 1;
        continue;
      }
      var more := Onward(g[name], distance + 1);
      SearchFresh(g, start, out, queue, index, more);
      FewerLeft(g, out, name, distance);
      out := out[name := distance];
      queue := queue + more;
      index := index + 1;
    }
    SearchDone(g, start, out, queue);
  }

  lemma FewerLeft(g: Graph, out: map<Label, nat>, name: Label, distance: nat)
    requires name in g && name !in out
    ensures |g.Keys - out[name := distance].Keys| < |g.Keys - out.Keys|
  {
    assert g.Keys - out.Keys == (g.Keys - out[name := distance].Keys) + {name};
  }

  lemma SearchAgain(g: Graph, start: Label, out: map<Label, nat>, queue: seq<Pending>, index: nat)
    requires index < |queue| && Searching(g, start, out, queue, index)
    requires queue[index].name in out || queue[index].name !in g
    ensures Searching(g, start, out, queue, index + 1)
  {
    hide Layered, Sourced, Popped, Expanded;
    PopAgain(g, out, queue, index);
    if index == 0 && start in g { StartSettled(g, out, queue); }
  }

  lemma StartSettled(g: Graph, out: map<Label, nat>, queue: seq<Pending>)
    requires Popped(g, out, queue, 0)
    ensures out == map[]
  {
  }

  lemma SearchFresh(g: Graph, start: Label, out: map<Label, nat>, queue: seq<Pending>, index: nat, more: seq<Pending>)
    requires index < |queue| && Searching(g, start, out, queue, index)
    requires queue[index].name !in out && queue[index].name in g
    requires |more| == |Succ(g[queue[index].name])|
    requires forall k :: 0 <= k < |more| ==>
      more[k] == Pending(Succ(g[queue[index].name])[k], queue[index].distance + 1)
    ensures Searching(g, start, out[queue[index].name := queue[index].distance], queue + more, index + 1)
  {
    hide Layered, Sourced, Popped, Expanded;
    PopFresh(g, start, out, queue, index, more);
  }

  lemma SearchStart(g: Graph, start: Label)
    ensures Searching(g, start, map[], [Pending(start, 0)], 0)
  {
    LinksSelf(g, start);
  }

  lemma PopAgain(g: Graph, out: map<Label, nat>, queue: seq<Pending>, index: nat)
    requires index < |queue| && Layered(queue, index) && Popped(g, out, queue, index) && Expanded(g, out, queue, index)
    requires queue[index].name in out || queue[index].name !in g
    ensures Layered(queue, index + 1) && Popped(g, out, queue, index + 1) && Expanded(g, out, queue, index + 1)
  {
    hide Covered;
    LayeredAppend(queue, index, []);
    assert queue + [] == queue;
    forall l, m | l in out && Edge(g, l, m) && m in g
      ensures Covered(out, queue, index + 1, m, out[l] + 1)
    {
      if m in out { PoppedBelow(g, out, queue, index, m); }
      CoveredAdvance(out, out, queue, [], index, m, out[l] + 1);
    }
  }

  lemma PopFresh(g: Graph, start: Label, out: map<Label, nat>, queue: seq<Pending>, index: nat, more: seq<Pending>)
    requires index < |queue| && Layered(queue, index) && Popped(g, out, queue, index) && Expanded(g, out, queue, index)
    requires Sourced(g, start, queue)
    requires queue[index].name !in out && queue[index].name in g
    requires |more| == |Succ(g[queue[index].name])|
    requires forall k :: 0 <= k < |more| ==>
      more[k] == Pending(Succ(g[queue[index].name])[k], queue[index].distance + 1)
    ensures var after := out[queue[index].name := queue[index].distance];
            && Layered(queue + more, index + 1) && Sourced(g, start, queue + more)
            && Popped(g, after, queue + more, index + 1) && Expanded(g, after, queue + more, index + 1)
  {
    var name, d := queue[index].name, queue[index].distance;
    var after, q := out[name := d], queue + more;
    hide Layered, Popped, Expanded;
    LayeredAppend(queue, index, more);
    assert Sourced(g, start, q) by {
      forall i | 0 <= i < |q| ensures WithinSteps(g, start, q[i].name, q[i].distance) {
        if i >= |queue| {
          assert q[i] == more[i - |queue|];
          StepFurther(g, start, name, q[i].name, d);
        }
      }
    }
    PoppedMore(g, out, queue, index, more);
    ExpandedMore(g, out, queue, index, more);
  }

  lemma PoppedMore(g: Graph, out: map<Label, nat>, queue: seq<Pending>, index: nat, more: seq<Pending>)
    requires index < |queue| && Popped(g, out, queue, index)
    requires queue[index].name !in out && queue[index].name in g
    ensures Popped(g, out[queue[index].name := queue[index].distance], queue + more, index + 1)
  {
    var after, q := out[queue[index].name := queue[index].distance], queue + more;
    assert q[index] == queue[index];
    forall l | l in after
      ensures l in g && exists i :: 0 <= i < index + 1 <= |q| && q[i] == Pending(l, after[l])
    {
      if l in out {
        var i :| 0 <= i < index && queue[i] == Pending(l, out[l]);
        assert q[i] == Pending(l, after[l]);
      }
    }
  }

  lemma ExpandedMore(g: Graph, out: map<Label, nat>, queue: seq<Pending>, index: nat, more: seq<Pending>)
    requires index < |queue| && Expanded(g, out, queue, index)
    requires queue[index].name !in out && queue[index].name in g
    requires |more| == |Succ(g[queue[index].name])|
    requires forall k :: 0 <= k < |more| ==>
      more[k] == Pending(Succ(g[queue[index].name])[k], queue[index].distance + 1)
    ensures Expanded(g, out[queue[index].name := queue[index].distance], queue + more, index + 1)
  {
    var name, d := queue[index].name, queue[index].distance;
    var after, q := out[name := d], queue + more;
    forall l, m | l in after && Edge(g, l, m) && m in g
      ensures Covered(after, q, index + 1, m, after[l] + 1)
    {
      if l == name {
        var k :| 0 <= k < |Succ(g[name])| && Succ(g[name])[k] == m;
        assert q[|queue| + k] == more[k] == Pending(m, d + 1);
      } else {
        CoveredAdvance(out, after, queue, more, index, m, out[l] + 1);
      }
    }
  }

  lemma SearchDone(g: Graph, start: Label, out: map<Label, nat>, queue: seq<Pending>)
    requires Searching(g, start, out, queue, |queue|)
    ensures Distances(g, start, out)
  {
    forall l | l in out ensures l in g && Connected(g, start, l) && Shortest(g, start, l, out[l]) {
      SettledReached(g, start, out, queue, l);
      forall p | Links(g, p, start, l) ensures out[l] + 1 <= |p| {
        StartExists(g, p, start, l);
        NoShorterPath(g, start, out, queue, p, l);
      }
    }
    forall l | l in g && Connected(g, start, l) ensures l in out {
      var p :| Links(g, p, start, l);
      StartExists(g, p, start, l);
      NoShorterPath(g, start, out, queue, p, l);
    }
  }

  lemma StartExists(g: Graph, p: seq<Label>, start: Label, l: Label)
    requires Links(g, p, start, l) && l in g
    ensures start in g
  {
    if |p| > 1 { assert Edge(g, p[0], p[1]); }
  }

  lemma SettledReached(g: Graph, start: Label, out: map<Label, nat>, queue: seq<Pending>, l: Label)
    requires l in out && Popped(g, out, queue, |queue|) && Sourced(g, start, queue)
    ensures l in g && WithinSteps(g, start, l, out[l]) && Connected(g, start, l)
  {
    var i :| 0 <= i < |queue| && queue[i] == Pending(l, out[l]);
    var p :| Links(g, p, start, l) && |p| <= out[l] + 1;
  }
}
