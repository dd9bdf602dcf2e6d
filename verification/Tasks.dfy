/** Bounded task plans: Kahn's algorithm, and when it finds an order. */
module Tasks {
  import opened Prelude
  import opened Ordering

  const MAX_TASKS_PER_DAG := 12

  datatype TaskNode = TaskNode(id: string, name: string, dependsOn: seq<string>)

  /** Each task's id, with the ids it still waits for. */
  type Graph = map<string, set<string>>

  function Members(xs: seq<string>): set<string> { set x | x in xs }

  /** The dict comprehension over the tasks: a repeated id keeps its last task. */
  function GraphOf(tasks: seq<TaskNode>): Graph {
    if tasks == [] then map[]
    else
      var last := tasks[|tasks| - 1];
      GraphOf(tasks[..|tasks| - 1])[last.id := Members(last.dependsOn)]
  }

  function Ready(g: Graph): set<string> { set id | id in g && g[id] == {} }

  function Without(g: Graph, done: set<string>): Graph { map id | id in g && id !in done :: g[id] - done }

  /** The order, or the tasks left over when nothing is ready. */
  ghost function Kahn(g: Graph): Result<seq<string>, seq<string>>
    decreases |g|
  {
    if g.Keys == {} then Ok([])
    else if Ready(g) == {} then Err(Sorted(g.Keys))
    else
      WithoutShrinks(g, Ready(g));
      After(Sorted(Ready(g)), Kahn(Without(g, Ready(g))))
  }

  function After(done: seq<string>, rest: Result<seq<string>, seq<string>>): Result<seq<string>, seq<string>> {
    match rest
    case Ok(order) => Ok(done + order)
    case Err(stuck) => Err(stuck)
  }

  lemma AfterNothing(r: Result<seq<string>, seq<string>>)
    ensures After([], r) == r
  {
    if r.Ok? { assert [] + r.value == r.value; }
  }

  lemma AfterTwice(a: seq<string>, b: seq<string>, r: Result<seq<string>, seq<string>>)
    ensures After(a, After(b, r)) == After(a + b, r)
  {
    if r.Ok? { assert a + (b + r.value) == a + b + r.value; }
  }

  lemma WithoutShrinks(g: Graph, done: set<string>)
    requires done != {} && done <= g.Keys
    ensures |Without(g, done)| < |g|
  {
    assert Without(g, done).Keys == g.Keys - done;
  }

  /** Kahn's algorithm: take every task that waits for nothing, strike them off the others' lists, repeat. */
  method TopologicalOrder(tasks: seq<TaskNode>) returns (r: Result<seq<string>, seq<string>>)
    ensures r == Kahn(GraphOf(tasks))
  {
    var remaining: Graph := map[];
    for n := 0 to |tasks|
      invariant remaining == GraphOf(tasks[..n])
    {
      assert tasks[..n + 1][..n] == tasks[..n];
      remaining := remaining[tasks[n].id := Members(tasks[n].dependsOn)];
    }
    assert tasks[..|tasks|] == tasks;
    var ordered := [];
    AfterNothing(Kahn(remaining));
    while remaining.Keys != {}
      invariant Kahn(GraphOf(tasks)) == After(ordered, Kahn(remaining))
      decreases |remaining|
    {
      var ready := Ready(remaining);
      if ready == {} {
        var stuck := Sort(remaining.Keys);
        return Err(stuck);
      }
      WithoutShrinks(remaining, ready);
      var sorted := Sort(ready);
      AfterTwice(ordered, sorted, Kahn(Without(remaining, ready)));
      remaining := Without(remaining, ready);
      ordered := ordered + sorted;
    }
    assert ordered + [] == ordered;
    return Ok(ordered);
  }

  // ---- Soundness ---------------------------------------------------------------------------

  /** Every task once, each after everything it depends on. */
  ghost predicate IsOrder(g: Graph, order: seq<string>) {
    && multiset(order) == multiset(g.Keys)
    && forall i :: 0 <= i < |order| ==> order[i] in g && g[order[i]] <= Members(order[..i])
  }

  lemma EachInOnePart(g: Graph, ready: set<string>, rest: seq<string>)
    requires ready <= g.Keys && multiset(rest) == multiset(Without(g, ready).Keys)
    ensures multiset(Sorted(ready) + rest) == multiset(g.Keys)
  {
    var later := Without(g, ready);
    SortedHoldsEach(ready);
    assert later.Keys == g.Keys - ready;
    assert multiset(g.Keys) == multiset(ready) + multiset(later.Keys);
  }

  lemma OrderStep(g: Graph, rest: seq<string>)
    requires IsOrder(Without(g, Ready(g)), rest)
    ensures IsOrder(g, Sorted(Ready(g)) + rest)
  {
    var ready, later := Ready(g), Without(g, Ready(g));
    var first := Sorted(ready);
    var order := first + rest;
    EachInOnePart(g, ready, rest);
    forall i | 0 <= i < |order| ensures order[i] in g && g[order[i]] <= Members(order[..i]) {
      if i < |first| {
        SortedMembers(ready, first[i]);
      } else {
        var k := i - |first|;
        assert order[..i] == first + rest[..k];
        assert rest[k] in later && later[rest[k]] <= Members(rest[..k]);
        forall d | d in g[order[i]] ensures d in Members(order[..i]) {
          if d in ready { SortedMembers(ready, d); } else { assert d in later[rest[k]]; }
        }
      }
    }
  }

  lemma {:induction false} KahnSound(g: Graph)
    requires Kahn(g).Ok?
    ensures IsOrder(g, Kahn(g).value)
    decreases |g|
  {
    if g.Keys != {} {
      WithoutShrinks(g, Ready(g));
      KahnSound(Without(g, Ready(g)));
      OrderStep(g, Kahn(Without(g, Ready(g))).value);
    }
  }

  // ---- Cycles -------------------------------------------------------------------------------

  /** Each element depends on the next, in `g`. */
  ghost predicate IsPath(g: Graph, p: seq<string>) {
    p != [] && forall i :: 0 <= i < |p| - 1 ==> p[i] in g && p[i + 1] in g[p[i]]
  }

  ghost predicate IsCycle(g: Graph, p: seq<string>) { |p| >= 2 && IsPath(g, p) && p[0] == p[|p| - 1] }

  ghost predicate HasCycle(g: Graph) { exists p :: IsCycle(g, p) }

  ghost predicate HasUnknown(g: Graph) { exists id, d :: id in g && d in g[id] && d !in g }

  lemma PositionOf(g: Graph, order: seq<string>, x: string) returns (i: nat)
    requires IsOrder(g, order) && x in g
    ensures i < |order| && order[i] == x
  {
    assert x in multiset(g.Keys);
    assert x in order;
    i :| 0 <= i < |order| && order[i] == x;
  }

  lemma NoRepeats(g: Graph, order: seq<string>, i: nat, j: nat)
    requires IsOrder(g, order) && i < j < |order|
    ensures order[i] != order[j]
  {
    assert multiset(order)[order[i]] <= 1;
    if order[i] == order[j] { TwoPlaces(order, i, j); }
  }

  /** Along a path, positions in the order only go down. */
  lemma {:induction false} PathDescends(g: Graph, order: seq<string>, p: seq<string>, i: nat, j: nat)
    requires IsOrder(g, order) && IsPath(g, p) && |p| >= 2
    requires i < |order| && order[i] == p[0] && j < |order| && order[j] == p[|p| - 1]
    ensures j < i
    decreases |p|
  {
    assert p[1] in g[order[i]] && g[order[i]] <= Members(order[..i]);
    var k :| 0 <= k < i && order[k] == p[1];
    if |p| == 2 {
      if k < j { NoRepeats(g, order, k, j); }
    } else {
      PathDescends(g, order, p[1..], k, j);
    }
  }

  lemma OrderHasNoCycle(g: Graph, order: seq<string>)
    requires IsOrder(g, order)
    ensures !HasCycle(g) && !HasUnknown(g)
  {
    if p :| IsCycle(g, p) {
      assert p[0] in g;
      var i := PositionOf(g, order, p[0]);
      PathDescends(g, order, p, i, i);
    }
    forall id, d | id in g && d in g[id] ensures d in g {
      var i := PositionOf(g, order, id);
      assert d in Members(order[..i]);
      var k :| 0 <= k < i && order[k] == d;
    }
  }

  /** A longer sequence than the set it draws from repeats itself. */
  lemma {:induction false} Pigeonhole(p: seq<string>, s: set<string>) returns (i: nat, j: nat)
    requires |s| < |p| && forall k :: 0 <= k < |p| ==> p[k] in s
    ensures i < j < |p| && p[i] == p[j]
    decreases |p|
  {
    var last := p[|p| - 1];
    var front := p[..|p| - 1];
    if last in front {
      i :| 0 <= i < |front| && front[i] == last;
      j := |p| - 1;
    } else {
      assert forall k :: 0 <= k < |front| ==> front[k] == p[k] && front[k] in front;
      i, j := Pigeonhole(front, s - {last});
    }
  }

  /** A walk of any length among tasks that each wait for another. */
  lemma {:induction false} LongWalk(g: Graph, start: string, n: nat) returns (p: seq<string>)
    requires start in g && (forall id :: id in g ==> g[id] != {}) && !HasUnknown(g)
    ensures |p| == n + 1 && p[0] == start && IsPath(g, p) && forall k :: 0 <= k < |p| ==> p[k] in g
    decreases n
  {
    if n == 0 {
      p := [start];
    } else {
      var next :| next in g[start];
      assert next in g;
      var rest := LongWalk(g, next, n - 1);
      p := [start] + rest;
      forall i | 0 <= i < |p| - 1 ensures p[i] in g && p[i + 1] in g[p[i]] {
        assert i > 0 ==> p[i] == rest[i - 1];
      }
    }
  }

  lemma RepeatIsCycle(g: Graph, p: seq<string>, i: nat, j: nat)
    requires IsPath(g, p) && i < j < |p| && p[i] == p[j]
    ensures IsCycle(g, p[i..j + 1])
  {
    var cycle := p[i..j + 1];
    forall k | 0 <= k < |cycle| - 1 ensures cycle[k] in g && cycle[k + 1] in g[cycle[k]] {
      assert cycle[k] == p[i + k] && cycle[k + 1] == p[i + k + 1];
    }
  }

  /** Where everything waits for something there is, a walk comes back to where it was. */
  lemma WalkReturns(g: Graph) returns (p: seq<string>)
    requires g.Keys != {} && (forall id :: id in g ==> g[id] != {}) && !HasUnknown(g)
    ensures IsCycle(g, p)
  {
    var start :| start in g.Keys;
    var walk := LongWalk(g, start, |g.Keys|);
    var i, j := Pigeonhole(walk, g.Keys);
    RepeatIsCycle(g, walk, i, j);
    p := walk[i..j + 1];
  }

  lemma NoneReady(g: Graph)
    requires Ready(g) == {}
    ensures forall id :: id in g ==> g[id] != {}
  {
    forall id | id in g ensures g[id] != {} { assert id !in Ready(g); }
  }

  lemma StuckMeansCycle(g: Graph)
    requires g.Keys != {} && Ready(g) == {}
    ensures HasCycle(g) || HasUnknown(g)
  {
    NoneReady(g);
    if !HasUnknown(g) { var p := WalkReturns(g); }
  }

  /** What is wrong with the tasks left over was wrong with the plan. */
  lemma {:induction false} KahnComplete(g: Graph)
    requires Kahn(g).Err?
    ensures HasCycle(g) || HasUnknown(g)
    decreases |g|
  {
    if Ready(g) == {} {
      StuckMeansCycle(g);
    } else {
      var rest := Without(g, Ready(g));
      WithoutShrinks(g, Ready(g));
      KahnComplete(rest);
      if p :| IsCycle(rest, p) {
        assert forall k :: 0 <= k < |p| - 1 ==> p[k] in rest && p[k + 1] in rest[p[k]];
        assert IsCycle(g, p);
      } else {
        var id, d :| id in rest && d in rest[id] && d !in rest;
        assert id in g && d in g[id] && d !in g;
      }
    }
  }

  /** The algorithm raises exactly when the plan has a dependency cycle or names an unknown
      task; otherwise it returns every task once, after everything it depends on. */
  lemma KahnDecidesAcyclicity(g: Graph)
    ensures Kahn(g).Err? <==> HasCycle(g) || HasUnknown(g)
    ensures Kahn(g).Ok? ==> IsOrder(g, Kahn(g).value)
  {
    if Kahn(g).Ok? {
      KahnSound(g);
      OrderHasNoCycle(g, Kahn(g).value);
    } else {
      KahnComplete(g);
    }
  }

  // ---- Canonicity ------------------------------------------------------------------------------

  ghost predicate UniqueIds(tasks: seq<TaskNode>) {
    forall i, j :: 0 <= i < j < |tasks| ==> tasks[i].id != tasks[j].id
  }

  lemma {:induction false} GraphHoldsEach(tasks: seq<TaskNode>)
    requires UniqueIds(tasks)
    ensures forall i :: 0 <= i < |tasks| ==>
              tasks[i].id in GraphOf(tasks) && GraphOf(tasks)[tasks[i].id] == Members(tasks[i].dependsOn)
    ensures forall id :: id in GraphOf(tasks) ==> exists i :: 0 <= i < |tasks| && tasks[i].id == id
  {
    if tasks != [] {
      var front, last := tasks[..|tasks| - 1], tasks[|tasks| - 1];
      GraphHoldsEach(front);
      assert GraphOf(tasks) == GraphOf(front)[last.id := Members(last.dependsOn)];
      forall i | 0 <= i < |tasks|
        ensures tasks[i].id in GraphOf(tasks) && GraphOf(tasks)[tasks[i].id] == Members(tasks[i].dependsOn)
      {
        if i < |front| { assert tasks[i] == front[i]; }
      }
      forall id | id in GraphOf(tasks) ensures exists i :: 0 <= i < |tasks| && tasks[i].id == id {
        if id != last.id {
          assert id in GraphOf(front);
          var i :| 0 <= i < |front| && front[i].id == id;
          assert tasks[i] == front[i];
        }
      }
    }
  }

  lemma GraphIsIncluded(a: seq<TaskNode>, b: seq<TaskNode>)
    requires UniqueIds(a) && UniqueIds(b) && multiset(a) == multiset(b)
    ensures forall id :: id in GraphOf(a) ==> id in GraphOf(b) && GraphOf(b)[id] == GraphOf(a)[id]
  {
    GraphHoldsEach(a);
    GraphHoldsEach(b);
    forall id | id in GraphOf(a) ensures id in GraphOf(b) && GraphOf(b)[id] == GraphOf(a)[id] {
      var i :| 0 <= i < |a| && a[i].id == id;
      assert a[i] in multiset(a);
      assert a[i] in b;
      var j :| 0 <= j < |b| && b[j] == a[i];
    }
  }

  /** Listing the same tasks in another order gives the same answer. */
  lemma OrderOfTasksDoesNotMatter(a: seq<TaskNode>, b: seq<TaskNode>)
    requires UniqueIds(a) && multiset(a) == multiset(b)
    ensures Kahn(GraphOf(a)) == Kahn(GraphOf(b))
  {
    UniqueIdsPermute(a, b);
    GraphIsIncluded(a, b);
    GraphIsIncluded(b, a);
    assert GraphOf(a) == GraphOf(b);
  }

  lemma {:induction false} CountAtMostOne(tasks: seq<TaskNode>, t: TaskNode)
    requires UniqueIds(tasks)
    ensures multiset(tasks)[t] <= 1
  {
    if tasks != [] {
      var front, last := tasks[..|tasks| - 1], tasks[|tasks| - 1];
      assert tasks == front + [last];
      CountAtMostOne(front, t);
      if t == last { assert forall i :: 0 <= i < |front| ==> front[i] == tasks[i] && front[i] != t; }
    }
  }

  lemma UniqueIdsPermute(a: seq<TaskNode>, b: seq<TaskNode>)
    requires UniqueIds(a) && multiset(a) == multiset(b)
    ensures UniqueIds(b)
  {
    forall i, j | 0 <= i < j < |b| ensures b[i].id != b[j].id {
      assert b[i] in multiset(b) && b[j] in multiset(b);
      var k :| 0 <= k < |a| && a[k] == b[i];
      var l :| 0 <= l < |a| && a[l] == b[j];
      if k == l {
        assert b == b[..i] + [b[i]] + b[i + 1..j] + [b[j]] + b[j + 1..];
        assert multiset(b)[b[i]] >= 2;
        CountAtMostOne(a, b[i]);
      }
    }
  }

  // ---- The validator -----------------------------------------------------------------------------

  datatype DagError =
    | EmptyPlan | TooManyTasks | RepeatedId | UnknownDependency(task: string) | Cyclic(stuck: seq<string>)

  lemma IdsAreKeys(tasks: seq<TaskNode>)
    requires UniqueIds(tasks)
    ensures GraphOf(tasks).Keys == set i | 0 <= i < |tasks| :: tasks[i].id
  {
    GraphHoldsEach(tasks);
  }

  lemma UnknownIsUnknown(tasks: seq<TaskNode>, n: nat)
    requires UniqueIds(tasks) && n < |tasks| && !(Members(tasks[n].dependsOn) <= GraphOf(tasks).Keys)
    ensures HasUnknown(GraphOf(tasks))
  {
    GraphHoldsEach(tasks);
    var d :| d in Members(tasks[n].dependsOn) && d !in GraphOf(tasks);
    assert tasks[n].id in GraphOf(tasks) && d in GraphOf(tasks)[tasks[n].id];
  }

  lemma AllAreKnown(tasks: seq<TaskNode>)
    requires UniqueIds(tasks)
    requires forall i :: 0 <= i < |tasks| ==> Members(tasks[i].dependsOn) <= GraphOf(tasks).Keys
    ensures !HasUnknown(GraphOf(tasks))
  {
    GraphHoldsEach(tasks);
  }

  /** What `TaskDAG` checks about its tasks before it exists. */
  method BoundedAndAcyclic(tasks: seq<TaskNode>) returns (r: Option<DagError>)
    ensures r.None? <==>
              1 <= |tasks| <= 12 && UniqueIds(tasks) && !HasUnknown(GraphOf(tasks))
                  && !HasCycle(GraphOf(tasks))
    ensures r.Some? && r.value.Cyclic? ==>
              1 <= |tasks| <= 12 && UniqueIds(tasks) && !HasUnknown(GraphOf(tasks))
                  && HasCycle(GraphOf(tasks))
  {
    if tasks == [] { return Some(EmptyPlan); }
    if |tasks| > MAX_TASKS_PER_DAG { return Some(TooManyTasks); }
    var known: set<string> := {};
    for n := 0 to |tasks|
      invariant known == set i | 0 <= i < n :: tasks[i].id
      invariant UniqueIds(tasks[..n])
    {
      if tasks[n].id in known { return Some(RepeatedId); }
      known := known + {tasks[n].id};
    }
    assert tasks[..|tasks|] == tasks;
    IdsAreKeys(tasks);
    for n := 0 to |tasks|
      invariant forall i :: 0 <= i < n ==> Members(tasks[i].dependsOn) <= known
    {
      if !(Members(tasks[n].dependsOn) <= known) {
        UnknownIsUnknown(tasks, n);
        return Some(UnknownDependency(tasks[n].id));
      }
    }
    AllAreKnown(tasks);
    var order := TopologicalOrder(tasks);
    KahnDecidesAcyclicity(GraphOf(tasks));
    return if order.Err? then Some(Cyclic(order.error)) else None;
  }
}
