/** The level-grouped topological sort and its cycle report (internal/core/scheduler.go). */
module Scheduler {
  import opened Names
  import opened Graphs
  import opened Model

  datatype ExecutionGroup = ExecutionGroup(jobs: seq<Job>)

  datatype ScheduleError =
    | UnknownDependency(job: Name, dep: Name)
    | DependencyCycle(path: seq<Name>)
    | CycleNotFound  // the message without a path that ends findCycle

  function NamesOf(jobs: seq<Job>): (r: seq<Name>)
    ensures |r| == |jobs| && forall i :: 0 <= i < |jobs| ==> r[i] == jobs[i].name
  {
    seq(|jobs|, i requires 0 <= i < |jobs| => jobs[i].name)
  }

  /** Job names are unique, as the keys of the configuration's job map are. */
  ghost predicate UniqueNames(jobs: seq<Job>) {
    forall i, j :: 0 <= i < j < |jobs| ==> jobs[i].name != jobs[j].name
  }

  /** The depends_on graph: a map filled job by job, so a later job of the same name wins. */
  function GraphOf(jobs: seq<Job>): Graph {
    if jobs == [] then map[]
    else
      var last := jobs[|jobs| - 1];
      GraphOf(jobs[..|jobs| - 1])[last.name := last.dependsOn]
  }

  lemma {:induction false} GraphKeys(jobs: seq<Job>)
    ensures forall n :: n in GraphOf(jobs) <==> n in NamesOf(jobs)
  {
    if jobs == [] {
    } else {
      var k := |jobs| - 1;
      GraphKeys(jobs[..k]);
      assert NamesOf(jobs) == NamesOf(jobs[..k]) + [jobs[k].name];
    }
  }

  lemma {:induction false} GraphAt(jobs: seq<Job>, i: nat)
    requires UniqueNames(jobs) && i < |jobs|
    ensures jobs[i].name in GraphOf(jobs) && GraphOf(jobs)[jobs[i].name] == jobs[i].dependsOn
  {
    var k := |jobs| - 1;
    if i == k {
    } else {
      GraphAt(jobs[..k], i);
    }
  }

  /** Everything a caller needs of the graph of uniquely named jobs. */
  lemma GraphOfUnique(jobs: seq<Job>)
    requires UniqueNames(jobs)
    ensures forall i :: 0 <= i < |jobs| ==>
      jobs[i].name in GraphOf(jobs) && GraphOf(jobs)[jobs[i].name] == jobs[i].dependsOn
    ensures forall n :: n in GraphOf(jobs) ==> exists i :: 0 <= i < |jobs| && jobs[i].name == n
    ensures |GraphOf(jobs)| == |jobs|
  {
    forall i | 0 <= i < |jobs|
      ensures jobs[i].name in GraphOf(jobs) && GraphOf(jobs)[jobs[i].name] == jobs[i].dependsOn
    {
      GraphAt(jobs, i);
    }
    GraphKeys(jobs);
    DistinctSize(NamesOf(jobs));
    assert Elements(NamesOf(jobs)) == GraphOf(jobs).Keys;
  }

  // ------------------------------------------------------------- findCycle

  /** What a reported path must be: closed, along depends_on edges, with no other repetition. */
  ghost predicate ReportsCycle(g: Graph, path: seq<Name>) {
    IsCycle(g, path) && Distinct(path[..|path| - 1])
  }

  lemma ReportIsCycle(g: Graph, path: seq<Name>)
    requires ReportsCycle(g, path)
    ensures Cyclic(g)
  {
  }

  /** The outcome of a search: the node that closes a cycle with the parents at that moment, or the
      maps after a search in vain. */
  datatype Search = Hit(start: Name, parent: map<Name, Name>) | Miss(color: map<Name, Mark>, parent: map<Name, Name>)

  lemma GraySize(g: Graph, color: map<Name, Mark>, node: Name)
    requires node in Nodes(g) && MarkOf(color, node) == Unvisited
    ensures |UnvisitedNodes(g, color[node := InStack])| < |UnvisitedNodes(g, color)|
    ensures UnvisitedNodes(g, color[node := InStack]) <= UnvisitedNodes(g, color)
  {
    assert UnvisitedNodes(g, color[node := InStack]) == UnvisitedNodes(g, color) - {node};
    assert node in UnvisitedNodes(g, color);
  }

  /** The search as a function of the graph and the maps: dependencies in name order. */
  ghost function SearchNode(g: Graph, color: map<Name, Mark>, parent: map<Name, Name>, node: Name): (r: Search)
    requires node in Nodes(g) && MarkOf(color, node) == Unvisited
    ensures r.Miss? ==> UnvisitedNodes(g, r.color) <= UnvisitedNodes(g, color)
    decreases |UnvisitedNodes(g, color)|, 0
  {
    GraySize(g, color, node);
    assert forall d :: d in SortStrings(Deps(g, node)) ==> d in Nodes(g);
    var r := SearchDeps(g, color[node := InStack], parent, node, SortStrings(Deps(g, node)));
    if r.Hit? then r else Miss(r.color[node := Visited], r.parent)
  }

  ghost function SearchDeps(g: Graph, color: map<Name, Mark>, parent: map<Name, Name>,
                            node: Name, deps: seq<Name>): (r: Search)
    requires forall d :: d in deps ==> d in Nodes(g)
    ensures r.Miss? ==> UnvisitedNodes(g, r.color) <= UnvisitedNodes(g, color)
    decreases |UnvisitedNodes(g, color)|, |deps| + 1
  {
    if deps == [] then Miss(color, parent)
    else
      var dep := deps[0];
      match MarkOf(color, dep)
      case InStack => Hit(dep, parent[dep := node])
      case Visited => SearchDeps(g, color, parent, node, deps[1..])
      case Unvisited =>
        var r := SearchNode(g, color, parent[dep := node], dep);
        if r.Hit? then r
        else
          SubsetSize(UnvisitedNodes(g, r.color), UnvisitedNodes(g, color));
          SearchDeps(g, r.color, r.parent, node, deps[1..])
  }

  ghost function SearchAll(g: Graph, color: map<Name, Mark>, parent: map<Name, Name>, names: seq<Name>): Search
    requires forall n :: n in names ==> n in Nodes(g)
    decreases |names|
  {
    if names == [] then Miss(color, parent)
    else if MarkOf(color, names[0]) != Unvisited then SearchAll(g, color, parent, names[1..])
    else
      var r := SearchNode(g, color, parent, names[0]);
      if r.Hit? then r else SearchAll(g, r.color, r.parent, names[1..])
  }

  /** The maps that the recursive closure in findCycle shares with its caller. */
  class CycleFinder {
    const depMap: Graph
    var color: map<Name, Mark>
    var parent: map<Name, Name>
    ghost var stack: seq<Name>  // the gray nodes, in the order they were entered
    ghost var order: seq<Name>  // the black nodes, in the order they were left

    constructor (depMap: Graph)
      ensures this.depMap == depMap && Valid() && stack == [] && order == [] && color == map[] && parent == map[]
    {
      this.depMap := depMap;
      color, parent, stack, order := map[], map[], [], [];
    }

    ghost predicate Valid()
      reads this
    {
      IsSearch(depMap, color, parent, stack, order)
    }

    method Dfs(node: Name) returns (found: bool, start: Name, ghost cyc: seq<Name>)
      requires Valid() && CanPush(depMap, color, parent, stack, node)
      modifies this
      ensures !found ==> Valid() && stack == old(stack) && old(order) <= order && node in order
      ensures !found ==> UnvisitedNodes(depMap, color) <= UnvisitedNodes(depMap, old(color))
      ensures found ==> ClosesAt(depMap, parent, start, cyc)
      ensures node in Nodes(depMap) && MarkOf(old(color), node) == Unvisited
      ensures SearchNode(depMap, old(color), old(parent), node)
           == if found then Hit(start, parent) else Miss(color, parent)
      decreases |UnvisitedNodes(depMap, color)|
    {
      hide IsSearch, CanPush, UnvisitedNodes, ClosesAt, SortStrings, SearchNode, SearchDeps, Nodes;
      CanEnter(depMap, color, parent, stack, node);
      NodeStep(depMap, color, parent, node);
      Push(depMap, color, parent, stack, order, node);
      color := color[node := InStack];
      stack := stack + [node];
      ghost var unseen := UnvisitedNodes(depMap, color);

      var sorted := SortStrings(Deps(depMap, node));
      DepsAreNodes(depMap, node);
      assert sorted[0..] == sorted;
      for i := 0 to |sorted|
        invariant Valid() && stack == old(stack) + [node] && old(order) <= order
        invariant forall k :: 0 <= k < i ==> sorted[k] in order
        invariant UnvisitedNodes(depMap, color) <= unseen
        invariant forall d :: d in sorted ==> d in Nodes(depMap)
        invariant SearchDeps(depMap, old(color)[node := InStack], old(parent), node, sorted)
               == SearchDeps(depMap, color, parent, node, sorted[i..])
      {
        var dep := sorted[i];
        assert Edge(depMap, node, dep);
        DepsStep(depMap, color, parent, node, sorted, i);
        if MarkOf(color, dep) == InStack {
          ghost var closed := CloseCycle(depMap, color, parent, stack, order, node, dep);
          parent := parent[dep := node];
          return true, dep, closed;
        }
        if MarkOf(color, dep) == Unvisited {
          Adopt(depMap, color, parent, stack, order, node, dep);
          parent := parent[dep := node];
          SubsetSize(UnvisitedNodes(depMap, color), unseen);
          var childFound, childStart;
          ghost var childCyc;
          childFound, childStart, childCyc := Dfs(dep);
          if childFound { return true, childStart, childCyc; }
        }
        VisitedIsFinished(depMap, color, parent, stack, order);
      }
      DepsDone(depMap, color, parent, node);
      Pop(depMap, color, parent, old(stack), order, node);
      color := color[node := Visited];
      stack, order := old(stack), order + [node];
      return false, "", [];
    }

    /** Follows the parent pointers from `start` until they come back to it, then reverses. */
    method Reconstruct(start: Name, ghost cyc: seq<Name>) returns (path: seq<Name>)
      requires ClosesAt(depMap, parent, start, cyc)
      ensures path == cyc + [start] && ReportsCycle(depMap, path)
    {
      path := [start];
      var cur := parent[start];
      ghost var k := |cyc| - 1;
      while cur != start
        invariant 0 <= k < |cyc| && cur == cyc[k]
        invariant path == [start] + Reversed(cyc[k + 1..])
        decreases k
      {
        assert Link(depMap, parent, cyc[k - 1], cyc[k - 1 + 1]);
        assert Reversed(cyc[k..]) == Reversed(cyc[k + 1..]) + [cyc[k]];
        path := path + [cur];
        cur := parent[cur];
        k := k - 1;
      }
      assert k == 0;
      path := path + [start];
      path := ReverseSlice(path);
      assert path == cyc + [start];
      ClosedPath(depMap, parent, start, cyc);
    }
  }

  lemma CanEnter(g: Graph, color: map<Name, Mark>, parent: map<Name, Name>, stack: seq<Name>, node: Name)
    requires CanPush(g, color, parent, stack, node)
    ensures node in Nodes(g) && MarkOf(color, node) == Unvisited
  {
  }

  lemma NodeStep(g: Graph, color: map<Name, Mark>, parent: map<Name, Name>, node: Name)
    requires node in Nodes(g) && MarkOf(color, node) == Unvisited
    ensures forall d :: d in SortStrings(Deps(g, node)) ==> d in Nodes(g)
    ensures var r := SearchDeps(g, color[node := InStack], parent, node, SortStrings(Deps(g, node)));
      SearchNode(g, color, parent, node) == if r.Hit? then r else Miss(r.color[node := Visited], r.parent)
  {
    hide SearchDeps, SortStrings, UnvisitedNodes;
    DepsAreNodes(g, node);
  }

  lemma DepsAreNodes(g: Graph, node: Name)
    ensures forall d :: d in SortStrings(Deps(g, node)) ==> d in Nodes(g)
  {
  }

  /** One turn of the loop over the sorted dependencies. */
  lemma DepsStep(g: Graph, color: map<Name, Mark>, parent: map<Name, Name>, node: Name, deps: seq<Name>, i: nat)
    requires (forall d :: d in deps ==> d in Nodes(g)) && i < |deps|
    ensures SearchDeps(g, color, parent, node, deps[i..]) ==
      match MarkOf(color, deps[i])
      case InStack => Hit(deps[i], parent[deps[i] := node])
      case Visited => SearchDeps(g, color, parent, node, deps[i + 1..])
      case Unvisited =>
        var r := SearchNode(g, color, parent[deps[i] := node], deps[i]);
        if r.Hit? then r else SearchDeps(g, r.color, r.parent, node, deps[i + 1..])
  {
    hide SearchNode, UnvisitedNodes, Nodes;
    assert deps[i..][0] == deps[i] && deps[i..][1..] == deps[i + 1..];
  }

  lemma DepsDone(g: Graph, color: map<Name, Mark>, parent: map<Name, Name>, node: Name)
    ensures SearchDeps(g, color, parent, node, []) == Miss(color, parent)
  {
  }

  lemma ClosedPath(g: Graph, parent: map<Name, Name>, start: Name, cyc: seq<Name>)
    requires ClosesAt(g, parent, start, cyc)
    ensures ReportsCycle(g, cyc + [start])
  {
    var p := cyc + [start];
    assert p[..|p| - 1] == cyc;
    forall i | 0 <= i < |p| - 1 ensures Edge(g, p[i], p[i + 1]) {
      if i < |cyc| - 1 { assert Link(g, parent, cyc[i], cyc[i + 1]); }
    }
  }

  method FindCycle(jobs: seq<Job>) returns (e: ScheduleError)
    ensures e.DependencyCycle? ==> ReportsCycle(GraphOf(jobs), e.path)
    ensures e.CycleNotFound? <==> !Cyclic(GraphOf(jobs))
    ensures !e.UnknownDependency?
    ensures ReportedBy(GraphOf(jobs), NamesOf(jobs), e)
  {
    hide GraphOf, SortStrings, ClosesAt, ReportsCycle, UnvisitedNodes, Cyclic, IsFinishOrder,
         IsStack, SearchNode, SearchAll, Nodes;
    var finder := new CycleFinder(GraphOf(jobs));
    GraphKeys(jobs);
    var names := SortStrings(NamesOf(jobs));
    KeysAreNodes(GraphOf(jobs));
    assert names[0..] == names;
    for i := 0 to |names|
      invariant finder.Valid() && finder.stack == [] && finder.depMap == GraphOf(jobs)
      invariant forall k :: 0 <= k < i ==> names[k] in finder.order
      invariant fresh(finder)
      invariant forall n :: n in names ==> n in Nodes(GraphOf(jobs))
      invariant SearchAll(GraphOf(jobs), map[], map[], names)
           == SearchAll(GraphOf(jobs), finder.color, finder.parent, names[i..])
    {
      AllStep(GraphOf(jobs), finder.color, finder.parent, names, i);
      if MarkOf(finder.color, names[i]) == Unvisited {
        assert names[i] in Nodes(finder.depMap);
        var found, start;
        ghost var cyc;
        found, start, cyc := finder.Dfs(names[i]);
        if found {
          var path := finder.Reconstruct(start, cyc);
          ReportIsCycle(GraphOf(jobs), path);
          ReportOf(GraphOf(jobs), NamesOf(jobs), finder.parent, start, cyc);
          return DependencyCycle(path);
        }
      }
    }
    assert IsFinishOrder(GraphOf(jobs), finder.order);
    FinishOrderIsAcyclic(GraphOf(jobs), finder.order);
    AllDone(GraphOf(jobs), finder.color, finder.parent);
    return CycleNotFound;
  }

  /** `e` is what the search in name order leads to. */
  ghost predicate ReportedBy(g: Graph, names: seq<Name>, e: ScheduleError) {
    && (forall n :: n in SortStrings(names) ==> n in Nodes(g))
    && match SearchAll(g, map[], map[], SortStrings(names))
       case Miss(_, _) => e == CycleNotFound
       case Hit(start, parent) =>
         e.DependencyCycle? && exists cyc :: ClosesAt(g, parent, start, cyc) && e.path == cyc + [start]
  }

  lemma ReportOf(g: Graph, names: seq<Name>, parent: map<Name, Name>, start: Name, cyc: seq<Name>)
    requires forall n :: n in SortStrings(names) ==> n in Nodes(g)
    requires SearchAll(g, map[], map[], SortStrings(names)) == Hit(start, parent) && ClosesAt(g, parent, start, cyc)
    ensures ReportedBy(g, names, DependencyCycle(cyc + [start]))
  {
    hide SearchAll, Nodes, ClosesAt, SortStrings;
  }

  lemma KeysAreNodes(g: Graph)
    ensures forall n :: n in g ==> n in Nodes(g)
  {
  }

  lemma AllStep(g: Graph, color: map<Name, Mark>, parent: map<Name, Name>, names: seq<Name>, i: nat)
    requires (forall n :: n in names ==> n in Nodes(g)) && i < |names|
    ensures SearchAll(g, color, parent, names[i..]) ==
      if MarkOf(color, names[i]) != Unvisited then SearchAll(g, color, parent, names[i + 1..])
      else
        var r := SearchNode(g, color, parent, names[i]);
        if r.Hit? then r else SearchAll(g, r.color, r.parent, names[i + 1..])
  {
    hide SearchNode, Nodes;
    assert names[i..][0] == names[i] && names[i..][1..] == names[i + 1..];
  }

  lemma AllDone(g: Graph, color: map<Name, Mark>, parent: map<Name, Name>)
    ensures SearchAll(g, color, parent, []) == Miss(color, parent)
  {
  }

  /** Walking back along the parents from the same node gives the same cycle. */
  lemma {:induction false} SameTail(g: Graph, parent: map<Name, Name>, start: Name, a: seq<Name>, b: seq<Name>, k: nat)
    requires ClosesAt(g, parent, start, a) && ClosesAt(g, parent, start, b) && k < |a| && k < |b|
    ensures a[|a| - 1 - k] == b[|b| - 1 - k]
  {
    if k == 0 {
    } else {
      SameTail(g, parent, start, a, b, k - 1);
      assert Link(g, parent, a[|a| - 1 - k], a[|a| - 1 - k + 1]);
      assert Link(g, parent, b[|b| - 1 - k], b[|b| - 1 - k + 1]);
    }
  }

  lemma CycleIsUnique(g: Graph, parent: map<Name, Name>, start: Name, a: seq<Name>, b: seq<Name>)
    requires ClosesAt(g, parent, start, a) && ClosesAt(g, parent, start, b)
    ensures a == b
  {
    if |a| < |b| { SameTail(g, parent, start, a, b, |a| - 1); }
    if |b| < |a| { SameTail(g, parent, start, a, b, |b| - 1); }
    forall i | 0 <= i < |a| ensures a[i] == b[i] { SameTail(g, parent, start, a, b, |a| - 1 - i); }
  }

  // -------------------------------------------------------------- Schedule

  /** How many entries of a depends_on list, repetitions included, lie in `s`. */
  ghost function CountIn(deps: seq<Name>, s: set<Name>): nat {
    if deps == [] then 0
    else CountIn(deps[..|deps| - 1], s) + if deps[|deps| - 1] in s then 1 else 0
  }

  lemma {:induction false} CountPositive(deps: seq<Name>, s: set<Name>)
    ensures CountIn(deps, s) > 0 <==> exists d :: d in deps && d in s
  {
    if deps == [] {
    } else {
      var k := |deps| - 1;
      CountPositive(deps[..k], s);
      assert deps == deps[..k] + [deps[k]];
    }
  }

  lemma {:induction false} CountSplit(deps: seq<Name>, s: set<Name>, t: set<Name>)
    requires s !! t
    ensures CountIn(deps, s + t) == CountIn(deps, s) + CountIn(deps, t)
  {
    if deps == [] {
    } else {
      CountSplit(deps[..|deps| - 1], s, t);
    }
  }

  lemma {:induction false} CountAll(deps: seq<Name>, s: set<Name>)
    requires forall d :: d in deps ==> d in s
    ensures CountIn(deps, s) == |deps|
  {
    if deps == [] {
    } else {
      CountAll(deps[..|deps| - 1], s);
    }
  }

  /** The groups, by name: a sorted partition of the jobs in which every job's group index
      is the length of its longest dependency chain. */
  ghost predicate IsLevels(g: Graph, groups: seq<seq<Name>>) {
    && (forall i :: 0 <= i < |groups| ==> groups[i] != [] && Sorted(groups[i]) && Distinct(groups[i]))
    && (forall i, n :: 0 <= i < |groups| && n in groups[i] ==> n in g && LongestChain(g, n, i))
    && (forall n :: n in g ==> exists i :: 0 <= i < |groups| && n in groups[i])
  }

  function GroupNames(groups: seq<ExecutionGroup>): (r: seq<seq<Name>>)
    ensures |r| == |groups| && forall i :: 0 <= i < |groups| ==> r[i] == NamesOf(groups[i].jobs)
  {
    seq(|groups|, i requires 0 <= i < |groups| => NamesOf(groups[i].jobs))
  }

  /** Every group is sorted and holds jobs whose longest chain has as many edges as there are groups before. */
  ghost predicate Levelled(g: Graph, groups: seq<seq<Name>>) {
    && (forall i :: 0 <= i < |groups| ==> groups[i] != [] && Sorted(groups[i]) && Distinct(groups[i]))
    && (forall i, n :: 0 <= i < |groups| && n in groups[i] ==> n in g && LongestChain(g, n, i))
  }

  ghost predicate Grouped(groups: seq<seq<Name>>, n: Name) {
    exists i :: 0 <= i < |groups| && n in groups[i]
  }

  /** A job that is left has a chain as long as the number of rounds, and its count is the number of its
      unscheduled dependency entries. */
  ghost predicate Counted(g: Graph, rounds: nat, inDegree: map<Name, int>, n: Name)
    requires n in g && n in inDegree
  {
    HasChain(g, n, rounds) && inDegree[n] == CountIn(g[n], inDegree.Keys)
  }

  /** Between rounds: what is out of the map is levelled, what is left is counted. */
  ghost predicate KahnState(g: Graph, groups: seq<seq<Name>>, inDegree: map<Name, int>) {
    && inDegree.Keys <= g.Keys
    && Levelled(g, groups)
    && (forall n :: n in g && n !in inDegree ==> Grouped(groups, n))
    && (forall n :: n in inDegree ==> Counted(g, |groups|, inDegree, n))
  }

  /** The names with in-degree zero, sorted. */
  ghost predicate IsReady(inDegree: map<Name, int>, ready: seq<Name>) {
    Sorted(ready) && Distinct(ready) && forall n :: n in ready <==> n in inDegree && inDegree[n] == 0
  }

  // ------------------------------------------- entries of jobs that share a name

  /** The dependency entries of all jobs of this name. */
  function AllDeps(jobs: seq<Job>, n: Name): seq<Name> {
    if jobs == [] then []
    else AllDeps(jobs[..|jobs| - 1], n) + if jobs[|jobs| - 1].name == n then jobs[|jobs| - 1].dependsOn else []
  }

  /** Every listed dependency is some job's name. */
  ghost predicate AllKnown(jobs: seq<Job>) {
    forall i, d :: 0 <= i < |jobs| && d in jobs[i].dependsOn ==> d in GraphOf(jobs)
  }

  lemma {:induction false} NoDeps(jobs: seq<Job>, n: Name)
    requires forall i :: 0 <= i < |jobs| ==> jobs[i].name != n
    ensures AllDeps(jobs, n) == []
  {
    if jobs == [] {
    } else {
      NoDeps(jobs[..|jobs| - 1], n);
    }
  }

  /** Under unique names the entries of a name are its job's. */
  lemma {:induction false} DepsOfUnique(jobs: seq<Job>, i: nat)
    requires UniqueNames(jobs) && i < |jobs|
    ensures AllDeps(jobs, jobs[i].name) == jobs[i].dependsOn
  {
    var k := |jobs| - 1;
    if i == k {
      NoDeps(jobs[..k], jobs[k].name);
    } else {
      DepsOfUnique(jobs[..k], i);
    }
  }

  lemma UniqueDeps(jobs: seq<Job>)
    requires UniqueNames(jobs)
    ensures forall n :: n in GraphOf(jobs) ==> AllDeps(jobs, n) == GraphOf(jobs)[n]
    ensures AllKnown(jobs) <==> Known(GraphOf(jobs))
  {
    hide GraphOf, UniqueNames, AllDeps;
    GraphOfUnique(jobs);
    forall n | n in GraphOf(jobs) ensures AllDeps(jobs, n) == GraphOf(jobs)[n] {
      var i :| 0 <= i < |jobs| && jobs[i].name == n;
      DepsOfUnique(jobs, i);
    }
  }

  /** How often entries of `deps` name a ready job, counting a job once for each time it is listed. */
  ghost function Hits(deps: seq<Name>, ready: seq<Name>): nat {
    if deps == [] then 0 else Hits(deps[..|deps| - 1], ready) + multiset(ready)[deps[|deps| - 1]]
  }

  lemma {:induction false} HitsAppend(a: seq<Name>, b: seq<Name>, ready: seq<Name>)
    ensures Hits(a + b, ready) == Hits(a, ready) + Hits(b, ready)
  {
    if b == [] {
      assert a + b == a;
    } else {
      assert (a + b)[..|a + b| - 1] == a + b[..|b| - 1];
      HitsAppend(a, b[..|b| - 1], ready);
    }
  }

  lemma {:induction false} HitsOnce(deps: seq<Name>, ready: seq<Name>)
    requires Distinct(ready)
    ensures Hits(deps, ready) == CountIn(deps, Elements(ready))
  {
    if deps == [] {
    } else {
      HitsOnce(deps[..|deps| - 1], ready);
      DistinctCount(ready, deps[|deps| - 1]);
    }
  }

  lemma LastJob(jobs: seq<Job>, i: nat, n: Name)
    requires i < |jobs|
    ensures AllDeps(jobs[..i + 1], n) == AllDeps(jobs[..i], n) + if jobs[i].name == n then jobs[i].dependsOn else []
  {
    assert jobs[..i + 1][..i] == jobs[..i];
  }

  // ------------------------------------------------------- the parts of a round

  /** The map after the first `i` jobs: it has their names, nothing but names, and counts the entries. */
  ghost predicate EntriesOf(jobs: seq<Job>, i: nat, m: map<Name, int>)
    requires i <= |jobs|
  {
    && m.Keys <= GraphOf(jobs).Keys
    && (forall k :: 0 <= k < i ==> jobs[k].name in m)
    && (forall n :: |AllDeps(jobs[..i], n)| == if n in m then m[n] else 0)
  }

  method InDegrees(jobs: seq<Job>) returns (inDegree: map<Name, int>)
    requires AllKnown(jobs)
    ensures inDegree.Keys == GraphOf(jobs).Keys
    ensures forall n :: n in inDegree ==> inDegree[n] == |AllDeps(jobs, n)|
  {
    hide GraphOf, AllDeps, AllKnown, EntriesOf, Elements;
    NoEntries(jobs);
    inDegree := map[];
    for i := 0 to |jobs|
      invariant EntriesOf(jobs, i, inDegree)
    {
      var job := jobs[i];
      ghost var before := inDegree;
      if job.name !in inDegree { inDegree := inDegree[job.name := 0]; }
      inDegree := CountDependencies(job, inDegree);
      EntriesKept(jobs, i, before, inDegree);
    }
    AllEntries(jobs, inDegree);
  }

  lemma NoEntries(jobs: seq<Job>)
    ensures EntriesOf(jobs, 0, map[])
  {
    hide GraphOf;
  }

  lemma EntriesKept(jobs: seq<Job>, i: nat, before: map<Name, int>, after: map<Name, int>)
    requires AllKnown(jobs) && i < |jobs| && EntriesOf(jobs, i, before)
    requires after.Keys == before.Keys + {jobs[i].name} + Elements(jobs[i].dependsOn)
    requires forall n :: n in after ==>
      after[n] == (if n in before then before[n] else 0) + if n == jobs[i].name then |jobs[i].dependsOn| else 0
    ensures EntriesOf(jobs, i + 1, after)
  {
    hide AllDeps, GraphOf;
    GraphKeys(jobs);
    assert NamesOf(jobs)[i] == jobs[i].name;
    forall n ensures |AllDeps(jobs[..i + 1], n)| == if n in after then after[n] else 0 {
      EntriesNext(jobs, i, n);
    }
  }

  lemma AllEntries(jobs: seq<Job>, m: map<Name, int>)
    requires EntriesOf(jobs, |jobs|, m)
    ensures m.Keys == GraphOf(jobs).Keys && forall n :: n in m ==> m[n] == |AllDeps(jobs, n)|
  {
    hide AllDeps, GraphOf;
    GraphKeys(jobs);
    assert jobs[..|jobs|] == jobs;
    assert forall n :: n in GraphOf(jobs) ==> n in m;
  }

  lemma EntriesNext(jobs: seq<Job>, i: nat, n: Name)
    requires i < |jobs|
    ensures |AllDeps(jobs[..i + 1], n)|
         == |AllDeps(jobs[..i], n)| + if jobs[i].name == n then |jobs[i].dependsOn| else 0
  {
    hide AllDeps;
    LastJob(jobs, i, n);
  }

  lemma NoJobDeps()
    ensures forall n :: AllDeps([], n) == []
  {
  }

  method CountDependencies(job: Job, before: map<Name, int>) returns (inDegree: map<Name, int>)
    requires job.name in before
    ensures inDegree.Keys == before.Keys + Elements(job.dependsOn)
    ensures inDegree[job.name] == before[job.name] + |job.dependsOn|
    ensures forall n :: n in inDegree && n != job.name ==> inDegree[n] == if n in before then before[n] else 0
  {
    inDegree := before;
    for d := 0 to |job.dependsOn|
      invariant inDegree.Keys == before.Keys + Elements(job.dependsOn[..d])
      invariant inDegree[job.name] == before[job.name] + d
      invariant forall n :: n in inDegree && n != job.name ==> inDegree[n] == if n in before then before[n] else 0
    {
      var dep := job.dependsOn[d];
      inDegree := inDegree[job.name := inDegree[job.name] + 1];
      if dep !in inDegree { inDegree := inDegree[dep := 0]; }
      assert job.dependsOn[..d + 1] == job.dependsOn[..d] + [dep];
    }
    assert job.dependsOn[..|job.dependsOn|] == job.dependsOn;
  }

  /** The names with in-degree zero, each as often as jobs have it. */
  ghost function ZeroCount(jobs: seq<Job>, inDegree: map<Name, int>, n: Name): nat {
    if n in inDegree && inDegree[n] == 0 then multiset(NamesOf(jobs))[n] else 0
  }

  method CollectReady(jobs: seq<Job>, inDegree: map<Name, int>) returns (ready: seq<Name>)
    ensures Sorted(ready) && forall n :: multiset(ready)[n] == ZeroCount(jobs, inDegree, n)
  {
    hide Sorted;
    ready := [];
    assert NamesOf(jobs[..0]) == [];
    for i := 0 to |jobs|
      invariant forall n :: multiset(ready)[n] == ZeroCount(jobs[..i], inDegree, n)
    {
      assert NamesOf(jobs[..i + 1]) == NamesOf(jobs[..i]) + [jobs[i].name];
      if jobs[i].name in inDegree && inDegree[jobs[i].name] == 0 {
        ready := ready + [jobs[i].name];
      }
    }
    assert jobs[..|jobs|] == jobs;
    ready := SortStrings(ready);
  }

  /** Every job of a ready name is listed, so the list is as long as they are many. */
  lemma ReadyLength(names: seq<Name>, ready: seq<Name>)
    requires forall n :: multiset(ready)[n] == if n in ready then multiset(names)[n] else 0
    ensures CountIn(names, Elements(ready)) == |ready|
  {
    hide Kept, CountIn;
    var kept := Kept(names, Elements(ready));
    KeptLength(names, Elements(ready));
    forall n ensures multiset(kept)[n] == multiset(ready)[n] { KeptCount(names, Elements(ready), n); }
    assert multiset(ready) == multiset(kept);
    assert |multiset(ready)| == |ready| && |multiset(kept)| == |kept|;
  }

  ghost function Kept(names: seq<Name>, s: set<Name>): seq<Name> {
    if names == [] then []
    else Kept(names[..|names| - 1], s) + if names[|names| - 1] in s then [names[|names| - 1]] else []
  }

  lemma {:induction false} KeptLength(names: seq<Name>, s: set<Name>)
    ensures |Kept(names, s)| == CountIn(names, s)
  {
    if names == [] {
    } else {
      KeptLength(names[..|names| - 1], s);
    }
  }

  lemma {:induction false} KeptCount(names: seq<Name>, s: set<Name>, n: Name)
    ensures multiset(Kept(names, s))[n] == if n in s then multiset(names)[n] else 0
  {
    if names == [] {
    } else {
      var k := |names| - 1;
      KeptCount(names[..k], s, n);
      assert names == names[..k] + [names[k]];
    }
  }

  lemma ReadyOfUnique(jobs: seq<Job>, inDegree: map<Name, int>, ready: seq<Name>)
    requires UniqueNames(jobs) && inDegree.Keys <= GraphOf(jobs).Keys
    requires Sorted(ready) && forall n :: multiset(ready)[n] == ZeroCount(jobs, inDegree, n)
    ensures IsReady(inDegree, ready)
  {
    hide GraphOf, Sorted, Distinct, ZeroCount, UniqueNames;
    forall n ensures n in ready <==> n in inDegree && inDegree[n] == 0
             ensures n in ready ==> multiset(ready)[n] <= 1
    {
      UniqueCount(jobs, inDegree, n);
      assert n in ready <==> multiset(ready)[n] > 0;
    }
    CountedOnce(ready);
  }

  lemma UniqueCount(jobs: seq<Job>, inDegree: map<Name, int>, n: Name)
    requires UniqueNames(jobs) && inDegree.Keys <= GraphOf(jobs).Keys
    ensures ZeroCount(jobs, inDegree, n) == if n in inDegree && inDegree[n] == 0 then 1 else 0
  {
    hide GraphOf, UniqueNames, Distinct;
    GraphKeys(jobs);
    NamesAreDistinct(jobs);
    DistinctCount(NamesOf(jobs), n);
  }

  /** Subtracts, for every job left, one per dependency entry that has just been scheduled. */
  method Relax(jobs: seq<Job>, before: map<Name, int>, ready: seq<Name>) returns (inDegree: map<Name, int>)
    ensures inDegree.Keys == before.Keys
    ensures forall n :: n in before ==> inDegree[n] == before[n] - Hits(AllDeps(jobs, n), ready)
  {
    hide AllDeps, Hits;
    inDegree := before;
    NoJobDeps();
    NoHits(ready);
    assert jobs[..0] == [];
    for i := 0 to |jobs|
      invariant inDegree.Keys == before.Keys
      invariant forall n :: n in before ==> inDegree[n] == before[n] - Hits(AllDeps(jobs[..i], n), ready)
    {
      var job := jobs[i];
      forall n { HitsNext(jobs, i, n, ready); }
      if job.name in inDegree {
        var left := RelaxJob(job, ready, inDegree[job.name]);
        inDegree := inDegree[job.name := left];
      }
    }
    assert jobs[..|jobs|] == jobs;
  }

  lemma HitsNext(jobs: seq<Job>, i: nat, n: Name, ready: seq<Name>)
    requires i < |jobs|
    ensures Hits(AllDeps(jobs[..i + 1], n), ready)
         == Hits(AllDeps(jobs[..i], n), ready) + if jobs[i].name == n then Hits(jobs[i].dependsOn, ready) else 0
  {
    hide AllDeps, Hits;
    LastJob(jobs, i, n);
    NoHits(ready);
    HitsAppend(AllDeps(jobs[..i], n), if jobs[i].name == n then jobs[i].dependsOn else [], ready);
  }

  lemma NoHits(ready: seq<Name>)
    ensures Hits([], ready) == 0
  {
  }

  method RelaxJob(job: Job, ready: seq<Name>, degree: int) returns (left: int)
    ensures left == degree - Hits(job.dependsOn, ready)
  {
    left := degree;
    for d := 0 to |job.dependsOn|
      invariant left == degree - Hits(job.dependsOn[..d], ready)
    {
      var dep := job.dependsOn[d];
      ghost var start := left;
      for k := 0 to |ready|
        invariant left == start - multiset(ready[..k])[dep]
      {
        assert ready[..k + 1] == ready[..k] + [ready[k]];
        if dep == ready[k] { left := left - 1; }
      }
      assert ready[..|ready|] == ready;
      assert job.dependsOn[..d + 1][..d] == job.dependsOn[..d];
    }
    assert job.dependsOn[..|job.dependsOn|] == job.dependsOn;
  }

  /** With nothing ready, every unscheduled job waits for another one, so there is a cycle. */
  lemma StuckIsCyclic(g: Graph, groups: seq<seq<Name>>, inDegree: map<Name, int>)
    requires KahnState(g, groups, inDegree) && IsReady(inDegree, []) && inDegree.Keys != {}
    ensures Cyclic(g)
  {
    hide KahnState, IsReady, Cyclic, Waits;
    forall n | n in inDegree.Keys ensures Waits(g, inDegree.Keys, n) {
      StuckWaits(g, groups, inDegree, n);
    }
    AllWaitingIsCyclic(g, inDegree.Keys);
  }

  lemma StuckWaits(g: Graph, groups: seq<seq<Name>>, inDegree: map<Name, int>, n: Name)
    requires KahnState(g, groups, inDegree) && IsReady(inDegree, []) && n in inDegree
    ensures Waits(g, inDegree.Keys, n)
  {
    hide Levelled, Grouped, HasChain;
    assert Counted(g, |groups|, inDegree, n);
    assert n !in [] && inDegree[n] != 0;
    CountPositive(g[n], inDegree.Keys);
  }

  /** One round of Kahn's algorithm adds exactly the next level. */
  lemma RoundKeepsKahn(g: Graph, groups: seq<seq<Name>>, inDegree: map<Name, int>,
                         ready: seq<Name>, after: map<Name, int>)
    requires Known(g) && KahnState(g, groups, inDegree) && IsReady(inDegree, ready) && ready != []
    requires after.Keys == inDegree.Keys - Elements(ready)
    requires forall n :: n in after ==> after[n] == inDegree[n] - CountIn(g[n], Elements(ready))
    ensures KahnState(g, groups + [ready], after)
  {
    hide Known, Levelled, Grouped, Counted, IsReady, CountIn;
    NextLevelled(g, groups, inDegree, ready);
    forall n | n in g && n !in after ensures Grouped(groups + [ready], n) {
      NextGrouped(g, groups, inDegree, ready, n);
    }
    forall n | n in after ensures Counted(g, |groups + [ready]|, after, n) {
      NextCounted(g, groups, inDegree, ready, after, n);
    }
  }

  lemma NextLevelled(g: Graph, groups: seq<seq<Name>>, inDegree: map<Name, int>, ready: seq<Name>)
    requires Known(g) && KahnState(g, groups, inDegree) && IsReady(inDegree, ready) && ready != []
    ensures Levelled(g, groups + [ready])
  {
    hide Known, KahnState, LongestChain, Sorted, Distinct;
    assert Levelled(g, groups) && inDegree.Keys <= g.Keys by { OnlyLevelled(g, groups, inDegree); }
    forall n | n in ready ensures n in g && LongestChain(g, n, |groups|) {
      ReadyLevel(g, groups, inDegree, n);
    }
  }

  lemma OnlyLevelled(g: Graph, groups: seq<seq<Name>>, inDegree: map<Name, int>)
    requires KahnState(g, groups, inDegree)
    ensures Levelled(g, groups) && inDegree.Keys <= g.Keys
  {
  }

  lemma NextGrouped(g: Graph, groups: seq<seq<Name>>, inDegree: map<Name, int>, ready: seq<Name>, n: Name)
    requires KahnState(g, groups, inDegree) && n in g && (n in inDegree ==> n in ready)
    ensures Grouped(groups + [ready], n)
  {
    hide Levelled, Counted;
    var next := groups + [ready];
    if n in inDegree {
      assert n in next[|groups|];
    } else {
      var i :| 0 <= i < |groups| && n in groups[i];
      assert n in next[i];
    }
  }

  lemma NextCounted(g: Graph, groups: seq<seq<Name>>, inDegree: map<Name, int>, ready: seq<Name>,
                    after: map<Name, int>, n: Name)
    requires KahnState(g, groups, inDegree) && IsReady(inDegree, ready)
    requires after.Keys == inDegree.Keys - Elements(ready)
    requires n in g && n in after && after[n] == inDegree[n] - CountIn(g[n], Elements(ready))
    ensures Counted(g, |groups| + 1, after, n)
  {
    hide Levelled, Grouped, HasChain, CountIn, Sorted, Distinct;
    assert inDegree.Keys == after.Keys + Elements(ready);
    assert Counted(g, |groups|, inDegree, n);
    CountSplit(g[n], after.Keys, Elements(ready));
    assert n !in ready;
    CountPositive(g[n], inDegree.Keys);
    var d :| d in g[n] && d in inDegree;
    assert Counted(g, |groups|, inDegree, d);
    LongerChain(g, n, d, |groups|);
  }

  lemma ReadyLevel(g: Graph, groups: seq<seq<Name>>, inDegree: map<Name, int>, n: Name)
    requires Known(g) && KahnState(g, groups, inDegree) && n in inDegree && inDegree[n] == 0
    ensures LongestChain(g, n, |groups|)
  {
    hide HasChain, LongestChain, CountIn;
    assert Counted(g, |groups|, inDegree, n);
    CountPositive(g[n], inDegree.Keys);
    forall d | Edge(g, n, d) ensures exists j: nat :: j < |groups| && LongestChain(g, d, j) {
      assert d in g && d !in inDegree;
      assert Grouped(groups, d);
      var i :| 0 <= i < |groups| && d in groups[i];
    }
    ChainIsLongest(g, n, |groups|);
  }

  /** `err` names the first job, in pipeline order, whose depends_on list has an unknown entry,
      and the first such entry. */
  ghost predicate FirstUnknown(jobs: seq<Job>, err: ScheduleError) {
    && err.UnknownDependency?
    && exists i, k ::
         && 0 <= i < |jobs| && 0 <= k < |jobs[i].dependsOn|
         && err == UnknownDependency(jobs[i].name, jobs[i].dependsOn[k])
         && jobs[i].dependsOn[k] !in GraphOf(jobs)
         && (forall i', d :: 0 <= i' < i && d in jobs[i'].dependsOn ==> d in GraphOf(jobs))
         && (forall k' :: 0 <= k' < k ==> jobs[i].dependsOn[k'] in GraphOf(jobs))
  }

  method CheckKnown(jobs: seq<Job>) returns (unknown: Option<ScheduleError>)
    ensures unknown.None? <==> AllKnown(jobs)
    ensures unknown.Some? ==> FirstUnknown(jobs, unknown.value)
  {
    hide GraphOf;
    for i := 0 to |jobs|
      invariant forall i', d :: 0 <= i' < i && d in jobs[i'].dependsOn ==> d in GraphOf(jobs)
    {
      for k := 0 to |jobs[i].dependsOn|
        invariant forall k' :: 0 <= k' < k ==> jobs[i].dependsOn[k'] in GraphOf(jobs)
      {
        if jobs[i].dependsOn[k] !in GraphOf(jobs) {
          return Some(UnknownDependency(jobs[i].name, jobs[i].dependsOn[k]));
        }
      }
    }
    return None;
  }

  /** The groups hold jobs of the pipeline. */
  ghost predicate HoldsJobs(jobs: seq<Job>, groups: seq<ExecutionGroup>) {
    forall i, j :: 0 <= i < |groups| && j in groups[i].jobs ==> j in jobs
  }

  lemma HoldsNone(jobs: seq<Job>)
    ensures HoldsJobs(jobs, [])
  {
  }

  lemma HoldsOneMore(jobs: seq<Job>, groups: seq<ExecutionGroup>, group: ExecutionGroup)
    requires HoldsJobs(jobs, groups) && forall j :: j in group.jobs ==> j in jobs
    ensures HoldsJobs(jobs, groups + [group])
  {
  }

  /** Moves the ready jobs into a group and deletes them from the in-degree map. */
  method TakeGroup(jobs: seq<Job>, ready: seq<Name>, inDegree: map<Name, int>)
    returns (group: ExecutionGroup, remaining: map<Name, int>, taken: nat)
    requires inDegree.Keys <= GraphOf(jobs).Keys && forall n :: n in ready ==> n in inDegree
    ensures NamesOf(group.jobs) == ready && forall j :: j in group.jobs ==> j in jobs
    ensures remaining == inDegree - Elements(ready) && taken == |ready|
  {
    hide GraphOf, JobMap;
    var jobMap := JobMap(jobs);
    group, remaining, taken := ExecutionGroup([]), inDegree, 0;
    for i := 0 to |ready|
      invariant taken == i && NamesOf(group.jobs) == ready[..i]
      invariant forall j :: j in group.jobs ==> j in jobs
      invariant forall n :: n in remaining <==> n in inDegree && n !in ready[..i]
      invariant forall n :: n in remaining ==> remaining[n] == inDegree[n]
    {
      var name := ready[i];
      assert ready[..i + 1] == ready[..i] + [name];
      group := ExecutionGroup(group.jobs + [jobMap[name]]);
      remaining := remaining - {name};
      taken := taken + 1;
    }
    assert ready[..|ready|] == ready;
  }

  function JobMap(jobs: seq<Job>): (m: map<Name, Job>)
    ensures m.Keys == GraphOf(jobs).Keys
    ensures forall n :: n in m ==> m[n].name == n && m[n] in jobs
  {
    if jobs == [] then map[]
    else JobMap(jobs[..|jobs| - 1])[jobs[|jobs| - 1].name := jobs[|jobs| - 1]]
  }

  /** Between rounds, whatever the names are: the jobs whose name has left the map have all been
      scheduled, each name's in one group. */
  ghost predicate Accounted(jobs: seq<Job>, groups: seq<seq<Name>>, inDegree: map<Name, int>, scheduled: nat) {
    && inDegree.Keys <= GraphOf(jobs).Keys
    && scheduled + CountIn(NamesOf(jobs), inDegree.Keys) == |jobs|
    && forall n :: n in GraphOf(jobs) && n !in inDegree ==> GroupedWhole(jobs, groups, n)
  }

  ghost predicate GroupedWhole(jobs: seq<Job>, groups: seq<seq<Name>>, n: Name) {
    exists i :: 0 <= i < |groups| && multiset(groups[i])[n] == multiset(NamesOf(jobs))[n]
  }

  ghost predicate ReadyOf(jobs: seq<Job>, inDegree: map<Name, int>, ready: seq<Name>) {
    Sorted(ready) && forall n :: multiset(ready)[n] == ZeroCount(jobs, inDegree, n)
  }

  lemma ReadyListed(jobs: seq<Job>, inDegree: map<Name, int>, ready: seq<Name>)
    requires ReadyOf(jobs, inDegree, ready)
    ensures forall n :: n in ready ==> n in inDegree && multiset(ready)[n] == multiset(NamesOf(jobs))[n]
    ensures CountIn(NamesOf(jobs), Elements(ready)) == |ready|
  {
    hide Sorted, CountIn;
    forall n ensures multiset(ready)[n] == if n in ready then multiset(NamesOf(jobs))[n] else 0 {
      assert n in ready <==> multiset(ready)[n] > 0;
    }
    ReadyLength(NamesOf(jobs), ready);
  }

  lemma RoundAccounted(jobs: seq<Job>, groups: seq<seq<Name>>, inDegree: map<Name, int>, scheduled: nat,
                       ready: seq<Name>, after: map<Name, int>)
    requires Accounted(jobs, groups, inDegree, scheduled) && ReadyOf(jobs, inDegree, ready)
    requires after.Keys == inDegree.Keys - Elements(ready)
    ensures Accounted(jobs, groups + [ready], after, scheduled + |ready|)
  {
    hide GraphOf, ReadyOf, CountIn;
    var next := groups + [ready];
    ReadyListed(jobs, inDegree, ready);
    assert inDegree.Keys == after.Keys + Elements(ready);
    CountSplit(NamesOf(jobs), after.Keys, Elements(ready));
    forall n | n in GraphOf(jobs) && n !in after ensures GroupedWhole(jobs, next, n) {
      if n in inDegree {
        assert next[|groups|] == ready;
      } else {
        assert GroupedWhole(jobs, groups, n);
        var i :| 0 <= i < |groups| && multiset(groups[i])[n] == multiset(NamesOf(jobs))[n];
        assert next[i] == groups[i];
      }
    }
  }

  /** A round with ready jobs: they become the next group and everybody waiting for them is relaxed. */
  method Round(jobs: seq<Job>, ghost groups: seq<ExecutionGroup>, ready: seq<Name>, inDegree: map<Name, int>,
               ghost scheduled: nat)
    returns (group: ExecutionGroup, after: map<Name, int>, taken: nat)
    requires Accounted(jobs, GroupNames(groups), inDegree, scheduled) && HoldsJobs(jobs, groups)
    requires Unique(jobs) ==> KahnState(GraphOf(jobs), GroupNames(groups), inDegree)
    requires ReadyOf(jobs, inDegree, ready) && ready != []
    ensures Accounted(jobs, GroupNames(groups + [group]), after, scheduled + taken) && HoldsJobs(jobs, groups + [group])
    ensures Unique(jobs) ==> KahnState(GraphOf(jobs), GroupNames(groups + [group]), after)
    ensures taken == |ready|
  {
    hide *;
    KeysInGraph(jobs, GroupNames(groups), inDegree, scheduled);
    ReadyListed(jobs, inDegree, ready);
    var remaining;
    group, remaining, taken := TakeGroup(jobs, ready, inDegree);
    after := Relax(jobs, remaining, ready);
    assert GroupNames(groups + [group]) == GroupNames(groups) + [ready];
    RoundAccounted(jobs, GroupNames(groups), inDegree, scheduled, ready, after);
    if Unique(jobs) { UniqueRound(jobs, GroupNames(groups), inDegree, ready, after); }
    HoldsOneMore(jobs, groups, group);
  }

  lemma KeysInGraph(jobs: seq<Job>, groups: seq<seq<Name>>, inDegree: map<Name, int>, scheduled: nat)
    requires Accounted(jobs, groups, inDegree, scheduled)
    ensures inDegree.Keys <= GraphOf(jobs).Keys
  {
  }

  /** Jobs with unique names, and nothing unknown among their dependencies. */
  ghost predicate Unique(jobs: seq<Job>) {
    UniqueNames(jobs) && Known(GraphOf(jobs))
  }

  lemma UniqueRound(jobs: seq<Job>, groups: seq<seq<Name>>, inDegree: map<Name, int>,
                      ready: seq<Name>, after: map<Name, int>)
    requires Unique(jobs) && KahnState(GraphOf(jobs), groups, inDegree) && ReadyOf(jobs, inDegree, ready) && ready != []
    requires after.Keys == inDegree.Keys - Elements(ready)
    requires forall n :: n in after ==> after[n] == inDegree[n] - Hits(AllDeps(jobs, n), ready)
    ensures KahnState(GraphOf(jobs), groups + [ready], after)
  {
    hide GraphOf, UniqueNames, Known, KahnState, ReadyOf, Hits, AllDeps, CountIn;
    var g := GraphOf(jobs);
    OnlyLevelled(g, groups, inDegree);
    ReadyIsReady(jobs, inDegree, ready);
    UniqueDeps(jobs);
    forall n | n in after ensures after[n] == inDegree[n] - CountIn(g[n], Elements(ready)) {
      HitsOnce(g[n], ready);
    }
    RoundKeepsKahn(g, groups, inDegree, ready, after);
  }

  lemma ReadyIsReady(jobs: seq<Job>, inDegree: map<Name, int>, ready: seq<Name>)
    requires UniqueNames(jobs) && inDegree.Keys <= GraphOf(jobs).Keys && ReadyOf(jobs, inDegree, ready)
    ensures IsReady(inDegree, ready) && Distinct(ready)
  {
    hide GraphOf, UniqueNames, Sorted;
    ReadyOfUnique(jobs, inDegree, ready);
  }

  /** The error of a round without a ready job. It is the message without a path only if names repeat. */
  method CycleError(jobs: seq<Job>, ghost groups: seq<seq<Name>>, ghost inDegree: map<Name, int>)
    returns (e: ScheduleError)
    requires inDegree.Keys <= GraphOf(jobs).Keys && inDegree.Keys != {} && ReadyOf(jobs, inDegree, [])
    requires Unique(jobs) ==> KahnState(GraphOf(jobs), groups, inDegree)
    ensures !e.UnknownDependency? && ReportedBy(GraphOf(jobs), NamesOf(jobs), e)
    ensures e.DependencyCycle? ==> ReportsCycle(GraphOf(jobs), e.path)
    ensures Unique(jobs) ==> e.DependencyCycle? && Cyclic(GraphOf(jobs))
  {
    hide *;
    e := FindCycle(jobs);
    if Unique(jobs) { UniqueStuck(jobs, groups, inDegree); }
  }

  lemma UniqueStuck(jobs: seq<Job>, groups: seq<seq<Name>>, inDegree: map<Name, int>)
    requires inDegree.Keys <= GraphOf(jobs).Keys && inDegree.Keys != {} && ReadyOf(jobs, inDegree, [])
    requires Unique(jobs) && KahnState(GraphOf(jobs), groups, inDegree)
    ensures Cyclic(GraphOf(jobs))
  {
    hide GraphOf, UniqueNames, Known, KahnState, ReadyOf, IsReady, Cyclic;
    ReadyIsReady(jobs, inDegree, []);
    StuckIsCyclic(GraphOf(jobs), groups, inDegree);
  }

  /** The levels, each in strictly ascending lexicographic order. */
  ghost predicate LevelsInOrder(jobs: seq<Job>, groups: seq<ExecutionGroup>) {
    && IsLevels(GraphOf(jobs), GroupNames(groups))
    && forall i :: 0 <= i < |groups| ==> Ascending(NamesOf(groups[i].jobs))
  }

  lemma LevelsAscend(jobs: seq<Job>, groups: seq<ExecutionGroup>)
    requires IsLevels(GraphOf(jobs), GroupNames(groups))
    ensures LevelsInOrder(jobs, groups)
  {
    hide GraphOf, LongestChain, Sorted, Distinct, Ascending;
    forall i | 0 <= i < |groups| ensures Ascending(NamesOf(groups[i].jobs)) {
      assert GroupNames(groups)[i] == NamesOf(groups[i].jobs);
      SortedIsAscending(GroupNames(groups)[i]);
    }
  }

  /** Succeeds with the exact levels precisely when names are unique, every dependency is known and there
      is no cycle. Otherwise the error is the first unknown dependency in pipeline order, or what the
      cycle search reports; and if names repeat, a success lists some job twice in a group. */
  method Schedule(jobs: seq<Job>) returns (r: Result<seq<ExecutionGroup>, ScheduleError>)
    ensures r.Ok? && IsLevels(GraphOf(jobs), GroupNames(r.value))
       <==> UniqueNames(jobs) && Known(GraphOf(jobs)) && !Cyclic(GraphOf(jobs))
    ensures r.Ok? ==> HoldsJobs(jobs, r.value) && AllKnown(jobs)
    ensures r.Ok? ==> if UniqueNames(jobs) then LevelsInOrder(jobs, r.value)
                      else exists i :: 0 <= i < |r.value| && !Distinct(NamesOf(r.value[i].jobs))
    ensures r.Err? && !AllKnown(jobs) ==> FirstUnknown(jobs, r.error)
    ensures r.Err? && AllKnown(jobs) ==>
      && !r.error.UnknownDependency? && ReportedBy(GraphOf(jobs), NamesOf(jobs), r.error)
      && (r.error.DependencyCycle? ==> ReportsCycle(GraphOf(jobs), r.error.path))
      && (UniqueNames(jobs) ==> r.error.DependencyCycle?)
  {
    hide *;
    ghost var g := GraphOf(jobs);
    WhenUnique(jobs);
    var unknown := CheckKnown(jobs);
    if unknown.Some? { return Err(unknown.value); }

    var inDegree := InDegrees(jobs);
    var groups: seq<ExecutionGroup> := [];
    var scheduled, total := 0, |jobs|;
    if Unique(jobs) { StartKahn(jobs, inDegree); }
    StartAccounts(jobs, inDegree);
    HoldsNone(jobs);
    while scheduled < total
      invariant Unique(jobs) ==> KahnState(g, GroupNames(groups), inDegree)
      invariant Accounted(jobs, GroupNames(groups), inDegree, scheduled) && HoldsJobs(jobs, groups)
      decreases total - scheduled
    {
      KeysInGraph(jobs, GroupNames(groups), inDegree, scheduled);
      var ready := CollectReady(jobs, inDegree);
      AsReady(jobs, inDegree, ready);
      if |ready| == 0 {
        assert ready == [];
        SomeLeft(jobs, GroupNames(groups), inDegree, scheduled);
        var e := CycleError(jobs, GroupNames(groups), inDegree);
        return Err(e);
      }
      var group, after, taken := Round(jobs, groups, ready, inDegree, scheduled);
      scheduled := scheduled + taken;
      groups := groups + [group];
      inDegree := after;
    }
    NoneLeft(jobs, GroupNames(groups), inDegree, scheduled);
    if Unique(jobs) {
      KahnIsDone(g, GroupNames(groups), inDegree);
      LevelsAscend(jobs, groups);
    } else {
      RepeatedInGroup(jobs, groups, inDegree, scheduled);
    }
    return Ok(groups);
  }

  /** An input without unknown dependencies and without a cycle for which the levels are not returned:
      two jobs of one name. */
  const TWO_OF_A_NAME: seq<Job> := [Job("a", "img", [], [], map[], Pending), Job("a", "img", [], [], map[], Pending)]

  method RepeatedName() returns (r: Result<seq<ExecutionGroup>, ScheduleError>)
    ensures Known(GraphOf(TWO_OF_A_NAME)) && !Cyclic(GraphOf(TWO_OF_A_NAME))
    ensures !(r.Ok? && IsLevels(GraphOf(TWO_OF_A_NAME), GroupNames(r.value)))
  {
    hide IsLevels, Cyclic;
    assert GraphOf(TWO_OF_A_NAME[..1]) == map["a" := []];
    assert GraphOf(TWO_OF_A_NAME) == map["a" := []];
    assert IsRanking(GraphOf(TWO_OF_A_NAME), map["a" := 0]);
    RankedIsAcyclic(GraphOf(TWO_OF_A_NAME), map["a" := 0]);
    assert TWO_OF_A_NAME[0].name == TWO_OF_A_NAME[1].name;
    r := Schedule(TWO_OF_A_NAME);
  }

  lemma WhenUnique(jobs: seq<Job>)
    ensures UniqueNames(jobs) && AllKnown(jobs) <==> Unique(jobs)
    ensures UniqueNames(jobs) && Known(GraphOf(jobs)) <==> Unique(jobs)
  {
    hide GraphOf, UniqueNames, AllKnown, Known;
    if UniqueNames(jobs) { UniqueDeps(jobs); }
  }

  lemma AsReady(jobs: seq<Job>, inDegree: map<Name, int>, ready: seq<Name>)
    requires Sorted(ready) && forall n :: multiset(ready)[n] == ZeroCount(jobs, inDegree, n)
    ensures ReadyOf(jobs, inDegree, ready)
  {
  }

  lemma StartAccounts(jobs: seq<Job>, inDegree: map<Name, int>)
    requires inDegree.Keys == GraphOf(jobs).Keys
    ensures Accounted(jobs, GroupNames([]), inDegree, 0)
  {
    hide GraphOf, CountIn;
    GraphKeys(jobs);
    CountAll(NamesOf(jobs), inDegree.Keys);
  }

  lemma SomeLeft(jobs: seq<Job>, groups: seq<seq<Name>>, inDegree: map<Name, int>, scheduled: nat)
    requires Accounted(jobs, groups, inDegree, scheduled) && scheduled < |jobs|
    ensures inDegree.Keys != {}
  {
    hide GraphOf, CountIn;
    CountPositive(NamesOf(jobs), inDegree.Keys);
  }

  lemma NoneLeft(jobs: seq<Job>, groups: seq<seq<Name>>, inDegree: map<Name, int>, scheduled: nat)
    requires Accounted(jobs, groups, inDegree, scheduled) && scheduled >= |jobs|
    ensures inDegree.Keys == {}
  {
    hide GraphOf, CountIn;
    GraphKeys(jobs);
    CountPositive(NamesOf(jobs), inDegree.Keys);
    assert forall n :: n in inDegree.Keys ==> n in NamesOf(jobs);
  }

  /** A name that several jobs share stands several times in its group. */
  lemma RepeatedInGroup(jobs: seq<Job>, groups: seq<ExecutionGroup>, inDegree: map<Name, int>, scheduled: nat)
    requires Accounted(jobs, GroupNames(groups), inDegree, scheduled) && inDegree.Keys == {} && !UniqueNames(jobs)
    ensures exists i :: 0 <= i < |groups| && !Distinct(NamesOf(groups[i].jobs))
    ensures !IsLevels(GraphOf(jobs), GroupNames(groups))
  {
    hide GraphOf, CountIn, LongestChain, Sorted;
    GraphKeys(jobs);
    var i, k :| 0 <= i < k < |jobs| && jobs[i].name == jobs[k].name;
    var names, n := NamesOf(jobs), jobs[i].name;
    assert names[i] == n && names[k] == n && n in names;
    TwiceCounted(names, i, k);
    assert GroupedWhole(jobs, GroupNames(groups), n);
    var m :| 0 <= m < |groups| && multiset(GroupNames(groups)[m])[n] == multiset(names)[n];
    if Distinct(GroupNames(groups)[m]) { DistinctCount(GroupNames(groups)[m], n); }
  }

  lemma KahnIsDone(g: Graph, groups: seq<seq<Name>>, inDegree: map<Name, int>)
    requires Known(g) && KahnState(g, groups, inDegree) && inDegree.Keys == {}
    ensures IsLevels(g, groups) && !Cyclic(g)
  {
    hide LongestChain, Sorted, Distinct;
    assert forall n :: n in g ==> Grouped(groups, n);
    LevelsRank(g, groups);
  }

  lemma StartKahn(jobs: seq<Job>, inDegree: map<Name, int>)
    requires Unique(jobs) && inDegree.Keys == GraphOf(jobs).Keys
    requires forall n :: n in inDegree ==> inDegree[n] == |AllDeps(jobs, n)|
    ensures KahnState(GraphOf(jobs), GroupNames([]), inDegree)
  {
    hide GraphOf, UniqueNames, AllDeps, CountIn, HasChain;
    var g := GraphOf(jobs);
    UniqueDeps(jobs);
    forall n | n in inDegree ensures Counted(g, 0, inDegree, n) {
      ChainOfOne(g, n);
      CountAll(g[n], g.Keys);
    }
  }

  // ------------------------------------------------- what the levels mean

  /** The group index of every job. */
  ghost function LevelOf(g: Graph, groups: seq<seq<Name>>, n: Name): (i: nat)
    requires IsLevels(g, groups) && n in g
    ensures i < |groups| && n in groups[i] && LongestChain(g, n, i)
  {
    var i :| 0 <= i < |groups| && n in groups[i];
    i
  }

  ghost function LevelRank(g: Graph, groups: seq<seq<Name>>): (rank: map<Name, nat>)
    requires IsLevels(g, groups)
    ensures rank.Keys == g.Keys && forall n :: n in g ==> rank[n] == LevelOf(g, groups, n)
  {
    map n | n in g.Keys :: LevelOf(g, groups, n)
  }

  /** Group indices are a layering, so a scheduled pipeline has no cycle. */
  lemma LevelsRank(g: Graph, groups: seq<seq<Name>>)
    requires IsLevels(g, groups) && Known(g)
    ensures IsRanking(g, LevelRank(g, groups)) && !Cyclic(g)
  {
    var rank := LevelRank(g, groups);
    forall a, b | Edge(g, a, b) ensures b in rank && rank[b] < rank[a] {
      assert a in g && b in g;
      var j := LevelOf(g, groups, b);
      LongerChain(g, a, b, j);
    }
    RankedIsAcyclic(g, rank);
  }

  lemma NoEdgeAtSameLength(g: Graph, a: Name, b: Name, k: nat)
    requires LongestChain(g, a, k) && LongestChain(g, b, k)
    ensures !Edge(g, a, b)
  {
    if Edge(g, a, b) { LongerChain(g, a, b, k); }
  }

  /** No two groups share a job, and within a group nothing depends on anything. */
  lemma LevelsPartition(g: Graph, groups: seq<seq<Name>>)
    requires IsLevels(g, groups)
    ensures forall i, j, n :: 0 <= i < |groups| && 0 <= j < |groups| && n in groups[i] && n in groups[j] ==> i == j
    ensures forall i, a, b :: 0 <= i < |groups| && a in groups[i] && b in groups[i] ==> !Edge(g, a, b)
  {
    hide LongestChain;
    forall i, j, n | 0 <= i < |groups| && 0 <= j < |groups| && n in groups[i] && n in groups[j] ensures i == j {
      LongestUnique(g, n, i, j);
    }
    forall i, a, b | 0 <= i < |groups| && a in groups[i] && b in groups[i] ensures !Edge(g, a, b) {
      NoEdgeAtSameLength(g, a, b, i);
    }
  }

  /** Every layering puts each job at its group or above, so it needs at least as many layers. */
  lemma FewestGroups(g: Graph, groups: seq<seq<Name>>, layer: map<Name, nat>, layers: nat)
    requires IsLevels(g, groups) && IsRanking(g, layer) && forall n :: n in g ==> layer[n] < layers
    ensures forall n :: n in g ==> LevelOf(g, groups, n) <= layer[n]
    ensures |groups| <= layers
  {
    hide LongestChain, IsRanking;
    RankDomain(g, layer);
    forall n | n in g ensures LevelOf(g, groups, n) <= layer[n] {
      RankCoversChain(g, layer, n, LevelOf(g, groups, n));
    }
    if groups != [] {
      var top := |groups| - 1;
      assert groups[top][0] in groups[top];
      RankCoversChain(g, layer, groups[top][0], top);
    }
  }

  /** The groups depend only on which job depends on which: reordering the jobs, or reordering
      or repeating entries of a depends_on list, changes nothing. */
  lemma LevelsAreUnique(g: Graph, h: Graph, gs: seq<seq<Name>>, hs: seq<seq<Name>>)
    requires SameEdges(g, h) && IsLevels(g, gs) && IsLevels(h, hs)
    ensures gs == hs
  {
    SameLevelCount(g, h, gs, hs);
    SameLevelCount(h, g, hs, gs);
    forall i | 0 <= i < |gs| ensures gs[i] == hs[i] {
      forall n ensures n in gs[i] <==> n in hs[i] {
        if n in gs[i] { SameLevel(g, h, gs, hs, i, n); }
        if n in hs[i] { SameLevel(h, g, hs, gs, i, n); }
      }
      SortedUnique(gs[i], hs[i]);
    }
  }

  lemma SameLevel(g: Graph, h: Graph, gs: seq<seq<Name>>, hs: seq<seq<Name>>, i: nat, n: Name)
    requires SameEdges(g, h) && IsLevels(g, gs) && IsLevels(h, hs) && i < |gs| && n in gs[i]
    ensures i < |hs| && n in hs[i]
  {
    SameLongest(g, h, n, i);
    LongestUnique(h, n, i, LevelOf(h, hs, n));
  }

  lemma SameLevelCount(g: Graph, h: Graph, gs: seq<seq<Name>>, hs: seq<seq<Name>>)
    requires SameEdges(g, h) && IsLevels(g, gs) && IsLevels(h, hs)
    ensures |gs| <= |hs|
  {
    if gs != [] {
      var top := |gs| - 1;
      SameLevel(g, h, gs, hs, top, gs[top][0]);
    }
  }

  /** Schedule's groups are the same, name by name, for any reordering of the jobs. */
  lemma PermutationInvariance(jobs: seq<Job>, perm: seq<Job>, gs: seq<ExecutionGroup>, hs: seq<ExecutionGroup>)
    requires UniqueNames(jobs) && UniqueNames(perm) && forall j :: j in jobs <==> j in perm
    requires IsLevels(GraphOf(jobs), GroupNames(gs)) && IsLevels(GraphOf(perm), GroupNames(hs))
    ensures GroupNames(gs) == GroupNames(hs)
  {
    hide UniqueNames, GraphOf, IsLevels, GroupNames;
    PermutedJobsSameGraph(jobs, perm);
    LevelsAreUnique(GraphOf(jobs), GraphOf(perm), GroupNames(gs), GroupNames(hs));
  }

  // -------------------------------------------- what the cycle report means

  /** A sorted sequence without its repetitions. */
  function Dedup(s: seq<Name>): seq<Name> {
    if |s| <= 1 then s else if s[0] == s[1] then Dedup(s[1..]) else [s[0]] + Dedup(s[1..])
  }

  lemma {:induction false} DedupElements(s: seq<Name>)
    ensures forall n :: n in Dedup(s) <==> n in s
    ensures s != [] ==> Dedup(s) != [] && Dedup(s)[0] == s[0]
  {
    if |s| <= 1 {
    } else {
      DedupElements(s[1..]);
      assert s == [s[0]] + s[1..];
    }
  }

  lemma {:induction false} DedupSorted(s: seq<Name>)
    requires Sorted(s)
    ensures Sorted(Dedup(s)) && Distinct(Dedup(s))
  {
    hide AtMost;
    if |s| <= 1 {
    } else {
      var t := Dedup(s[1..]);
      DedupSorted(s[1..]);
      DedupElements(s[1..]);
      if s[0] != s[1] {
        forall y | y in t ensures AtMost(s[0], y) && y != s[0] {
          var k :| 0 <= k < |s[1..]| && s[1..][k] == y;
          assert s[k + 1] == y;
          AtMostTotal(s[0], s[1]);
          AtMostTotal(s[1], s[k + 1]);
          SecondAbove(s, k + 1);
        }
        SortedCons(s[0], t);
      }
    }
  }

  /** Past a strict step up at its start a sorted sequence does not return to its first element. */
  lemma SecondAbove(s: seq<Name>, k: nat)
    requires Sorted(s) && 0 < k < |s| && s[0] != s[1]
    ensures s[k] != s[0]
  {
    hide AtMost;
    if s[k] == s[0] && k > 1 {
      assert AtMost(s[0], s[1]) && AtMost(s[1], s[k]);
      AtMostTotal(s[0], s[1]);
    }
  }

  /** Repeated dependencies change nothing: the second time they have been visited. */
  lemma {:induction false} SearchDedup(g: Graph, color: map<Name, Mark>, parent: map<Name, Name>, node: Name,
                                       deps: seq<Name>)
    requires forall d :: d in deps ==> d in Nodes(g)
    ensures forall d :: d in Dedup(deps) ==> d in Nodes(g)
    ensures SearchDeps(g, color, parent, node, deps) == SearchDeps(g, color, parent, node, Dedup(deps))
    decreases |deps|, 1
  {
    hide Nodes, UnvisitedNodes, SearchNode;
    DedupElements(deps);
    if |deps| <= 1 {
    } else {
      var d, rest := deps[0], Dedup(deps)[1..];
      DedupElements(deps[1..]);
      match MarkOf(color, d)
      case InStack =>
      case Visited => SearchRest(g, color, parent, node, deps);
      case Unvisited =>
        var r := SearchNode(g, color, parent[d := node], d);
        if r.Miss? {
          SearchMarks(g, color, parent[d := node], d);
          SearchRest(g, r.color, r.parent, node, deps);
        }
    }
  }

  lemma SearchMarks(g: Graph, color: map<Name, Mark>, parent: map<Name, Name>, node: Name)
    requires node in Nodes(g) && MarkOf(color, node) == Unvisited
    ensures var r := SearchNode(g, color, parent, node); r.Miss? ==> MarkOf(r.color, node) == Visited
  {
    hide Nodes, UnvisitedNodes, SearchDeps;
    NodeStep(g, color, parent, node);
  }

  /** What follows a visited first dependency. */
  lemma {:induction false} SearchRest(g: Graph, color: map<Name, Mark>, parent: map<Name, Name>, node: Name,
                                      deps: seq<Name>)
    requires |deps| > 1 && (forall d :: d in deps ==> d in Nodes(g)) && MarkOf(color, deps[0]) == Visited
    ensures Dedup(deps) != [] && forall d :: d in Dedup(deps)[1..] ==> d in Nodes(g)
    ensures SearchDeps(g, color, parent, node, deps[1..]) == SearchDeps(g, color, parent, node, Dedup(deps)[1..])
    decreases |deps|, 0
  {
    hide Nodes, UnvisitedNodes, SearchNode;
    DedupElements(deps);
    DedupElements(deps[1..]);
    SearchDedup(g, color, parent, node, deps[1..]);
    if deps[0] == deps[1] {
      assert Dedup(deps) == Dedup(deps[1..]) && Dedup(deps)[0] == deps[0];
    } else {
      assert Dedup(deps)[1..] == Dedup(deps[1..]);
    }
  }

  lemma SameNodes(g: Graph, h: Graph)
    requires SameEdges(g, h)
    ensures Nodes(g) == Nodes(h)
  {
    forall n ensures n in Nodes(g) <==> n in Nodes(h) {
      if n in Nodes(g) && n !in g {
        var a :| a in g && n in g[a];
        assert Edge(g, a, n) && Edge(h, a, n) && a in h;
      }
      if n in Nodes(h) && n !in h {
        var a :| a in h && n in h[a];
        assert Edge(h, a, n) && Edge(g, a, n) && a in g;
      }
    }
  }

  /** The search visits the same dependencies in the same order, whatever the lists look like. */
  lemma SameOrder(g: Graph, h: Graph, node: Name)
    requires SameEdges(g, h)
    ensures Dedup(SortStrings(Deps(g, node))) == Dedup(SortStrings(Deps(h, node)))
  {
    hide SortStrings, Sorted, Distinct, Dedup;
    var a, b := SortStrings(Deps(g, node)), SortStrings(Deps(h, node));
    DedupSorted(a);
    DedupSorted(b);
    DedupElements(a);
    DedupElements(b);
    forall n ensures n in Dedup(a) <==> n in Dedup(b) {
      assert Edge(g, node, n) <==> Edge(h, node, n);
    }
    SortedUnique(Dedup(a), Dedup(b));
  }

  lemma {:induction false} SameSearchNode(g: Graph, h: Graph, color: map<Name, Mark>, parent: map<Name, Name>,
                                           node: Name)
    requires SameEdges(g, h) && node in Nodes(g) && MarkOf(color, node) == Unvisited
    ensures node in Nodes(h) && SearchNode(g, color, parent, node) == SearchNode(h, color, parent, node)
    decreases |UnvisitedNodes(g, color)|, 0
  {
    hide SameEdges, Nodes, UnvisitedNodes, SearchNode, SearchDeps, SortStrings, Dedup;
    SameNodes(g, h);
    NodeStep(g, color, parent, node);
    NodeStep(h, color, parent, node);
    GraySize(g, color, node);
    SameOrder(g, h, node);
    var sorted := SortStrings(Deps(g, node));
    SearchDedup(g, color[node := InStack], parent, node, sorted);
    SearchDedup(h, color[node := InStack], parent, node, SortStrings(Deps(h, node)));
    SameSearchDeps(g, h, color[node := InStack], parent, node, Dedup(sorted));
  }

  lemma {:induction false} SameSearchDeps(g: Graph, h: Graph, color: map<Name, Mark>, parent: map<Name, Name>,
                                          node: Name, deps: seq<Name>)
    requires SameEdges(g, h) && Nodes(g) == Nodes(h) && forall d :: d in deps ==> d in Nodes(g)
    ensures SearchDeps(g, color, parent, node, deps) == SearchDeps(h, color, parent, node, deps)
    decreases |UnvisitedNodes(g, color)|, |deps| + 1
  {
    hide SameEdges, Nodes, UnvisitedNodes, SearchNode;
    if deps == [] {
    } else {
      var d := deps[0];
      match MarkOf(color, d)
      case InStack =>
      case Visited => SameSearchDeps(g, h, color, parent, node, deps[1..]);
      case Unvisited =>
        SameSearchNode(g, h, color, parent[d := node], d);
        var r := SearchNode(g, color, parent[d := node], d);
        if r.Miss? {
          SubsetSize(UnvisitedNodes(g, r.color), UnvisitedNodes(g, color));
          SameSearchDeps(g, h, r.color, r.parent, node, deps[1..]);
        }
    }
  }

  lemma {:induction false} SameSearchAll(g: Graph, h: Graph, color: map<Name, Mark>, parent: map<Name, Name>,
                                         names: seq<Name>)
    requires SameEdges(g, h) && Nodes(g) == Nodes(h) && forall n :: n in names ==> n in Nodes(g)
    ensures SearchAll(g, color, parent, names) == SearchAll(h, color, parent, names)
    decreases |names|
  {
    hide SameEdges, Nodes, UnvisitedNodes, SearchNode;
    if names == [] {
    } else if MarkOf(color, names[0]) != Unvisited {
      SameSearchAll(g, h, color, parent, names[1..]);
    } else {
      SameSearchNode(g, h, color, parent, names[0]);
      var r := SearchNode(g, color, parent, names[0]);
      if r.Miss? { SameSearchAll(g, h, r.color, r.parent, names[1..]); }
    }
  }

  lemma SameCloses(g: Graph, h: Graph, parent: map<Name, Name>, start: Name, cyc: seq<Name>)
    requires SameEdges(g, h) && ClosesAt(h, parent, start, cyc)
    ensures ClosesAt(g, parent, start, cyc)
  {
    forall i | 0 <= i < |cyc| - 1 ensures Link(g, parent, cyc[i], cyc[i + 1]) {
      assert Link(h, parent, cyc[i], cyc[i + 1]);
    }
  }

  /** The cycle that is reported depends only on which job depends on which: reordering the jobs, or
      reordering or repeating entries of a depends_on list, changes nothing, because names and
      dependencies are visited in name order. */
  lemma CycleReportInvariance(jobs: seq<Job>, other: seq<Job>, e: ScheduleError, f: ScheduleError)
    requires UniqueNames(jobs) && UniqueNames(other) && SameEdges(GraphOf(jobs), GraphOf(other))
    requires ReportedBy(GraphOf(jobs), NamesOf(jobs), e) && ReportedBy(GraphOf(other), NamesOf(other), f)
    ensures e == f
  {
    hide GraphOf, SearchAll, ClosesAt, Nodes, SortStrings, UniqueNames, SameEdges, Sorted, Distinct;
    var g, h := GraphOf(jobs), GraphOf(other);
    SameNames(jobs, other);
    SameNodes(g, h);
    SameSearchAll(g, h, map[], map[], SortStrings(NamesOf(jobs)));
    match SearchAll(g, map[], map[], SortStrings(NamesOf(jobs)))
    case Miss(_, _) =>
    case Hit(start, parent) =>
      var a :| ClosesAt(g, parent, start, a) && e.path == a + [start];
      var b :| ClosesAt(h, parent, start, b) && f.path == b + [start];
      SameCloses(g, h, parent, start, b);
      CycleIsUnique(g, parent, start, a, b);
  }

  lemma SameNames(jobs: seq<Job>, other: seq<Job>)
    requires UniqueNames(jobs) && UniqueNames(other) && SameEdges(GraphOf(jobs), GraphOf(other))
    ensures SortStrings(NamesOf(jobs)) == SortStrings(NamesOf(other))
  {
    hide GraphOf, SortStrings, UniqueNames, Sorted, Distinct, Edge;
    GraphKeys(jobs);
    GraphKeys(other);
    NamesAreDistinct(jobs);
    NamesAreDistinct(other);
    DistinctByMultiset(NamesOf(jobs), SortStrings(NamesOf(jobs)));
    DistinctByMultiset(NamesOf(other), SortStrings(NamesOf(other)));
    SortedUnique(SortStrings(NamesOf(jobs)), SortStrings(NamesOf(other)));
  }

  lemma NamesAreDistinct(jobs: seq<Job>)
    requires UniqueNames(jobs)
    ensures Distinct(NamesOf(jobs))
  {
  }

  /** Reordered jobs have the same graph. */
  lemma PermutedJobsSameGraph(jobs: seq<Job>, perm: seq<Job>)
    requires UniqueNames(jobs) && UniqueNames(perm) && forall j :: j in jobs <==> j in perm
    ensures GraphOf(jobs) == GraphOf(perm)
  {
    hide GraphOf, UniqueNames;
    GraphOfUnique(jobs);
    GraphOfUnique(perm);
    forall n | n in GraphOf(jobs) ensures n in GraphOf(perm) && GraphOf(perm)[n] == GraphOf(jobs)[n] {
      var i :| 0 <= i < |jobs| && jobs[i].name == n;
      assert jobs[i] in perm;
    }
    forall n | n in GraphOf(perm) ensures n in GraphOf(jobs) {
      var i :| 0 <= i < |perm| && perm[i].name == n;
      assert perm[i] in jobs;
    }
  }
}
