/** The depends_on relation as a directed graph: paths, cycles, rankings and longest chains,
    and the bookkeeping that every depth-first search over it keeps. */
module Graphs {
  import opened Names

  /** A job name mapped to its depends_on list; repeated entries are allowed. */
  type Graph = map<Name, seq<Name>>

  function Deps(g: Graph, n: Name): seq<Name> {
    if n in g then g[n] else []
  }

  /** `a` lists `b` under depends_on. */
  predicate Edge(g: Graph, a: Name, b: Name) {
    b in Deps(g, a)
  }

  ghost predicate IsPath(g: Graph, p: seq<Name>) {
    |p| >= 1 && forall i :: 0 <= i < |p| - 1 ==> Edge(g, p[i], p[i + 1])
  }

  ghost predicate PathFrom(g: Graph, n: Name, p: seq<Name>) {
    IsPath(g, p) && p[0] == n
  }

  /** A closed path: its first node is repeated at its end. */
  ghost predicate IsCycle(g: Graph, p: seq<Name>) {
    |p| >= 2 && IsPath(g, p) && p[0] == p[|p| - 1]
  }

  ghost predicate Cyclic(g: Graph) {
    exists p :: IsCycle(g, p)
  }

  /** `b` is a transitive dependency of `a`. */
  ghost predicate DependsOn(g: Graph, a: Name, b: Name) {
    exists p :: PathFrom(g, a, p) && |p| >= 2 && p[|p| - 1] == b
  }

  /** Every dependency names a node of the graph. */
  ghost predicate Known(g: Graph) {
    forall n, d :: n in g && d in g[n] ==> d in g
  }

  ghost function Nodes(g: Graph): set<Name> {
    g.Keys + set n, d | n in g.Keys && d in g[n] :: d
  }

  // ---------------------------------------------------------------- rankings

  /** A layering: each node sits strictly above all its dependencies. */
  ghost predicate IsRanking(g: Graph, rank: map<Name, nat>) {
    && g.Keys <= rank.Keys
    && forall a, b :: Edge(g, a, b) ==> b in rank && rank[b] < rank[a]
  }

  lemma RankDomain(g: Graph, rank: map<Name, nat>)
    requires IsRanking(g, rank)
    ensures g.Keys <= rank.Keys
  {
  }

  lemma RankEdge(g: Graph, rank: map<Name, nat>, a: Name, b: Name)
    requires IsRanking(g, rank) && Edge(g, a, b) && a in rank
    ensures b in rank && rank[b] < rank[a]
  {
  }

  lemma {:induction false} RankFalls(g: Graph, rank: map<Name, nat>, p: seq<Name>)
    requires IsRanking(g, rank) && IsPath(g, p) && p[0] in rank
    ensures p[|p| - 1] in rank
    ensures rank[p[0]] >= rank[p[|p| - 1]] + |p| - 1
  {
    if |p| <= 1 {
    } else {
      assert Edge(g, p[0], p[1]);
      TailPath(g, p);
      RankFalls(g, rank, p[1..]);
    }
  }

  lemma TailPath(g: Graph, p: seq<Name>)
    requires IsPath(g, p) && |p| > 1
    ensures IsPath(g, p[1..]) && Edge(g, p[0], p[1])
  {
    assert Edge(g, p[0], p[0 + 1]);
    forall i | 0 <= i < |p[1..]| - 1 ensures Edge(g, p[1..][i], p[1..][i + 1]) {
      assert Edge(g, p[i + 1], p[i + 1 + 1]);
    }
  }

  lemma ConsPath(g: Graph, n: Name, p: seq<Name>)
    requires IsPath(g, p) && Edge(g, n, p[0])
    ensures IsPath(g, [n] + p)
  {
    var q := [n] + p;
    forall i | 0 <= i < |q| - 1 ensures Edge(g, q[i], q[i + 1]) {
      if i > 0 { assert Edge(g, p[i - 1], p[i - 1 + 1]); }
    }
  }

  /** A layered graph has no cycle. */
  lemma RankedIsAcyclic(g: Graph, rank: map<Name, nat>)
    requires IsRanking(g, rank)
    ensures !Cyclic(g)
  {
    forall p | IsCycle(g, p) ensures false {
      assert Edge(g, p[0], p[0 + 1]);
      RankFalls(g, rank, p);
    }
  }

  // ----------------------------------------------------------- longest chains

  /** The longest chain of dependencies that starts at `n` has `k` edges. */
  ghost predicate LongestChain(g: Graph, n: Name, k: nat) {
    && (exists p :: PathFrom(g, n, p) && |p| == k + 1)
    && (forall p :: PathFrom(g, n, p) ==> |p| <= k + 1)
  }

  ghost predicate HasChain(g: Graph, n: Name, k: nat) {
    exists p :: PathFrom(g, n, p) && |p| == k + 1
  }

  lemma LongestUnique(g: Graph, n: Name, j: nat, k: nat)
    requires LongestChain(g, n, j) && LongestChain(g, n, k)
    ensures j == k
  {
  }

  lemma ChainOfOne(g: Graph, n: Name)
    ensures HasChain(g, n, 0)
  {
    assert PathFrom(g, n, [n]);
  }

  lemma LongerChain(g: Graph, n: Name, d: Name, k: nat)
    requires Edge(g, n, d) && HasChain(g, d, k)
    ensures HasChain(g, n, k + 1)
  {
    var p :| PathFrom(g, d, p) && |p| == k + 1;
    ConsPath(g, n, p);
    assert PathFrom(g, n, [n] + p);
  }

  /** A node with a chain of length `k` whose dependencies all stop short of `k` sits exactly at `k`. */
  lemma ChainIsLongest(g: Graph, n: Name, k: nat)
    requires HasChain(g, n, k)
    requires forall d :: Edge(g, n, d) ==> exists j: nat :: j < k && LongestChain(g, d, j)
    ensures LongestChain(g, n, k)
  {
    forall p | PathFrom(g, n, p) ensures |p| <= k + 1 {
      if |p| > 1 {
        TailPath(g, p);
        var j: nat :| j < k && LongestChain(g, p[1], j);
        assert PathFrom(g, p[1], p[1..]);
      }
    }
  }

  /** No layering can put a node below the length of its longest chain. */
  lemma RankCoversChain(g: Graph, rank: map<Name, nat>, n: Name, k: nat)
    requires IsRanking(g, rank) && n in rank && LongestChain(g, n, k)
    ensures rank[n] >= k
  {
    var p :| PathFrom(g, n, p) && |p| == k + 1;
    RankFalls(g, rank, p);
  }

  ghost predicate SameEdges(g: Graph, h: Graph) {
    g.Keys == h.Keys && forall a, b :: Edge(g, a, b) <==> Edge(h, a, b)
  }

  lemma SamePaths(g: Graph, h: Graph, n: Name, p: seq<Name>)
    requires SameEdges(g, h)
    ensures PathFrom(g, n, p) <==> PathFrom(h, n, p)
  {
    if |p| >= 1 && p[0] == n {
      if IsPath(g, p) {
        forall i | 0 <= i < |p| - 1 ensures Edge(h, p[i], p[i + 1]) { assert Edge(g, p[i], p[i + 1]); }
      }
      if IsPath(h, p) {
        forall i | 0 <= i < |p| - 1 ensures Edge(g, p[i], p[i + 1]) { assert Edge(h, p[i], p[i + 1]); }
      }
    }
  }

  lemma SameLongest(g: Graph, h: Graph, n: Name, k: nat)
    requires SameEdges(g, h) && LongestChain(g, n, k)
    ensures LongestChain(h, n, k)
  {
    forall p ensures PathFrom(g, n, p) <==> PathFrom(h, n, p) { SamePaths(g, h, n, p); }
    var p :| PathFrom(g, n, p) && |p| == k + 1;
    assert PathFrom(h, n, p);
  }

  // ------------------------------------------------------- depth-first search

  /** The three marks of both searches: white / unvisited, gray / on the stack, black / visited. */
  datatype Mark = Unvisited | InStack | Visited

  /** A Go map of marks: a missing key reads as the zero value. */
  function MarkOf(marks: map<Name, Mark>, n: Name): Mark {
    if n in marks then marks[n] else Unvisited
  }

  /** `a` depends on `b` and is recorded as its parent. */
  ghost predicate Link(g: Graph, parent: map<Name, Name>, a: Name, b: Name) {
    Edge(g, a, b) && b in parent && parent[b] == a
  }

  /** Each stack entry is the parent of the entry above it. */
  ghost predicate IsStack(g: Graph, parent: map<Name, Name>, stack: seq<Name>) {
    && Distinct(stack)
    && forall i :: 0 <= i < |stack| - 1 ==> Link(g, parent, stack[i], stack[i + 1])
  }

  /** `order` lists nodes so that each comes after all its dependencies. */
  ghost predicate IsFinishOrder(g: Graph, order: seq<Name>) {
    Distinct(order) && forall k, d :: 0 <= k < |order| && Edge(g, order[k], d) ==> d in order[..k]
  }

  /** The state of a search: the marked-on-stack nodes form a stack, the visited ones a finish order. */
  ghost predicate IsSearch(g: Graph, marks: map<Name, Mark>, parent: map<Name, Name>,
                           stack: seq<Name>, order: seq<Name>) {
    && IsStack(g, parent, stack)
    && IsFinishOrder(g, order)
    && (forall n :: n in stack <==> MarkOf(marks, n) == InStack)
    && (forall n :: n in order <==> MarkOf(marks, n) == Visited)
  }

  ghost function UnvisitedNodes(g: Graph, marks: map<Name, Mark>): set<Name> {
    set n | n in Nodes(g) && MarkOf(marks, n) == Unvisited
  }

  ghost function Last(s: seq<Name>): Name
    requires s != []
  {
    s[|s| - 1]
  }

  /** `node` may be pushed: it is fresh, and its parent is the top of the stack. */
  ghost predicate CanPush(g: Graph, marks: map<Name, Mark>, parent: map<Name, Name>, stack: seq<Name>, node: Name) {
    && node in Nodes(g)
    && MarkOf(marks, node) == Unvisited
    && (stack != [] ==> Link(g, parent, Last(stack), node))
  }

  lemma Push(g: Graph, marks: map<Name, Mark>, parent: map<Name, Name>, stack: seq<Name>, order: seq<Name>, node: Name)
    requires IsSearch(g, marks, parent, stack, order) && CanPush(g, marks, parent, stack, node)
    ensures IsSearch(g, marks[node := InStack], parent, stack + [node], order)
    ensures UnvisitedNodes(g, marks[node := InStack]) == UnvisitedNodes(g, marks) - {node}
    ensures |UnvisitedNodes(g, marks[node := InStack])| < |UnvisitedNodes(g, marks)|
  {
    var t := stack + [node];
    forall i | 0 <= i < |t| - 1
      ensures Link(g, parent, t[i], t[i + 1])
    {
      if i < |stack| - 1 { assert Link(g, parent, stack[i], stack[i + 1]); }
    }
    assert UnvisitedNodes(g, marks[node := InStack]) == UnvisitedNodes(g, marks) - {node};
    assert node in UnvisitedNodes(g, marks);
  }

  /** Recording a parent for a fresh node leaves the stack alone. */
  lemma Adopt(g: Graph, marks: map<Name, Mark>, parent: map<Name, Name>,
                stack: seq<Name>, order: seq<Name>, node: Name, dep: Name)
    requires IsSearch(g, marks, parent, stack, order) && stack != [] && node == Last(stack)
    requires Edge(g, node, dep) && MarkOf(marks, dep) == Unvisited
    ensures IsSearch(g, marks, parent[dep := node], stack, order)
    ensures CanPush(g, marks, parent[dep := node], stack, dep)
  {
    assert dep in Nodes(g);
    forall i | 0 <= i < |stack| - 1 ensures Link(g, parent[dep := node], stack[i], stack[i + 1]) {
      assert Link(g, parent, stack[i], stack[i + 1]) && stack[i + 1] in stack;
    }
  }

  lemma Pop(g: Graph, marks: map<Name, Mark>, parent: map<Name, Name>, stack: seq<Name>, order: seq<Name>, node: Name)
    requires IsSearch(g, marks, parent, stack + [node], order)
    requires forall d :: Edge(g, node, d) ==> d in order
    ensures IsSearch(g, marks[node := Visited], parent, stack, order + [node])
    ensures UnvisitedNodes(g, marks[node := Visited]) == UnvisitedNodes(g, marks)
  {
    var t := stack + [node];
    assert t[|stack|] == node && node in t;
    forall i | 0 <= i < |stack| - 1
      ensures Link(g, parent, stack[i], stack[i + 1])
    {
      assert Link(g, parent, t[i], t[i + 1]);
    }
    forall n | n in stack ensures n in t && n != node {
      var i :| 0 <= i < |stack| && stack[i] == n;
      assert t[i] == n;
    }
    assert Distinct(stack) by {
      forall i, j | 0 <= i < j < |stack| ensures stack[i] != stack[j] { assert t[i] != t[j]; }
    }
    assert forall n :: n in t ==> n in stack || n == node;
    PopOrder(g, order, node);
    assert forall n :: n in order + [node] <==> n in order || n == node;
  }

  lemma PopOrder(g: Graph, order: seq<Name>, node: Name)
    requires IsFinishOrder(g, order) && node !in order
    requires forall d :: Edge(g, node, d) ==> d in order
    ensures IsFinishOrder(g, order + [node])
  {
    var o := order + [node];
    forall k, d | 0 <= k < |o| && Edge(g, o[k], d) ensures d in o[..k] {
      if k < |order| { assert o[..k] == order[..k]; } else { assert o[..k] == order; }
    }
  }

  /** The nodes of `cyc`, each the parent of the next, with the last the parent of the first. */
  ghost predicate ClosesAt(g: Graph, parent: map<Name, Name>, start: Name, cyc: seq<Name>) {
    && cyc != [] && cyc[0] == start
    && IsStack(g, parent, cyc)
    && Link(g, parent, Last(cyc), start)
  }

  /** An edge from the top of the stack back into it cuts out a cycle. */
  lemma BackEdge(g: Graph, parent: map<Name, Name>, stack: seq<Name>, k: nat)
    requires IsStack(g, parent, stack) && k < |stack| && Edge(g, Last(stack), stack[k])
    ensures ClosesAt(g, parent[stack[k] := Last(stack)], stack[k], stack[k..])
  {
    var cyc := stack[k..];
    forall i | 0 <= i < |cyc| - 1
      ensures Link(g, parent[stack[k] := Last(stack)], cyc[i], cyc[i + 1])
    {
      assert Link(g, parent, stack[k + i], stack[k + i + 1]);
    }
  }

  /** Meeting a dependency that is on the stack closes a cycle once its parent is set to the top. */
  lemma CloseCycle(g: Graph, marks: map<Name, Mark>, parent: map<Name, Name>,
                     stack: seq<Name>, order: seq<Name>, node: Name, dep: Name)
    returns (cyc: seq<Name>)
    requires IsSearch(g, marks, parent, stack, order) && stack != [] && node == Last(stack)
    requires Edge(g, node, dep) && MarkOf(marks, dep) == InStack
    ensures ClosesAt(g, parent[dep := node], dep, cyc)
  {
    var k :| 0 <= k < |stack| && stack[k] == dep;
    BackEdge(g, parent, stack, k);
    cyc := stack[k..];
  }

  lemma VisitedIsFinished(g: Graph, marks: map<Name, Mark>, parent: map<Name, Name>, stack: seq<Name>, order: seq<Name>)
    requires IsSearch(g, marks, parent, stack, order)
    ensures forall n :: MarkOf(marks, n) == Visited <==> n in order
    ensures IsFinishOrder(g, order)
  {
  }

  ghost function IndexIn(order: seq<Name>, n: Name): (i: nat)
    requires n in order
    ensures i < |order| && order[i] == n
  {
    var i :| 0 <= i < |order| && order[i] == n;
    i
  }

  /** A finish order that covers the graph is a ranking. */
  lemma FinishOrderRanks(g: Graph, order: seq<Name>) returns (rank: map<Name, nat>)
    requires IsFinishOrder(g, order) && forall n :: n in g ==> n in order
    ensures IsRanking(g, rank)
  {
    rank := map n | n in order :: IndexIn(order, n);
    forall a, b | Edge(g, a, b) ensures b in rank && rank[b] < rank[a] {
      var k := IndexIn(order, a);
      assert b in order[..k];
      var j :| 0 <= j < k && order[j] == b;
      assert IndexIn(order, b) == j;
    }
  }

  lemma FinishOrderIsAcyclic(g: Graph, order: seq<Name>)
    requires IsFinishOrder(g, order) && forall n :: n in g ==> n in order
    ensures !Cyclic(g)
  {
    var rank := FinishOrderRanks(g, order);
    RankedIsAcyclic(g, rank);
  }

  // ------------------------------------------------- acyclic graphs are layered

  /** `n` has a dependency inside `s`. */
  ghost predicate Waits(g: Graph, s: set<Name>, n: Name) {
    exists d :: Edge(g, n, d) && d in s
  }

  lemma WaitsFor(g: Graph, s: set<Name>, n: Name) returns (d: Name)
    requires Waits(g, s, n)
    ensures Edge(g, n, d) && d in s
  {
    d :| Edge(g, n, d) && d in s;
  }

  /** Where everybody waits for somebody inside `s`, one can walk on inside `s` for ever. */
  lemma {:induction false} WalkInside(g: Graph, s: set<Name>, n: Name, k: nat) returns (p: seq<Name>)
    requires n in s && forall m :: m in s ==> Waits(g, s, m)
    ensures PathFrom(g, n, p) && |p| == k + 1 && Elements(p) <= s
    decreases k
  {
    hide Waits;
    if k == 0 {
      p := [n];
    } else {
      var d := WaitsFor(g, s, n);
      p := WalkInside(g, s, d, k - 1);
      ConsPath(g, n, p);
      p := [n] + p;
    }
  }

  lemma Repetition<T>(p: seq<T>) returns (i: nat, k: nat)
    requires !Distinct(p)
    ensures i < k < |p| && p[i] == p[k]
  {
    i, k :| 0 <= i < k < |p| && p[i] == p[k];
  }

  lemma CutCycle(g: Graph, p: seq<Name>, i: nat, k: nat)
    requires IsPath(g, p) && i < k < |p| && p[i] == p[k]
    ensures IsCycle(g, p[i..k + 1])
  {
    var q := p[i..k + 1];
    forall m | 0 <= m < |q| - 1 ensures Edge(g, q[m], q[m + 1]) {
      assert Edge(g, p[i + m], p[i + m + 1]);
    }
  }

  /** So the walk comes back to a node: a graph where everybody waits is cyclic. */
  lemma AllWaitingIsCyclic(g: Graph, s: set<Name>)
    requires s != {} && forall n :: n in s ==> Waits(g, s, n)
    ensures Cyclic(g)
  {
    hide Waits;
    var n :| n in s;
    var p := WalkInside(g, s, n, |s|);
    if Distinct(p) {
      DistinctSize(p);
      SubsetSize(Elements(p), s);
      assert false;
    } else {
      var i, k := Repetition(p);
      CutCycle(g, p, i, k);
    }
  }

  /** Somebody waits for nobody, in an acyclic graph. */
  lemma FreeNode(g: Graph, s: set<Name>) returns (n: Name)
    requires !Cyclic(g) && s != {}
    ensures n in s && !Waits(g, s, n)
  {
    hide Cyclic, Waits;
    if forall m :: m in s ==> Waits(g, s, m) { AllWaitingIsCyclic(g, s); }
    n :| n in s && !Waits(g, s, n);
  }

  /** An acyclic graph can be put in a finish order, by taking a free node again and again. */
  lemma {:induction false} GrowOrder(g: Graph, order: seq<Name>) returns (all: seq<Name>)
    requires Known(g) && !Cyclic(g) && IsFinishOrder(g, order) && Elements(order) <= g.Keys
    ensures IsFinishOrder(g, all) && forall n :: n in g ==> n in all
    decreases |g.Keys - Elements(order)|
  {
    hide Cyclic, IsFinishOrder, Waits, Known;
    var left := g.Keys - Elements(order);
    if left == {} {
      all := order;
      assert forall n :: n in g ==> n in Elements(order);
    } else {
      var n := FreeNode(g, left);
      DepsNotLeft(g, order, n);
      PopOrder(g, order, n);
      assert Elements(order + [n]) == Elements(order) + {n};
      assert g.Keys - Elements(order + [n]) == left - {n};
      all := GrowOrder(g, order + [n]);
    }
  }

  lemma DepsNotLeft(g: Graph, order: seq<Name>, n: Name)
    requires Known(g) && n in g && !Waits(g, g.Keys - Elements(order), n)
    ensures forall d :: Edge(g, n, d) ==> d in order
  {
  }

  lemma EmptyOrder(g: Graph)
    ensures IsFinishOrder(g, [])
  {
  }

  /** The converse of RankedIsAcyclic: an acyclic graph of known dependencies is layered. */
  lemma AcyclicIsRanked(g: Graph) returns (rank: map<Name, nat>)
    requires Known(g) && !Cyclic(g)
    ensures IsRanking(g, rank)
  {
    hide Cyclic, Known, IsFinishOrder;
    EmptyOrder(g);
    var order := GrowOrder(g, []);
    rank := FinishOrderRanks(g, order);
  }
}
