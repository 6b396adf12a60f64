/** The validated dependency graph the code graph walker traverses, the
    records it builds (instantiations and blocks), the test that promotes a
    dependency to a block of its own, and the stacks the walk keeps. */
module Graphs {
  import opened Models

  /** An in-edge of a node: the node that satisfies one of its injections. */
  datatype Dependency = Dependency(source: nat, injection: Injection)

  /** A validated dependency graph. Nodes are numbered by position; inEdges[n]
      lists the dependencies of node n in injection order and outEdges[n] the
      nodes that consume node n. */
  datatype Graph = Graph(nodes: seq<DependencyNode>, inEdges: seq<seq<Dependency>>, outEdges: seq<seq<nat>>)

  /** A composition root: its node and the injection that requests it. */
  datatype Root = Root(nodeId: nat, injection: Injection)

  /** Building one variable from its argument variables. */
  datatype Instantiation = Instantiation(target: Variable, arguments: seq<Variable>)

  /** A block root and its instantiations in the order they are visited. */
  datatype Block = Block(root: Variable, instantiations: seq<Instantiation>)

  function BindingOf(g: Graph, n: nat): BindingId
    requires n < |g.nodes|
  {
    g.nodes[n].binding
  }

  /** The number of dependencies in deps whose source is node n. */
  function CountSources(deps: seq<Dependency>, n: nat): nat {
    if deps == [] then 0
    else (if deps[0].source == n then 1 else 0) + CountSources(deps[1..], n)
  }

  /** The edges point at existing nodes, every in-edge of t from n appears
      once as t among the out-edges of n, and no two nodes share a binding
      (the walker keys its variables by binding). */
  ghost predicate WellFormed(g: Graph) {
    && |g.inEdges| == |g.nodes|
    && |g.outEdges| == |g.nodes|
    && (forall n, j :: 0 <= n < |g.inEdges| && 0 <= j < |g.inEdges[n]| ==> g.inEdges[n][j].source < |g.nodes|)
    && (forall n, j :: 0 <= n < |g.outEdges| && 0 <= j < |g.outEdges[n]| ==> g.outEdges[n][j] < |g.nodes|)
    && (forall n, t :: 0 <= n < |g.outEdges| && 0 <= t < |g.inEdges| ==>
          multiset(g.outEdges[n])[t] == CountSources(g.inEdges[t], n))
    && (forall n, m {:trigger BindingOf(g, n), BindingOf(g, m)} ::
          0 <= n < |g.nodes| && 0 <= m < |g.nodes| && BindingOf(g, n) == BindingOf(g, m) ==> n == m)
  }

  lemma {:induction false} CountSourcesPositive(deps: seq<Dependency>, n: nat)
    ensures CountSources(deps, n) > 0 <==> exists j :: 0 <= j < |deps| && deps[j].source == n
  {
    if deps != [] {
      CountSourcesPositive(deps[1..], n);
      if exists j :: 0 <= j < |deps[1..]| && deps[1..][j].source == n {
        var j :| 0 <= j < |deps[1..]| && deps[1..][j].source == n;
        assert deps[j + 1] == deps[1..][j];
      }
      if exists j :: 0 <= j < |deps| && deps[j].source == n {
        var j :| 0 <= j < |deps| && deps[j].source == n;
        if j > 0 { assert deps[1..][j - 1] == deps[j]; }
      }
    }
  }

  /** t consumes n exactly when n satisfies one of the injections of t. */
  lemma ConsumerIffDependency(g: Graph, n: nat, t: nat)
    requires WellFormed(g) && n < |g.nodes| && t < |g.nodes|
    ensures t in g.outEdges[n] <==> exists j :: 0 <= j < |g.inEdges[t]| && g.inEdges[t][j].source == n
  {
    CountSourcesPositive(g.inEdges[t], n);
    assert t in g.outEdges[n] <==> t in multiset(g.outEdges[n]);
  }

  /** The walk follows the j-th in-edge of node n (pushes its source on one
      of its stacks) unless n is a factory, which builds its own inline
      dependencies, and the source is not promoted to a block root. */
  predicate Followed(g: Graph, n: nat, j: nat)
    requires WellFormed(g) && n < |g.nodes| && j < |g.inEdges[n]|
  {
    !g.nodes[n].factory || PromotesNode(g, g.inEdges[n][j].source)
  }

  /** The graph has no cycle through followed edges: rank strictly decreases
      along every dependency the walk follows. Cycles through a factory into
      a transient dependency are allowed. The walk keeps no visited set, so
      it terminates only on such graphs. */
  ghost predicate Acyclic(g: Graph, rank: seq<nat>) {
    && WellFormed(g)
    && |rank| == |g.nodes|
    && (forall n, j :: 0 <= n < |g.inEdges| && 0 <= j < |g.inEdges[n]| && Followed(g, n, j) ==>
          rank[g.inEdges[n][j].source] < rank[n])
  }

  // ---------------------------------------------------------------------------
  // Block-root promotion by out-edge weight

  /** A consumer with a factory counts twice: the factory may use the value more than once. */
  function EdgeWeight(g: Graph, t: nat): nat
    requires t < |g.nodes|
  {
    if g.nodes[t].factory then 2 else 1
  }

  function WeightOf(g: Graph, targets: seq<nat>): nat
    requires forall i :: 0 <= i < |targets| ==> targets[i] < |g.nodes|
  {
    if targets == [] then 0 else EdgeWeight(g, targets[0]) + WeightOf(g, targets[1..])
  }

  /** The sum over the out-edges of node n of (2 if the consumer has a factory, else 1). */
  function OutWeight(g: Graph, n: nat): nat
    requires WellFormed(g) && n < |g.nodes|
  {
    WeightOf(g, g.outEdges[n])
  }

  lemma {:induction false} WeightOfBounds(g: Graph, targets: seq<nat>)
    requires forall i :: 0 <= i < |targets| ==> targets[i] < |g.nodes|
    ensures |targets| <= WeightOf(g, targets) <= 2 * |targets|
  {
    if targets != [] {
      WeightOfBounds(g, targets[1..]);
    }
  }

  /** The weight exceeds 1 exactly when the node has at least two consumers,
      or a single consumer that is a factory. */
  lemma SharedIffHeavy(g: Graph, n: nat)
    requires WellFormed(g) && n < |g.nodes|
    ensures OutWeight(g, n) > 1 <==>
      |g.outEdges[n]| >= 2 || (|g.outEdges[n]| == 1 && g.nodes[g.outEdges[n][0]].factory)
  {
    var ts := g.outEdges[n];
    WeightOfBounds(g, ts);
    if |ts| == 1 {
      assert ts[1..] == [];
    }
  }

  /** Promotion by node: a singleton that is not an argument (a block root),
      or a per-resolve node whose out-edges weigh more than 1. */
  predicate PromotesNode(g: Graph, s: nat)
    requires WellFormed(g) && s < |g.nodes|
  {
    var n := g.nodes[s];
    (!n.arg && n.lifetime == Singleton) || (n.lifetime == PerResolve && OutWeight(g, s) > 1)
  }

  /** A variable of a node of the graph; a linked variable shares its
      storage's node, a storage is never itself linked, and the storage is a
      block root exactly for a singleton that is not an argument. */
  ghost predicate InGraph(g: Graph, v: Variable) {
    && v.nodeId < |g.nodes|
    && g.nodes[v.nodeId] == v.node
    && v.Storage().source.None?
    && v.Storage().nodeId == v.nodeId
    && v.Storage().node == v.node
    && v.Storage().isBlockRoot == (!v.node.arg && v.node.lifetime == Singleton)
  }

  ghost predicate AllInGraph(g: Graph, s: seq<Variable>) {
    forall i :: 0 <= i < |s| ==> InGraph(g, s[i])
  }

  /** ProcessVariable's test: the dependency heads a block of its own when it
      is a block root, or when it is per resolve and its out-edges weigh more
      than 1. */
  predicate Promoted(g: Graph, v: Variable)
    requires WellFormed(g) && v.nodeId < |g.nodes|
  {
    v.IsBlockRoot() || (v.node.lifetime == PerResolve && OutWeight(g, v.nodeId) > 1)
  }

  /** On a variable of the graph, promotion depends on its node alone. */
  lemma PromotedByNode(g: Graph, v: Variable)
    requires WellFormed(g) && InGraph(g, v)
    ensures Promoted(g, v) <==> PromotesNode(g, v.nodeId)
  {
  }

  /** The dependencies that ProcessVariable sends to the block-root stack, in order. */
  function PromotedOf(g: Graph, s: seq<Variable>): (r: seq<Variable>)
    requires WellFormed(g) && AllInGraph(g, s)
    ensures AllInGraph(g, r)
  {
    if s == [] then []
    else
      var i := |s| - 1;
      assert AllInGraph(g, s[..i]);
      var rest := PromotedOf(g, s[..i]);
      if Promoted(g, s[i]) then rest + [s[i]] else rest
  }

  /** The dependencies that stay in the current block, in order. */
  function InlineOf(g: Graph, s: seq<Variable>): (r: seq<Variable>)
    requires WellFormed(g) && AllInGraph(g, s)
    ensures AllInGraph(g, r)
  {
    if s == [] then []
    else
      var i := |s| - 1;
      assert AllInGraph(g, s[..i]);
      var rest := InlineOf(g, s[..i]);
      if Promoted(g, s[i]) then rest else rest + [s[i]]
  }

  /** The promoted dependencies are exactly those of s that Promoted selects,
      and the inline ones exactly the others. */
  lemma {:induction false} PartitionMembers(g: Graph, s: seq<Variable>, v: Variable)
    requires WellFormed(g) && AllInGraph(g, s) && InGraph(g, v)
    ensures v in PromotedOf(g, s) <==> v in s && Promoted(g, v)
    ensures v in InlineOf(g, s) <==> v in s && !Promoted(g, v)
  {
    if s != [] {
      var i := |s| - 1;
      assert AllInGraph(g, s[..i]);
      PartitionMembers(g, s[..i], v);
      assert s == s[..i] + [s[i]];
    }
  }

  /** Every dependency goes to exactly one of the two parts. */
  lemma {:induction false} PartitionSizes(g: Graph, s: seq<Variable>)
    requires WellFormed(g) && AllInGraph(g, s)
    ensures |PromotedOf(g, s)| + |InlineOf(g, s)| == |s|
  {
    if s != [] {
      var i := |s| - 1;
      assert AllInGraph(g, s[..i]);
      PartitionSizes(g, s[..i]);
    }
  }

  // ---------------------------------------------------------------------------
  // Stacks

  /** System.Collections.Generic.Stack: Push adds a top, TryPop takes it. */
  datatype Stack<T> = Empty | Push(top: T, rest: Stack<T>)

  /** Pushes the elements of xs in order, so the last one ends on top. */
  function PushAll<T>(xs: seq<T>, s: Stack<T>): Stack<T> {
    if xs == [] then s else Push(xs[|xs| - 1], PushAll(xs[..|xs| - 1], s))
  }

  function Elements<T>(s: Stack<T>): set<T> {
    match s
    case Empty => {}
    case Push(x, r) => {x} + Elements(r)
  }

  /** ToImmutableArray: the elements in pop order, top first. */
  function ToSeq<T>(s: Stack<T>): seq<T> {
    match s
    case Empty => []
    case Push(x, r) => [x] + ToSeq(r)
  }

  lemma {:induction false} PushAllElements<T>(xs: seq<T>, s: Stack<T>)
    ensures Elements(PushAll(xs, s)) == Elements(s) + set x | x in xs
  {
    if xs != [] {
      var i := |xs| - 1;
      PushAllElements(xs[..i], s);
      assert xs == xs[..i] + [xs[i]];
    }
  }

  lemma {:induction false} PushAllSnoc<T>(xs: seq<T>, x: T, s: Stack<T>)
    ensures PushAll(xs + [x], s) == Push(x, PushAll(xs, s))
  {
    assert (xs + [x])[..|xs|] == xs;
  }

  ghost predicate StackInGraph(g: Graph, s: Stack<Variable>) {
    match s
    case Empty => true
    case Push(v, r) => InGraph(g, v) && StackInGraph(g, r)
  }

  lemma {:induction false} PushAllInGraph(g: Graph, xs: seq<Variable>, s: Stack<Variable>)
    requires AllInGraph(g, xs) && StackInGraph(g, s)
    ensures StackInGraph(g, PushAll(xs, s))
  {
    if xs != [] {
      assert AllInGraph(g, xs[..|xs| - 1]);
      PushAllInGraph(g, xs[..|xs| - 1], s);
    }
  }

  // ---------------------------------------------------------------------------
  // Termination measure of the two-stack walk

  /** The number of nodes in the unfolding of node n along the in-edges the walk follows. */
  ghost function TreeSize(g: Graph, rank: seq<nat>, n: nat): nat
    requires Acyclic(g, rank) && n < |g.nodes|
    decreases rank[n], 1
  {
    1 + DepsSize(g, rank, n, |g.inEdges[n]|)
  }

  /** The sum of TreeSize over the followed ones among the first k dependencies of node n. */
  ghost function DepsSize(g: Graph, rank: seq<nat>, n: nat, k: nat): nat
    requires Acyclic(g, rank) && n < |g.nodes| && k <= |g.inEdges[n]|
    decreases rank[n], 0, k
  {
    if k == 0 then 0
    else DepsSize(g, rank, n, k - 1) + (if Followed(g, n, k - 1) then TreeSize(g, rank, g.inEdges[n][k - 1].source) else 0)
  }

  /** The work left on a stack of variables. */
  ghost function Weight(g: Graph, rank: seq<nat>, s: Stack<Variable>): nat
    requires Acyclic(g, rank) && StackInGraph(g, s)
  {
    match s
    case Empty => 0
    case Push(v, r) => TreeSize(g, rank, v.nodeId) + Weight(g, rank, r)
  }
}
