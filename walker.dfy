/** The code graph walker: for each composition root it allocates variables
    under the lifetime rules, walks the dependency graph with a stack of block
    roots and a stack of targets, and hands the resulting blocks of
    instantiations to the visit callbacks, which are recorded as events. */
module Walker {
  import opened Models
  import opened Sorting
  import opened Graphs
  import opened Visits

  // ---------------------------------------------------------------------------
  // Properties of the blocks the walk builds

  /** An instantiation of a node of the graph with one argument per in-edge,
      in edge order. */
  ghost predicate Matches(g: Graph, inst: Instantiation)
    requires WellFormed(g)
  {
    && InGraph(g, inst.target)
    && AllInGraph(g, inst.arguments)
    && |inst.arguments| == |g.inEdges[inst.target.nodeId]|
    && forall k :: 0 <= k < |inst.arguments| ==> inst.arguments[k].nodeId == g.inEdges[inst.target.nodeId][k].source
  }

  ghost predicate AllMatch(g: Graph, insts: seq<Instantiation>)
    requires WellFormed(g)
  {
    forall i :: 0 <= i < |insts| ==> Matches(g, insts[i])
  }

  /** The arguments that the target builds in its own block (the inline ones,
      unless the target is a factory, which builds its own) are in done. */
  ghost predicate InlineArgumentsIn(g: Graph, inst: Instantiation, done: set<Variable>)
    requires WellFormed(g) && Matches(g, inst)
  {
    forall k :: 0 <= k < |inst.arguments| && !inst.target.node.factory && !Promoted(g, inst.arguments[k]) ==>
      inst.arguments[k] in done
  }

  /** The promoted arguments of the instantiation are in done. */
  ghost predicate PromotedArgumentsIn(g: Graph, inst: Instantiation, done: set<Variable>)
    requires WellFormed(g) && Matches(g, inst)
  {
    forall k :: 0 <= k < |inst.arguments| && Promoted(g, inst.arguments[k]) ==> inst.arguments[k] in done
  }

  /** Dependencies first: visiting insts in order, the inline arguments of
      each instantiation are targets of earlier ones, or in outside. */
  ghost predicate DependenciesFirst(g: Graph, insts: seq<Instantiation>, outside: set<Variable>)
    requires WellFormed(g) && AllMatch(g, insts)
  {
    insts != [] ==>
      && InlineArgumentsIn(g, insts[0], outside)
      && DependenciesFirst(g, insts[1..], outside + {insts[0].target})
  }

  /** The promoted arguments of every instantiation of the block are in done. */
  ghost predicate BlockPromotedIn(g: Graph, b: Block, done: set<Variable>)
    requires WellFormed(g) && AllMatch(g, b.instantiations)
  {
    forall i :: 0 <= i < |b.instantiations| ==> PromotedArgumentsIn(g, b.instantiations[i], done)
  }

  /** Visiting blocks in order, the promoted arguments in each block are
      roots of earlier blocks, or in outside. */
  ghost predicate BlockRootsFirst(g: Graph, blocks: seq<Block>, outside: set<Variable>)
    requires WellFormed(g) && forall p :: 0 <= p < |blocks| ==> AllMatch(g, blocks[p].instantiations)
  {
    blocks != [] ==>
      && BlockPromotedIn(g, blocks[0], outside)
      && BlockRootsFirst(g, blocks[1..], outside + {blocks[0].root})
  }

  /** A block of the walk: it ends with the instantiation of its own root,
      its instantiations match the graph, and every inline dependency is
      instantiated before it is used. */
  ghost predicate WellBuilt(g: Graph, b: Block)
    requires WellFormed(g)
  {
    && b.instantiations != []
    && b.instantiations[|b.instantiations| - 1].target == b.root
    && AllMatch(g, b.instantiations)
    && DependenciesFirst(g, b.instantiations, {})
  }

  ghost predicate AllWellBuilt(g: Graph, blocks: seq<Block>)
    requires WellFormed(g)
  {
    forall p :: 0 <= p < |blocks| ==> WellBuilt(g, blocks[p])
  }

  /** No storage of the map is flagged as created. */
  predicate NoneCreated(flags: map<Variable, bool>) {
    forall u :: u in flags ==> !flags[u]
  }

  /** Variables none of which is created give flags none of which is set. */
  lemma NoneCreatedOf(variables: map<BindingId, Variable>)
    requires forall b :: b in variables ==> !variables[b].created
    ensures NoneCreated(CreatedMap(variables.Values))
  {
    forall u | u in variables.Values
      ensures !u.created
    {
      var b :| b in variables && variables[b] == u;
    }
  }

  /** The blocks of one composition root: the last one is the root's own,
      every one is well built and block roots come before their uses. */
  ghost predicate RootWalked(g: Graph, blocks: seq<Block>, nodeId: nat)
    requires WellFormed(g)
  {
    && blocks != [] && blocks[|blocks| - 1].root.nodeId == nodeId
    && AllWellBuilt(g, blocks) && BlockRootsFirst(g, blocks, {})
  }

  /** The first n roots are walked: each has its blocks, its created set and
      its entry flags, and every root after the first starts uncreated. */
  ghost predicate RootsWalked(g: Graph, roots: seq<Root>, blocks: seq<seq<Block>>, created: seq<set<Variable>>,
                              flags: seq<map<Variable, bool>>, n: nat)
    requires WellFormed(g)
  {
    && n <= |roots| && |blocks| == n && |created| == n && |flags| == n
    && (forall k :: 0 <= k < n ==> RootWalked(g, blocks[k], roots[k].nodeId))
    && (forall k :: 0 <= k < n ==> CreatedAsFlagged(blocks[k], created[k], BlocksMarked(blocks[k]), flags[k]))
    && (forall k :: 0 < k < n ==> NoneCreated(flags[k]))
  }

  /** One more root walked extends the record and its events. */
  lemma RootsStep(g: Graph, roots: seq<Root>, blocks: seq<seq<Block>>, created: seq<set<Variable>>,
                  flags: seq<map<Variable, bool>>, visited: seq<Block>, c: set<Variable>, f: map<Variable, bool>)
    requires WellFormed(g) && RootsWalked(g, roots, blocks, created, flags, |blocks|) && |blocks| < |roots|
    requires RootWalked(g, visited, roots[|blocks|].nodeId)
    requires CreatedAsFlagged(visited, c, BlocksMarked(visited), f)
    requires blocks != [] ==> NoneCreated(f)
    ensures RootsWalked(g, roots, blocks + [visited], created + [c], flags + [f], |blocks| + 1)
    ensures RootsEvents(blocks + [visited], created + [c]) == RootsEvents(blocks, created) + BlocksEvents(visited, c)
    ensures (flags + [f])[0] == if blocks == [] then f else flags[0]
  {
    var n := |blocks|;
    var nb, nc, nf := blocks + [visited], created + [c], flags + [f];
    assert nb[..n] == blocks && nc[..n] == created;
    forall k | 0 <= k <= n
      ensures RootWalked(g, nb[k], roots[k].nodeId)
      ensures CreatedAsFlagged(nb[k], nc[k], BlocksMarked(nb[k]), nf[k])
      ensures 0 < k ==> NoneCreated(nf[k])
    {
      if k < n {
        assert nb[k] == blocks[k] && nc[k] == created[k] && nf[k] == flags[k];
      }
    }
  }

  lemma {:induction false} DependenciesFirstMonotone(g: Graph, insts: seq<Instantiation>, a: set<Variable>, b: set<Variable>)
    requires WellFormed(g) && AllMatch(g, insts) && a <= b
    requires DependenciesFirst(g, insts, a)
    ensures DependenciesFirst(g, insts, b)
  {
    if insts != [] {
      assert AllMatch(g, insts[1..]);
      DependenciesFirstMonotone(g, insts[1..], a + {insts[0].target}, b + {insts[0].target});
    }
  }

  lemma {:induction false} BlockRootsFirstMonotone(g: Graph, blocks: seq<Block>, a: set<Variable>, b: set<Variable>)
    requires WellFormed(g) && forall p :: 0 <= p < |blocks| ==> AllMatch(g, blocks[p].instantiations)
    requires a <= b && BlockRootsFirst(g, blocks, a)
    ensures BlockRootsFirst(g, blocks, b)
  {
    if blocks != [] {
      BlockRootsFirstMonotone(g, blocks[1..], a + {blocks[0].root}, b + {blocks[0].root});
    }
  }

  /** Instantiating the top t of the target stack: the new instantiation is
      visited first, so its inline arguments must still be pending, and the
      older ones may now rely on t. */
  lemma PushInstantiation(g: Graph, x: Instantiation, insts: seq<Instantiation>, t: Variable,
                          pending: set<Variable>, pending': set<Variable>, roots: set<Variable>, roots': set<Variable>)
    requires WellFormed(g) && Matches(g, x) && AllMatch(g, insts) && x.target == t
    requires DependenciesFirst(g, insts, pending) && pending <= pending' + {t}
    requires InlineArgumentsIn(g, x, pending')
    requires forall i :: 0 <= i < |insts| ==> PromotedArgumentsIn(g, insts[i], roots)
    requires PromotedArgumentsIn(g, x, roots') && roots <= roots'
    ensures AllMatch(g, [x] + insts)
    ensures DependenciesFirst(g, [x] + insts, pending')
    ensures forall i :: 0 <= i < |[x] + insts| ==> PromotedArgumentsIn(g, ([x] + insts)[i], roots')
  {
    var s := [x] + insts;
    assert s[1..] == insts;
    DependenciesFirstMonotone(g, insts, pending, pending' + {t});
    forall i | 0 <= i < |s| ensures PromotedArgumentsIn(g, s[i], roots') {
      if i > 0 { assert s[i] == insts[i - 1]; }
    }
  }

  /** Finishing the block of root c: it is visited before the blocks built so
      far, so its promoted arguments must still be pending. */
  lemma PushBlock(g: Graph, b: Block, blocks: seq<Block>, c: Variable, pending: set<Variable>, pending': set<Variable>)
    requires WellFormed(g) && b.root == c && WellBuilt(g, b) && AllWellBuilt(g, blocks)
    requires BlockRootsFirst(g, blocks, pending) && pending <= pending' + {c}
    requires BlockPromotedIn(g, b, pending')
    ensures AllWellBuilt(g, [b] + blocks)
    ensures BlockRootsFirst(g, [b] + blocks, pending')
  {
    var s := [b] + blocks;
    assert s[1..] == blocks;
    BlockRootsFirstMonotone(g, blocks, pending, pending' + {c});
  }

  // ---------------------------------------------------------------------------
  // Steps of the walk

  /** One more argument v: it goes on the block-root stack when promoted and
      on the target stack otherwise. */
  lemma ArgumentStep(g: Graph, s: seq<Variable>, v: Variable, blockRoots: Stack<Variable>, targets: Stack<Variable>)
    requires WellFormed(g) && AllInGraph(g, s) && InGraph(g, v)
    ensures AllInGraph(g, s + [v])
    ensures PushAll(PromotedOf(g, s + [v]), blockRoots) ==
      if Promoted(g, v) then Push(v, PushAll(PromotedOf(g, s), blockRoots)) else PushAll(PromotedOf(g, s), blockRoots)
    ensures PushAll(InlineOf(g, s + [v]), targets) ==
      if Promoted(g, v) then PushAll(InlineOf(g, s), targets) else Push(v, PushAll(InlineOf(g, s), targets))
  {
    assert (s + [v])[..|s|] == s;
    PushAllSnoc(PromotedOf(g, s), v, blockRoots);
    PushAllSnoc(InlineOf(g, s), v, targets);
  }

  /** The arguments so far are variables of the sources of the first edges, in order. */
  ghost predicate FromSources(arguments: seq<Variable>, edges: seq<Dependency>) {
    |arguments| <= |edges| && forall j :: 0 <= j < |arguments| ==> arguments[j].nodeId == edges[j].source
  }

  lemma FromSourcesSnoc(arguments: seq<Variable>, edges: seq<Dependency>, v: Variable)
    requires FromSources(arguments, edges) && |arguments| < |edges| && v.nodeId == edges[|arguments|].source
    ensures FromSources(arguments + [v], edges)
  {
    var s := arguments + [v];
    forall j | 0 <= j < |s| ensures s[j].nodeId == edges[j].source {
      if j < |arguments| { assert s[j] == arguments[j]; }
    }
  }

  /** The state of InstantiateTarget after the first |arguments| in-edges of
      target: one argument per edge so far, the promoted ones pushed on top of
      br0 and the inline ones on top of ts0, and the work left bounded by the
      work the remaining edges can add. */
  ghost predicate Argued(g: Graph, rank: seq<nat>, target: Variable, br0: Stack<Variable>, ts0: Stack<Variable>,
                         arguments: seq<Variable>, br: Stack<Variable>, ts: Stack<Variable>)
    requires Acyclic(g, rank) && InGraph(g, target) && StackInGraph(g, br0) && StackInGraph(g, ts0)
  {
    var t := target.nodeId;
    && FromSources(arguments, g.inEdges[t])
    && AllInGraph(g, arguments) && StackInGraph(g, br) && StackInGraph(g, ts)
    && br == PushAll(PromotedOf(g, arguments), br0)
    && ts == (if target.node.factory then ts0 else PushAll(InlineOf(g, arguments), ts0))
    && Weight(g, rank, br) + Weight(g, rank, ts) <= Weight(g, rank, br0) + Weight(g, rank, ts0) + DepsSize(g, rank, t, |arguments|)
  }

  /** Adding the argument for the next in-edge keeps Argued. */
  lemma ArguedStep(g: Graph, rank: seq<nat>, target: Variable, br0: Stack<Variable>, ts0: Stack<Variable>,
                   arguments: seq<Variable>, br: Stack<Variable>, ts: Stack<Variable>, v: Variable)
    requires Acyclic(g, rank) && InGraph(g, target) && StackInGraph(g, br0) && StackInGraph(g, ts0)
    requires Argued(g, rank, target, br0, ts0, arguments, br, ts) && |arguments| < |g.inEdges[target.nodeId]|
    requires InGraph(g, v) && v.nodeId == g.inEdges[target.nodeId][|arguments|].source
    ensures Argued(g, rank, target, br0, ts0, arguments + [v],
                   if Promoted(g, v) then Push(v, br) else br,
                   if !Promoted(g, v) && !target.node.factory then Push(v, ts) else ts)
  {
    var t, k := target.nodeId, |arguments|;
    ArgumentStep(g, arguments, v, br0, ts0);
    FromSourcesSnoc(arguments, g.inEdges[t], v);
    var br', ts' := if Promoted(g, v) then Push(v, br) else br, if !Promoted(g, v) && !target.node.factory then Push(v, ts) else ts;
    var grown := if Followed(g, t, k) then TreeSize(g, rank, v.nodeId) else 0;
    assert DepsSize(g, rank, t, k + 1) == DepsSize(g, rank, t, k) + grown;
    PromotedByNode(g, v);
    if Promoted(g, v) {
      assert Followed(g, t, k);
      assert Weight(g, rank, br') == TreeSize(g, rank, v.nodeId) + Weight(g, rank, br) && ts' == ts;
    } else if !target.node.factory {
      assert Followed(g, t, k);
      assert Weight(g, rank, ts') == TreeSize(g, rank, v.nodeId) + Weight(g, rank, ts) && br' == br;
    } else {
      assert br' == br && ts' == ts;
    }
    assert Weight(g, rank, br') + Weight(g, rank, ts') <= Weight(g, rank, br) + Weight(g, rank, ts) + grown;
  }

  /** After the last in-edge the instantiation matches the graph and the
      work left has dropped by at least the target itself. */
  lemma ArguedAll(g: Graph, rank: seq<nat>, target: Variable, br0: Stack<Variable>, ts0: Stack<Variable>,
                  arguments: seq<Variable>, br: Stack<Variable>, ts: Stack<Variable>)
    requires Acyclic(g, rank) && InGraph(g, target) && StackInGraph(g, br0) && StackInGraph(g, ts0)
    requires Argued(g, rank, target, br0, ts0, arguments, br, ts) && |arguments| == |g.inEdges[target.nodeId]|
    ensures Matches(g, Instantiation(target, arguments))
    ensures Weight(g, rank, br) + Weight(g, rank, ts) < Weight(g, rank, br0) + Weight(g, rank, ts0) + TreeSize(g, rank, target.nodeId)
  {
  }

  /** The state of the inner loop of VisitRootVariable while it builds the
      block of c on top of the block-root stack br0: the instantiations so
      far (top first, as they will be visited) match the graph, rely only on
      pending targets and pending block roots, end with the instantiation of
      c, and the work left has not grown. */
  ghost predicate Building(g: Graph, rank: seq<nat>, c: Variable, br0: Stack<Variable>,
                           insts: Stack<Instantiation>, targets: Stack<Variable>, br: Stack<Variable>)
    requires Acyclic(g, rank) && InGraph(g, c) && StackInGraph(g, br0)
  {
    var s := ToSeq(insts);
    && StackInGraph(g, targets) && StackInGraph(g, br)
    && AllMatch(g, s)
    && DependenciesFirst(g, s, Elements(targets))
    && (forall i :: 0 <= i < |s| ==> PromotedArgumentsIn(g, s[i], Elements(br)))
    && Elements(br0) <= Elements(br)
    && (insts == Empty ==> targets == Push(c, Empty) && br == br0)
    && (insts != Empty ==> s[|s| - 1].target == c)
    && Weight(g, rank, br) + Weight(g, rank, targets) + (if insts == Empty then 0 else 1)
       <= Weight(g, rank, br0) + TreeSize(g, rank, c.nodeId)
  }

  lemma {:induction false} ToSeqLength<T>(s: Stack<T>)
    ensures |ToSeq(s)| == 0 <==> s == Empty
  {
  }

  /** Once an instantiation of t is pushed, its promoted arguments are on
      the block-root stack and, unless t is a factory, its inline arguments
      on the target stack. */
  lemma ArgumentsPlaced(g: Graph, inst: Instantiation, rest: Stack<Variable>, br: Stack<Variable>,
                        br': Stack<Variable>, ts': Stack<Variable>)
    requires WellFormed(g) && Matches(g, inst)
    requires br' == PushAll(PromotedOf(g, inst.arguments), br)
    requires ts' == (if inst.target.node.factory then rest else PushAll(InlineOf(g, inst.arguments), rest))
    ensures Elements(br) <= Elements(br') && Elements(rest) <= Elements(ts')
    ensures PromotedArgumentsIn(g, inst, Elements(br'))
    ensures InlineArgumentsIn(g, inst, Elements(ts'))
  {
    PushAllElements(PromotedOf(g, inst.arguments), br);
    PushAllElements(InlineOf(g, inst.arguments), rest);
    forall k | 0 <= k < |inst.arguments| && Promoted(g, inst.arguments[k])
      ensures inst.arguments[k] in Elements(br')
    {
      PartitionMembers(g, inst.arguments, inst.arguments[k]);
    }
    forall k | 0 <= k < |inst.arguments| && !inst.target.node.factory && !Promoted(g, inst.arguments[k])
      ensures inst.arguments[k] in Elements(ts')
    {
      PartitionMembers(g, inst.arguments, inst.arguments[k]);
    }
  }

  /** Building once the instantiations are not empty. */
  lemma BuildingIntro(g: Graph, rank: seq<nat>, c: Variable, br0: Stack<Variable>,
                      insts: Stack<Instantiation>, targets: Stack<Variable>, br: Stack<Variable>, s: seq<Instantiation>)
    requires Acyclic(g, rank) && InGraph(g, c) && StackInGraph(g, br0)
    requires s == ToSeq(insts) && insts != Empty && s != []
    requires StackInGraph(g, targets) && StackInGraph(g, br)
    requires AllMatch(g, s) && DependenciesFirst(g, s, Elements(targets))
    requires forall i :: 0 <= i < |s| ==> PromotedArgumentsIn(g, s[i], Elements(br))
    requires Elements(br0) <= Elements(br) && s[|s| - 1].target == c
    requires Weight(g, rank, br) + Weight(g, rank, targets) + 1 <= Weight(g, rank, br0) + TreeSize(g, rank, c.nodeId)
    ensures Building(g, rank, c, br0, insts, targets, br)
  {
  }

  /** Popping t and instantiating it keeps Building. */
  lemma BuildingStep(g: Graph, rank: seq<nat>, c: Variable, br0: Stack<Variable>, insts: Stack<Instantiation>,
                     t: Variable, rest: Stack<Variable>, br: Stack<Variable>,
                     inst: Instantiation, br': Stack<Variable>, ts': Stack<Variable>)
    requires Acyclic(g, rank) && InGraph(g, c) && StackInGraph(g, br0)
    requires Building(g, rank, c, br0, insts, Push(t, rest), br)
    requires inst.target == t && Matches(g, inst)
    requires br' == PushAll(PromotedOf(g, inst.arguments), br)
    requires ts' == (if t.node.factory then rest else PushAll(InlineOf(g, inst.arguments), rest))
    requires StackInGraph(g, br') && StackInGraph(g, ts')
    requires Weight(g, rank, br') + Weight(g, rank, ts') < Weight(g, rank, br) + Weight(g, rank, rest) + TreeSize(g, rank, t.nodeId)
    ensures Building(g, rank, c, br0, Push(inst, insts), ts', br')
  {
    var s := ToSeq(insts);
    var s' := [inst] + s;
    assert ToSeq(Push(inst, insts)) == s';
    ArgumentsPlaced(g, inst, rest, br, br', ts');
    assert Weight(g, rank, br') + Weight(g, rank, ts') + 1 <= Weight(g, rank, br0) + TreeSize(g, rank, c.nodeId) by {
      assert Weight(g, rank, Push(t, rest)) == TreeSize(g, rank, t.nodeId) + Weight(g, rank, rest);
    }
    PushInstantiation(g, inst, s, t, Elements(Push(t, rest)), Elements(ts'), Elements(br), Elements(br'));
    assert s'[|s'| - 1].target == c by {
      if insts != Empty {
        ToSeqLength(insts);
        assert s'[|s'| - 1] == s[|s| - 1];
      }
    }
    BuildingIntro(g, rank, c, br0, Push(inst, insts), ts', br', s');
  }

  /** The target stack is empty: the block of c is complete. */
  lemma BuildingDone(g: Graph, rank: seq<nat>, c: Variable, br0: Stack<Variable>,
                     insts: Stack<Instantiation>, br: Stack<Variable>)
    requires Acyclic(g, rank) && InGraph(g, c) && StackInGraph(g, br0)
    requires Building(g, rank, c, br0, insts, Empty, br)
    ensures WellBuilt(g, Block(c, ToSeq(insts)))
    ensures BlockPromotedIn(g, Block(c, ToSeq(insts)), Elements(br))
    ensures Weight(g, rank, br) < Weight(g, rank, br0) + TreeSize(g, rank, c.nodeId)
  {
    ToSeqLength(insts);
  }

  /** The state of the outer loop of VisitRootVariable: the blocks built so
      far (top first, as they will be visited) are well built, rely only on
      pending block roots, and end with the block of the root variable. */
  ghost predicate Walked(g: Graph, rootVariable: Variable, blocks: Stack<Block>, blockRoots: Stack<Variable>)
    requires WellFormed(g)
  {
    var s := ToSeq(blocks);
    && StackInGraph(g, blockRoots)
    && AllWellBuilt(g, s)
    && BlockRootsFirst(g, s, Elements(blockRoots))
    && (blocks == Empty ==> blockRoots == Push(rootVariable, Empty))
    && (blocks != Empty ==> s[|s| - 1].root == rootVariable)
  }

  /** Building the block of the popped root c keeps Walked. */
  lemma WalkedStep(g: Graph, rootVariable: Variable, blocks: Stack<Block>, c: Variable, rest: Stack<Variable>,
                   b: Block, br': Stack<Variable>)
    requires WellFormed(g) && Walked(g, rootVariable, blocks, Push(c, rest))
    requires b.root == c && WellBuilt(g, b) && BlockPromotedIn(g, b, Elements(br'))
    requires Elements(rest) <= Elements(br') && StackInGraph(g, br')
    ensures Walked(g, rootVariable, Push(b, blocks), br')
  {
    var s := ToSeq(blocks);
    assert ToSeq(Push(b, blocks)) == [b] + s;
    PushBlock(g, b, s, c, Elements(Push(c, rest)), Elements(br'));
    if blocks != Empty {
      ToSeqLength(blocks);
    }
  }

  /** The storages of the targets of the blocks that are created. */
  ghost function CreatedOf(blocks: seq<Block>): (created: set<Variable>)
    reads set p, i | 0 <= p < |blocks| && 0 <= i < |blocks[p].instantiations| :: blocks[p].instantiations[i].target.Storage()
    ensures forall p, i :: 0 <= p < |blocks| && 0 <= i < |blocks[p].instantiations| ==>
        (blocks[p].instantiations[i].target.IsCreated() <==> blocks[p].instantiations[i].target.Storage() in created)
  {
    set p, i | 0 <= p < |blocks| && 0 <= i < |blocks[p].instantiations| && blocks[p].instantiations[i].target.IsCreated()
      :: blocks[p].instantiations[i].target.Storage()
  }

  // ---------------------------------------------------------------------------
  // Created flags during the walk

  /** The storages of the variables of vs. */
  ghost function Storages(vs: seq<Variable>): set<Variable> {
    set k | 0 <= k < |vs| :: vs[k].Storage()
  }

  lemma StoragesSnoc(vs: seq<Variable>, v: Variable)
    ensures Storages(vs + [v]) == Storages(vs) + {v.Storage()}
  {
    var s := vs + [v];
    forall u | u in Storages(s) ensures u in Storages(vs) + {v.Storage()} {
      var k :| 0 <= k < |s| && s[k].Storage() == u;
      if k < |vs| { assert s[k] == vs[k]; }
    }
    forall u | u in Storages(vs) ensures u in Storages(s) {
      var k :| 0 <= k < |vs| && vs[k].Storage() == u;
      assert s[k] == vs[k];
    }
    assert s[|vs|] == v;
  }

  /** The storages ProcessVariable marks while building inst: the storages
      of its arguments when the target is a lazy enumerable. */
  ghost function MarkedBy(inst: Instantiation): set<Variable> {
    if inst.target.node.construct == Some(Enumerable) then Storages(inst.arguments) else {}
  }

  lemma MarkedBySnoc(target: Variable, vs: seq<Variable>, v: Variable)
    ensures Storages(vs + [v]) == Storages(vs) + {v.Storage()}
    ensures MarkedBy(Instantiation(target, vs + [v])) == MarkedBy(Instantiation(target, vs)) + MarkedBy(Instantiation(target, [v]))
  {
    StoragesSnoc(vs, v);
    StoragesSnoc([], v);
    assert [] + [v] == [v];
  }

  /** The storages and the marked storages once v is one more argument. */
  lemma ArgumentSnoc(seen: set<Variable>, marked: set<Variable>, target: Variable, vs: seq<Variable>, v: Variable)
    ensures seen + Storages(vs + [v]) == (seen + Storages(vs)) + {v.Storage()}
    ensures marked + MarkedBy(Instantiation(target, vs + [v]))
         == (marked + MarkedBy(Instantiation(target, vs))) + MarkedBy(Instantiation(target, [v]))
  {
    MarkedBySnoc(target, vs, v);
  }

  ghost function ArgStorages(insts: seq<Instantiation>): set<Variable> {
    if insts == [] then {} else Storages(insts[0].arguments) + ArgStorages(insts[1..])
  }

  ghost function Marked(insts: seq<Instantiation>): set<Variable> {
    if insts == [] then {} else MarkedBy(insts[0]) + Marked(insts[1..])
  }

  ghost function TargetStorages(insts: seq<Instantiation>): set<Variable> {
    if insts == [] then {} else {insts[0].target.Storage()} + TargetStorages(insts[1..])
  }

  lemma InstantiationsCons(seen: set<Variable>, marked: set<Variable>, inst: Instantiation, insts: seq<Instantiation>)
    ensures seen + ArgStorages([inst] + insts) == (seen + ArgStorages(insts)) + Storages(inst.arguments)
    ensures marked + Marked([inst] + insts) == (marked + Marked(insts)) + MarkedBy(inst)
  {
    assert ([inst] + insts)[1..] == insts;
  }

  ghost function BlocksArgStorages(blocks: seq<Block>): set<Variable> {
    if blocks == [] then {} else ArgStorages(blocks[0].instantiations) + BlocksArgStorages(blocks[1..])
  }

  /** The storages of the dependencies of lazy enumerables in the blocks. */
  ghost function BlocksMarked(blocks: seq<Block>): set<Variable> {
    if blocks == [] then {} else Marked(blocks[0].instantiations) + BlocksMarked(blocks[1..])
  }

  ghost function BlocksTargetStorages(blocks: seq<Block>): set<Variable> {
    if blocks == [] then {} else TargetStorages(blocks[0].instantiations) + BlocksTargetStorages(blocks[1..])
  }

  lemma BlocksCons(seen: set<Variable>, marked: set<Variable>, b: Block, blocks: seq<Block>)
    ensures seen + BlocksArgStorages([b] + blocks) == (seen + BlocksArgStorages(blocks)) + ArgStorages(b.instantiations)
    ensures marked + BlocksMarked([b] + blocks) == (marked + BlocksMarked(blocks)) + Marked(b.instantiations)
  {
    assert ([b] + blocks)[1..] == blocks;
  }

  lemma {:induction false} MarkedWithin(insts: seq<Instantiation>)
    ensures Marked(insts) <= ArgStorages(insts)
  {
    if insts != [] {
      MarkedWithin(insts[1..]);
    }
  }

  lemma {:induction false} BlocksMarkedWithin(blocks: seq<Block>)
    ensures BlocksMarked(blocks) <= BlocksArgStorages(blocks)
  {
    if blocks != [] {
      MarkedWithin(blocks[0].instantiations);
      BlocksMarkedWithin(blocks[1..]);
    }
  }

  lemma {:induction false} TargetStoragesMembers(insts: seq<Instantiation>)
    ensures forall i :: 0 <= i < |insts| ==> insts[i].target.Storage() in TargetStorages(insts)
  {
    if insts != [] {
      TargetStoragesMembers(insts[1..]);
      forall i | 0 < i < |insts| ensures insts[i].target.Storage() in TargetStorages(insts) {
        assert insts[i] == insts[1..][i - 1];
      }
    }
  }

  lemma {:induction false} BlocksTargetStoragesMembers(blocks: seq<Block>)
    ensures forall p, i :: 0 <= p < |blocks| && 0 <= i < |blocks[p].instantiations| ==>
      blocks[p].instantiations[i].target.Storage() in BlocksTargetStorages(blocks)
  {
    if blocks != [] {
      TargetStoragesMembers(blocks[0].instantiations);
      BlocksTargetStoragesMembers(blocks[1..]);
      forall p, i | 0 < p < |blocks| && 0 <= i < |blocks[p].instantiations|
        ensures blocks[p].instantiations[i].target.Storage() in BlocksTargetStorages(blocks)
      {
        assert blocks[p] == blocks[1..][p - 1];
      }
    }
  }

  /** While the block of c is built: every pending target, every
      instantiated target and every block root pushed since br0 is c or
      an argument of an instantiation of the block. */
  ghost predicate BlockTracked(c: Variable, insts: seq<Instantiation>, targets: Stack<Variable>,
                               br0: Stack<Variable>, br: Stack<Variable>)
  {
    var known := {c.Storage()} + ArgStorages(insts);
    && (forall v :: v in Elements(targets) ==> v.Storage() in known)
    && TargetStorages(insts) <= known
    && (forall v :: v in Elements(br) ==> v in Elements(br0) || v.Storage() in ArgStorages(insts))
  }

  lemma InstantiationTracked(g: Graph, c: Variable, insts: seq<Instantiation>, t: Variable, rest: Stack<Variable>,
                             br0: Stack<Variable>, br: Stack<Variable>, inst: Instantiation,
                             br': Stack<Variable>, ts': Stack<Variable>)
    requires WellFormed(g) && AllInGraph(g, inst.arguments) && inst.target == t
    requires BlockTracked(c, insts, Push(t, rest), br0, br)
    requires br' == PushAll(PromotedOf(g, inst.arguments), br)
    requires ts' == (if t.node.factory then rest else PushAll(InlineOf(g, inst.arguments), rest))
    ensures BlockTracked(c, [inst] + insts, ts', br0, br')
  {
    var s := [inst] + insts;
    assert s[1..] == insts;
    var args := Storages(inst.arguments);
    assert ArgStorages(s) == args + ArgStorages(insts);
    assert TargetStorages(s) == {t.Storage()} + TargetStorages(insts);
    assert t in Elements(Push(t, rest));
    var promoted, inline := PromotedOf(g, inst.arguments), InlineOf(g, inst.arguments);
    PushAllElements(promoted, br);
    PushAllElements(inline, rest);
    forall v | v in inline || v in promoted
      ensures v.Storage() in args
    {
      var x := if v in inline then inline else promoted;
      var j :| 0 <= j < |x| && x[j] == v;
      PartitionMembers(g, inst.arguments, v);
      var k :| 0 <= k < |inst.arguments| && inst.arguments[k] == v;
    }
    var known := {c.Storage()} + ArgStorages(s);
    forall v | v in Elements(ts')
      ensures v.Storage() in known
    {
      if v in Elements(rest) {
        assert v in Elements(Push(t, rest));
        assert v.Storage() in {c.Storage()} + ArgStorages(insts);
      } else {
        assert !t.node.factory && v in inline;
        assert v.Storage() in args;
      }
    }
    forall v | v in Elements(br')
      ensures v in Elements(br0) || v.Storage() in ArgStorages(s)
    {
      if v !in Elements(br) {
        assert v in promoted;
        assert v.Storage() in args;
      }
    }
  }

  /** While the blocks are built: every pending block root and every
      instantiated target is the root variable or an argument. */
  ghost predicate WalkTracked(rootVariable: Variable, blocks: seq<Block>, blockRoots: Stack<Variable>) {
    var known := {rootVariable.Storage()} + BlocksArgStorages(blocks);
    && (forall v :: v in Elements(blockRoots) ==> v.Storage() in known)
    && BlocksTargetStorages(blocks) <= known
  }

  lemma BlockTrackedDone(rootVariable: Variable, blocks: seq<Block>, c: Variable, rest: Stack<Variable>,
                         b: Block, br': Stack<Variable>)
    requires WalkTracked(rootVariable, blocks, Push(c, rest))
    requires b.root == c && BlockTracked(c, b.instantiations, Empty, rest, br')
    ensures WalkTracked(rootVariable, [b] + blocks, br')
  {
    var s := [b] + blocks;
    assert s[1..] == blocks;
    assert c in Elements(Push(c, rest));
  }

  /** The flag a storage ends the walk with: a dependency of a lazy
      enumerable is created unless it is per resolve, a storage that
      existed before keeps its flag, and a new one is created exactly when
      it is an argument. */
  function ExpectedFlag(u: Variable, marked: set<Variable>, init: map<Variable, bool>): bool {
    if u in marked then u.node.lifetime != PerResolve
    else if u in init then init[u]
    else u.node.arg
  }

  ghost predicate Flags(s: set<Variable>, marked: set<Variable>, init: map<Variable, bool>)
    reads s
  {
    forall u :: u in s ==> u.created == ExpectedFlag(u, marked, init)
  }

  /** Processing one more dependency, of storage u, keeps the flags: the
      other storages are untouched, and u is marked or keeps its flag. */
  lemma FlagsExtend(s: set<Variable>, marked: set<Variable>, init: map<Variable, bool>, u: Variable, byU: set<Variable>)
    requires forall w :: w in s && w != u ==> w.created == ExpectedFlag(w, marked, init)
    requires byU <= {u}
    requires u in byU ==> u.created == (u.node.lifetime != PerResolve)
    requires u !in byU ==> u.created == if u in s then ExpectedFlag(u, marked, init) else u.node.arg
    requires u !in s ==> u !in marked && u !in init
    ensures Flags(s + {u}, marked + byU, init)
  {
  }

  ghost function CreatedMap(s: set<Variable>): map<Variable, bool>
    reads s
  {
    map u | u in s :: u.created
  }

  /** Before the walk every storage keeps the flag it has. */
  lemma FlagsInit(s: set<Variable>)
    ensures Flags(s, {}, CreatedMap(s))
  {
  }

  /** A map that keeps every entry of m0 holds every value of m0. */
  lemma ValuesKept<K, V>(m0: map<K, V>, m1: map<K, V>)
    requires forall b :: b in m0 ==> b in m1 && m1[b] == m0[b]
    ensures m0.Values <= m1.Values
  {
    forall v | v in m0.Values ensures v in m1.Values {
      var b :| b in m0 && m0[b] == v;
      assert m1[b] == v;
    }
  }

  /** Flags taken at the start of the walk that agree with flags on every
      storage but w, which has the flag its node gives it, expect the same. */
  lemma ExpectedFlagAgree(marked: set<Variable>, init: map<Variable, bool>, flags: map<Variable, bool>, w: Variable)
    requires init.Keys == flags.Keys + {w}
    requires forall u :: u in flags ==> init[u] == flags[u]
    requires w !in flags ==> init[w] == w.node.arg
    ensures forall u :: ExpectedFlag(u, marked, init) == ExpectedFlag(u, marked, flags)
  {
  }

  /** So the targets created in a walk are told by either. */
  lemma CreatedAgree(visited: seq<Block>, created: set<Variable>, init: map<Variable, bool>,
                     flags: map<Variable, bool>, w: Variable)
    requires init.Keys == flags.Keys + {w}
    requires forall u :: u in flags ==> init[u] == flags[u]
    requires w !in flags ==> init[w] == w.node.arg
    requires CreatedAsFlagged(visited, created, BlocksMarked(visited), init)
    ensures CreatedAsFlagged(visited, created, BlocksMarked(visited), flags)
  {
    ExpectedFlagAgree(BlocksMarked(visited), init, flags, w);
  }

  /** Every target of the walk is created exactly when its expected flag says so. */
  ghost predicate CreatedAsFlagged(visited: seq<Block>, created: set<Variable>, marked: set<Variable>, init: map<Variable, bool>) {
    forall p, i :: 0 <= p < |visited| && 0 <= i < |visited[p].instantiations| ==>
      var u := visited[p].instantiations[i].target.Storage();
      (u in created <==> ExpectedFlag(u, marked, init))
  }

  /** At the end of the walk the created targets are those whose flags say so. */
  lemma CreatedByFlags(visited: seq<Block>, s: set<Variable>, marked: set<Variable>, init: map<Variable, bool>)
    requires Flags(s, marked, init) && BlocksTargetStorages(visited) <= s
    ensures CreatedAsFlagged(visited, CreatedOf(visited), marked, init)
  {
    BlocksTargetStoragesMembers(visited);
  }

  lemma AppendAssoc<T>(a: seq<T>, b: seq<T>, c: seq<T>)
    ensures (a + b) + c == a + (b + c)
  {
  }

  /** A variable kept from one root to the next: a singleton or an argument. */
  predicate KeptAcrossRoots(node: DependencyNode) {
    node.lifetime == Singleton || node.arg
  }

  /** Every variable of initial that is kept across roots is still in
      variables, unchanged. */
  predicate KeptFrom(initial: map<BindingId, Variable>, variables: map<BindingId, Variable>) {
    forall b :: b in initial && KeptAcrossRoots(initial[b].node) ==> b in variables && variables[b] == initial[b]
  }

  class CodeGraphWalker {
    /** The variables shared by the roots of one composition, by binding. */
    var variables: map<BindingId, Variable>
    /** The next identifier GenerateId hands out. */
    var nextId: nat
    /** The visit callbacks called so far. */
    var trace: seq<Event>

    /** The stored variables are storages, of a node of the graph, under
        that node's binding. */
    ghost predicate Valid(g: Graph)
      reads this
    {
      forall b :: b in variables ==>
        variables[b].source.None? && variables[b].node.binding == b && InGraph(g, variables[b])
    }

    constructor (variables: map<BindingId, Variable>)
      ensures this.variables == variables && nextId == 0 && trace == []
    {
      this.variables := variables;
      nextId := 0;
      trace := [];
    }

    /** A fresh identifier for a per-lifetime variable. */
    method GenerateId() returns (id: nat)
      modifies this`nextId
      ensures id == old(nextId) && nextId == old(nextId) + 1
    {
      id := nextId;
      nextId := nextId + 1;
    }

    /** The variable for an injection of a node: an argument is shared as
        is, a singleton or per-resolve variable is stored on first use and
        linked on later uses, and any other lifetime gets a new variable. */
    method CreateVariable(g: Graph, nodeId: nat, injection: Injection) returns (v: Variable)
      requires WellFormed(g) && nodeId < |g.nodes| && Valid(g)
      modifies this`variables, this`nextId
      ensures Valid(g) && InGraph(g, v) && v.nodeId == nodeId
      ensures forall b :: b in old(variables) ==> b in variables && variables[b] == old(variables)[b]
      ensures forall b :: b in variables && b !in old(variables) ==> fresh(variables[b])
      ensures v.Storage() in variables.Values || (fresh(v) && v.Storage() == v)
      ensures variables.Values <= old(variables.Values) + {v.Storage()}
      ensures v.Storage() in old(variables.Values) || (fresh(v) && v.Storage() == v && v.created == v.node.arg)
      // an argument: one variable, declared and created, per binding
      ensures var n := g.nodes[nodeId]; n.arg && n.binding in old(variables) ==>
        v == old(variables)[n.binding] && variables == old(variables) && nextId == old(nextId)
      ensures var n := g.nodes[nodeId]; n.arg && n.binding !in old(variables) ==>
        fresh(v) && v.source.None? && v.injection == injection && v.perLifetimeId == 0
        && v.isDeclared && v.created && !v.isBlockRoot
        && variables == old(variables)[n.binding := v] && nextId == old(nextId)
      // a singleton: stored as a declared block root, then linked
      ensures var n := g.nodes[nodeId]; !n.arg && n.lifetime == Singleton && n.binding in old(variables) ==>
        fresh(v) && v.source == Some(old(variables)[n.binding]) && v.injection == injection && !v.created
        && variables == old(variables) && nextId == old(nextId)
      ensures var n := g.nodes[nodeId]; !n.arg && n.lifetime == Singleton && n.binding !in old(variables) ==>
        fresh(v) && v.source.None? && v.injection == injection && v.perLifetimeId == 0
        && v.isDeclared && !v.created && v.isBlockRoot
        && variables == old(variables)[n.binding := v] && nextId == old(nextId)
      // per resolve: stored with a new identifier, then linked
      ensures var n := g.nodes[nodeId]; !n.arg && n.lifetime == PerResolve && n.binding in old(variables) ==>
        fresh(v) && v.source == Some(old(variables)[n.binding]) && v.injection == injection && !v.created
        && variables == old(variables) && nextId == old(nextId)
      ensures var n := g.nodes[nodeId]; !n.arg && n.lifetime == PerResolve && n.binding !in old(variables) ==>
        fresh(v) && v.source.None? && v.injection == injection && v.perLifetimeId == old(nextId)
        && !v.isDeclared && !v.created && !v.isBlockRoot
        && variables == old(variables)[n.binding := v] && nextId == old(nextId) + 1
      // any other lifetime: a new variable each time, never stored
      ensures var n := g.nodes[nodeId]; !n.arg && n.lifetime != Singleton && n.lifetime != PerResolve ==>
        fresh(v) && v.source.None? && v.injection == injection && v.perLifetimeId == old(nextId)
        && !v.isDeclared && !v.created && !v.isBlockRoot
        && variables == old(variables) && nextId == old(nextId) + 1
    {
      var node := g.nodes[nodeId];
      if node.arg {
        if node.binding in variables {
          assert BindingOf(g, variables[node.binding].nodeId) == BindingOf(g, nodeId);
          v := variables[node.binding];
          return;
        }
        v := new Variable(nodeId, node, injection, 0, true, true, false);
        variables := variables[node.binding := v];
      } else if node.lifetime == Singleton {
        if node.binding in variables {
          assert BindingOf(g, variables[node.binding].nodeId) == BindingOf(g, nodeId);
          v := new Variable.Linked(variables[node.binding], injection);
          return;
        }
        v := new Variable(nodeId, node, injection, 0, true, false, true);
        variables := variables[node.binding := v];
      } else if node.lifetime == PerResolve {
        if node.binding in variables {
          assert BindingOf(g, variables[node.binding].nodeId) == BindingOf(g, nodeId);
          v := new Variable.Linked(variables[node.binding], injection);
          return;
        }
        var id := GenerateId();
        v := new Variable(nodeId, node, injection, id, false, false, false);
        variables := variables[node.binding := v];
      } else {
        var id := GenerateId();
        v := new Variable(nodeId, node, injection, id, false, false, false);
      }
    }

    /** One dependency of the target: a promoted one goes to the block-root
        stack, an inline one to the target stack unless the target is a
        factory, and every one to the arguments. A dependency of a lazy
        enumerable is marked created unless it is per resolve. */
    method ProcessVariable(g: Graph, target: Variable, v: Variable,
                           blockRoots: Stack<Variable>, targets: Stack<Variable>, arguments: seq<Variable>,
                           ghost seen: set<Variable>, ghost marked: set<Variable>, ghost init: map<Variable, bool>)
      returns (blockRoots': Stack<Variable>, targets': Stack<Variable>, arguments': seq<Variable>)
      requires WellFormed(g) && InGraph(g, v)
      requires Flags(seen, marked, init)
      requires v.Storage() !in seen ==> v.Storage() !in marked && v.Storage() !in init && v.Storage().created == v.node.arg
      modifies v.Storage()`created
      ensures blockRoots' == (if Promoted(g, v) then Push(v, blockRoots) else blockRoots)
      ensures targets' == (if !Promoted(g, v) && !target.node.factory then Push(v, targets) else targets)
      ensures arguments' == arguments + [v]
      ensures target.node.construct == Some(Enumerable) ==> v.IsCreated() == (v.node.lifetime != PerResolve)
      ensures target.node.construct != Some(Enumerable) ==> v.IsCreated() == old(v.IsCreated())
      ensures Flags(seen + {v.Storage()}, marked + MarkedBy(Instantiation(target, [v])), init)
    {
      ghost var byV := MarkedBy(Instantiation(target, [v]));
      assert Storages([v]) == {v.Storage()} by {
        assert [v][0] == v;
      }
      var isBlockRoot := v.IsBlockRoot();
      if !isBlockRoot && v.node.lifetime == PerResolve {
        isBlockRoot := OutWeight(g, v.nodeId) > 1;
      }
      blockRoots', targets' := blockRoots, targets;
      if isBlockRoot {
        blockRoots' := Push(v, blockRoots);
      } else if !target.node.factory {
        targets' := Push(v, targets);
      }
      if target.node.construct == Some(Enumerable) {
        v.Storage().created := v.node.lifetime != PerResolve;
      }
      arguments' := arguments + [v];
      FlagsExtend(seen, marked, init, v.Storage(), byV);
    }

    /** ProcessVariable(CreateVariable(dependency)): one more argument of target. */
    method AddArgument(g: Graph, target: Variable, dependency: Dependency,
                       blockRoots: Stack<Variable>, targets: Stack<Variable>, arguments: seq<Variable>,
                       ghost seen: set<Variable>, ghost marked: set<Variable>, ghost init: map<Variable, bool>)
      returns (v: Variable, blockRoots': Stack<Variable>, targets': Stack<Variable>, arguments': seq<Variable>)
      requires WellFormed(g) && Valid(g) && dependency.source < |g.nodes|
      requires variables.Values <= seen + Storages(arguments)
      requires Flags(seen + Storages(arguments), marked + MarkedBy(Instantiation(target, arguments)), init)
      modifies this`variables, this`nextId, variables.Values
      ensures Valid(g)
      ensures forall b :: b in old(variables) ==> b in variables && variables[b] == old(variables)[b]
      ensures forall b :: b in variables && b !in old(variables) ==> fresh(variables[b])
      ensures InGraph(g, v) && v.nodeId == dependency.source && arguments' == arguments + [v]
      ensures blockRoots' == (if Promoted(g, v) then Push(v, blockRoots) else blockRoots)
      ensures targets' == (if !Promoted(g, v) && !target.node.factory then Push(v, targets) else targets)
      ensures variables.Values <= seen + Storages(arguments')
      ensures Flags(seen + Storages(arguments'), marked + MarkedBy(Instantiation(target, arguments')), init)
    {
      ghost var s, m := seen + Storages(arguments), marked + MarkedBy(Instantiation(target, arguments));
      v := CreateVariable(g, dependency.source, dependency.injection);
      ghost var u := v.Storage();
      assert u in old(variables.Values) || (fresh(v) && u == v && v.created == v.node.arg);
      assert Flags(s, m, init);
      blockRoots', targets', arguments' := ProcessVariable(g, target, v, blockRoots, targets, arguments, s, m, init);
      ArgumentSnoc(seen, marked, target, arguments, v);
      assert variables.Values <= s + {u};
    }

    /** Instantiates target, just popped from the target stack: one argument
        per in-edge, created and processed in edge order. */
    method InstantiateTarget(g: Graph, ghost rank: seq<nat>, target: Variable,
                             blockRoots: Stack<Variable>, targets: Stack<Variable>,
                             ghost seen: set<Variable>, ghost marked: set<Variable>, ghost init: map<Variable, bool>)
      returns (inst: Instantiation, blockRoots': Stack<Variable>, targets': Stack<Variable>)
      requires Acyclic(g, rank) && Valid(g) && InGraph(g, target)
      requires variables.Values <= seen && Flags(seen, marked, init)
      requires StackInGraph(g, blockRoots) && StackInGraph(g, targets)
      modifies this`variables, this`nextId, variables.Values
      ensures Valid(g)
      ensures forall b :: b in old(variables) ==> b in variables && variables[b] == old(variables)[b]
      ensures forall b :: b in variables && b !in old(variables) ==> fresh(variables[b])
      ensures inst.target == target && Matches(g, inst)
      ensures blockRoots' == PushAll(PromotedOf(g, inst.arguments), blockRoots)
      ensures targets' == (if target.node.factory then targets else PushAll(InlineOf(g, inst.arguments), targets))
      ensures StackInGraph(g, blockRoots') && StackInGraph(g, targets')
      ensures Weight(g, rank, blockRoots') + Weight(g, rank, targets')
        < Weight(g, rank, blockRoots) + Weight(g, rank, targets) + TreeSize(g, rank, target.nodeId)
      ensures variables.Values <= seen + Storages(inst.arguments)
      ensures Flags(seen + Storages(inst.arguments), marked + MarkedBy(inst), init)
    {
      var dependencies := g.inEdges[target.nodeId];
      var arguments: seq<Variable> := [];
      blockRoots', targets' := blockRoots, targets;
      var k := 0;
      assert Storages(arguments) == {} && MarkedBy(Instantiation(target, arguments)) == {};
      while k < |dependencies|
        invariant k == |arguments|
        invariant Valid(g)
        invariant forall b :: b in old(variables) ==> b in variables && variables[b] == old(variables)[b]
        invariant forall b :: b in variables && b !in old(variables) ==> fresh(variables[b])
        invariant Argued(g, rank, target, blockRoots, targets, arguments, blockRoots', targets')
        invariant variables.Values <= seen + Storages(arguments)
        invariant Flags(seen + Storages(arguments), marked + MarkedBy(Instantiation(target, arguments)), init)
      {
        ghost var before, br, ts := arguments, blockRoots', targets';
        var v;
        v, blockRoots', targets', arguments := AddArgument(g, target, dependencies[k], blockRoots', targets', arguments,
                                                           seen, marked, init);
        ArguedStep(g, rank, target, blockRoots, targets, before, br, ts, v);
        k := k + 1;
      }
      ArguedAll(g, rank, target, blockRoots, targets, arguments, blockRoots', targets');
      inst := Instantiation(target, arguments);
    }

    /** The inner loop of VisitRootVariable: builds the block of c, popped
        from the block-root stack, pushing the promoted dependencies it meets
        back onto that stack. */
    method BuildBlock(g: Graph, ghost rank: seq<nat>, c: Variable, blockRoots: Stack<Variable>,
                      ghost seen: set<Variable>, ghost marked: set<Variable>, ghost init: map<Variable, bool>)
      returns (block: Block, blockRoots': Stack<Variable>)
      requires Acyclic(g, rank) && Valid(g) && InGraph(g, c) && StackInGraph(g, blockRoots)
      requires variables.Values <= seen && Flags(seen, marked, init)
      modifies this`variables, this`nextId, variables.Values
      ensures Valid(g)
      ensures forall b :: b in old(variables) ==> b in variables && variables[b] == old(variables)[b]
      ensures forall b :: b in variables && b !in old(variables) ==> fresh(variables[b])
      ensures block.root == c && WellBuilt(g, block) && BlockPromotedIn(g, block, Elements(blockRoots'))
      ensures Elements(blockRoots) <= Elements(blockRoots') && StackInGraph(g, blockRoots')
      ensures Weight(g, rank, blockRoots') < Weight(g, rank, blockRoots) + TreeSize(g, rank, c.nodeId)
      ensures variables.Values <= seen + ArgStorages(block.instantiations)
      ensures Flags(seen + ArgStorages(block.instantiations), marked + Marked(block.instantiations), init)
      ensures BlockTracked(c, block.instantiations, Empty, blockRoots, blockRoots')
    {
      var targets: Stack<Variable> := Push(c, Empty);
      var instantiations: Stack<Instantiation> := Empty;
      blockRoots' := blockRoots;
      while targets.Push?
        invariant Valid(g)
        invariant forall b :: b in old(variables) ==> b in variables && variables[b] == old(variables)[b]
        invariant forall b :: b in variables && b !in old(variables) ==> fresh(variables[b])
        invariant Building(g, rank, c, blockRoots, instantiations, targets, blockRoots')
        invariant variables.Values <= seen + ArgStorages(ToSeq(instantiations))
        invariant Flags(seen + ArgStorages(ToSeq(instantiations)), marked + Marked(ToSeq(instantiations)), init)
        invariant BlockTracked(c, ToSeq(instantiations), targets, blockRoots, blockRoots')
        decreases Weight(g, rank, blockRoots') + Weight(g, rank, targets)
      {
        ghost var br, ts, before := blockRoots', targets, ToSeq(instantiations);
        var t := targets.top;
        var inst;
        inst, blockRoots', targets := InstantiateTarget(g, rank, t, blockRoots', targets.rest,
                                                        seen + ArgStorages(before), marked + Marked(before), init);
        BuildingStep(g, rank, c, blockRoots, instantiations, t, ts.rest, br, inst, blockRoots', targets);
        InstantiationTracked(g, c, before, t, ts.rest, blockRoots, br, inst, blockRoots', targets);
        instantiations := Push(inst, instantiations);
        InstantiationsCons(seen, marked, inst, before);
        assert ToSeq(instantiations) == [inst] + before;
      }
      BuildingDone(g, rank, c, blockRoots, instantiations, blockRoots');
      block := Block(c, ToSeq(instantiations));
    }

    /** The outer loop of VisitRootVariable: builds one block per popped
        block root until the block-root stack is empty. */
    method BuildBlocks(g: Graph, ghost rank: seq<nat>, rootVariable: Variable,
                       ghost seen: set<Variable>, ghost marked: set<Variable>, ghost init: map<Variable, bool>)
      returns (visited: seq<Block>, ghost created: set<Variable>)
      requires Acyclic(g, rank) && Valid(g) && InGraph(g, rootVariable)
      requires variables.Values <= seen && rootVariable.Storage() in seen && Flags(seen, marked, init)
      modifies this`variables, this`nextId, variables.Values
      ensures Valid(g)
      ensures forall b :: b in old(variables) ==> b in variables && variables[b] == old(variables)[b]
      ensures forall b :: b in variables && b !in old(variables) ==> fresh(variables[b])
      ensures visited != [] && visited[|visited| - 1].root == rootVariable
      ensures AllWellBuilt(g, visited) && BlockRootsFirst(g, visited, {})
      ensures BlocksTargetStorages(visited) <= {rootVariable.Storage()} + BlocksArgStorages(visited)
      ensures forall p, i :: 0 <= p < |visited| && 0 <= i < |visited[p].instantiations| ==>
        (visited[p].instantiations[i].target.IsCreated() <==> visited[p].instantiations[i].target.Storage() in created)
      ensures CreatedAsFlagged(visited, created, marked + BlocksMarked(visited), init)
    {
      var blockRoots: Stack<Variable> := Push(rootVariable, Empty);
      var blocks: Stack<Block> := Empty;
      while blockRoots.Push?
        invariant Valid(g)
        invariant forall b :: b in old(variables) ==> b in variables && variables[b] == old(variables)[b]
        invariant forall b :: b in variables && b !in old(variables) ==> fresh(variables[b])
        invariant Walked(g, rootVariable, blocks, blockRoots)
        invariant variables.Values <= seen + BlocksArgStorages(ToSeq(blocks))
        invariant Flags(seen + BlocksArgStorages(ToSeq(blocks)), marked + BlocksMarked(ToSeq(blocks)), init)
        invariant WalkTracked(rootVariable, ToSeq(blocks), blockRoots)
        decreases Weight(g, rank, blockRoots)
      {
        var c := blockRoots.top;
        ghost var rest, before := blockRoots.rest, ToSeq(blocks);
        var block;
        block, blockRoots := BuildBlock(g, rank, c, blockRoots.rest, seen + BlocksArgStorages(before), marked + BlocksMarked(before), init);
        WalkedStep(g, rootVariable, blocks, c, rest, block, blockRoots);
        BlockTrackedDone(rootVariable, before, c, rest, block, blockRoots);
        blocks := Push(block, blocks);
        BlocksCons(seen, marked, block, before);
        assert ToSeq(blocks) == [block] + before;
      }
      visited := ToSeq(blocks);
      ToSeqLength(blocks);
      created := CreatedOf(visited);
      CreatedByFlags(visited, seen + BlocksArgStorages(visited), marked + BlocksMarked(visited), init);
    }

    /** Walks the graph from the root variable, then visits the blocks, the
        one built last first; created is the set of storages that are created
        once the walk is done. */
    method VisitRootVariable(g: Graph, ghost rank: seq<nat>, rootVariable: Variable, ghost flags: map<Variable, bool>)
      returns (visited: seq<Block>, ghost created: set<Variable>)
      requires Acyclic(g, rank) && Valid(g) && InGraph(g, rootVariable)
      // flags: the created flags of the storages that existed before the root
      // variable, which holds the flag its node gives it when it is new
      requires flags.Keys + {rootVariable.Storage()} == variables.Values + {rootVariable.Storage()}
      requires forall u :: u in flags ==> flags[u] == u.created
      requires rootVariable.Storage() !in flags ==> rootVariable.Storage().created == rootVariable.node.arg
      modifies this`variables, this`nextId, this`trace, variables.Values
      ensures Valid(g)
      ensures forall b :: b in old(variables) ==> b in variables && variables[b] == old(variables)[b]
      ensures forall b :: b in variables && b !in old(variables) ==> fresh(variables[b])
      ensures visited != [] && visited[|visited| - 1].root == rootVariable
      ensures AllWellBuilt(g, visited) && BlockRootsFirst(g, visited, {})
      ensures forall p, i :: 0 <= p < |visited| && 0 <= i < |visited[p].instantiations| ==>
        (visited[p].instantiations[i].target.IsCreated() <==> visited[p].instantiations[i].target.Storage() in created)
      ensures trace == old(trace) + BlocksEvents(visited, created)
      // which targets are created: the dependencies of lazy enumerables unless
      // per resolve, the storages that existed before as they were, and the
      // new ones exactly when they are arguments
      ensures CreatedAsFlagged(visited, created, BlocksMarked(visited), flags)
    {
      ghost var r := rootVariable.Storage();
      ghost var seen := variables.Values + {r};
      ghost var before := CreatedMap(seen);
      FlagsInit(seen);
      visited, created := BuildBlocks(g, rank, rootVariable, seen, {}, before);
      assert {} + BlocksMarked(visited) == BlocksMarked(visited);
      CreatedAgree(visited, created, before, flags, r);
      VisitBlocks(visited, created);
    }

    method VisitBlocks(blocks: seq<Block>, ghost created: set<Variable>)
      requires forall p, i :: 0 <= p < |blocks| && 0 <= i < |blocks[p].instantiations| ==>
        (blocks[p].instantiations[i].target.IsCreated() <==> blocks[p].instantiations[i].target.Storage() in created)
      modifies this`trace
      ensures trace == old(trace) + BlocksEvents(blocks, created)
      // visiting leaves the created flags as they were
      ensures forall p, i :: 0 <= p < |blocks| && 0 <= i < |blocks[p].instantiations| ==>
        (blocks[p].instantiations[i].target.IsCreated() <==> blocks[p].instantiations[i].target.Storage() in created)
    {
      var i := 0;
      while i < |blocks|
        invariant 0 <= i <= |blocks|
        invariant trace == old(trace) + BlocksEvents(blocks[..i], created)
        invariant forall p, i :: 0 <= p < |blocks| && 0 <= i < |blocks[p].instantiations| ==>
          (blocks[p].instantiations[i].target.IsCreated() <==> blocks[p].instantiations[i].target.Storage() in created)
      {
        ghost var before := BlocksEvents(blocks[..i], created);
        assert blocks[..i + 1][..i] == blocks[..i];
        assert BlocksEvents(blocks[..i + 1], created) == before + BlockEvents(blocks[i].instantiations, created);
        VisitBlock(blocks[i], created);
        AppendAssoc(old(trace), before, BlockEvents(blocks[i].instantiations, created));
        i := i + 1;
      }
      assert blocks[..i] == blocks;
    }

    /** Visits the instantiations of the block in order. */
    method VisitBlock(block: Block, ghost created: set<Variable>)
      requires forall i :: 0 <= i < |block.instantiations| ==>
        (block.instantiations[i].target.IsCreated() <==> block.instantiations[i].target.Storage() in created)
      modifies this`trace
      ensures trace == old(trace) + BlockEvents(block.instantiations, created)
    {
      var insts := block.instantiations;
      var i := 0;
      while i < |insts|
        invariant 0 <= i <= |insts|
        invariant trace == old(trace) + BlockEvents(insts[..i], created)
      {
        ghost var before := BlockEvents(insts[..i], created);
        assert insts[..i + 1][..i] == insts[..i];
        assert BlockEvents(insts[..i + 1], created) == before + InstantiationEvents(insts[i], created);
        VisitInstantiation(insts[i], created);
        AppendAssoc(old(trace), before, InstantiationEvents(insts[i], created));
        i := i + 1;
      }
      assert insts[..i] == insts;
    }

    /** Hands the instantiation to the callback of its kind: an implementation,
        else a factory, else an argument, else a construct. */
    method VisitInstantiation(inst: Instantiation, ghost created: set<Variable>)
      requires inst.target.IsCreated() <==> inst.target.Storage() in created
      modifies this`trace
      ensures trace == old(trace) + InstantiationEvents(inst, created)
    {
      var node := inst.target.node;
      if node.implementation.Some? {
        VisitImplementation(inst, node.implementation.value);
      } else if node.factory {
        trace := trace + [FactoryVisited(inst.target)];
      } else if node.arg {
        trace := trace + [ArgVisited(inst.target)];
      } else if node.construct.Some? {
        trace := trace + [ConstructVisited(node.construct.value, inst.target)];
      }
    }

    /** Visits a target that is not yet created: the constructor with the
        required fields and properties, then the other fields, the other
        properties and the methods, ordered by ordinal with ties in that order. */
    method VisitImplementation(inst: Instantiation, impl: DpImplementation)
      modifies this`trace
      ensures trace == old(trace) + (if inst.target.IsCreated() then [] else ImplementationEvents(inst.target, impl))
    {
      if inst.target.IsCreated() {
        return;
      }
      var constructed := ConstructorVisited(inst.target, RequiredFieldsOf(impl), RequiredPropertiesOf(impl));
      trace := trace + [constructed];
      ghost var members := MemberEvents(inst.target, PostConstructionVisits(impl));
      VisitMembers(inst.target, impl);
      assert inst.target.Storage().created == old(inst.target.Storage().created);
      AppendAssoc(old(trace), [constructed], members);
    }

    /** Visits the members VisitImplementation does not pass to the
        constructor, sorted by ordinal. */
    method VisitMembers(target: Variable, impl: DpImplementation)
      modifies this`trace
      ensures trace == old(trace) + MemberEvents(target, PostConstructionVisits(impl))
    {
      var visits := CollectVisits(impl);
      var ordered := StableSortBy(visits, OrdinalOrLastKey);
      RunVisits(target, ordered);
    }

    /** Runs the collected visit actions in order. */
    method RunVisits(target: Variable, ordered: seq<MemberVisit>)
      modifies this`trace
      ensures trace == old(trace) + MemberEvents(target, ordered)
    {
      var i := 0;
      assert ordered[..0] == [];
      while i < |ordered|
        invariant 0 <= i <= |ordered| && trace == old(trace) + MemberEvents(target, ordered[..i])
      {
        ghost var before := MemberEvents(target, ordered[..i]);
        assert ordered[..i + 1][..i] == ordered[..i];
        assert MemberEvents(target, ordered[..i + 1]) == before + [MemberVisited(target, ordered[i])];
        trace := trace + [MemberVisited(target, ordered[i])];
        AppendAssoc(old(trace), before, [MemberVisited(target, ordered[i])]);
        i := i + 1;
      }
      assert ordered[..i] == ordered;
    }

    /** The visit actions VisitImplementation collects before sorting: the
        fields not required, the properties not set at construction, and the
        methods, each in declaration order. */
    method CollectVisits(impl: DpImplementation) returns (visits: seq<MemberVisit>)
      ensures visits == OptionalVisitsOf(impl)
    {
      visits := [];
      var i := 0;
      while i < |impl.fields|
        invariant 0 <= i <= |impl.fields| && visits == FieldVisits(impl.fields, i, false)
      {
        if !impl.fields[i].isRequired {
          visits := visits + [MemberVisit(FieldRef(i), impl.fields[i].ordinal)];
        }
        i := i + 1;
      }
      ghost var fieldVisits := visits;
      i := 0;
      while i < |impl.properties|
        invariant 0 <= i <= |impl.properties| && visits == fieldVisits + PropertyVisits(impl.properties, i, false)
      {
        if !SetAtConstruction(impl.properties[i]) {
          AppendAssoc(fieldVisits, PropertyVisits(impl.properties, i, false), [MemberVisit(PropertyRef(i), impl.properties[i].ordinal)]);
          visits := visits + [MemberVisit(PropertyRef(i), impl.properties[i].ordinal)];
        }
        i := i + 1;
      }
      ghost var memberVisits := visits;
      i := 0;
      while i < |impl.methods|
        invariant 0 <= i <= |impl.methods| && visits == memberVisits + MethodVisits(impl.methods, i)
      {
        AppendAssoc(memberVisits, MethodVisits(impl.methods, i), [MemberVisit(MethodRef(i), impl.methods[i].ordinal)]);
        visits := visits + [MemberVisit(MethodRef(i), impl.methods[i].ordinal)];
        i := i + 1;
      }
    }

    /** The variable of a composition root; flags are the created flags of
        the storages that existed before it. */
    method CreateRootVariable(g: Graph, root: Root, ghost flags: map<Variable, bool>) returns (rootVariable: Variable)
      requires WellFormed(g) && Valid(g) && root.nodeId < |g.nodes|
      requires flags == CreatedMap(variables.Values)
      modifies this`variables, this`nextId
      ensures Valid(g) && InGraph(g, rootVariable) && rootVariable.nodeId == root.nodeId
      ensures forall b :: b in old(variables) ==> b in variables && variables[b] == old(variables)[b]
      ensures forall b :: b in variables && b !in old(variables) ==> fresh(variables[b])
      ensures forall u :: u in flags ==> flags[u] == u.created
      ensures flags.Keys + {rootVariable.Storage()} == variables.Values + {rootVariable.Storage()}
      ensures rootVariable.Storage() !in flags ==> rootVariable.Storage().created == rootVariable.node.arg
    {
      rootVariable := CreateVariable(g, root.nodeId, root.injection);
      ValuesKept(old(variables), variables);
    }

    /** Creates the variable of a composition root and walks from it; flags
        are the created flags of the storages that existed before. */
    method WalkRoot(g: Graph, ghost rank: seq<nat>, root: Root, ghost flags: map<Variable, bool>)
      returns (ghost visited: seq<Block>, ghost created: set<Variable>)
      requires Acyclic(g, rank) && Valid(g) && root.nodeId < |g.nodes|
      requires flags == CreatedMap(variables.Values)
      modifies this`variables, this`nextId, this`trace, variables.Values
      ensures Valid(g)
      ensures visited != [] && visited[|visited| - 1].root.nodeId == root.nodeId
      ensures AllWellBuilt(g, visited) && BlockRootsFirst(g, visited, {})
      ensures trace == old(trace) + BlocksEvents(visited, created)
      ensures forall b :: b in old(variables) ==> b in variables && variables[b] == old(variables)[b]
      ensures forall b :: b in variables && b !in old(variables) ==> fresh(variables[b])
      // the targets visited as created: the dependencies of lazy enumerables
      // unless per resolve, the storages that existed as they were, the new
      // ones exactly when they are arguments
      ensures CreatedAsFlagged(visited, created, BlocksMarked(visited), flags)
    {
      var rootVariable := CreateRootVariable(g, root, flags);
      ghost var mid := variables;
      visited, created := VisitRootVariable(g, rank, rootVariable, flags);
      forall b | b in variables && b !in old(variables)
        ensures fresh(variables[b])
      {
        if b in mid {
          assert variables[b] == mid[b];
        }
      }
    }

    /** Walks one composition root, then forgets the variables that are not
        kept across roots and marks the kept ones as not created; flags are
        the created flags of the storages that existed before, and walked is
        the variable map as the walk leaves it. */
    method VisitRoot(g: Graph, ghost rank: seq<nat>, root: Root, ghost flags: map<Variable, bool>)
      returns (ghost visited: seq<Block>, ghost created: set<Variable>, ghost walked: map<BindingId, Variable>)
      requires Acyclic(g, rank) && Valid(g) && root.nodeId < |g.nodes|
      requires flags == CreatedMap(variables.Values)
      modifies this`variables, this`nextId, this`trace, variables.Values
      ensures Valid(g)
      ensures visited != [] && visited[|visited| - 1].root.nodeId == root.nodeId
      ensures AllWellBuilt(g, visited) && BlockRootsFirst(g, visited, {})
      ensures trace == old(trace) + BlocksEvents(visited, created)
      ensures forall b :: b in old(variables) ==> b in walked && walked[b] == old(variables)[b]
      ensures forall b :: b in walked && b !in old(variables) ==> fresh(walked[b])
      ensures forall b :: b in variables <==> b in walked && KeptAcrossRoots(walked[b].node)
      ensures forall b :: b in variables ==> variables[b] == walked[b] && !variables[b].created
      ensures forall b :: b in variables ==> variables[b] in old(variables.Values) || fresh(variables[b])
      ensures CreatedAsFlagged(visited, created, BlocksMarked(visited), flags)
    {
      visited, created := WalkRoot(g, rank, root, flags);
      walked := variables;
      ForgetPerRootVariables();
      ResetCreated();
    }

    /** Removes the variables that are neither singletons nor arguments. */
    method ForgetPerRootVariables()
      modifies this`variables
      ensures forall b :: b in variables <==> b in old(variables) && KeptAcrossRoots(old(variables)[b].node)
      ensures forall b :: b in variables ==> variables[b] == old(variables)[b]
    {
      var keysToRemove := set b | b in variables && !KeptAcrossRoots(variables[b].node);
      while keysToRemove != {}
        invariant forall b :: b in variables <==> b in old(variables) && (KeptAcrossRoots(old(variables)[b].node) || b in keysToRemove)
        invariant forall b :: b in variables ==> variables[b] == old(variables)[b]
        invariant keysToRemove <= variables.Keys
        decreases keysToRemove
      {
        var b :| b in keysToRemove;
        variables := variables - {b};
        keysToRemove := keysToRemove - {b};
      }
    }

    /** Marks every remaining variable as not created. */
    method ResetCreated()
      modifies variables.Values
      ensures forall b :: b in variables ==> !variables[b].created
    {
      var pending := variables.Values;
      while pending != {}
        invariant pending <= variables.Values
        invariant forall b :: b in variables && variables[b] !in pending ==> !variables[b].created
        decreases pending
      {
        var v :| v in pending;
        v.created := false;
        pending := pending - {v};
      }
    }

    /** Walks every composition root in turn; blocks, created and flags are,
        root by root, the blocks visited, the storages created and the created
        flags of the storages that existed when that root began. */
    method VisitGraph(g: Graph, ghost rank: seq<nat>, roots: seq<Root>)
      returns (ghost blocks: seq<seq<Block>>, ghost created: seq<set<Variable>>, ghost flags: seq<map<Variable, bool>>)
      requires Acyclic(g, rank) && Valid(g) && forall i :: 0 <= i < |roots| ==> roots[i].nodeId < |g.nodes|
      modifies this`variables, this`nextId, this`trace, variables.Values
      ensures Valid(g)
      ensures roots != [] ==> forall b :: b in variables ==> KeptAcrossRoots(variables[b].node) && !variables[b].created
      ensures forall b :: b in old(variables) && KeptAcrossRoots(old(variables)[b].node) ==>
        b in variables && variables[b] == old(variables)[b]
      ensures |blocks| == |roots| && |created| == |roots| && |flags| == |roots|
      ensures trace == old(trace) + RootsEvents(blocks, created)
      ensures forall k :: 0 <= k < |roots| ==> RootWalked(g, blocks[k], roots[k].nodeId)
      ensures forall k :: 0 <= k < |roots| ==> CreatedAsFlagged(blocks[k], created[k], BlocksMarked(blocks[k]), flags[k])
      // the first root starts from the flags as they were; every later one
      // from storages that are not created
      ensures roots != [] ==> flags[0].Keys == old(variables.Values)
      ensures roots != [] ==> forall u :: u in flags[0] ==> flags[0][u] == old(u.created)
      ensures forall k :: 0 < k < |roots| ==> NoneCreated(flags[k])
    {
      ghost var initial, initialFlags := variables, CreatedMap(variables.Values);
      blocks, created, flags := [], [], [];
      var i := 0;
      while i < |roots|
        invariant 0 <= i <= |roots| && Valid(g)
        invariant i > 0 ==> forall b :: b in variables ==> KeptAcrossRoots(variables[b].node) && !variables[b].created
        invariant KeptFrom(initial, variables)
        invariant forall b :: b in variables ==> variables[b] in initial.Values || fresh(variables[b])
        invariant RootsWalked(g, roots, blocks, created, flags, i)
        invariant trace == old(trace) + RootsEvents(blocks, created)
        invariant i == 0 ==> variables == initial && unchanged(variables.Values)
        invariant i > 0 ==> flags[0] == initialFlags
      {
        ghost var entry := CreatedMap(variables.Values);
        if i > 0 {
          NoneCreatedOf(variables);
        } else {
          assert entry == initialFlags;
        }
        var visited, createdHere, walked := VisitRoot(g, rank, roots[i], entry);
        ghost var flagsHere := entry;
        assert RootWalked(g, visited, roots[i].nodeId);
        RootsStep(g, roots, blocks, created, flags, visited, createdHere, flagsHere);
        AppendAssoc(old(trace), RootsEvents(blocks, created), BlocksEvents(visited, createdHere));
        blocks, created, flags := blocks + [visited], created + [createdHere], flags + [flagsHere];
        i := i + 1;
      }
    }
  }
}
