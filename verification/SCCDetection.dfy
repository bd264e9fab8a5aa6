/** One-pass detection of strongly connected components (Nuutila's variant of Tarjan's search). */
module SCCDetector {
  import opened Nodes
  import opened Reachability
  import opened SCCInvariant
  import opened SCCClosing
  import opened SCCVisit
  import opened SCCResult

  class SCCDetection {
    const graph: Graph
    var nodeInfo: map<NodeID, GNodeSCCInfo>
    var count: nat                           // discovery numbers handed out so far
    var discovery: map<NodeID, nat>
    ghost var order: seq<NodeID>             // the nodes in discovery order
    var nonRoots: seq<NodeID>                // finished nodes that are not roots, top last
    var topo: seq<NodeID>                    // component roots, top last
    var repNodes: set<NodeID>

    constructor (g: Graph)
      ensures graph == g && State() == START
    {
      graph := g;
      nodeInfo, count, discovery, nonRoots, topo, repNodes := map[], 0, map[], [], [], {};
      order := [];
    }

    ghost function State(): Search
      reads this
    {
      Search(nodeInfo, count, discovery, order, nonRoots, topo, repNodes)
    }

    function Visited(n: NodeID): bool
      reads this
    {
      n in nodeInfo && nodeInfo[n].visited
    }

    function InSCC(n: NodeID): bool
      reads this
    {
      n in nodeInfo && nodeInfo[n].inSCC
    }

    function Rep(n: NodeID): NodeID
      reads this
    {
      if n in nodeInfo then nodeInfo[n].rep else UINT_MAX
    }

    method SetRepresentative(n: NodeID, r: NodeID)
      modifies this
      ensures State() == SetRep(old(State()), n, r)
    {
      var atN := if n in nodeInfo then nodeInfo[n] else FRESH_INFO;
      nodeInfo := nodeInfo[n := atN.(rep := r)];
      var atR := if r in nodeInfo then nodeInfo[r] else FRESH_INFO;
      nodeInfo := nodeInfo[r := atR.(subNodes := atR.subNodes + {n})];
      if n != r {
        nodeInfo := nodeInfo[n := nodeInfo[n].(subNodes := {})];
        repNodes := repNodes - {n};
        repNodes := repNodes + {r};
      }
    }

    method SetVisited(n: NodeID)
      modifies this
      ensures State() == old(State()).(info := old(nodeInfo)[n := old(State()).Get(n).(visited := true)])
    {
      var atN := if n in nodeInfo then nodeInfo[n] else FRESH_INFO;
      nodeInfo := nodeInfo[n := atN.(visited := true)];
    }

    method SetInSCC(n: NodeID)
      requires n in nodeInfo
      modifies this
      ensures State() == old(State()).(info := old(nodeInfo)[n := old(nodeInfo)[n].(inSCC := true)])
    {
      nodeInfo := nodeInfo[n := nodeInfo[n].(inSCC := true)];
    }

    /** The first steps of a visit of `v`. */
    method Enter(v: NodeID)
      requires v !in nodeInfo
      modifies this
      ensures State() == EnterNode(old(State()), v)
    {
      count := count + 1;
      discovery := discovery[v := count];
      order := order + [v];
      SetRepresentative(v, v);
      SetVisited(v);
    }

    /** Visits `v` and everything not yet visited that it leads to. The ghost set `gray` holds the
        nodes whose visits are in progress. */
    method Visit(v: NodeID, ghost gray: set<NodeID>)
      requires graph.Valid() && v in graph.children && v !in nodeInfo
      requires Inv(graph, State(), gray)
      requires forall n :: n in gray ==> Reach(graph.Edges(), n, v)
      modifies this
      ensures Inv(graph, State(), gray) && VisitedFrom(graph, old(State()), State(), v)
      decreases graph.children.Keys - nodeInfo.Keys, 2
    {
      hide RepOk, Reps, Finished, ChildDone, Components, SubsOk, Subs, Topo, Visiting, Extends, VisitedFrom, Distinct;
      ghost var before := State();
      Enter(v);
      EnterInVisit(graph, before, gray, v);
      VisitChildren(v, before, gray);
      if Rep(v) == v {
        Close(v, before, gray);
      } else {
        ghost var atEnd := State();
        nonRoots := nonRoots + [v];
        SuspendEndsVisit(graph, before, atEnd, State(), gray, v);
      }
    }

    method VisitChildren(v: NodeID, ghost before: Search, ghost gray: set<NodeID>)
      requires graph.Valid() && InVisit(graph, before, State(), gray, v, 0)
      modifies this
      ensures InVisit(graph, before, State(), gray, v, |graph.children[v]|)
      decreases graph.children.Keys - before.info.Keys, 1
    {
      var i := 0;
      while i < |graph.children[v]|
        invariant InVisit(graph, before, State(), gray, v, i)
      {
        VisitChild(v, i, before, gray);
        i := i + 1;
      }
    }

    /** The body of the loop over the children of `v`, for its child number `i`. */
    method VisitChild(v: NodeID, i: nat, ghost before: Search, ghost gray: set<NodeID>)
      requires graph.Valid() && InVisit(graph, before, State(), gray, v, i) && i < |graph.children[v]|
      modifies this
      ensures InVisit(graph, before, State(), gray, v, i + 1)
      decreases graph.children.Keys - before.info.Keys, 0
    {
      var w := graph.children[v][i];
      ghost var done := Kids(graph, v, i);
      ghost var atChild := State();
      KidsStep(graph, v, i);
      if !Visited(w) {
        VisitingReachesChild(graph, atChild, gray, v, done, w);
        Visit(w, gray + {v});
        ChildVisitIsComparing(graph, atChild, State(), gray, v, done, w);
        ExtendsTrans(before, atChild, State());
      } else {
        VisitingIsComparing(graph, atChild, gray, v, done, w);
      }
      if !InSCC(w) {
        ghost var atCompare := State();
        assert RepOk(graph, atCompare, v) && RepOk(graph, atCompare, w);
        var r := if discovery[Rep(v)] < discovery[Rep(w)] then Rep(v) else Rep(w);
        SetRepresentative(v, r);
        LowerChild(graph, before, atCompare, State(), gray, v, done, w, r);
      } else {
        ClosedChildIsDone(graph, State(), gray, v, done, w);
      }
    }

    /** Closes the component of the root `v`: pops its other members off the stack and pushes `v`
        on the topological stack. */
    method Close(v: NodeID, ghost before: Search, ghost gray: set<NodeID>)
      requires v in graph.children && Domain(graph, before) && Stack(before, gray)
      requires InVisit(graph, before, State(), gray, v, |graph.children[v]|) && Rep(v) == v
      modifies this
      ensures Inv(graph, State(), gray) && VisitedFrom(graph, before, State(), v)
    {
      hide RepOk, Reps, Finished, ChildDone, Components, SubsOk, Subs, Topo, Visiting, VisitedFrom, Closes, Distinct;
      ghost var start := State();
      ghost var popped := set n | n in nonRoots[|before.nonRoots|..];
      RootStack(graph, before, start, gray, v, popped);
      SetInSCC(v);
      StartClosing(start, State().(topo := topo + [v]), v);
      popped := PopMembers(v, start, |before.nonRoots|);
      topo := topo + [v];
      CloseEndsVisit(graph, before, start, State(), gray, v, popped);
    }

    /** Pops the nodes discovered after `v`, which are those above position `base` of the stack. */
    method PopMembers(v: NodeID, ghost start: Search, ghost base: nat) returns (ghost popped: set<NodeID>)
      requires PoppableFrom(start, v, base) && nonRoots == start.nonRoots
      requires Closes(start, State().(topo := topo + [v]), v, {})
      modifies this
      ensures |nonRoots| == base && Closes(start, State().(topo := topo + [v]), v, popped)
    {
      popped := {};
      while |nonRoots| > 0
        invariant Closes(start, State().(topo := topo + [v]), v, popped)
        invariant base <= |nonRoots|
      {
        var w := nonRoots[|nonRoots| - 1];
        assert w == start.nonRoots[|nonRoots| - 1];
        if discovery[w] <= discovery[v] {
          break;
        }
        Pop(w, v, start, popped);
        popped := popped + {w};
      }
    }

    method Pop(w: NodeID, v: NodeID, ghost start: Search, ghost popped: set<NodeID>)
      requires |nonRoots| > 0 && nonRoots[|nonRoots| - 1] == w && w != v && w in nodeInfo && v in nodeInfo
      requires Distinct(start.nonRoots) && Closes(start, State().(topo := topo + [v]), v, popped)
      modifies this
      ensures nonRoots == old(nonRoots[..|nonRoots| - 1])
      ensures Closes(start, State().(topo := topo + [v]), v, popped + {w})
    {
      ghost var s := State();
      nonRoots := nonRoots[..|nonRoots| - 1];
      SetInSCC(w);
      SetRepresentative(w, v);
      SetRepPops(s, State(), w, v);
      PopStep(start, s.(topo := s.topo + [v]), State().(topo := topo + [v]), w, v, popped);
    }

    method Clear()
      modifies this
      ensures State() == START
    {
      nodeInfo, count, discovery, nonRoots, topo, repNodes := map[], 0, map[], [], [], {};
      order := [];
    }

    /** Searches the whole graph. */
    method Find()
      requires graph.Valid()
      modifies this
      ensures Complete(graph, State()) && nodeInfo.Keys == graph.children.Keys
    {
      FindFrom(graph.nodes);
      VisitedAll(graph, State());
    }

    /** Searches the part of the graph that the candidates lead to. */
    method FindFrom(candidates: seq<NodeID>)
      requires graph.Valid() && forall c :: c in candidates ==> c in graph.children
      modifies this
      ensures Complete(graph, State())
      ensures forall n :: n in nodeInfo <==> ReachedFrom(graph.Edges(), candidates, n)
    {
      Clear();
      StartIsComplete(graph);
      var i := 0;
      while i < |candidates|
        invariant 0 <= i <= |candidates| && Complete(graph, State())
        invariant forall n :: n in candidates[..i] ==> n in nodeInfo
        invariant forall n :: n in nodeInfo ==> ReachedFrom(graph.Edges(), candidates, n)
      {
        var node := candidates[i];
        assert candidates[..i + 1] == candidates[..i] + [node];
        if !Visited(node) {
          if Rep(node) == UINT_MAX || Rep(node) == node {
            ghost var before := State();
            Visit(node, {});
            VisitIsComplete(graph, before, State(), candidates, node);
          } else {
            assert false;   // a node without an entry has no representative yet
          }
        }
        i := i + 1;
      }
      assert candidates[..|candidates|] == candidates;
      VisitedReached(graph, State(), candidates);
    }

    /** The representative of a node the search has seen; a node without one stands for itself. */
    function RepNode(n: NodeID): (r: NodeID)
      requires n in nodeInfo
      reads this
    {
      var r := nodeInfo[n].rep;
      if r != UINT_MAX then r else n
    }

    /** Two nodes share a representative exactly when each leads to the other; the representative
        is the member of their component that was discovered first. */
    lemma RepNodesPartition(n: NodeID, m: NodeID)
      requires graph.Valid() && Complete(graph, State()) && n in nodeInfo && m in nodeInfo
      ensures RepNode(n) == RepNode(m) <==> Mutual(graph.Edges(), n, m)
      ensures RepNode(n) in discovery && Mutual(graph.Edges(), n, RepNode(n))
      ensures Mutual(graph.Edges(), n, m) ==> discovery[RepNode(n)] <= discovery[m]
    {
      assert RepOk(graph, State(), n) && RepOk(graph, State(), m);
      SameRepIsMutual(graph, State(), n, m);
      ReachSelf(graph.Edges(), n);
      RepIsFirstDiscovered(graph, State(), n, n);
      if Mutual(graph.Edges(), n, m) {
        RepIsFirstDiscovered(graph, State(), n, m);
      }
    }

    /** Whether `n` lies on a cycle. */
    method IsInCycle(n: NodeID) returns (inCycle: bool)
      requires graph.Valid() && Complete(graph, State()) && n in nodeInfo
      ensures inCycle <==> ReachPlus(graph.Edges(), n, n)
    {
      CompleteIsClosed(graph, State());
      assert RepOk(graph, State(), n);
      CycleTest(graph, State(), n);
      var r := RepNode(n);
      if |nodeInfo[r].subNodes| > 1 {
        return true;
      }
      var kids := graph.children[r];
      var i := 0;
      while i < |kids|
        invariant 0 <= i <= |kids| && r !in kids[..i]
      {
        if kids[i] == r {
          return true;
        }
        i := i + 1;
      }
      return false;
    }
  }
}
