/** Ancestors and descendants of every class in a class hierarchy graph. */
module CHGBuilder {
  import opened Nodes
  import opened Reachability

  datatype EdgeType = INHERITANCE | INSTANTCE

  datatype CHEdge = CHEdge(src: NodeID, dst: NodeID, edgeType: EdgeType)

  /** The graph: class names, one node each, and the edges that leave a node. */
  datatype CHGraph = CHGraph(names: map<NodeID, string>, outEdges: map<NodeID, set<CHEdge>>) {
    ghost predicate Valid() {
      && outEdges.Keys == names.Keys
      && (forall m: NodeID, n: NodeID | m in names && n in names && SameName(m, n) :: m == n)
      && (forall n: NodeID | n in outEdges :: forall e | e in outEdges[n] :: e.src == n && e.dst in names)
    }

    ghost predicate SameName(m: NodeID, n: NodeID)
      requires m in names && n in names
    {
      names[m] == names[n]
    }

    ghost predicate Inherits(u: NodeID, v: NodeID) {
      u in outEdges && CHEdge(u, v, INHERITANCE) in outEdges[u]
    }

    /** The pairs of a class and a direct base of it. */
    ghost function Bases(): set<(NodeID, NodeID)> {
      set n: NodeID, e | n in outEdges && e in outEdges[n] && e == CHEdge(n, e.dst, INHERITANCE) :: (n, e.dst)
    }

    lemma InheritsIsEdge(u: NodeID, v: NodeID)
      ensures Inherits(u, v) <==> Edge(Bases(), u, v)
    {
    }
  }

  function At(m: map<string, set<NodeID>>, name: string): set<NodeID> {
    if name in m then m[name] else {}
  }

  /** The map with node `n` added under the name of node `u`. */
  function Insert(g: CHGraph, m: map<string, set<NodeID>>, u: NodeID, n: NodeID): map<string, set<NodeID>>
    requires u in g.names
  {
    m[g.names[u] := At(m, g.names[u]) + {n}]
  }

  /** Node `n` is kept under the name of node `u`. */
  ghost predicate Kept(g: CHGraph, m: map<string, set<NodeID>>, u: NodeID, n: NodeID)
    requires u in g.names
  {
    n in At(m, g.names[u])
  }

  /** Names are unique, so only what is kept for `u` has changed. */
  lemma InsertedOnce(g: CHGraph, m: map<string, set<NodeID>>, u: NodeID, n: NodeID)
    requires g.Valid() && u in g.names
    ensures forall v: NodeID, w: NodeID | v in g.names ::
      Kept(g, Insert(g, m, u, n), v, w) <==> Kept(g, m, v, w) || (v == u && w == n)
  {
    forall v: NodeID, w: NodeID | v in g.names
      ensures Kept(g, Insert(g, m, u, n), v, w) <==> Kept(g, m, v, w) || (v == u && w == n)
    {
      assert g.SameName(v, u) <==> v == u;
    }
  }

  class Builder {
    const chg: CHGraph
    var classNameToAncestorsMap: map<string, set<NodeID>>
    var classNameToDescendantsMap: map<string, set<NodeID>>

    constructor (chg: CHGraph)
      requires chg.Valid()
      ensures this.chg == chg && classNameToAncestorsMap == map[] && classNameToDescendantsMap == map[]
    {
      this.chg := chg;
      classNameToAncestorsMap, classNameToDescendantsMap := map[], map[];
    }

    ghost predicate HasAncestor(u: NodeID, v: NodeID)
      requires u in chg.names
      reads this
    {
      Kept(chg, classNameToAncestorsMap, u, v)
    }

    /** The two maps are converses of each other, and hold nothing but nodes of the graph. */
    ghost predicate Mirrored()
      reads this
    {
      && (forall u: NodeID, v: NodeID | u in chg.names && v in chg.names ::
            HasAncestor(u, v) <==> Kept(chg, classNameToDescendantsMap, v, u))
      && (forall u: NodeID, v: NodeID | u in chg.names && HasAncestor(u, v) :: v in chg.names)
    }

    method AddAncestor(node: NodeID, succnode: NodeID)
      requires chg.Valid() && Mirrored() && node in chg.names && succnode in chg.names
      modifies this
      ensures Mirrored()
      ensures forall u: NodeID, v: NodeID | u in chg.names ::
        HasAncestor(u, v) <==> old(HasAncestor(u, v)) || (u == node && v == succnode)
    {
      InsertedOnce(chg, classNameToAncestorsMap, node, succnode);
      InsertedOnce(chg, classNameToDescendantsMap, succnode, node);
      classNameToAncestorsMap := Insert(chg, classNameToAncestorsMap, node, succnode);
      classNameToDescendantsMap := Insert(chg, classNameToDescendantsMap, succnode, node);
    }

    /** Only the ancestors of `node` have changed. */
    twostate predicate OthersKept(node: NodeID)
      reads this
    {
      forall u: NodeID, v: NodeID | u in chg.names && u != node :: HasAncestor(u, v) <==> old(HasAncestor(u, v))
    }

    /** Every base of a node visited is an ancestor of `node`, and visited or waiting itself. */
    ghost predicate BasesSeen(node: NodeID, u: NodeID, visited: set<NodeID>, worklist: set<NodeID>)
      requires node in chg.names
      reads this
    {
      forall v: NodeID | chg.Inherits(u, v) :: HasAncestor(node, v) && (v in visited || v in worklist)
    }

    /** Pushes the direct bases of one node. */
    method VisitBases(node: NodeID, curnode: NodeID, worklist: set<NodeID>) returns (worklist': set<NodeID>)
      requires chg.Valid() && Mirrored() && node in chg.names && curnode in chg.names
      modifies this
      ensures Mirrored() && OthersKept(node)
      ensures forall v: NodeID :: HasAncestor(node, v) <==> old(HasAncestor(node, v)) || chg.Inherits(curnode, v)
      ensures forall v: NodeID :: v in worklist' <==> v in worklist || chg.Inherits(curnode, v)
    {
      worklist' := worklist;
      var rest := chg.outEdges[curnode];
      while rest != {}
        invariant Mirrored() && OthersKept(node) && rest <= chg.outEdges[curnode]
        invariant forall v: NodeID :: HasAncestor(node, v) <==>
          old(HasAncestor(node, v)) || (chg.Inherits(curnode, v) && CHEdge(curnode, v, INHERITANCE) !in rest)
        invariant forall v: NodeID :: v in worklist' <==>
          v in worklist || (chg.Inherits(curnode, v) && CHEdge(curnode, v, INHERITANCE) !in rest)
      {
        var edge :| edge in rest;
        rest := rest - {edge};
        if edge.edgeType == INHERITANCE {
          AddAncestor(node, edge.dst);
          worklist' := worklist' + {edge.dst};
        }
      }
    }

    /** The search from `node` has found only what is reached, and left nothing behind. */
    ghost predicate Closing(node: NodeID, visited: set<NodeID>, worklist: set<NodeID>)
      requires node in chg.names
      reads this
    {
      && worklist <= chg.names.Keys && visited <= chg.names.Keys && (node in visited || node in worklist)
      && (forall v: NodeID | v in visited || v in worklist :: Reach(chg.Bases(), node, v))
      && (forall v: NodeID | HasAncestor(node, v) :: ReachPlus(chg.Bases(), node, v))
      && (forall u: NodeID | u in visited :: BasesSeen(node, u, visited, worklist))
    }

    method VisitNode(node: NodeID, curnode: NodeID, visited: set<NodeID>, worklist: set<NodeID>)
      returns (worklist': set<NodeID>)
      requires chg.Valid() && Mirrored() && node in chg.names && curnode in worklist && Closing(node, visited, worklist)
      modifies this
      ensures Mirrored() && OthersKept(node) && Closing(node, visited + {curnode}, worklist')
    {
      ghost var es := chg.Bases();
      worklist' := VisitBases(node, curnode, worklist - {curnode});
      forall v: NodeID | chg.Inherits(curnode, v) ensures ReachPlus(es, node, v) && Reach(es, node, v) {
        chg.InheritsIsEdge(curnode, v);
        StepOn(es, node, curnode, v);
      }
      forall u: NodeID | u in visited + {curnode} ensures BasesSeen(node, u, visited + {curnode}, worklist') {
        assert u != curnode ==> old(BasesSeen(node, u, visited, worklist));
      }
    }

    /** Finds the ancestors of one class, whatever the order in which the worklist is emptied. */
    method CloseNode(node: NodeID)
      requires chg.Valid() && Mirrored() && node in chg.names
      requires forall v: NodeID :: HasAncestor(node, v) ==> ReachPlus(chg.Bases(), node, v)
      modifies this
      ensures Mirrored() && OthersKept(node)
      ensures forall v: NodeID :: HasAncestor(node, v) <==> ReachPlus(chg.Bases(), node, v)
    {
      var worklist, visitedNodes: set<NodeID> := {node}, {};
      ReachSelf(chg.Bases(), node);
      while worklist != {}
        invariant Mirrored() && OthersKept(node) && Closing(node, visitedNodes, worklist)
        decreases chg.names.Keys - visitedNodes, worklist
      {
        var curnode :| curnode in worklist;
        if curnode !in visitedNodes {
          worklist := VisitNode(node, curnode, visitedNodes, worklist);
          visitedNodes := visitedNodes + {curnode};
        } else {
          DropVisited(node, curnode, visitedNodes, worklist);
          worklist := worklist - {curnode};
        }
      }
      AncestorsComplete(node, visitedNodes);
    }

    lemma DropVisited(node: NodeID, curnode: NodeID, visited: set<NodeID>, worklist: set<NodeID>)
      requires node in chg.names && Closing(node, visited, worklist) && curnode in visited
      ensures Closing(node, visited, worklist - {curnode})
    {
    }

    lemma AncestorsComplete(node: NodeID, visited: set<NodeID>)
      requires chg.Valid() && node in chg.names && node in visited
      requires forall u: NodeID | u in visited :: BasesSeen(node, u, visited, {})
      ensures forall v: NodeID :: ReachPlus(chg.Bases(), node, v) ==> HasAncestor(node, v)
    {
      var es := chg.Bases();
      assert ClosedUnder(es, visited) by {
        forall u: NodeID, v: NodeID | u in visited && Edge(es, u, v) ensures v in visited {
          chg.InheritsIsEdge(u, v);
          assert BasesSeen(node, u, visited, {});
        }
      }
      forall v: NodeID | ReachPlus(es, node, v) ensures HasAncestor(node, v) {
        var u := ReachPlusLastStep(es, node, v);
        ReachStaysInside(es, visited, node, u);
        chg.InheritsIsEdge(u, v);
        assert BasesSeen(node, u, visited, {}) && chg.Inherits(u, v);
      }
    }

    /** Main result: afterwards the ancestors of a class are exactly those reached along one or more
        inheritance edges, and the descendants are the converse. */
    method BuildClassNameToAncestorsDescendantsMap()
      requires chg.Valid() && classNameToAncestorsMap == map[] && classNameToDescendantsMap == map[]
      modifies this
      ensures forall u: NodeID, v: NodeID | u in chg.names ::
        v in At(classNameToAncestorsMap, chg.names[u]) <==> ReachPlus(chg.Bases(), u, v)
      ensures forall u: NodeID, v: NodeID | u in chg.names && v in chg.names ::
        u in At(classNameToDescendantsMap, chg.names[v]) <==> ReachPlus(chg.Bases(), u, v)
    {
      ghost var es := chg.Bases();
      var rest := chg.names.Keys;
      while rest != {}
        invariant Mirrored() && rest <= chg.names.Keys
        invariant forall u: NodeID, v: NodeID | u in chg.names ::
          HasAncestor(u, v) <==> u !in rest && ReachPlus(es, u, v)
      {
        var node :| node in rest;
        CloseNode(node);
        rest := rest - {node};
      }
    }
  }

  lemma StepOn(es: set<(NodeID, NodeID)>, u: NodeID, v: NodeID, w: NodeID)
    requires Reach(es, u, v) && Edge(es, v, w)
    ensures ReachPlus(es, u, w) && Reach(es, u, w)
  {
    ReachEdge(es, v, w);
    ReachTrans(es, u, v, w);
    if u == v {
      ReachSelf(es, w);
    } else {
      ReachFirstStep(es, u, v);
      var x: NodeID :| Edge(es, u, x) && Reach(es, x, v);
      ReachTrans(es, x, v, w);
    }
  }

  lemma ReachPlusLastStep(es: set<(NodeID, NodeID)>, u: NodeID, v: NodeID) returns (w: NodeID)
    requires ReachPlus(es, u, v)
    ensures Reach(es, u, w) && Edge(es, w, v)
  {
    var x: NodeID :| Edge(es, u, x) && Reach(es, x, v);
    if x == v {
      ReachSelf(es, u);
      w := u;
    } else {
      w := ReachLastStep(es, x, v);
      ReachEdge(es, u, x);
      ReachTrans(es, u, x, w);
    }
  }
}
