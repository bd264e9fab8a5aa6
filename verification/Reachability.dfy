/** Paths and reachability in a finite directed graph given by its set of edges. */
module Reachability {
  import opened Nodes

  ghost predicate Edge(es: set<(NodeID, NodeID)>, u: NodeID, v: NodeID) {
    (u, v) in es
  }

  /** A non-empty sequence of nodes in which each node has an edge to the next one. */
  ghost predicate IsPath(es: set<(NodeID, NodeID)>, p: seq<NodeID>) {
    |p| > 0 && forall i, j | 0 <= i && j < |p| && j == i + 1 :: Edge(es, p[i], p[j])
  }

  ghost predicate PathFromTo(es: set<(NodeID, NodeID)>, p: seq<NodeID>, u: NodeID, v: NodeID) {
    IsPath(es, p) && p[0] == u && p[|p| - 1] == v
  }

  /** `v` is reached from `u` along zero or more edges. */
  ghost predicate Reach(es: set<(NodeID, NodeID)>, u: NodeID, v: NodeID) {
    exists p: seq<NodeID> :: PathFromTo(es, p, u, v)
  }

  /** `v` is reached from `u` along one or more edges. */
  ghost predicate ReachPlus(es: set<(NodeID, NodeID)>, u: NodeID, v: NodeID) {
    exists w: NodeID :: Edge(es, u, w) && Reach(es, w, v)
  }

  ghost predicate Mutual(es: set<(NodeID, NodeID)>, u: NodeID, v: NodeID) {
    Reach(es, u, v) && Reach(es, v, u)
  }

  /** `s` contains the target of every edge that starts in it. */
  ghost predicate ClosedUnder(es: set<(NodeID, NodeID)>, s: set<NodeID>) {
    forall u: NodeID, v: NodeID :: u in s && Edge(es, u, v) ==> v in s
  }

  lemma ReachSelf(es: set<(NodeID, NodeID)>, u: NodeID)
    ensures Reach(es, u, u)
  {
    assert PathFromTo(es, [u], u, u);
  }

  lemma ReachEdge(es: set<(NodeID, NodeID)>, u: NodeID, v: NodeID)
    requires Edge(es, u, v)
    ensures Reach(es, u, v)
  {
    assert PathFromTo(es, [u, v], u, v);
  }

  lemma ReachTrans(es: set<(NodeID, NodeID)>, u: NodeID, v: NodeID, w: NodeID)
    requires Reach(es, u, v) && Reach(es, v, w)
    ensures Reach(es, u, w)
  {
    var p: seq<NodeID> :| PathFromTo(es, p, u, v);
    var q: seq<NodeID> :| PathFromTo(es, q, v, w);
    var r := p + q[1..];
    forall i, j | 0 <= i && j < |r| && j == i + 1
      ensures Edge(es, r[i], r[j])
    {
      if j < |p| {
        assert Edge(es, p[i], p[j]);
      } else {
        assert r[i] == q[j - |p|] && r[j] == q[j - |p| + 1];
      }
    }
    assert PathFromTo(es, r, u, w);
  }

  /** A path that starts in a closed set never leaves it. */
  lemma ReachStaysInside(es: set<(NodeID, NodeID)>, s: set<NodeID>, u: NodeID, v: NodeID)
    requires ClosedUnder(es, s) && u in s && Reach(es, u, v)
    ensures v in s
  {
    var p: seq<NodeID> :| PathFromTo(es, p, u, v);
    var i := 0;
    while i < |p| - 1
      invariant 0 <= i < |p| && p[i] in s
    {
      assert Edge(es, p[i], p[i + 1]);
      i := i + 1;
    }
  }

  /** A path between different nodes takes a first step. */
  lemma ReachFirstStep(es: set<(NodeID, NodeID)>, u: NodeID, v: NodeID)
    requires Reach(es, u, v) && u != v
    ensures ReachPlus(es, u, v)
  {
    var p: seq<NodeID> :| PathFromTo(es, p, u, v);
    assert |p| > 1 && Edge(es, p[0], p[1]);
    assert PathFromTo(es, p[1..], p[1], v);
  }

  /** A path between different nodes takes a last step. */
  lemma ReachLastStep(es: set<(NodeID, NodeID)>, u: NodeID, v: NodeID) returns (w: NodeID)
    requires Reach(es, u, v) && u != v
    ensures Reach(es, u, w) && Edge(es, w, v)
  {
    var p: seq<NodeID> :| PathFromTo(es, p, u, v);
    assert |p| > 1 && Edge(es, p[|p| - 2], p[|p| - 1]);
    w := p[|p| - 2];
    assert PathFromTo(es, p[..|p| - 1], u, w);
  }

  /** `s` contains the source of every edge that ends in it. */
  ghost predicate ClosedBackwards(es: set<(NodeID, NodeID)>, s: set<NodeID>) {
    forall u: NodeID, v: NodeID :: v in s && Edge(es, u, v) ==> u in s
  }

  lemma ReachStartsInside(es: set<(NodeID, NodeID)>, s: set<NodeID>, u: NodeID, v: NodeID)
    requires ClosedBackwards(es, s) && v in s && Reach(es, u, v)
    ensures u in s
  {
    var p: seq<NodeID> :| PathFromTo(es, p, u, v);
    var i := |p| - 1;
    while i > 0
      invariant 0 <= i < |p| && p[i] in s
    {
      assert Edge(es, p[i - 1], p[i]);
      i := i - 1;
    }
  }

  /** More edges reach more. */
  lemma ReachMore(es: set<(NodeID, NodeID)>, fs: set<(NodeID, NodeID)>, u: NodeID, v: NodeID)
    requires es <= fs && Reach(es, u, v)
    ensures Reach(fs, u, v)
  {
    var p: seq<NodeID> :| PathFromTo(es, p, u, v);
    forall i, j | 0 <= i && j < |p| && j == i + 1
      ensures Edge(fs, p[i], p[j])
    {
      assert Edge(es, p[i], p[j]);
    }
    assert PathFromTo(fs, p, u, v);
  }
}
