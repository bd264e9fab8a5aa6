/** The state of the one-pass strongly-connected-component search, and the invariant it keeps.

    The search of `SCCDetection` colours nodes in three ways: a visited node is "closed" once its
    component is complete (the `inSCC` flag), otherwise it is "open"; an open node is either still
    being visited (a member of the ghost set `gray`) or lies on the stack of finished non-roots. */
module SCCInvariant {
  import opened Nodes
  import opened Reachability

  const UINT_MAX: NodeID := 0xFFFF_FFFF

  /** A finite graph: its nodes in iteration order, and the direct children of each in edge order. */
  datatype Graph = Graph(nodes: seq<NodeID>, children: map<NodeID, seq<NodeID>>)
  {
    ghost predicate Valid() {
      && (forall n :: n in nodes <==> n in children)
      && (forall n, c :: n in children && c in children[n] ==> c in children)
      && (forall n :: n in children ==> n < UINT_MAX)
    }

    ghost function Edges(): set<(NodeID, NodeID)> {
      set u, v | u in children && v in children[u] :: (u, v)
    }
  }

  datatype GNodeSCCInfo = GNodeSCCInfo(visited: bool, inSCC: bool, rep: NodeID, subNodes: set<NodeID>)

  const FRESH_INFO := GNodeSCCInfo(false, false, UINT_MAX, {})

  /** A snapshot of the fields of `SCCDetection`; the top of each stack is its last element, and
      `order` lists the nodes in the order of their discovery numbers. */
  datatype Search = Search(
    info: map<NodeID, GNodeSCCInfo>,
    count: nat,
    discovery: map<NodeID, nat>,
    order: seq<NodeID>,
    nonRoots: seq<NodeID>,
    topo: seq<NodeID>,
    repNodes: set<NodeID>)
  {
    ghost predicate Open(n: NodeID) { n in info && !info[n].inSCC }
    ghost predicate Closed(n: NodeID) { n in info && info[n].inSCC }
    function Get(n: NodeID): GNodeSCCInfo { if n in info then info[n] else FRESH_INFO }
  }

  const START := Search(map[], 0, map[], [], [], [], {})

  /** The effect of `rep(n, r)`: `r` becomes the representative of `n`. */
  function SetRep(s: Search, n: NodeID, r: NodeID): Search {
    var i1 := s.info[n := s.Get(n).(rep := r)];
    var atR := if r in i1 then i1[r] else FRESH_INFO;
    var i2 := i1[r := atR.(subNodes := atR.subNodes + {n})];
    if n == r then
      s.(info := i2)
    else
      s.(info := i2[n := i2[n].(subNodes := {})], repNodes := s.repNodes - {n} + {r})
  }

  // ---------- The invariant ----------

  ghost predicate Domain(g: Graph, s: Search) {
    && s.discovery.Keys == s.info.Keys <= g.children.Keys
    && |s.order| == s.count
    && (forall n {:trigger s.discovery[n]} :: n in s.info ==> s.info[n].visited && 1 <= s.discovery[n] <= s.count)
    && (forall n {:trigger s.discovery[n]} :: n in s.info ==> s.order[s.discovery[n] - 1] == n)
  }

  ghost predicate Distinct(q: seq<NodeID>) {
    forall i, j :: 0 <= i < j < |q| ==> q[i] != q[j]
  }

  lemma DistinctSplit(q: seq<NodeID>, k: nat)
    requires Distinct(q) && k <= |q|
    ensures forall n :: n in q[..k] ==> n !in q[k..]
    ensures k < |q| ==> q[k] !in q[k + 1..]
  {
  }

  lemma SomeElement(q: seq<NodeID>)
    ensures q != [] ==> exists n :: n in q
  {
    if q != [] {
      assert q[0] in q;
    }
  }

  ghost predicate Stack(s: Search, gray: set<NodeID>) {
    && (forall n :: n in gray ==> s.Open(n))
    && Distinct(s.nonRoots)
    && (forall n :: n in s.nonRoots <==> s.Open(n) && n !in gray)
  }

  ghost predicate RepOk(g: Graph, s: Search, n: NodeID)
    requires s.discovery.Keys == s.info.Keys && n in s.info
  {
    var r := s.info[n].rep;
    && r in s.info && s.discovery[r] <= s.discovery[n]
    && s.info[r].inSCC == s.info[n].inSCC
    && Reach(g.Edges(), n, r)
    && (s.info[n].inSCC ==> s.info[r].rep == r && Reach(g.Edges(), r, n))
  }

  ghost predicate Reps(g: Graph, s: Search)
    requires Domain(g, s)
  {
    forall n {:trigger RepOk(g, s, n)} :: n in s.info ==> RepOk(g, s, n)
  }

  /** A finished open node has a representative other than itself, discovered no later than any
      open child of the node. */
  ghost predicate Finished(g: Graph, s: Search)
    requires Domain(g, s)
  {
    forall n :: n in s.nonRoots ==>
      && n in s.info && s.info[n].rep != n
      && forall c :: Edge(g.Edges(), n, c) ==> ChildDone(g, s, n, c)
  }

  ghost predicate ChildDone(g: Graph, s: Search, n: NodeID, c: NodeID)
    requires Domain(g, s) && n in s.info
  {
    c in s.info && (s.Open(c) ==> s.info[n].rep in s.discovery && s.discovery[s.info[n].rep] <= s.discovery[c])
  }

  /** Closed nodes only lead to closed nodes, and mutually reachable ones agree on their
      representative (the converse is part of `RepOk`). */
  ghost predicate Components(g: Graph, s: Search) {
    && (forall n, c {:trigger Edge(g.Edges(), n, c)} :: s.Closed(n) && Edge(g.Edges(), n, c) ==> s.Closed(c))
    && (forall n, m {:trigger Mutual(g.Edges(), n, m)} ::
          s.Closed(n) && s.Closed(m) && Mutual(g.Edges(), n, m) ==> s.info[n].rep == s.info[m].rep)
  }

  /** The sub-node set of an open node may hold stale entries; that of a closed node is exact. */
  ghost predicate SubsOk(g: Graph, s: Search, r: NodeID)
    requires s.discovery.Keys == s.info.Keys && r in s.info
  {
    && (r in s.repNodes <==> exists n :: n in s.info[r].subNodes && n != r)
    && (forall n :: n in s.info[r].subNodes ==>
          n in s.info && s.discovery[r] <= s.discovery[n] && Reach(g.Edges(), n, r))
    && (s.info[r].rep == r ==> r in s.info[r].subNodes)
    && (s.info[r].inSCC ==> forall n :: n in s.info[r].subNodes <==> s.Closed(n) && s.info[n].rep == r)
  }

  ghost predicate Subs(g: Graph, s: Search)
    requires Domain(g, s)
  {
    && s.repNodes <= s.info.Keys
    && (forall r {:trigger SubsOk(g, s, r)} :: r in s.info ==> SubsOk(g, s, r))
  }

  /** The stack of roots is a reverse topological order of the closed components, bottom to top. */
  ghost predicate Topo(g: Graph, s: Search) {
    && Distinct(s.topo)
    && (forall n :: n in s.topo <==> s.Closed(n) && s.info[n].rep == n)
    && (forall n, c, i, j {:trigger Edge(g.Edges(), n, c), s.topo[i], s.topo[j]} ::
          0 <= i < |s.topo| && 0 <= j < |s.topo| && Edge(g.Edges(), n, c) && s.Closed(n) && s.Closed(c)
          && s.info[n].rep == s.topo[i] && s.info[c].rep == s.topo[j] ==>
            j <= i)
  }

  ghost predicate Inv(g: Graph, s: Search, gray: set<NodeID>) {
    && Domain(g, s) && Stack(s, gray) && Reps(g, s) && Finished(g, s)
    && Components(g, s) && Subs(g, s) && Topo(g, s)
  }

  /** What the search keeps about the node `v` it is in the middle of visiting; its children in
      `done` have been dealt with. */
  ghost predicate Visiting(g: Graph, s: Search, gray: set<NodeID>, v: NodeID, done: set<NodeID>)
    requires Domain(g, s) && Reps(g, s)
  {
    && v !in gray && s.Open(v) && RepOk(g, s, v)
    && (forall n :: n in gray ==> n in s.info && s.discovery[n] < s.discovery[v] && Reach(g.Edges(), n, v))
    && (forall n :: n in s.info && s.discovery[v] <= s.discovery[n] ==> Reach(g.Edges(), v, n))
    && (forall n {:trigger RepOk(g, s, n)} :: s.Open(n) && s.discovery[v] <= s.discovery[n] && RepOk(g, s, n) ==>
          s.discovery[s.info[v].rep] <= s.discovery[s.info[n].rep])
    && (forall c :: c in done ==> ChildDone(g, s, v, c))
  }

  /** What a visit leaves alone: everything but the sub-node sets of the nodes visited before it. */
  ghost predicate Keeps(s: Search, t: Search)
    requires s.discovery.Keys == s.info.Keys && t.discovery.Keys == t.info.Keys
  {
    && s.count <= t.count && s.info.Keys <= t.info.Keys
    && forall n {:trigger t.info[n]} {:trigger t.discovery[n]} :: n in s.info ==>
         && t.discovery[n] == s.discovery[n]
         && t.info[n].inSCC == s.info[n].inSCC && t.info[n].rep == s.info[n].rep
  }

  // ---------- Steps of the search ----------

  /** The state when the visit of `v` begins. */
  function EnterNode(s: Search, v: NodeID): Search {
    var t := SetRep(s.(count := s.count + 1, discovery := s.discovery[v := s.count + 1], order := s.order + [v]), v, v);
    t.(info := t.info[v := t.Get(v).(visited := true)])
  }

  /** `t` is `s` after the visit of `v` begins. */
  ghost predicate Enters(s: Search, t: Search, v: NodeID) {
    && v !in s.info
    && t.info == s.info[v := GNodeSCCInfo(true, false, v, {v})]
    && t.count == s.count + 1 && t.discovery == s.discovery[v := s.count + 1] && t.order == s.order + [v]
    && t.nonRoots == s.nonRoots && t.topo == s.topo && t.repNodes == s.repNodes
  }

  lemma EnterNodeEnters(s: Search, v: NodeID)
    requires v !in s.info
    ensures Enters(s, EnterNode(s, v), v)
  {
    var t := EnterNode(s, v);
    assert t.info[v] == GNodeSCCInfo(true, false, v, {v});
    assert t.info == s.info[v := GNodeSCCInfo(true, false, v, {v})];
  }

  lemma EnterDomain(g: Graph, s: Search, t: Search, v: NodeID)
    requires Domain(g, s) && v in g.children && Enters(s, t, v)
    ensures Domain(g, t) && Keeps(s, t)
  {
  }

  lemma EnterReps(g: Graph, s: Search, t: Search, v: NodeID)
    requires Domain(g, s) && Reps(g, s) && Domain(g, t) && Enters(s, t, v)
    ensures Reps(g, t)
  {
    forall n | n in t.info
      ensures RepOk(g, t, n)
    {
      if n == v {
        ReachSelf(g.Edges(), v);
      } else {
        assert RepOk(g, s, n);
      }
    }
  }

  lemma EnterFinished(g: Graph, s: Search, t: Search, gray: set<NodeID>, v: NodeID)
    requires Domain(g, s) && Reps(g, s) && Stack(s, gray) && Finished(g, s) && Domain(g, t) && Enters(s, t, v)
    ensures Finished(g, t) && Stack(t, gray + {v})
  {
    hide Edge;
  }

  lemma EnterSubsOk(g: Graph, s: Search, t: Search, v: NodeID, r: NodeID)
    requires Domain(g, s) && Domain(g, t) && Enters(s, t, v)
    requires r == v || (r in s.info && SubsOk(g, s, r))
    requires v !in s.repNodes && Reach(g.Edges(), v, v)
    ensures SubsOk(g, t, r)
  {
    if r != v && s.info[r].inSCC {
      assert t.info[r] == s.info[r];
      assert forall n :: t.Closed(n) <==> s.Closed(n);
    }
  }

  lemma EnterSubs(g: Graph, s: Search, t: Search, v: NodeID)
    requires Domain(g, s) && Subs(g, s) && Domain(g, t) && Enters(s, t, v)
    ensures Subs(g, t)
  {
    ReachSelf(g.Edges(), v);
    forall r | r in t.info
      ensures SubsOk(g, t, r)
    {
      assert r == v || SubsOk(g, s, r);
      EnterSubsOk(g, s, t, v, r);
    }
  }

  lemma EnterComponents(g: Graph, s: Search, t: Search, v: NodeID)
    requires Components(g, s) && Topo(g, s) && Enters(s, t, v)
    ensures Components(g, t) && Topo(g, t)
  {
  }

  lemma EnterKeepsInv(g: Graph, s: Search, t: Search, gray: set<NodeID>, v: NodeID)
    requires Inv(g, s, gray) && v in g.children && Enters(s, t, v)
    requires forall n :: n in gray ==> Reach(g.Edges(), n, v)
    ensures Inv(g, t, gray + {v}) && Visiting(g, t, gray, v, {}) && Keeps(s, t)
  {
    EnterDomain(g, s, t, v);
    EnterReps(g, s, t, v);
    EnterFinished(g, s, t, gray, v);
    EnterSubs(g, s, t, v);
    EnterComponents(g, s, t, v);
    ReachSelf(g.Edges(), v);
    assert RepOk(g, t, v);
  }

  /** `t` is `s` after the open node `v` takes the open node `r` as its representative. */
  ghost predicate Lowers(s: Search, t: Search, v: NodeID, r: NodeID) {
    && s.Open(v) && s.Open(r)
    && t == s.(info := t.info, repNodes := t.repNodes)
    && t.info.Keys == s.info.Keys
    && (forall n {:trigger t.info[n]} :: n in s.info && n != v && n != r ==> t.info[n] == s.info[n])
    && (r != v ==> t.info[r] == s.info[r].(subNodes := s.info[r].subNodes + {v}))
    && t.info[v] == s.info[v].(rep := r, subNodes := if r == v then s.info[v].subNodes + {v} else {})
    && t.repNodes == if r == v then s.repNodes else s.repNodes - {v} + {r}
  }

  lemma SetRepLowers(s: Search, v: NodeID, r: NodeID)
    requires s.Open(v) && s.Open(r)
    ensures Lowers(s, SetRep(s, v, r), v, r)
  {
  }

  lemma LowerDomain(g: Graph, s: Search, t: Search, v: NodeID, r: NodeID)
    requires Domain(g, s) && Lowers(s, t, v, r)
    ensures Domain(g, t) && forall n :: t.Open(n) <==> s.Open(n)
  {
  }

  lemma LowerRepOk(g: Graph, s: Search, t: Search, v: NodeID, r: NodeID, n: NodeID)
    requires Domain(g, s) && Domain(g, t) && Lowers(s, t, v, r) && n in s.info && RepOk(g, s, n)
    requires s.discovery[r] <= s.discovery[v] && Reach(g.Edges(), v, r)
    ensures RepOk(g, t, n)
  {
  }

  lemma LowerReps(g: Graph, s: Search, t: Search, gray: set<NodeID>, v: NodeID, r: NodeID)
    requires Domain(g, s) && Reps(g, s) && Stack(s, gray) && Lowers(s, t, v, r)
    requires s.discovery[r] <= s.discovery[v] && Reach(g.Edges(), v, r)
    ensures Domain(g, t) && Reps(g, t) && Stack(t, gray)
  {
    LowerDomain(g, s, t, v, r);
    forall n | n in t.info
      ensures RepOk(g, t, n)
    {
      assert RepOk(g, s, n);
      LowerRepOk(g, s, t, v, r, n);
    }
  }

  lemma LowerFinished(g: Graph, s: Search, t: Search, v: NodeID, r: NodeID)
    requires Domain(g, s) && Finished(g, s) && Domain(g, t) && v !in s.nonRoots && Lowers(s, t, v, r)
    ensures Finished(g, t)
  {
  }

  lemma LowerSubsOk(g: Graph, s: Search, t: Search, v: NodeID, r: NodeID, n: NodeID)
    requires Domain(g, s) && Lowers(s, t, v, r) && n in s.info && SubsOk(g, s, n)
    requires s.discovery[r] <= s.discovery[v] && Reach(g.Edges(), v, r)
    ensures SubsOk(g, t, n)
  {
    if n == r && n != v {
      assert v in t.info[r].subNodes;
    }
    assert forall m :: t.Closed(m) <==> s.Closed(m);
  }

  lemma LowerSubs(g: Graph, s: Search, t: Search, v: NodeID, r: NodeID)
    requires Domain(g, s) && Subs(g, s) && Domain(g, t) && Lowers(s, t, v, r)
    requires s.discovery[r] <= s.discovery[v] && Reach(g.Edges(), v, r)
    ensures Subs(g, t)
  {
    forall n | n in s.info
      ensures SubsOk(g, t, n)
    {
      assert SubsOk(g, s, n);
      LowerSubsOk(g, s, t, v, r, n);
    }
  }

  lemma LowerComponents(g: Graph, s: Search, t: Search, v: NodeID, r: NodeID)
    requires Components(g, s) && Topo(g, s) && Lowers(s, t, v, r)
    ensures Components(g, t) && Topo(g, t)
  {
  }

  lemma LowerKeepsInv(g: Graph, s: Search, t: Search, gray: set<NodeID>, v: NodeID, r: NodeID)
    requires Inv(g, s, gray) && v in gray && Lowers(s, t, v, r)
    requires s.discovery[r] <= s.discovery[v] && Reach(g.Edges(), v, r)
    ensures Inv(g, t, gray)
  {
    LowerReps(g, s, t, gray, v, r);
    LowerFinished(g, s, t, v, r);
    LowerSubs(g, s, t, v, r);
    LowerComponents(g, s, t, v, r);
  }
}
