/** How one visit relates the state before it to the state after it. */
module SCCVisit {
  import opened Nodes
  import opened Reachability
  import opened SCCInvariant
  import opened SCCClosing

  /** Later states keep what is known about the nodes visited before, whose part of the stack of
      finished nodes stays in place. */
  ghost predicate Extends(s: Search, t: Search)
  {
    && s.discovery.Keys == s.info.Keys && t.discovery.Keys == t.info.Keys
    && Keeps(s, t)
    && |s.nonRoots| <= |t.nonRoots| && s.nonRoots == t.nonRoots[..|s.nonRoots|]
    && (forall n :: n in t.nonRoots[|s.nonRoots|..] ==> n !in s.info)
    && (forall n {:trigger t.discovery[n]} :: n in t.info && n !in s.info ==> s.count < t.discovery[n])
  }

  /** The effect of a visit of `v`. Every newly visited node is reached from `v`; if one of them
      is still open then so is `v`, whose representative was discovered no later. */
  ghost predicate VisitedFrom(g: Graph, s: Search, t: Search, v: NodeID)
  {
    && Extends(s, t)
    && v in t.info && t.discovery[v] == s.count + 1
    && (forall n {:trigger Reach(g.Edges(), v, n)} :: n in t.info && n !in s.info ==> Reach(g.Edges(), v, n))
    && (forall n {:trigger RepOk(g, t, n)} :: n in t.info && n !in s.info && t.Open(n) && RepOk(g, t, n) ==>
          t.Open(v) && (RepOk(g, t, v) ==> t.discovery[t.info[v].rep] <= t.discovery[t.info[n].rep]))
  }

  lemma ExtendsTrans(s: Search, t: Search, u: Search)
    requires Extends(s, t) && Extends(t, u)
    ensures Extends(s, u)
  {
  }

  lemma EnterExtends(s: Search, t: Search, v: NodeID)
    requires Enters(s, t, v) && s.discovery.Keys == s.info.Keys
    ensures Extends(s, t)
  {
  }

  lemma LowerExtends(s: Search, t: Search, u: Search, v: NodeID, r: NodeID)
    requires Extends(s, t) && Lowers(t, u, v, r) && v !in s.info
    ensures Extends(s, u)
  {
  }

  /** What is known while the child `w` of `v` has been visited but not yet compared with `v`. */
  ghost predicate Comparing(g: Graph, s: Search, gray: set<NodeID>, v: NodeID, done: set<NodeID>, w: NodeID)
    requires Domain(g, s) && Reps(g, s)
  {
    && v !in gray && s.Open(v) && RepOk(g, s, v) && w in s.info && RepOk(g, s, w)
    && (forall n :: n in gray ==> n in s.info && s.discovery[n] < s.discovery[v] && Reach(g.Edges(), n, v))
    && (forall n :: n in s.info && s.discovery[v] <= s.discovery[n] ==> Reach(g.Edges(), v, n))
    && (forall n {:trigger RepOk(g, s, n)} :: s.Open(n) && s.discovery[v] <= s.discovery[n] && RepOk(g, s, n) ==>
          || s.discovery[s.info[v].rep] <= s.discovery[s.info[n].rep]
          || (s.Open(w) && s.discovery[s.info[w].rep] <= s.discovery[s.info[n].rep]))
    && (forall c :: c in done ==> ChildDone(g, s, v, c))
  }

  lemma VisitingIsComparing(g: Graph, s: Search, gray: set<NodeID>, v: NodeID, done: set<NodeID>, w: NodeID)
    requires Domain(g, s) && Reps(g, s) && Visiting(g, s, gray, v, done) && w in s.info
    ensures Comparing(g, s, gray, v, done, w)
  {
  }

  lemma ChildStaysDone(g: Graph, s: Search, t: Search, v: NodeID, c: NodeID)
    requires Domain(g, s) && Domain(g, t) && Extends(s, t)
    requires v in s.info && v in t.info && RepOk(g, s, v) && ChildDone(g, s, v, c)
    ensures ChildDone(g, t, v, c)
  {
  }

  lemma RepStays(g: Graph, s: Search, t: Search, n: NodeID)
    requires Domain(g, s) && Domain(g, t) && Extends(s, t) && n in s.info && RepOk(g, s, n)
    ensures n in t.info && t.info[n].rep == s.info[n].rep && s.info[n].rep in t.info
    ensures t.discovery[n] == s.discovery[n] && t.discovery[s.info[n].rep] == s.discovery[s.info[n].rep]
    ensures t.Open(n) == s.Open(n)
  {
  }

  lemma ChildVisitKeepsReach(g: Graph, s: Search, t: Search, v: NodeID, w: NodeID, n: NodeID)
    requires Domain(g, s) && Domain(g, t) && VisitedFrom(g, s, t, w) && Edge(g.Edges(), v, w)
    requires v in s.info && n in t.info && t.discovery[v] <= t.discovery[n]
    requires n in s.info && s.discovery[v] <= s.discovery[n] ==> Reach(g.Edges(), v, n)
    ensures Reach(g.Edges(), v, n)
  {
    if n !in s.info {
      ReachEdge(g.Edges(), v, w);
      ReachTrans(g.Edges(), v, w, n);
    }
  }

  lemma ChildVisitKeepsLow(g: Graph, s: Search, t: Search, gray: set<NodeID>, v: NodeID, done: set<NodeID>,
          w: NodeID, n: NodeID)
    requires Domain(g, s) && Domain(g, t) && Reps(g, s) && Visiting(g, s, gray, v, done) && VisitedFrom(g, s, t, w)
    requires t.Open(n) && t.discovery[v] <= t.discovery[n] && RepOk(g, t, n) && v in t.info && RepOk(g, t, v) &&
      RepOk(g, t, w)
    ensures || t.discovery[t.info[v].rep] <= t.discovery[t.info[n].rep]
            || (t.Open(w) && t.discovery[t.info[w].rep] <= t.discovery[t.info[n].rep])
  {
    RepStays(g, s, t, v);
    if n in s.info {
      assert RepOk(g, s, n);
      RepStays(g, s, t, n);
    }
  }

  lemma ChildVisitIsComparing(g: Graph, s: Search, t: Search, gray: set<NodeID>, v: NodeID, done: set<NodeID>,
          w: NodeID)
    requires Domain(g, s) && Reps(g, s) && Visiting(g, s, gray, v, done)
    requires Domain(g, t) && Reps(g, t) && VisitedFrom(g, s, t, w) && Edge(g.Edges(), v, w)
    ensures Comparing(g, t, gray, v, done, w)
  {
    RepStays(g, s, t, v);
    assert RepOk(g, t, v) && RepOk(g, t, w);
    forall n | n in t.info && t.discovery[v] <= t.discovery[n]
      ensures Reach(g.Edges(), v, n)
    {
      ChildVisitKeepsReach(g, s, t, v, w, n);
    }
    forall c | c in done
      ensures ChildDone(g, t, v, c)
    {
      ChildStaysDone(g, s, t, v, c);
    }
    forall n | t.Open(n) && t.discovery[v] <= t.discovery[n] && RepOk(g, t, n)
      ensures || t.discovery[t.info[v].rep] <= t.discovery[t.info[n].rep]
              || (t.Open(w) && t.discovery[t.info[w].rep] <= t.discovery[t.info[n].rep])
    {
      ChildVisitKeepsLow(g, s, t, gray, v, done, w, n);
    }
  }

  lemma ClosedChildIsDone(g: Graph, s: Search, gray: set<NodeID>, v: NodeID, done: set<NodeID>, w: NodeID)
    requires Domain(g, s) && Reps(g, s) && Comparing(g, s, gray, v, done, w) && s.Closed(w)
    ensures Visiting(g, s, gray, v, done + {w})
  {
  }

  lemma LowerKeepsLow(g: Graph, s: Search, t: Search, gray: set<NodeID>, v: NodeID, done: set<NodeID>, w: NodeID,
          r: NodeID, n: NodeID)
    requires Domain(g, s) && Reps(g, s) && Comparing(g, s, gray, v, done, w) && s.Open(w)
    requires r in s.info && s.discovery[r] <= s.discovery[s.info[v].rep] && s.discovery[r] <= s.discovery[s.info[w].rep]
    requires Lowers(s, t, v, r) && t.discovery == s.discovery
    requires t.Open(n) && t.discovery[v] <= t.discovery[n] && t.info[n].rep in t.discovery
    ensures t.discovery[r] <= t.discovery[t.info[n].rep]
  {
    if n != v {
      assert t.info[n].rep == s.info[n].rep;
      assert RepOk(g, s, n);
    }
  }

  lemma LowerKeepsAllDone(g: Graph, s: Search, t: Search, gray: set<NodeID>, v: NodeID, done: set<NodeID>,
          w: NodeID, r: NodeID)
    requires Domain(g, s) && Reps(g, s) && Comparing(g, s, gray, v, done, w) && s.Open(w)
    requires r in s.info && s.discovery[r] <= s.discovery[s.info[v].rep] && s.discovery[r] <= s.discovery[s.info[w].rep]
    requires Lowers(s, t, v, r) && Domain(g, t) && Reps(g, t)
    ensures forall c :: c in done + {w} ==> ChildDone(g, t, v, c)
  {
  }

  /** Taking the earlier of the two representatives deals with an open child. */
  lemma OpenChildIsDone(g: Graph, s: Search, t: Search, gray: set<NodeID>, v: NodeID, done: set<NodeID>, w: NodeID,
          r: NodeID)
    requires Domain(g, s) && Reps(g, s) && Comparing(g, s, gray, v, done, w) && s.Open(w)
    requires r in s.info && s.discovery[r] <= s.discovery[s.info[v].rep] && s.discovery[r] <= s.discovery[s.info[w].rep]
    requires Lowers(s, t, v, r) && Domain(g, t) && Reps(g, t)
    ensures Visiting(g, t, gray, v, done + {w})
  {
    LowerKeepsAllDone(g, s, t, gray, v, done, w, r);
    assert RepOk(g, t, v) && t.info[v].rep == r;
    forall n | t.Open(n) && t.discovery[v] <= t.discovery[n] && RepOk(g, t, n)
      ensures t.discovery[t.info[v].rep] <= t.discovery[t.info[n].rep]
    {
      LowerKeepsLow(g, s, t, gray, v, done, w, r, n);
    }
  }

  /** The nodes that a root closes are those above the part of the stack it found. */
  lemma RootIsReady(g: Graph, before: Search, s: Search, gray: set<NodeID>, v: NodeID, done: set<NodeID>,
          popped: set<NodeID>)
    requires Domain(g, before) && Stack(before, gray) && v !in before.info
    requires Domain(g, s) && Reps(g, s) && Stack(s, gray + {v}) && Extends(before, s)
    requires v in s.info && s.discovery[v] == before.count + 1
    requires Visiting(g, s, gray, v, done) && s.info[v].rep == v
    requires forall c :: Edge(g.Edges(), v, c) ==> c in done
    requires forall n :: n in popped <==> n in s.nonRoots[|before.nonRoots|..]
    ensures ReadyToClose(g, s, gray, v, popped)
  {
    forall n
      ensures n in popped <==> s.Open(n) && n in s.discovery && s.discovery[v] < s.discovery[n]
    {
      PoppedIsLater(g, before, s, gray, v, popped, n);
    }
  }

  /** Above the part of the stack that `v` found are the open nodes discovered after it. */
  lemma PoppedIsLater(g: Graph, before: Search, s: Search, gray: set<NodeID>, v: NodeID, popped: set<NodeID>, n: NodeID)
    requires Domain(g, before) && Stack(before, gray) && v !in before.info
    requires Domain(g, s) && Stack(s, gray + {v}) && Extends(before, s)
    requires v in s.info && s.discovery[v] == before.count + 1
    requires forall m :: m in popped <==> m in s.nonRoots[|before.nonRoots|..]
    requires forall m :: m in gray ==> m in s.info && s.discovery[m] < s.discovery[v]
    ensures n in popped <==> s.Open(n) && n in s.discovery && s.discovery[v] < s.discovery[n]
  {
  }

  /** `u` is `t` after the finished node `w` is popped off the stack into the component of `v`. */
  ghost predicate Pops(t: Search, u: Search, w: NodeID, v: NodeID) {
    && w != v && w in t.info && v in t.info
    && t.nonRoots == u.nonRoots + [w]
    && u.info.Keys == t.info.Keys
    && (forall n {:trigger u.info[n]} :: n in t.info && n != w && n != v ==> u.info[n] == t.info[n])
    && u.info[w] == t.info[w].(inSCC := true, rep := v, subNodes := {})
    && u.info[v] == t.info[v].(subNodes := t.info[v].subNodes + {w})
    && u.repNodes == t.repNodes - {w} + {v}
    && u.count == t.count && u.discovery == t.discovery && u.order == t.order && u.topo == t.topo
  }

  lemma SetRepPops(t: Search, u: Search, w: NodeID, v: NodeID)
    requires w != v && w in t.info && v in t.info && |t.nonRoots| > 0 && t.nonRoots[|t.nonRoots| - 1] == w
    requires u == SetRep(t.(nonRoots := t.nonRoots[..|t.nonRoots| - 1],
      info := t.info[w := t.info[w].(inSCC := true)]), w, v)
    ensures Pops(t, u, w, v)
  {
  }

  /** One round of the loop that closes a component. */
  lemma PopStep(s: Search, t: Search, u: Search, w: NodeID, v: NodeID, popped: set<NodeID>)
    requires Closes(s, t, v, popped) && Pops(t, u, w, v) && Distinct(s.nonRoots)
    ensures Closes(s, u, v, popped + {w})
  {
    var k := |u.nonRoots|;
    assert w == t.nonRoots[k] == s.nonRoots[k];
    assert s.nonRoots[k..] == [w] + s.nonRoots[k + 1..];
    DistinctSplit(s.nonRoots, k);
    PopInfo(s, t, u, w, v, popped);
  }

  lemma PopInfo(s: Search, t: Search, u: Search, w: NodeID, v: NodeID, popped: set<NodeID>)
    requires Closes(s, t, v, popped) && Pops(t, u, w, v) && w !in popped
    ensures u.repNodes == s.repNodes - (popped + {w}) + {v}
    ensures forall n {:trigger u.info[n]} :: n in s.info ==>
              u.info[n] ==
                if n == w || n in popped then s.info[n].(inSCC := true, rep := v, subNodes := {})
                else if n == v then s.info[v].(inSCC := true, subNodes := s.info[v].subNodes + (popped + {w}))
                else s.info[n]
  {
  }

  lemma CloseExtends(g: Graph, before: Search, s: Search, t: Search, v: NodeID, popped: set<NodeID>)
    requires Domain(g, before) && v !in before.info && Domain(g, s) && Domain(g, t) && Extends(before, s)
    requires popped !! before.info.Keys && Closes(s, t, v, popped) && |t.nonRoots| == |before.nonRoots|
    ensures Extends(before, t)
  {
    assert t.nonRoots == before.nonRoots && t.discovery == s.discovery;
    forall n | n in before.info
      ensures t.info[n] == s.info[n]
    {
      assert n != v && n !in popped;
    }
  }

  lemma CloseFinishesVisit(g: Graph, before: Search, s: Search, t: Search, gray: set<NodeID>, v: NodeID,
          popped: set<NodeID>)
    requires Domain(g, before) && v !in before.info && Domain(g, s) && Reps(g, s) && Domain(g, t)
    requires Extends(before, s) && v in s.info && s.discovery[v] == before.count + 1
    requires ReadyToClose(g, s, gray, v, popped) && Closes(s, t, v, popped) && |t.nonRoots| == |before.nonRoots|
    requires forall n :: t.Closed(n) <==> s.Closed(n) || n == v || n in popped
    ensures VisitedFrom(g, before, t, v)
  {
    forall n | n in before.info
      ensures n !in popped
    {
      assert s.discovery[n] == before.discovery[n];
    }
    CloseExtends(g, before, s, t, v, popped);
    NewlyClosed(g, before, s, t, gray, v, popped);
    assert t.discovery[v] == before.count + 1;
  }

  lemma NewlyClosed(g: Graph, before: Search, s: Search, t: Search, gray: set<NodeID>, v: NodeID, popped: set<NodeID>)
    requires Domain(g, s) && Reps(g, s) && Extends(before, s) && v in s.info && s.discovery[v] == before.count + 1
    requires ReadyToClose(g, s, gray, v, popped) && t.info.Keys == s.info.Keys
    requires forall n :: t.Closed(n) <==> s.Closed(n) || n == v || n in popped
    ensures forall n :: n in t.info && n !in before.info ==> t.Closed(n) && Reach(g.Edges(), v, n)
  {
    forall n | n in t.info && n !in before.info
      ensures t.Closed(n) && Reach(g.Edges(), v, n)
    {
      assert s.discovery[v] <= s.discovery[n];
      if s.Open(n) && n != v {
        assert s.discovery[n] != s.discovery[v];
      }
    }
  }

  lemma SuspendFinishesVisit(g: Graph, before: Search, s: Search, t: Search, gray: set<NodeID>, v: NodeID,
          done: set<NodeID>)
    requires Domain(g, before) && v !in before.info && Domain(g, s) && Reps(g, s)
    requires Extends(before, s) && v in s.info && s.discovery[v] == before.count + 1
    requires Visiting(g, s, gray, v, done) && t == s.(nonRoots := s.nonRoots + [v])
    ensures VisitedFrom(g, before, t, v)
  {
    hide ChildDone, RepOk;
    var k := |before.nonRoots|;
    assert t.nonRoots[k..] == s.nonRoots[k..] + [v];
    forall n | n in t.info && n !in before.info
      ensures Reach(g.Edges(), v, n)
    {
      assert s.discovery[v] <= s.discovery[n];
    }
    SuspendKeepsLow(g, before, s, t, gray, v, done);
  }

  lemma SuspendKeepsLow(g: Graph, before: Search, s: Search, t: Search, gray: set<NodeID>, v: NodeID, done: set<NodeID>)
    requires Domain(g, before) && v !in before.info && Domain(g, s) && Reps(g, s)
    requires Extends(before, s) && v in s.info && s.discovery[v] == before.count + 1
    requires Visiting(g, s, gray, v, done) && t == s.(nonRoots := s.nonRoots + [v])
    ensures forall n {:trigger RepOk(g, t, n)} :: n in t.info && n !in before.info && t.Open(n) && RepOk(g, t, n) ==>
      t.discovery[t.info[v].rep] <= t.discovery[t.info[n].rep]
  {
    forall n | n in t.info && n !in before.info && t.Open(n) && RepOk(g, t, n)
      ensures t.discovery[t.info[v].rep] <= t.discovery[t.info[n].rep]
    {
      assert s.discovery[v] <= s.discovery[n];
      assert RepOk(g, s, n);
    }
  }

  /** The nodes in progress all lead to the child about to be visited. */
  lemma VisitingReachesChild(g: Graph, s: Search, gray: set<NodeID>, v: NodeID, done: set<NodeID>, w: NodeID)
    requires Domain(g, s) && Reps(g, s) && Visiting(g, s, gray, v, done) && Edge(g.Edges(), v, w)
    ensures forall n :: n in gray + {v} ==> Reach(g.Edges(), n, w)
  {
    ReachEdge(g.Edges(), v, w);
    forall n | n in gray
      ensures Reach(g.Edges(), n, w)
    {
      ReachTrans(g.Edges(), n, v, w);
    }
  }

  /** The step that lowers the representative of `v` on account of its open child `w`. */
  lemma LowerChild(g: Graph, before: Search, s: Search, t: Search, gray: set<NodeID>, v: NodeID, done: set<NodeID>,
          w: NodeID, r: NodeID)
    requires Inv(g, s, gray + {v}) && Comparing(g, s, gray, v, done, w) && s.Open(w) && Edge(g.Edges(), v, w)
    requires r == if s.discovery[s.info[v].rep] < s.discovery[s.info[w].rep] then s.info[v].rep else s.info[w].rep
    requires Extends(before, s) && v !in before.info && t == SetRep(s, v, r)
    ensures Inv(g, t, gray + {v}) && Visiting(g, t, gray, v, done + {w}) && Extends(before, t)
    ensures t.discovery == s.discovery
  {
    SetRepLowers(s, v, r);
    ReachEdge(g.Edges(), v, w);
    if r == s.info[w].rep {
      ReachTrans(g.Edges(), v, w, r);
    }
    LowerKeepsInv(g, s, t, gray + {v}, v, r);
    OpenChildIsDone(g, s, t, gray, v, done, w, r);
    LowerExtends(before, s, t, v, r);
  }

  /** The first `i` children of `v`. */
  ghost function Kids(g: Graph, v: NodeID, i: nat): set<NodeID>
    requires v in g.children && i <= |g.children[v]|
  {
    set k | k in g.children[v][..i]
  }

  lemma KidsStep(g: Graph, v: NodeID, i: nat)
    requires v in g.children && i < |g.children[v]|
    ensures Kids(g, v, i + 1) == Kids(g, v, i) + {g.children[v][i]}
    ensures Edge(g.Edges(), v, g.children[v][i])
  {
  }

  lemma AllKids(g: Graph, v: NodeID)
    requires v in g.children
    ensures forall c :: Edge(g.Edges(), v, c) ==> c in Kids(g, v, |g.children[v]|)
  {
  }

  /** The loop over the children of `v` after `i` rounds: `before` is the state in which the visit
      of `v` began. */
  ghost predicate InVisit(g: Graph, before: Search, s: Search, gray: set<NodeID>, v: NodeID, i: nat) {
    && v in g.children && i <= |g.children[v]|
    && Inv(g, s, gray + {v}) && Visiting(g, s, gray, v, Kids(g, v, i))
    && Extends(before, s) && v !in before.info && s.discovery[v] == before.count + 1
  }

  lemma EnterInVisit(g: Graph, s: Search, gray: set<NodeID>, v: NodeID)
    requires Inv(g, s, gray) && v in g.children && v !in s.info
    requires forall n :: n in gray ==> Reach(g.Edges(), n, v)
    ensures InVisit(g, s, EnterNode(s, v), gray, v, 0)
  {
    EnterNodeEnters(s, v);
    EnterKeepsInv(g, s, EnterNode(s, v), gray, v);
    EnterExtends(s, EnterNode(s, v), v);
    assert Kids(g, v, 0) == {};
  }

  lemma SuspendEndsVisit(g: Graph, before: Search, s: Search, t: Search, gray: set<NodeID>, v: NodeID)
    requires v in g.children && Domain(g, before) && InVisit(g, before, s, gray, v, |g.children[v]|) &&
      s.info[v].rep != v
    requires t == s.(nonRoots := s.nonRoots + [v])
    ensures Inv(g, t, gray) && VisitedFrom(g, before, t, v)
  {
    AllKids(g, v);
    SuspendKeepsInv(g, s, t, gray, v);
    SuspendFinishesVisit(g, before, s, t, gray, v, Kids(g, v, |g.children[v]|));
  }

  /** Where the nodes to be popped lie on the stack, and that they are ready to be. */
  lemma RootStack(g: Graph, before: Search, s: Search, gray: set<NodeID>, v: NodeID, popped: set<NodeID>)
    requires v in g.children && Domain(g, before) && Stack(before, gray) &&
      InVisit(g, before, s, gray, v, |g.children[v]|)
    requires s.info[v].rep == v
    requires forall n :: n in popped <==> n in s.nonRoots[|before.nonRoots|..]
    ensures ReadyToClose(g, s, gray, v, popped)
    ensures PoppableFrom(s, v, |before.nonRoots|)
  {
    AllKids(g, v);
    RootIsReady(g, before, s, gray, v, Kids(g, v, |g.children[v]|), popped);
    var k := |before.nonRoots|;
    forall i | 0 <= i < |s.nonRoots|
      ensures i < k <==> s.discovery[s.nonRoots[i]] <= s.discovery[v]
    {
      if i < k {
        assert before.nonRoots[i] == s.nonRoots[i] && s.nonRoots[i] in before.nonRoots;
        assert before.Open(s.nonRoots[i]);
      } else {
        assert s.nonRoots[i] in s.nonRoots[k..];
      }
    }
  }

  /** The stack holds distinct visited nodes; those from position `base` on were discovered after `v`. */
  ghost predicate PoppableFrom(s: Search, v: NodeID, base: nat) {
    && v in s.info && v in s.discovery && v !in s.nonRoots && base <= |s.nonRoots| && Distinct(s.nonRoots)
    && (forall i :: 0 <= i < |s.nonRoots| ==> s.nonRoots[i] in s.info && s.nonRoots[i] in s.discovery)
    && (forall i :: 0 <= i < |s.nonRoots| ==> (i < base <==> s.discovery[s.nonRoots[i]] <= s.discovery[v]))
  }

  lemma CloseEndsVisit(g: Graph, before: Search, s: Search, t: Search, gray: set<NodeID>, v: NodeID,
          popped: set<NodeID>)
    requires v in g.children && Domain(g, before) && Stack(before, gray) &&
      InVisit(g, before, s, gray, v, |g.children[v]|)
    requires s.info[v].rep == v
    requires forall n :: n in popped <==> n in s.nonRoots[|before.nonRoots|..]
    requires Closes(s, t, v, popped) && |t.nonRoots| == |before.nonRoots|
    ensures Inv(g, t, gray) && VisitedFrom(g, before, t, v)
  {
    RootStack(g, before, s, gray, v, popped);
    CloseKeepsInv(g, s, t, gray, v, popped);
    CloseFinishesVisit(g, before, s, t, gray, v, popped);
  }

  /** The state right after the root `v` sets its own flag. */
  lemma StartClosing(s: Search, t: Search, v: NodeID)
    requires s.Open(v)
    requires t == s.(info := s.info[v := s.info[v].(inSCC := true)], topo := s.topo + [v])
    ensures Closes(s, t, v, {})
  {
  }
}

/** What a completed search has computed. */
module SCCResult {
  import opened Nodes
  import opened Reachability
  import opened SCCInvariant
  import opened SCCClosing
  import opened SCCVisit

  /** No visit is in progress. */
  ghost predicate Complete(g: Graph, s: Search) {
    Inv(g, s, {})
  }

  ghost predicate ReachedFrom(es: set<(NodeID, NodeID)>, candidates: seq<NodeID>, n: NodeID) {
    exists c :: c in candidates && Reach(es, c, n)
  }

  lemma StartIsComplete(g: Graph)
    ensures Complete(g, START)
  {
  }

  /** Between visits every visited node is closed. */
  lemma CompleteIsClosed(g: Graph, s: Search)
    requires Complete(g, s)
    ensures s.nonRoots == [] && forall n :: n in s.info ==> s.Closed(n)
  {
    forall n | n in s.info
      ensures s.Closed(n)
    {
      if s.Open(n) {
        var top := OpenReachesGray(g, s, {}, n);
      }
    }
    SomeElement(s.nonRoots);
  }

  lemma VisitIsComplete(g: Graph, before: Search, s: Search, candidates: seq<NodeID>, v: NodeID)
    requires Complete(g, s) && VisitedFrom(g, before, s, v) && v in candidates
    requires forall n :: n in before.info ==> ReachedFrom(g.Edges(), candidates, n)
    ensures v in s.info && before.info.Keys <= s.info.Keys
    ensures forall n :: n in s.info ==> ReachedFrom(g.Edges(), candidates, n)
  {
  }

  lemma VisitedReached(g: Graph, s: Search, candidates: seq<NodeID>)
    requires Complete(g, s) && forall c :: c in candidates ==> c in s.info
    ensures forall n :: ReachedFrom(g.Edges(), candidates, n) ==> n in s.info
  {
    CompleteIsClosed(g, s);
    forall n | ReachedFrom(g.Edges(), candidates, n)
      ensures n in s.info
    {
      var c :| c in candidates && Reach(g.Edges(), c, n);
      ReachStaysInside(g.Edges(), s.info.Keys, c, n);
    }
  }

  lemma VisitedAll(g: Graph, s: Search)
    requires g.Valid() && Complete(g, s)
    requires forall n :: n in s.info <==> ReachedFrom(g.Edges(), g.nodes, n)
    ensures s.info.Keys == g.children.Keys
  {
    forall n | n in g.nodes
      ensures n in s.info
    {
      ReachSelf(g.Edges(), n);
    }
  }

  /** Two visited nodes have the same representative exactly when each leads to the other. */
  lemma SameRepIsMutual(g: Graph, s: Search, n: NodeID, m: NodeID)
    requires Complete(g, s) && n in s.info && m in s.info
    ensures s.info[n].rep == s.info[m].rep <==> Mutual(g.Edges(), n, m)
  {
    CompleteIsClosed(g, s);
    assert RepOk(g, s, n) && RepOk(g, s, m);
    var r := s.info[n].rep;
    if s.info[m].rep == r {
      ReachTrans(g.Edges(), n, r, m);
      ReachTrans(g.Edges(), m, r, n);
    }
  }

  /** The representative is the member of its component that was discovered first. */
  lemma RepIsFirstDiscovered(g: Graph, s: Search, n: NodeID, m: NodeID)
    requires Complete(g, s) && n in s.info && m in s.info && Mutual(g.Edges(), n, m)
    ensures Mutual(g.Edges(), n, s.info[n].rep)
    ensures s.info[n].rep in s.discovery && s.discovery[s.info[n].rep] <= s.discovery[m]
  {
    CompleteIsClosed(g, s);
    SameRepIsMutual(g, s, n, m);
    assert RepOk(g, s, n) && RepOk(g, s, m);
  }

  /** Any two completed searches, whatever their starting points, agree on the partition of the
      nodes that both visited. */
  lemma SearchesAgree(g: Graph, s: Search, t: Search, n: NodeID, m: NodeID)
    requires Complete(g, s) && Complete(g, t)
    requires n in s.info && m in s.info && n in t.info && m in t.info
    ensures s.info[n].rep == s.info[m].rep <==> t.info[n].rep == t.info[m].rep
  {
    SameRepIsMutual(g, s, n, m);
    SameRepIsMutual(g, t, n, m);
  }

  /** The sub-nodes of a representative are its component; any other node has none. */
  lemma SubNodesAreComponent(g: Graph, s: Search, r: NodeID)
    requires Complete(g, s) && r in s.info
    ensures s.info[r].rep == r ==> forall n :: n in s.info[r].subNodes <==> n in s.info && Mutual(g.Edges(), n, r)
    ensures s.info[r].rep != r ==> s.info[r].subNodes == {}
  {
    CompleteIsClosed(g, s);
    assert SubsOk(g, s, r);
    if s.info[r].rep == r {
      forall n | n in s.info
        ensures n in s.info[r].subNodes <==> Mutual(g.Edges(), n, r)
      {
        SameRepIsMutual(g, s, n, r);
      }
    } else {
      forall n | n in s.info
        ensures s.info[n].rep != r
      {
        assert RepOk(g, s, n);
      }
    }
  }

  /** `getRepNodes` holds exactly the representatives of components of two or more nodes. */
  lemma RepNodesAreCyclicReps(g: Graph, s: Search, r: NodeID)
    requires Complete(g, s)
    ensures r in s.repNodes <==>
              && r in s.info && s.info[r].rep == r
              && exists m :: m in s.info && m != r && Mutual(g.Edges(), m, r)
  {
    CompleteIsClosed(g, s);
    if r in s.info {
      SubNodesAreComponent(g, s, r);
      assert SubsOk(g, s, r);
    }
  }

  /** Each component is on the topological stack once, through its representative. */
  lemma TopoHoldsEachRepOnce(g: Graph, s: Search, n: NodeID)
    requires Complete(g, s) && n in s.info
    ensures exists i :: 0 <= i < |s.topo| && s.topo[i] == s.info[n].rep
    ensures forall i, j :: 0 <= i < |s.topo| && 0 <= j < |s.topo| && s.topo[i] == s.topo[j] ==> i == j
    ensures forall i :: 0 <= i < |s.topo| ==> s.topo[i] in s.info && s.info[s.topo[i]].rep == s.topo[i]
  {
    CompleteIsClosed(g, s);
    assert RepOk(g, s, n);
    assert s.info[n].rep in s.topo;
    forall i | 0 <= i < |s.topo|
      ensures s.topo[i] in s.info && s.info[s.topo[i]].rep == s.topo[i]
    {
      assert s.topo[i] in s.topo;
    }
  }

  /** The stack of roots is a topological order: along any path that leaves a component, the
      representative of the source is nearer to the top, so it is popped first. */
  lemma TopoOrdersPaths(g: Graph, s: Search, p: seq<NodeID>, i: nat, j: nat)
    requires Complete(g, s) && IsPath(g.Edges(), p) && p[0] in s.info
    requires i < |s.topo| && s.topo[i] == s.info[p[0]].rep
    requires p[|p| - 1] in s.info && j < |s.topo| && s.topo[j] == s.info[p[|p| - 1]].rep
    ensures j <= i
    ensures !Mutual(g.Edges(), p[0], p[|p| - 1]) ==> j < i
    decreases |p|
  {
    CompleteIsClosed(g, s);
    SameRepIsMutual(g, s, p[0], p[|p| - 1]);
    TopoHoldsEachRepOnce(g, s, p[0]);
    if |p| > 1 {
      assert Edge(g.Edges(), p[0], p[1]);
      TopoHoldsEachRepOnce(g, s, p[1]);
      var k :| 0 <= k < |s.topo| && s.topo[k] == s.info[p[1]].rep;
      assert k <= i;
      TopoOrdersPaths(g, s, p[1..], k, j);
    }
  }

  /** A set that holds `r` has a second element exactly when it has more than one. */
  lemma MoreThanOne(q: set<NodeID>, r: NodeID)
    requires r in q
    ensures |q| > 1 <==> exists m :: m in q && m != r
  {
    if m :| m in q && m != r {
      assert |q - {r}| > 0 by {
        assert m in q - {r};
      }
      assert |q| == |q - {r}| + 1;
    } else {
      assert q == {r};
    }
  }

  /** A node lies on a cycle exactly when its component has several nodes or it is its own child. */
  lemma CycleTest(g: Graph, s: Search, n: NodeID)
    requires Complete(g, s) && n in s.info && s.info[n].rep in s.info
    ensures var r := s.info[n].rep;
      |s.info[r].subNodes| > 1 || Edge(g.Edges(), r, r) <==> ReachPlus(g.Edges(), n, n)
  {
    var es := g.Edges();
    var r := s.info[n].rep;
    CompleteIsClosed(g, s);
    assert RepOk(g, s, n) && RepOk(g, s, r);
    SubNodesAreComponent(g, s, r);
    ReachSelf(es, r);
    MoreThanOne(s.info[r].subNodes, r);
    if m :| m in s.info[r].subNodes && m != r {
      var other := if n == r then m else r;
      ReachFirstStep(es, n, other);
      var w :| Edge(es, n, w) && Reach(es, w, other);
      ReachTrans(es, w, other, n);
    } else {
      assert n in s.info[r].subNodes && n == r;
      ReachSelf(es, n);
      if w :| Edge(es, n, w) && Reach(es, w, n) {
        ReachEdge(es, n, w);
        assert s.Closed(w);
        assert w in s.info[r].subNodes;
      }
    }
  }
}
