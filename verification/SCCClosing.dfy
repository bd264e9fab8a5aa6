/** Completing a component: the root of the component and the finished nodes discovered after it
    become closed. */
module SCCClosing {
  import opened Nodes
  import opened Reachability
  import opened SCCInvariant

  /** Every open node leads to a node that is still being visited: follow representatives. */
  lemma OpenReachesGray(g: Graph, s: Search, gray: set<NodeID>, n: NodeID) returns (top: NodeID)
    requires Domain(g, s) && Reps(g, s) && Stack(s, gray) && Finished(g, s) && s.Open(n)
    ensures top in gray && Reach(g.Edges(), n, top)
    decreases s.discovery[n]
  {
    if n in gray {
      ReachSelf(g.Edges(), n);
      top := n;
    } else {
      assert n in s.nonRoots && RepOk(g, s, n);
      var r := s.info[n].rep;
      top := OpenReachesGray(g, s, gray, r);
      ReachTrans(g.Edges(), n, r, top);
    }
  }

  /** The root `v`, all of whose children are done, is about to close the component that consists
      of itself and `popped`: the open nodes discovered after it. */
  ghost predicate ReadyToClose(g: Graph, s: Search, gray: set<NodeID>, v: NodeID, popped: set<NodeID>)
    requires Domain(g, s) && Reps(g, s)
  {
    && Visiting(g, s, gray, v, {})
    && s.info[v].rep == v
    && (forall c :: Edge(g.Edges(), v, c) ==> ChildDone(g, s, v, c))
    && (forall n :: n in popped <==> s.Open(n) && n in s.discovery && s.discovery[v] < s.discovery[n])
  }

  /** `t` is `s` after the root `v` closes the component that consists of `v` and `popped`. */
  ghost predicate Closes(s: Search, t: Search, v: NodeID, popped: set<NodeID>) {
    && s.Open(v) && v !in popped
    && t == s.(info := t.info, repNodes := t.repNodes, nonRoots := t.nonRoots, topo := s.topo + [v])
    && t.info.Keys == s.info.Keys
    && (forall n {:trigger t.info[n]} {:trigger n in popped} :: n in s.info ==>
          t.info[n] ==
            if n in popped then s.info[n].(inSCC := true, rep := v, subNodes := {})
            else if n == v then s.info[v].(inSCC := true, subNodes := s.info[v].subNodes + popped)
            else s.info[n])
    && t.repNodes == s.repNodes - popped + (if popped == {} then {} else {v})
    && |t.nonRoots| <= |s.nonRoots| && t.nonRoots == s.nonRoots[..|t.nonRoots|]
    && (forall n :: n in s.nonRoots[|t.nonRoots|..] <==> n in popped)
  }

  /** The nodes being closed and their root lead to each other. */
  lemma TailIsMutual(g: Graph, s: Search, gray: set<NodeID>, v: NodeID, popped: set<NodeID>, n: NodeID)
    requires Domain(g, s) && Reps(g, s) && Stack(s, gray + {v}) && Finished(g, s)
    requires ReadyToClose(g, s, gray, v, popped) && n in popped
    ensures Mutual(g.Edges(), v, n)
  {
    var top := OpenReachesGray(g, s, gray + {v}, n);
    if top != v {
      ReachTrans(g.Edges(), n, top, v);
    }
  }

  /** No edge leads from the component being closed to another open node. */
  lemma TailIsClosed(g: Graph, s: Search, gray: set<NodeID>, v: NodeID, popped: set<NodeID>, n: NodeID, c: NodeID)
    requires Domain(g, s) && Reps(g, s) && Stack(s, gray + {v}) && Finished(g, s)
    requires ReadyToClose(g, s, gray, v, popped) && (n == v || n in popped) && Edge(g.Edges(), n, c)
    ensures s.Closed(c) || c == v || c in popped
  {
    assert RepOk(g, s, n);
    assert n != v ==> n in s.nonRoots;
    assert ChildDone(g, s, n, c);
  }

  /** Nothing closed before leads back to a node that is still open. */
  lemma ClosedNeverReachesOpen(g: Graph, s: Search, n: NodeID, m: NodeID)
    requires Components(g, s) && s.Closed(n) && Reach(g.Edges(), n, m)
    ensures s.Closed(m)
  {
    var closed := set k | k in s.info && s.Closed(k);
    ReachStaysInside(g.Edges(), closed, n, m);
  }

  lemma CloseDomain(g: Graph, s: Search, t: Search, v: NodeID, popped: set<NodeID>)
    requires Domain(g, s) && Closes(s, t, v, popped) && (forall n :: n in popped ==> s.Open(n))
    ensures Domain(g, t)
    ensures forall n :: t.Closed(n) <==> s.Closed(n) || n == v || n in popped
  {
  }

  lemma CloseStack(s: Search, t: Search, gray: set<NodeID>, v: NodeID, popped: set<NodeID>)
    requires Stack(s, gray + {v}) && v !in gray && Closes(s, t, v, popped) && popped !! gray
    requires forall n :: t.Closed(n) <==> s.Closed(n) || n == v || n in popped
    ensures Stack(t, gray)
  {
  }

  lemma CloseRepOk(g: Graph, s: Search, t: Search, gray: set<NodeID>, v: NodeID, popped: set<NodeID>, n: NodeID)
    requires Domain(g, s) && Domain(g, t) && Reps(g, s) && n in s.info && RepOk(g, s, n)
    requires ReadyToClose(g, s, gray, v, popped) && Closes(s, t, v, popped)
    requires n in popped ==> Mutual(g.Edges(), v, n)
    ensures RepOk(g, t, n)
  {
    hide ChildDone, Edge;
    if n == v {
    } else if n in popped {
    } else {
      assert RepOk(g, s, s.info[n].rep);
    }
  }

  lemma CloseReps(g: Graph, s: Search, t: Search, gray: set<NodeID>, v: NodeID, popped: set<NodeID>)
    requires Domain(g, s) && Reps(g, s) && Stack(s, gray + {v}) && Finished(g, s) && Domain(g, t)
    requires ReadyToClose(g, s, gray, v, popped) && Closes(s, t, v, popped)
    ensures Reps(g, t)
  {
    forall n | n in t.info
      ensures RepOk(g, t, n)
    {
      assert RepOk(g, s, n);
      if n in popped {
        TailIsMutual(g, s, gray, v, popped, n);
      }
      CloseRepOk(g, s, t, gray, v, popped, n);
    }
  }

  lemma CloseFinished(g: Graph, s: Search, t: Search, gray: set<NodeID>, v: NodeID, popped: set<NodeID>)
    requires Domain(g, s) && Finished(g, s) && Domain(g, t) && Stack(t, gray) && Closes(s, t, v, popped)
    ensures Finished(g, t)
  {
  }

  lemma CloseComponents(g: Graph, s: Search, t: Search, gray: set<NodeID>, v: NodeID, popped: set<NodeID>)
    requires Domain(g, s) && Reps(g, s) && Stack(s, gray + {v}) && Finished(g, s) && Components(g, s)
    requires ReadyToClose(g, s, gray, v, popped) && Closes(s, t, v, popped)
    requires forall n :: t.Closed(n) <==> s.Closed(n) || n == v || n in popped
    ensures Components(g, t)
  {
    forall n, c | t.Closed(n) && Edge(g.Edges(), n, c)
      ensures t.Closed(c)
    {
      if !s.Closed(n) {
        TailIsClosed(g, s, gray, v, popped, n, c);
      }
    }
    forall n, m | t.Closed(n) && t.Closed(m) && Mutual(g.Edges(), n, m)
      ensures t.info[n].rep == t.info[m].rep
    {
      if s.Closed(n) {
        ClosedNeverReachesOpen(g, s, n, m);
      } else if s.Closed(m) {
        ClosedNeverReachesOpen(g, s, m, n);
      }
    }
  }

  /** Stale entries in the root's sub-node set are members of its component all the same. */
  lemma RootSubNode(g: Graph, s: Search, t: Search, gray: set<NodeID>, v: NodeID, popped: set<NodeID>, n: NodeID)
    requires Domain(g, s) && Domain(g, t) && Reps(g, s) && Components(g, s) && v in s.info && SubsOk(g, s, v)
    requires ReadyToClose(g, s, gray, v, popped) && Closes(s, t, v, popped) && n in s.info
    requires n in popped ==> Reach(g.Edges(), n, v)
    ensures n in t.info[v].subNodes <==> t.Closed(n) && t.info[n].rep == v
    ensures n in t.info[v].subNodes ==> t.discovery[v] <= t.discovery[n] && Reach(g.Edges(), n, v)
  {
    hide Topo, Finished, ChildDone;
    if s.Closed(n) {
      assert RepOk(g, s, n);
      if n in s.info[v].subNodes {
        ClosedNeverReachesOpen(g, s, n, v);
      }
    }
  }

  lemma RootRepNode(g: Graph, s: Search, t: Search, v: NodeID, popped: set<NodeID>)
    requires Domain(g, s) && Domain(g, t) && v in s.info && SubsOk(g, s, v) && Closes(s, t, v, popped)
    ensures v in t.repNodes <==> exists n :: n in t.info[v].subNodes && n != v
    ensures t.info[v].subNodes == s.info[v].subNodes + popped && t.info[v].rep == s.info[v].rep && t.info[v].inSCC
  {
  }

  lemma RootSubsOk(g: Graph, s: Search, t: Search, gray: set<NodeID>, v: NodeID, popped: set<NodeID>)
    requires Domain(g, s) && Domain(g, t) && Reps(g, s) && Components(g, s) && v in s.info && SubsOk(g, s, v)
    requires ReadyToClose(g, s, gray, v, popped) && Closes(s, t, v, popped)
    requires forall n :: n in popped ==> Reach(g.Edges(), n, v)
    ensures SubsOk(g, t, v)
  {
    RootRepNode(g, s, t, v, popped);
    forall n
      ensures n in t.info[v].subNodes <==> t.Closed(n) && t.info[n].rep == v
      ensures n in t.info[v].subNodes ==> n in t.info && t.discovery[v] <= t.discovery[n] && Reach(g.Edges(), n, v)
    {
      if n in s.info {
        RootSubNode(g, s, t, gray, v, popped, n);
      }
    }
  }

  lemma PoppedSubsOk(g: Graph, s: Search, t: Search, v: NodeID, popped: set<NodeID>, r: NodeID)
    requires Domain(g, s) && Domain(g, t) && Reps(g, s) && Closes(s, t, v, popped)
    requires r in popped && r in t.info && v in s.info && s.info[v].rep == v && (forall n :: n in popped ==> s.Open(n))
    requires forall n :: t.Closed(n) <==> s.Closed(n) || n == v || n in popped
    ensures SubsOk(g, t, r)
  {
    forall n | t.Closed(n)
      ensures t.info[n].rep != r
    {
      assert n in s.info && RepOk(g, s, n);
    }
  }

  lemma OtherSubsOk(g: Graph, s: Search, t: Search, v: NodeID, popped: set<NodeID>, r: NodeID)
    requires Domain(g, s) && Domain(g, t) && Closes(s, t, v, popped)
    requires r in s.info && r != v && r !in popped && SubsOk(g, s, r)
    requires s.info[v].rep == v && (forall n :: n in popped ==> s.Open(n))
    requires forall n :: t.Closed(n) <==> s.Closed(n) || n == v || n in popped
    ensures SubsOk(g, t, r)
  {
    hide Edge, Reach;
    assert t.info[r] == s.info[r] && (r in t.repNodes <==> r in s.repNodes);
    if t.info[r].inSCC {
      forall n
        ensures n in t.info[r].subNodes <==> t.Closed(n) && t.info[n].rep == r
      {
      }
    }
  }

  lemma CloseSubsOk(g: Graph, s: Search, t: Search, gray: set<NodeID>, v: NodeID, popped: set<NodeID>, r: NodeID)
    requires Domain(g, s) && Domain(g, t) && Reps(g, s) && Components(g, s) && r in s.info && SubsOk(g, s, r)
    requires ReadyToClose(g, s, gray, v, popped) && Closes(s, t, v, popped)
    requires forall n :: t.Closed(n) <==> s.Closed(n) || n == v || n in popped
    requires forall n :: n in popped ==> Reach(g.Edges(), n, v)
    ensures SubsOk(g, t, r)
  {
    if r == v {
      RootSubsOk(g, s, t, gray, v, popped);
    } else if r in popped {
      PoppedSubsOk(g, s, t, v, popped, r);
    } else {
      OtherSubsOk(g, s, t, v, popped, r);
    }
  }

  lemma CloseSubs(g: Graph, s: Search, t: Search, gray: set<NodeID>, v: NodeID, popped: set<NodeID>)
    requires Domain(g, s) && Domain(g, t) && Reps(g, s) && Components(g, s) && Subs(g, s)
    requires ReadyToClose(g, s, gray, v, popped) && Closes(s, t, v, popped)
    requires forall n :: t.Closed(n) <==> s.Closed(n) || n == v || n in popped
    requires forall n :: n in popped ==> Reach(g.Edges(), n, v)
    ensures Subs(g, t)
  {
    hide RepOk, SubsOk, Visiting, Components, ReadyToClose, Reps;
    forall r | r in t.info
      ensures SubsOk(g, t, r)
    {
      assert SubsOk(g, s, r);
      CloseSubsOk(g, s, t, gray, v, popped, r);
    }
  }

  lemma CloseTopo(g: Graph, s: Search, t: Search, v: NodeID, popped: set<NodeID>)
    requires Domain(g, s) && Reps(g, s) && Components(g, s) && Topo(g, s) && Closes(s, t, v, popped)
    requires s.info[v].rep == v && (forall n :: n in popped ==> s.Open(n))
    requires forall n :: t.Closed(n) <==> s.Closed(n) || n == v || n in popped
    ensures Topo(g, t)
  {
    assert v !in s.topo;
    forall n | t.Closed(n)
      ensures if s.Closed(n) then t.info[n] == s.info[n] && s.info[n].rep != v else t.info[n].rep == v
    {
      if s.Closed(n) {
        assert RepOk(g, s, n);
      }
    }
    CloseTopoOrder(g, s, t, v);
  }

  lemma CloseTopoOrder(g: Graph, s: Search, t: Search, v: NodeID)
    requires Components(g, s) && Topo(g, s) && t.topo == s.topo + [v] && v !in s.topo
    requires forall n :: t.Closed(n) && n in s.info ==>
               if s.Closed(n) then t.info[n] == s.info[n] && s.info[n].rep != v else t.info[n].rep == v
    requires t.info.Keys == s.info.Keys
    ensures forall n, c, i, j {:trigger Edge(g.Edges(), n, c), t.topo[i], t.topo[j]} ::
              0 <= i < |t.topo| && 0 <= j < |t.topo| && Edge(g.Edges(), n, c) && t.Closed(n) && t.Closed(c)
              && t.info[n].rep == t.topo[i] && t.info[c].rep == t.topo[j] ==>
                j <= i
  {
  }

  lemma CloseKeepsInv(g: Graph, s: Search, t: Search, gray: set<NodeID>, v: NodeID, popped: set<NodeID>)
    requires Inv(g, s, gray + {v}) && ReadyToClose(g, s, gray, v, popped) && Closes(s, t, v, popped)
    ensures Inv(g, t, gray)
    ensures forall n :: t.Closed(n) <==> s.Closed(n) || n == v || n in popped
  {
    CloseDomain(g, s, t, v, popped);
    CloseStack(s, t, gray, v, popped);
    CloseReps(g, s, t, gray, v, popped);
    CloseFinished(g, s, t, gray, v, popped);
    CloseComponents(g, s, t, gray, v, popped);
    forall n | n in popped
      ensures Reach(g.Edges(), n, v)
    {
      TailIsMutual(g, s, gray, v, popped, n);
    }
    CloseSubs(g, s, t, gray, v, popped);
    CloseTopo(g, s, t, v, popped);
  }

  /** A node whose representative is another node joins the stack of finished non-roots. */
  lemma SuspendKeepsReps(g: Graph, s: Search, t: Search)
    requires Domain(g, s) && Reps(g, s) && Subs(g, s)
    requires t == s.(nonRoots := t.nonRoots)
    ensures Domain(g, t) && Reps(g, t) && Subs(g, t)
  {
    forall n | n in t.info
      ensures RepOk(g, t, n) && SubsOk(g, t, n)
    {
      assert RepOk(g, s, n) && SubsOk(g, s, n);
      assert forall m :: t.Closed(m) <==> s.Closed(m);
    }
  }

  lemma SuspendKeepsFinished(g: Graph, s: Search, t: Search, gray: set<NodeID>, v: NodeID)
    requires Domain(g, s) && Stack(s, gray + {v}) && Finished(g, s) && v !in gray
    requires s.info[v].rep != v
    requires forall c :: Edge(g.Edges(), v, c) ==> ChildDone(g, s, v, c)
    requires t == s.(nonRoots := s.nonRoots + [v])
    ensures Stack(t, gray) && Domain(g, t) && Finished(g, t)
  {
  }

  lemma SuspendKeepsInv(g: Graph, s: Search, t: Search, gray: set<NodeID>, v: NodeID)
    requires Inv(g, s, gray + {v}) && v !in gray
    requires s.info[v].rep != v
    requires forall c :: Edge(g.Edges(), v, c) ==> ChildDone(g, s, v, c)
    requires t == s.(nonRoots := s.nonRoots + [v])
    ensures Inv(g, t, gray)
  {
    SuspendKeepsReps(g, s, t);
    SuspendKeepsFinished(g, s, t, gray, v);
    assert forall n :: t.Closed(n) <==> s.Closed(n);
  }
}
