/** The edges of a class hierarchy, and the descendants of its nodes. */
module ClassHierarchy {
  import opened Nodes
  import opened Reachability

  datatype EdgeKind = INHERITANCE | INSTANCE | FIRST_FIELD | STD_DEF

  datatype DCHEdge = DCHEdge(src: NodeID, dst: NodeID, kind: EdgeKind)

  /** The kinds of edge that lead from a child to its parent; first fields only if asked for. */
  predicate Counts(kind: EdgeKind, firstField: bool) {
    kind == INHERITANCE || kind == STD_DEF || (firstField && kind == FIRST_FIELD)
  }

  ghost function Allowed(edges: set<DCHEdge>, firstField: bool): set<(NodeID, NodeID)> {
    set e | e in edges && Counts(e.kind, firstField) :: (e.src, e.dst)
  }

  /** Which kinds these are: inheritance and standard definitions always, first fields if asked for,
      and instances of templates never. */
  lemma AllowedByKind(edges: set<DCHEdge>, firstField: bool, u: NodeID, v: NodeID)
    ensures (u, v) in Allowed(edges, firstField) <==>
      || DCHEdge(u, v, INHERITANCE) in edges
      || DCHEdge(u, v, STD_DEF) in edges
      || (firstField && DCHEdge(u, v, FIRST_FIELD) in edges)
  {
    if (u, v) in Allowed(edges, firstField) {
      var e :| e in edges && Counts(e.kind, firstField) && (e.src, e.dst) == (u, v);
      assert e == DCHEdge(u, v, e.kind);
    } else {
      forall kind | DCHEdge(u, v, kind) in edges ensures !Counts(kind, firstField) {
        assert (DCHEdge(u, v, kind).src, DCHEdge(u, v, kind).dst) == (u, v);
      }
    }
  }

  /** `children` are exactly the nodes from which `n` is reached. */
  ghost predicate IsCha(edges: set<DCHEdge>, firstField: bool, n: NodeID, children: set<NodeID>) {
    forall m: NodeID :: m in children <==> Reach(Allowed(edges, firstField), m, n)
  }

  /** Along every counted edge the rank grows: the hierarchy has no cycles. */
  ghost predicate Acyclic(edges: set<DCHEdge>, firstField: bool, rank: NodeID -> nat) {
    forall e | e in edges && Counts(e.kind, firstField) :: rank(e.src) < rank(e.dst)
  }

  ghost function Into(edges: set<DCHEdge>, n: NodeID): set<DCHEdge> {
    set e | e in edges && e.dst == n
  }

  /** `m` comes to `n` by way of one of the edges in `via`. */
  ghost predicate ReachesVia(edges: set<DCHEdge>, firstField: bool, via: set<DCHEdge>, m: NodeID) {
    exists e :: e in via && Counts(e.kind, firstField) && Reach(Allowed(edges, firstField), m, e.src)
  }

  /** The descendants of a node are itself and those of the sources of its incoming edges. */
  lemma ChaStep(edges: set<DCHEdge>, firstField: bool, n: NodeID, m: NodeID)
    ensures Reach(Allowed(edges, firstField), m, n) <==>
      m == n || ReachesVia(edges, firstField, Into(edges, n), m)
  {
    var es, via := Allowed(edges, firstField), Into(edges, n);
    if m == n {
      ReachSelf(es, n);
    } else if Reach(es, m, n) {
      var w := ReachLastStep(es, m, n);
      var e :| e in edges && Counts(e.kind, firstField) && (e.src, e.dst) == (w, n);
      assert e in via;
    } else if ReachesVia(edges, firstField, via, m) {
      var e :| e in via && Counts(e.kind, firstField) && Reach(es, m, e.src);
      assert Edge(es, e.src, n);
      ReachEdge(es, e.src, n);
      ReachTrans(es, m, e.src, n);
    }
  }

  /** The descendants found so far: the node itself and those by way of the edges done. */
  ghost predicate ChaSoFar(edges: set<DCHEdge>, firstField: bool, n: NodeID, done: set<DCHEdge>,
          children: set<NodeID>) {
    forall m: NodeID :: m in children <==> m == n || ReachesVia(edges, firstField, done, m)
  }

  lemma ChaAddEdge(edges: set<DCHEdge>, firstField: bool, n: NodeID, done: set<DCHEdge>, children: set<NodeID>,
          e: DCHEdge, more: set<NodeID>)
    requires ChaSoFar(edges, firstField, n, done, children) && Counts(e.kind, firstField)
    requires IsCha(edges, firstField, e.src, more)
    ensures ChaSoFar(edges, firstField, n, done + {e}, children + more)
  {
  }

  lemma ChaSkipEdge(edges: set<DCHEdge>, firstField: bool, n: NodeID, done: set<DCHEdge>, children: set<NodeID>,
          e: DCHEdge)
    requires ChaSoFar(edges, firstField, n, done, children) && !Counts(e.kind, firstField)
    ensures ChaSoFar(edges, firstField, n, done + {e}, children)
  {
  }

  lemma ChaComplete(edges: set<DCHEdge>, firstField: bool, n: NodeID, children: set<NodeID>)
    requires ChaSoFar(edges, firstField, n, Into(edges, n), children)
    ensures IsCha(edges, firstField, n, children)
  {
    forall m: NodeID ensures m in children <==> Reach(Allowed(edges, firstField), m, n) {
      ChaStep(edges, firstField, n, m);
    }
  }

  /** Being a base is reflexive and transitive, and first fields only add to it. */
  lemma ChaIsAPreorder(edges: set<DCHEdge>, firstField: bool, a: NodeID, below: set<NodeID>, b: NodeID,
          below': set<NodeID>)
    requires IsCha(edges, firstField, a, below) && IsCha(edges, firstField, b, below')
    ensures a in below
    ensures b in below ==> below' <= below
  {
    var es := Allowed(edges, firstField);
    ReachSelf(es, a);
    if b in below {
      forall m | m in below' ensures m in below {
        ReachTrans(es, m, b, a);
      }
    }
  }

  lemma FirstFieldsOnlyAdd(edges: set<DCHEdge>, n: NodeID, without: set<NodeID>, with: set<NodeID>)
    requires IsCha(edges, false, n, without) && IsCha(edges, true, n, with)
    ensures without <= with
  {
    forall m | m in without ensures m in with {
      ReachMore(Allowed(edges, false), Allowed(edges, true), m, n);
    }
  }

  /** The descendants of a parent's child are its own: sets of descendants are closed backwards. */
  lemma ChaIsClosed(edges: set<DCHEdge>, firstField: bool, n: NodeID, children: set<NodeID>)
    requires IsCha(edges, firstField, n, children)
    ensures n in children && ClosedBackwards(Allowed(edges, firstField), children)
  {
    var es := Allowed(edges, firstField);
    ReachSelf(es, n);
    forall u: NodeID, v: NodeID | v in children && Edge(es, u, v) ensures u in children {
      ReachEdge(es, u, v);
      ReachTrans(es, u, v, n);
    }
  }

  /** A remembered answer survives a new edge exactly if the edge does not count, leads outside
      the descendants, or starts in them already. */
  lemma AnswerSurvivesEdge(edges: set<DCHEdge>, e: DCHEdge, firstField: bool, n: NodeID, children: set<NodeID>)
    requires IsCha(edges, firstField, n, children)
    ensures IsCha(edges + {e}, firstField, n, children) <==>
      (!Counts(e.kind, firstField) || e.dst !in children || e.src in children)
  {
    var es, fs := Allowed(edges, firstField), Allowed(edges + {e}, firstField);
    ChaIsClosed(edges, firstField, n, children);
    if !Counts(e.kind, firstField) || e.dst !in children || e.src in children {
      assert ClosedBackwards(fs, children) by {
        forall u: NodeID, v: NodeID | v in children && Edge(fs, u, v) ensures u in children {
          assert Edge(es, u, v) || (u, v) == (e.src, e.dst);
        }
      }
      forall m: NodeID ensures m in children <==> Reach(fs, m, n) {
        if m in children {
          ReachMore(es, fs, m, n);
        } else if Reach(fs, m, n) {
          ReachStartsInside(fs, children, m, n);
        }
      }
    } else {
      assert Edge(fs, e.src, e.dst);
      ReachEdge(fs, e.src, e.dst);
      ReachMore(es, fs, e.dst, n);
      ReachTrans(fs, e.src, e.dst, n);
    }
  }

  /** A remembered answer that a new edge makes wrong: a class that gets its first derived class. */
  lemma AnswerGoesStale()
    ensures IsCha({}, false, 0, {0}) && !IsCha({DCHEdge(1, 0, INHERITANCE)}, false, 0, {0})
  {
    forall m: NodeID ensures m in {0} <==> Reach(Allowed({}, false), m, 0) {
      ChaStep({}, false, 0, m);
    }
    AnswerSurvivesEdge({}, DCHEdge(1, 0, INHERITANCE), false, 0, {0});
    assert {} + {DCHEdge(1, 0, INHERITANCE)} == {DCHEdge(1, 0, INHERITANCE)};
  }
}
