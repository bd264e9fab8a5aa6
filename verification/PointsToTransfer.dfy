/** Sparse value-flow graphs, and the equations that define flow-sensitive points-to sets on them. */
module PointsToTransfer {
  import opened Nodes

  /** A demand: the points-to set of variable or object `cur` at location `loc`. */
  datatype Dpm = Dpm(cur: NodeID, loc: NodeID)

  type Pointees = set<NodeID>
  type Cache = map<Dpm, Pointees>

  datatype Edge = DirectEdge(src: NodeID, dst: NodeID) | IndirectEdge(src: NodeID, dst: NodeID, guard: set<NodeID>)

  /** What a location does. `Copy` stands for every statement that only passes values along. */
  datatype Stmt =
    | Addr(objects: Pointees)
    | Copy
    | Gep
    | Load(src: NodeID, srcDef: NodeID, dstIsPointer: bool)
    | Store(dst: NodeID, dstDef: NodeID, src: NodeID, srcDef: NodeID, srcIsPointer: bool)
    | MemRegion

  /** A fixed, finite graph. `gep` maps the pointees of a base pointer to those of a field of it;
      `strong` holds the pairs of an object and a store that may kill the object's old contents.
      `andersen` is the result of Andersen's analysis. */
  datatype SVFG = SVFG(
    stmts: map<NodeID, Stmt>,
    inEdges: map<NodeID, seq<Edge>>,
    outEdges: map<NodeID, seq<Edge>>,
    lhs: map<NodeID, NodeID>,
    vars: set<NodeID>,
    constants: set<NodeID>,
    strong: set<(NodeID, NodeID)>,
    gep: (NodeID, Pointees) -> Pointees,
    andersen: NodeID -> Pointees)
  {
    predicate TopLevel(loc: NodeID) {
      loc in stmts && !stmts[loc].Store? && !stmts[loc].MemRegion?
    }

    /** The demands there are. */
    ghost function Dpms(): set<Dpm> {
      set l, v | l in stmts && v in vars :: Dpm(v, l)
    }

    ghost predicate Valid() {
      && stmts.Keys == inEdges.Keys == outEdges.Keys
      && (forall l, e {:trigger e in inEdges[l]} :: l in stmts && e in inEdges[l] ==>
            e.dst == l && e.src in stmts && e in outEdges[e.src])
      && (forall l, e {:trigger e in outEdges[l]} :: l in stmts && e in outEdges[l] ==>
            e.src == l && e.dst in stmts && e in inEdges[e.dst])
      && (forall l, e {:trigger e in inEdges[l]} :: l in stmts && e in inEdges[l] && e.DirectEdge? ==> TopLevel(e.src))
      && (forall l :: TopLevel(l) ==> l in lhs && lhs[l] in vars)
      && (forall l :: l in stmts ==> StmtValid(l))
      && (forall v :: andersen(v) <= vars)
      && (forall l, s :: s <= vars ==> gep(l, s) <= vars)
      && (forall l, s, t {:trigger gep(l, s), gep(l, t)} :: s <= t ==> gep(l, s) <= gep(l, t))
    }

    /** The definitions of the operands of a load or store are linked to it by direct edges. */
    ghost predicate StmtValid(l: NodeID)
      requires l in stmts && stmts.Keys == inEdges.Keys
    {
      match stmts[l]
      case Addr(objects) => objects <= vars
      case Load(src, srcDef, _) => src in vars && DirectEdge(srcDef, l) in inEdges[l]
      case Store(dst, dstDef, src, srcDef, _) =>
        dst in vars && src in vars && DirectEdge(dstDef, l) in inEdges[l] && DirectEdge(srcDef, l) in inEdges[l]
      case _ => true
    }
  }

  function Pts(c: Cache, d: Dpm): Pointees {
    if d in c then c[d] else {}
  }

  ghost predicate Below(c: Cache, k: Cache) {
    forall d :: Pts(c, d) <= Pts(k, d)
  }

  // ---------- The transfer equations ----------

  /** The demand that a direct edge passes on. */
  function DirectSource(g: SVFG, e: Edge): Dpm {
    Dpm(if e.src in g.lhs then g.lhs[e.src] else 0, e.src)
  }

  /** `o` flows into location `l` along one of the direct edges `es`. */
  ghost predicate DirectFlow(g: SVFG, c: Cache, es: seq<Edge>, o: NodeID) {
    exists e :: e in es && e.DirectEdge? && o in Pts(c, DirectSource(g, e))
  }

  /** An edge that the contents of object `obj` flow along. */
  predicate Carries(g: SVFG, e: Edge, obj: NodeID) {
    e.IndirectEdge? && obj in e.guard && obj !in g.constants
  }

  /** `o` flows in as part of the contents of object `obj` along one of the edges `es`. */
  ghost predicate IndirectFlow(g: SVFG, c: Cache, es: seq<Edge>, obj: NodeID, o: NodeID) {
    exists e :: e in es && Carries(g, e, obj) && o in Pts(c, Dpm(obj, e.src))
  }

  /** Whether a store to the pointees `s` lets the old contents of `obj` through. */
  predicate KeepsOld(g: SVFG, s: Pointees, obj: NodeID, store: NodeID) {
    s != {} && !(s == {obj} && (obj, store) in g.strong)
  }

  ghost function DirectSet(g: SVFG, c: Cache, l: NodeID): Pointees
    requires l in g.inEdges
  {
    set o | o in g.vars && DirectFlow(g, c, g.inEdges[l], o)
  }

  /** `o` belongs to the right-hand side of the equation of demand `d` under cache `c`. The sets of
      the demands in `given` are taken from Andersen's result instead of being computed. */
  ghost predicate Flows(g: SVFG, given: set<Dpm>, c: Cache, d: Dpm, o: NodeID)
    requires d.loc in g.stmts && d.loc in g.inEdges
  {
    if d in given then o in g.andersen(d.cur) else
    var es := g.inEdges[d.loc];
    match g.stmts[d.loc]
    case Addr(objects) => o in objects
    case Copy => DirectFlow(g, c, es, o)
    case Gep => o in g.gep(d.loc, DirectSet(g, c, d.loc))
    case Load(src, srcDef, isPointer) =>
      isPointer && exists obj :: obj in Pts(c, Dpm(src, srcDef)) && IndirectFlow(g, c, es, obj, o)
    case Store(dst, dstDef, src, srcDef, isPointer) =>
      var s := Pts(c, Dpm(dst, dstDef));
      isPointer && (
        || (d.cur in s && o in Pts(c, Dpm(src, srcDef)))
        || (KeepsOld(g, s, d.cur, d.loc) && IndirectFlow(g, c, es, d.cur, o)))
    case MemRegion => IndirectFlow(g, c, es, d.cur, o)
  }

  /** The equation of `d` reads the points-to set of `y` under cache `c`. */
  ghost predicate Reads(g: SVFG, given: set<Dpm>, c: Cache, d: Dpm, y: Dpm)
    requires d.loc in g.stmts && d.loc in g.inEdges
  {
    if d in given then false else
    var es := g.inEdges[d.loc];
    match g.stmts[d.loc]
    case Addr(_) => false
    case Copy => ReadsDirect(g, es, y)
    case Gep => ReadsDirect(g, es, y)
    case Load(src, srcDef, isPointer) =>
      isPointer && (
        || y == Dpm(src, srcDef)
        || (y.cur in Pts(c, Dpm(src, srcDef)) && ReadsIndirect(g, es, y.cur, y)))
    case Store(dst, dstDef, src, srcDef, isPointer) =>
      var s := Pts(c, Dpm(dst, dstDef));
      isPointer && (
        || y == Dpm(dst, dstDef)
        || (d.cur in s && y == Dpm(src, srcDef))
        || (KeepsOld(g, s, d.cur, d.loc) && ReadsIndirect(g, es, d.cur, y)))
    case MemRegion => ReadsIndirect(g, es, d.cur, y)
  }

  ghost predicate ReadsDirect(g: SVFG, es: seq<Edge>, y: Dpm) {
    exists e :: e in es && e.DirectEdge? && y == DirectSource(g, e)
  }

  ghost predicate ReadsIndirect(g: SVFG, es: seq<Edge>, obj: NodeID, y: Dpm) {
    exists e :: e in es && Carries(g, e, obj) && y == Dpm(obj, e.src)
  }

  /** A change of `y` may, as far as its outgoing edge `e` can tell, change `d`. */
  predicate AffectsAlong(g: SVFG, e: Edge, y: Dpm, d: Dpm) {
    && e.dst == d.loc
    && (e.IndirectEdge? && !(d.loc in g.stmts && g.stmts[d.loc].Load?) ==> d.cur == y.cur)
  }

  ghost predicate Affects(g: SVFG, y: Dpm, d: Dpm) {
    y.loc in g.outEdges && exists e :: e in g.outEdges[y.loc] && AffectsAlong(g, e, y, d)
  }

  // ---------- Properties of the equations ----------

  /** More cached facts never take a fact away, strong updates included. */
  lemma FlowsMonotone(g: SVFG, given: set<Dpm>, c: Cache, k: Cache, d: Dpm, o: NodeID)
    requires g.Valid() && d.loc in g.stmts && Below(c, k) && Flows(g, given, c, d, o)
    ensures Flows(g, given, k, d, o)
  {
  }

  /** Whatever an equation reads has an outgoing edge along which its changes are passed on. */
  lemma ReadsAffect(g: SVFG, given: set<Dpm>, c: Cache, d: Dpm, y: Dpm)
    requires g.Valid() && d.loc in g.stmts && Reads(g, given, c, d, y)
    ensures y.loc in g.stmts && Affects(g, y, d)
  {
  }

  ghost predicate SameReads(g: SVFG, given: set<Dpm>, c: Cache, k: Cache, d: Dpm)
    requires d.loc in g.stmts && d.loc in g.inEdges
  {
    forall y :: Reads(g, given, c, d, y) ==> Pts(c, y) == Pts(k, y)
  }

  /** An equation only depends on the points-to sets it reads. */
  lemma FlowsLocal(g: SVFG, given: set<Dpm>, c: Cache, k: Cache, d: Dpm, o: NodeID)
    requires g.Valid() && d.loc in g.stmts && SameReads(g, given, c, k, d)
    ensures Flows(g, given, c, d, o) <==> Flows(g, given, k, d, o)
  {
  }

  lemma ReadsLocal(g: SVFG, given: set<Dpm>, c: Cache, k: Cache, d: Dpm, y: Dpm)
    requires g.Valid() && d.loc in g.stmts && SameReads(g, given, c, k, d)
    ensures Reads(g, given, c, d, y) <==> Reads(g, given, k, d, y)
  {
  }
}
