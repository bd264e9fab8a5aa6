/** What runs of a program show on its value-flow graph, and that the least solution of the points-to
    equations is exactly that. */
module ValueFlowRuns {
  import opened Nodes
  import opened PointsToTransfer
  import opened LeastSolution

  /** An address at run time; each belongs to one object of the graph. */
  type Addr = nat

  /** A pointer seen at a location: as the value that the statement there computes, or as the
      contents of a cell of memory behind that statement. */
  datatype Observation = Value(loc: NodeID, value: Addr) | Cell(loc: NodeID, cell: Addr, value: Addr)

  /** Every address belongs to an object, and an object that a store may update strongly has only one. */
  ghost predicate Abstraction(g: SVFG, obj: Addr -> NodeID) {
    && (forall a :: obj(a) in g.vars)
    && (forall a, b, store | (obj(a), store) in g.strong && obj(a) == obj(b) :: a == b)
  }

  /** The edge takes the contents of cell `q` along. */
  ghost predicate TakesAlong(g: SVFG, obj: Addr -> NodeID, e: Edge, q: Addr) {
    e.IndirectEdge? && obj(q) in e.guard && obj(q) !in g.constants
  }

  /** A cell's contents come unchanged along an edge into `l`. */
  ghost predicate CellFlows(g: SVFG, obj: Addr -> NodeID, seen: seq<Observation>, l: NodeID, q: Addr, a: Addr)
    requires l in g.inEdges
  {
    exists e :: e in g.inEdges[l] && TakesAlong(g, obj, e, q) && Cell(e.src, q, a) in seen
  }

  /** A store through the pointer `p` overwrites that one cell and leaves all others alone. */
  ghost predicate Stored(g: SVFG, obj: Addr -> NodeID, seen: seq<Observation>, o: Observation, srcDef: NodeID, p: Addr)
    requires o.Cell? && o.loc in g.inEdges
  {
    if p == o.cell then Value(srcDef, o.value) in seen else CellFlows(g, obj, seen, o.loc, o.cell, o.value)
  }

  /** The statement can show `o` after what has been `seen`: this is what statements do at run time. */
  ghost predicate Justified(g: SVFG, obj: Addr -> NodeID, seen: seq<Observation>, o: Observation) {
    o.loc in g.stmts && o.loc in g.inEdges &&
    var es := g.inEdges[o.loc];
    match g.stmts[o.loc]
    case Addr(objects) => o.Value? && obj(o.value) in objects
    case Copy => o.Value? && exists e :: e in es && e.DirectEdge? && Value(e.src, o.value) in seen
    case Gep =>
      o.Value? && exists e, b ::
        e in es && e.DirectEdge? && Value(e.src, b) in seen && obj(o.value) in g.gep(o.loc, {obj(b)})
    case Load(_, srcDef, isPointer) =>
      o.Value? && isPointer && exists p :: Value(srcDef, p) in seen && CellFlows(g, obj, seen, o.loc, p, o.value)
    case Store(_, dstDef, _, srcDef, isPointer) =>
      o.Cell? && isPointer && exists p :: Value(dstDef, p) in seen && Stored(g, obj, seen, o, srcDef, p)
    case MemRegion => o.Cell? && CellFlows(g, obj, seen, o.loc, o.cell, o.value)
  }

  /** Each observation is justified by those before it. */
  ghost predicate IsRun(g: SVFG, obj: Addr -> NodeID, run: seq<Observation>) {
    forall k | 0 <= k < |run| :: Justified(g, obj, run[..k], run[k])
  }

  // ---------- Soundness ----------

  /** The least solution accounts for an observation. */
  ghost predicate Covered(g: SVFG, obj: Addr -> NodeID, c: Cache, o: Observation) {
    match o
    case Value(l, a) => forall v :: v in g.vars ==> obj(a) in Pts(c, Dpm(v, l))
    case Cell(l, q, a) => obj(a) in Pts(c, Dpm(obj(q), l))
  }

  ghost predicate AllCovered(g: SVFG, obj: Addr -> NodeID, c: Cache, seen: seq<Observation>) {
    forall o :: o in seen ==> Covered(g, obj, c, o)
  }

  lemma CellFlowIsFlow(g: SVFG, obj: Addr -> NodeID, c: Cache, seen: seq<Observation>, l: NodeID, q: Addr, a: Addr)
    requires l in g.inEdges && AllCovered(g, obj, c, seen) && CellFlows(g, obj, seen, l, q, a)
    ensures IndirectFlow(g, c, g.inEdges[l], obj(q), obj(a))
  {
    var e :| e in g.inEdges[l] && TakesAlong(g, obj, e, q) && Cell(e.src, q, a) in seen;
    assert Covered(g, obj, c, Cell(e.src, q, a)) && Carries(g, e, obj(q));
  }

  lemma DirectValueFlows(g: SVFG, obj: Addr -> NodeID, c: Cache, l: NodeID, e: Edge, a: Addr)
    requires g.Valid() && l in g.stmts && e in g.inEdges[l] && e.DirectEdge? && Covered(g, obj, c, Value(e.src, a))
    ensures DirectFlow(g, c, g.inEdges[l], obj(a))
  {
    assert g.TopLevel(e.src) && g.lhs[e.src] in g.vars;
    assert obj(a) in Pts(c, DirectSource(g, e));
  }

  lemma GepFlows(g: SVFG, c: Cache, l: NodeID, b: NodeID, o: NodeID)
    requires g.Valid() && l in g.stmts && b in g.vars && DirectFlow(g, c, g.inEdges[l], b) && o in g.gep(l, {b})
    ensures o in g.gep(l, DirectSet(g, c, l))
  {
    var s := DirectSet(g, c, l);
    assert {b} <= s;
    assert g.gep(l, {b}) <= g.gep(l, s);
  }

  /** What a statement computes flows in. */
  lemma ValueFlowsIn(g: SVFG, obj: Addr -> NodeID, c: Cache, seen: seq<Observation>, l: NodeID, a: Addr, v: NodeID)
    requires g.Valid() && Abstraction(g, obj) && AllCovered(g, obj, c, seen)
    requires Justified(g, obj, seen, Value(l, a)) && v in g.vars
    ensures Flows(g, {}, c, Dpm(v, l), obj(a))
  {
    hide DirectFlow, IndirectFlow, DirectSet, CellFlows;
    match g.stmts[l]
    case Addr(_) =>
    case Copy =>
      var e :| e in g.inEdges[l] && e.DirectEdge? && Value(e.src, a) in seen;
      DirectValueFlows(g, obj, c, l, e, a);
    case Gep =>
      var e, b :| e in g.inEdges[l] && e.DirectEdge? && Value(e.src, b) in seen && obj(a) in g.gep(l, {obj(b)});
      DirectValueFlows(g, obj, c, l, e, b);
      GepFlows(g, c, l, obj(b), obj(a));
    case Load(src, srcDef, _) =>
      var p :| Value(srcDef, p) in seen && CellFlows(g, obj, seen, l, p, a);
      assert g.StmtValid(l) && Covered(g, obj, c, Value(srcDef, p));
      CellFlowIsFlow(g, obj, c, seen, l, p, a);
  }

  /** What a cell holds behind a statement flows in; where a strong update would keep the old contents
      out, they have been overwritten. */
  lemma CellFlowsIn(g: SVFG, obj: Addr -> NodeID, c: Cache, seen: seq<Observation>, l: NodeID, q: Addr, a: Addr)
    requires g.Valid() && Abstraction(g, obj) && AllCovered(g, obj, c, seen)
    requires Justified(g, obj, seen, Cell(l, q, a))
    ensures Flows(g, {}, c, Dpm(obj(q), l), obj(a))
  {
    match g.stmts[l]
    case Store(dst, dstDef, src, srcDef, _) =>
      var p :| Value(dstDef, p) in seen && Stored(g, obj, seen, Cell(l, q, a), srcDef, p);
      assert g.StmtValid(l) && Covered(g, obj, c, Value(dstDef, p));
      var targets := Pts(c, Dpm(dst, dstDef));
      assert obj(p) in targets;
      if p == q {
        assert Covered(g, obj, c, Value(srcDef, a));
      } else {
        CellFlowIsFlow(g, obj, c, seen, l, q, a);
        assert KeepsOld(g, targets, obj(q), l);
      }
    case MemRegion => CellFlowIsFlow(g, obj, c, seen, l, q, a);
  }

  /** Whatever a run shows, the least solution has. */
  lemma {:induction false} RunsAreCovered(g: SVFG, obj: Addr -> NodeID, run: seq<Observation>)
    requires g.Valid() && Abstraction(g, obj) && IsRun(g, obj, run)
    ensures AllCovered(g, obj, Least(g, {}), run)
  {
    hide Justified, Covered, SVFG.Valid, Least;
    if run != [] {
      var n := |run| - 1;
      var before := run[..n];
      assert forall k | 0 <= k < n :: before[..k] == run[..k];
      RunsAreCovered(g, obj, before);
      assert Justified(g, obj, before, run[n]);
      NextIsCovered(g, obj, before, run[n]);
      assert run == before + [run[n]];
    }
  }

  lemma NextIsCovered(g: SVFG, obj: Addr -> NodeID, before: seq<Observation>, o: Observation)
    requires g.Valid() && Abstraction(g, obj) && AllCovered(g, obj, Least(g, {}), before)
    requires Justified(g, obj, before, o)
    ensures Covered(g, obj, Least(g, {}), o)
  {
    hide SVFG.Valid, Least, Flows;
    var l := Least(g, {});
    LeastIsPostFix(g, {});
    match o
    case Value(loc, a) =>
      forall v | v in g.vars ensures obj(a) in Pts(l, Dpm(v, loc)) {
        ValueFlowsIn(g, obj, l, before, loc, a, v);
        assert Dpm(v, loc) in g.Dpms();
      }
    case Cell(loc, q, a) =>
      CellFlowsIn(g, obj, l, before, loc, q, a);
      assert Dpm(obj(q), loc) in g.Dpms();
  }

  // ---------- Completeness ----------

  /** There are addresses enough: every object has one, and an object that is not updated strongly
      has another one for each. Contents flow along edges from memory only, and the fields of a set
      of objects are those of its members. */
  ghost predicate Faithful(g: SVFG, obj: Addr -> NodeID) {
    && (forall o :: o in g.vars ==> exists a :: obj(a) == o)
    && (forall l, q | l in g.stmts && g.stmts[l].Store? && (obj(q), l) !in g.strong :: HasTwin(obj, q))
    && (forall l, e | l in g.inEdges && e in g.inEdges[l] && e.IndirectEdge? :: !g.TopLevel(e.src))
    && (forall l, s, o | o in g.gep(l, s) :: exists b :: b in s && o in g.gep(l, {b}))
  }

  ghost predicate HasTwin(obj: Addr -> NodeID, q: Addr) {
    exists p :: p != q && obj(p) == obj(q)
  }

  ghost predicate ShowsIn(g: SVFG, obj: Addr -> NodeID, run: seq<Observation>, o: Observation) {
    IsRun(g, obj, run) && o in run
  }

  /** Some run shows the observation. */
  ghost predicate Shows(g: SVFG, obj: Addr -> NodeID, o: Observation) {
    exists run :: ShowsIn(g, obj, run, o)
  }

  /** Every pointer to object `o` can be seen as the value, or in every cell of the object, that the
      demand `d` asks for. */
  ghost predicate Seen(g: SVFG, obj: Addr -> NodeID, d: Dpm, o: NodeID) {
    forall a | obj(a) == o ::
      if g.TopLevel(d.loc) then Shows(g, obj, Value(d.loc, a))
      else forall q | obj(q) == d.cur :: Shows(g, obj, Cell(d.loc, q, a))
  }

  lemma JustifiedMore(g: SVFG, obj: Addr -> NodeID, seen: seq<Observation>, more: seq<Observation>, o: Observation)
    requires Justified(g, obj, seen, o) && forall x :: x in seen ==> x in more
    ensures Justified(g, obj, more, o)
  {
    var es := g.inEdges[o.loc];
    match g.stmts[o.loc]
    case Addr(_) =>
    case Copy =>
      var e :| e in es && e.DirectEdge? && Value(e.src, o.value) in seen;
      assert Value(e.src, o.value) in more;
    case Gep =>
      var e, b :| e in es && e.DirectEdge? && Value(e.src, b) in seen && obj(o.value) in g.gep(o.loc, {obj(b)});
      assert Value(e.src, b) in more;
    case Load(_, srcDef, _) =>
      var p :| Value(srcDef, p) in seen && CellFlows(g, obj, seen, o.loc, p, o.value);
      assert Value(srcDef, p) in more && CellFlows(g, obj, more, o.loc, p, o.value);
    case Store(_, dstDef, _, srcDef, _) =>
      var p :| Value(dstDef, p) in seen && Stored(g, obj, seen, o, srcDef, p);
      assert Value(dstDef, p) in more && Stored(g, obj, more, o, srcDef, p);
    case MemRegion =>
  }

  /** Two runs can take place one after the other. */
  lemma RunsJoin(g: SVFG, obj: Addr -> NodeID, r: seq<Observation>, s: seq<Observation>)
    requires IsRun(g, obj, r) && IsRun(g, obj, s)
    ensures IsRun(g, obj, r + s)
  {
    var t := r + s;
    forall k | 0 <= k < |t| ensures Justified(g, obj, t[..k], t[k]) {
      if k < |r| {
        assert t[..k] == r[..k];
      } else {
        assert t[..k] == r + s[..k - |r|];
        JustifiedMore(g, obj, s[..k - |r|], t[..k], s[k - |r|]);
      }
    }
  }

  /** What is justified by two runs is shown by a third. */
  lemma ShowsNext(g: SVFG, obj: Addr -> NodeID, r: seq<Observation>, s: seq<Observation>, o: Observation)
    requires IsRun(g, obj, r) && IsRun(g, obj, s) && Justified(g, obj, r + s, o)
    ensures Shows(g, obj, o)
  {
    RunsJoin(g, obj, r, s);
    var t := r + s + [o];
    forall k | 0 <= k < |t| ensures Justified(g, obj, t[..k], t[k]) {
      if k < |r + s| {
        assert t[..k] == (r + s)[..k];
      } else {
        assert t[..k] == r + s;
      }
    }
    assert ShowsIn(g, obj, t, o);
  }

  /** The cache of all that runs can show. */
  ghost function AllSeen(g: SVFG, obj: Addr -> NodeID): Cache {
    map d | d in g.Dpms() :: set o | o in g.vars && Seen(g, obj, d, o)
  }

  lemma SeenDirectly(g: SVFG, obj: Addr -> NodeID, l: NodeID, o: NodeID, a: Addr)
    returns (e: Edge, run: seq<Observation>)
    requires g.Valid() && l in g.stmts && DirectFlow(g, AllSeen(g, obj), g.inEdges[l], o) && obj(a) == o
    ensures e in g.inEdges[l] && e.DirectEdge? && ShowsIn(g, obj, run, Value(e.src, a))
  {
    e :| e in g.inEdges[l] && e.DirectEdge? && o in Pts(AllSeen(g, obj), DirectSource(g, e));
    assert Seen(g, obj, DirectSource(g, e), o) && g.TopLevel(e.src);
    run :| ShowsIn(g, obj, run, Value(e.src, a));
  }

  lemma FromMemory(g: SVFG, obj: Addr -> NodeID, l: NodeID, e: Edge)
    requires Faithful(g, obj) && l in g.inEdges && e in g.inEdges[l] && e.IndirectEdge?
    ensures !g.TopLevel(e.src)
  {
  }

  lemma CellShown(g: SVFG, obj: Addr -> NodeID, o: Observation)
    requires Shows(g, obj, o)
    ensures exists run :: ShowsIn(g, obj, run, o)
  {
  }

  lemma SeenInCell(g: SVFG, obj: Addr -> NodeID, l: NodeID, q: Addr, a: Addr) returns (run: seq<Observation>)
    requires g.Valid() && Faithful(g, obj) && l in g.stmts
    requires IndirectFlow(g, AllSeen(g, obj), g.inEdges[l], obj(q), obj(a))
    ensures IsRun(g, obj, run) && CellFlows(g, obj, run, l, q, a)
  {
    hide Faithful, Shows;
    var e :| e in g.inEdges[l] && Carries(g, e, obj(q)) && obj(a) in Pts(AllSeen(g, obj), Dpm(obj(q), e.src));
    FromMemory(g, obj, l, e);
    assert Seen(g, obj, Dpm(obj(q), e.src), obj(a)) && !g.TopLevel(e.src);
    CellShown(g, obj, Cell(e.src, q, a));
    run :| ShowsIn(g, obj, run, Cell(e.src, q, a));
    assert TakesAlong(g, obj, e, q);
  }

  lemma SeenAtOperand(g: SVFG, obj: Addr -> NodeID, v: NodeID, srcDef: NodeID, p: Addr) returns (run: seq<Observation>)
    requires g.Valid() && g.TopLevel(srcDef) && obj(p) in Pts(AllSeen(g, obj), Dpm(v, srcDef))
    ensures ShowsIn(g, obj, run, Value(srcDef, p))
  {
    assert Seen(g, obj, Dpm(v, srcDef), obj(p));
    run :| ShowsIn(g, obj, run, Value(srcDef, p));
  }

  lemma CellFlowsMore(g: SVFG, obj: Addr -> NodeID, s: seq<Observation>, t: seq<Observation>, l: NodeID, q: Addr,
                      a: Addr)
    requires l in g.inEdges && CellFlows(g, obj, s, l, q, a) && forall x :: x in s ==> x in t
    ensures CellFlows(g, obj, t, l, q, a)
  {
  }

  lemma ValueIsSeen(g: SVFG, obj: Addr -> NodeID, d: Dpm, a: Addr)
    requires g.Valid() && Abstraction(g, obj) && Faithful(g, obj) && g.TopLevel(d.loc)
    requires Flows(g, {}, AllSeen(g, obj), d, obj(a))
    ensures Shows(g, obj, Value(d.loc, a))
  {
    var l, c := d.loc, AllSeen(g, obj);
    var o := Value(l, a);
    match g.stmts[l]
    case Addr(_) => ShowsNext(g, obj, [], [], o);
    case Copy =>
      var e, r := SeenDirectly(g, obj, l, obj(a), a);
      assert Value(e.src, a) in r + [];
      ShowsNext(g, obj, r, [], o);
    case Gep =>
      var x :| x in DirectSet(g, c, l) && obj(a) in g.gep(l, {x});
      var b :| obj(b) == x;
      var e, r := SeenDirectly(g, obj, l, x, b);
      assert Value(e.src, b) in r + [];
      ShowsNext(g, obj, r, [], o);
    case Load(src, srcDef, _) =>
      var x :| x in Pts(c, Dpm(src, srcDef)) && IndirectFlow(g, c, g.inEdges[l], x, obj(a));
      assert g.StmtValid(l) && g.TopLevel(srcDef);
      var p :| obj(p) == x;
      var r := SeenAtOperand(g, obj, src, srcDef, p);
      var s := SeenInCell(g, obj, l, p, a);
      CellFlowsMore(g, obj, s, r + s, l, p, a);
      assert Value(srcDef, p) in r + s;
      ShowsNext(g, obj, r, s, o);
  }

  /** Some pointer of the set `targets` does not point to the cell `q`. */
  lemma OtherTarget(g: SVFG, obj: Addr -> NodeID, l: NodeID, targets: Pointees, q: Addr) returns (p: Addr)
    requires Faithful(g, obj) && l in g.stmts && g.stmts[l].Store? && targets <= g.vars
    requires KeepsOld(g, targets, obj(q), l)
    ensures obj(p) in targets && p != q
  {
    if t :| t in targets && t != obj(q) {
      p :| obj(p) == t;
    } else {
      assert targets == {obj(q)};
      assert HasTwin(obj, q);
      p :| p != q && obj(p) == obj(q);
    }
  }

  lemma CellIsSeen(g: SVFG, obj: Addr -> NodeID, l: NodeID, q: Addr, a: Addr)
    requires g.Valid() && Abstraction(g, obj) && Faithful(g, obj) && l in g.stmts && !g.TopLevel(l)
    requires Flows(g, {}, AllSeen(g, obj), Dpm(obj(q), l), obj(a))
    ensures Shows(g, obj, Cell(l, q, a))
  {
    var c, o := AllSeen(g, obj), Cell(l, q, a);
    match g.stmts[l]
    case Store(dst, dstDef, src, srcDef, _) =>
      assert g.StmtValid(l) && g.TopLevel(dstDef) && g.TopLevel(srcDef);
      var targets := Pts(c, Dpm(dst, dstDef));
      if obj(q) in targets && obj(a) in Pts(c, Dpm(src, srcDef)) {
        var r := SeenAtOperand(g, obj, dst, dstDef, q);
        var s := SeenAtOperand(g, obj, src, srcDef, a);
        assert Value(dstDef, q) in r + s && Value(srcDef, a) in r + s;
        assert Stored(g, obj, r + s, o, srcDef, q);
        ShowsNext(g, obj, r, s, o);
      } else {
        var p := OtherTarget(g, obj, l, targets, q);
        var r := SeenAtOperand(g, obj, dst, dstDef, p);
        var s := SeenInCell(g, obj, l, q, a);
        CellFlowsMore(g, obj, s, r + s, l, q, a);
        assert Value(dstDef, p) in r + s && Stored(g, obj, r + s, o, srcDef, p);
        ShowsNext(g, obj, r, s, o);
      }
    case MemRegion =>
      var s := SeenInCell(g, obj, l, q, a);
      CellFlowsMore(g, obj, s, [] + s, l, q, a);
      ShowsNext(g, obj, [], s, o);
  }

  /** Whatever the least solution has, some run shows. */
  lemma LeastIsSeen(g: SVFG, obj: Addr -> NodeID)
    requires g.Valid() && Abstraction(g, obj) && Faithful(g, obj)
    ensures Below(Least(g, {}), AllSeen(g, obj))
  {
    var c := AllSeen(g, obj);
    forall d, o | d in g.Dpms() && Flows(g, {}, c, d, o)
      ensures o in Pts(c, d)
    {
      FlowsInVars(g, {}, c, d, o);
      forall a | obj(a) == o
        ensures if g.TopLevel(d.loc) then Shows(g, obj, Value(d.loc, a))
          else forall q | obj(q) == d.cur :: Shows(g, obj, Cell(d.loc, q, a))
      {
        if g.TopLevel(d.loc) {
          ValueIsSeen(g, obj, d, a);
        } else {
          forall q | obj(q) == d.cur ensures Shows(g, obj, Cell(d.loc, q, a)) {
            CellIsSeen(g, obj, d.loc, q, a);
          }
        }
      }
      assert Seen(g, obj, d, o);
    }
    LeastIsBelow(g, {}, c);
  }

  /** Main result: at a statement that computes a value, a pointer to `a` is in the least solution
      exactly if some run shows it there. */
  lemma LeastIsWhatValuesAre(g: SVFG, obj: Addr -> NodeID, d: Dpm, a: Addr)
    requires g.Valid() && Abstraction(g, obj) && Faithful(g, obj) && d in g.Dpms() && g.TopLevel(d.loc)
    ensures obj(a) in Pts(Least(g, {}), d) <==> Shows(g, obj, Value(d.loc, a))
  {
    if obj(a) in Pts(Least(g, {}), d) {
      LeastIsSeen(g, obj);
      assert Seen(g, obj, d, obj(a));
    }
    if Shows(g, obj, Value(d.loc, a)) {
      var run :| ShowsIn(g, obj, run, Value(d.loc, a));
      RunsAreCovered(g, obj, run);
      assert Covered(g, obj, Least(g, {}), Value(d.loc, a));
    }
  }

  /** The same for what a cell `q` of memory holds behind a store or a memory region. */
  lemma LeastIsWhatCellsHold(g: SVFG, obj: Addr -> NodeID, l: NodeID, q: Addr, a: Addr)
    requires g.Valid() && Abstraction(g, obj) && Faithful(g, obj) && l in g.stmts && !g.TopLevel(l)
    ensures obj(a) in Pts(Least(g, {}), Dpm(obj(q), l)) <==> Shows(g, obj, Cell(l, q, a))
  {
    if obj(a) in Pts(Least(g, {}), Dpm(obj(q), l)) {
      LeastIsSeen(g, obj);
      assert Seen(g, obj, Dpm(obj(q), l), obj(a));
    }
    if Shows(g, obj, Cell(l, q, a)) {
      var run :| ShowsIn(g, obj, run, Cell(l, q, a));
      RunsAreCovered(g, obj, run);
      assert Covered(g, obj, Least(g, {}), Cell(l, q, a));
    }
  }
}
