/** The state of the demand-driven points-to solver, and what its steps do to it. */
module DDAState {
  import opened Nodes
  import opened PointsToTransfer
  import opened LeastSolution

  /** A snapshot of the solver. `locs` records, per location, the demands traversed by the current
      query; `loadVar` and `loadDpm` remember the load that a demand on memory came from. */
  datatype Solver = Solver(
    visited: set<Dpm>,
    cache: Cache,
    locs: map<NodeID, set<Dpm>>,
    loadVar: map<Dpm, NodeID>,
    loadDpm: map<Dpm, Dpm>,
    outOfBudget: bool)

  /** `d` was traversed by the current query. */
  predicate InQuery(s: Solver, d: Dpm) {
    d.loc in s.locs && d in s.locs[d.loc]
  }

  ghost predicate SettledIn(g: SVFG, given: set<Dpm>, s: Solver, d: Dpm)
    requires g.Valid()
  {
    d.loc in g.stmts && Settled(g, given, s.cache, s.visited, d)
  }

  /** No set that can influence `d` differs between the two states. */
  ghost predicate Unchanged(g: SVFG, s: Solver, t: Solver, d: Dpm) {
    forall y {:trigger Affects(g, y, d)} :: Affects(g, y, d) ==> Pts(t.cache, y) == Pts(s.cache, y)
  }

  /** What every step of the solver does for a traversed demand: leave it settled, or leave
      everything that could influence it as it was. */
  ghost predicate Tended(g: SVFG, given: set<Dpm>, s: Solver, t: Solver, d: Dpm)
    requires g.Valid()
  {
    SettledIn(g, given, t, d) || Unchanged(g, s, t, d)
  }

  /** The invariant. The demands in `base` were settled by earlier queries; those in `hole` have
      been traversed but are unmarked for re-evaluation. */
  ghost predicate Inv(g: SVFG, given: set<Dpm>, s: Solver, base: set<Dpm>, hole: set<Dpm>)
    requires g.Valid()
  {
    && s.visited <= g.Dpms()
    && (forall l, d :: l in s.locs && d in s.locs[l] ==> d.loc == l)
    && (forall d {:trigger InQuery(s, d)} :: InQuery(s, d) ==> d in g.Dpms() && (d in s.visited || d in hole))
    && (forall d {:trigger InQuery(s, d)} :: InQuery(s, d) && !g.TopLevel(d.loc) ==> d in s.loadVar)
    && (forall d {:trigger d in s.visited} :: d in s.visited ==> InQuery(s, d) || d in base)
    && (forall d {:trigger d in base} :: d in base ==> d in s.visited && !InQuery(s, d))
    && Below(s.cache, Least(g, given))
    && s.loadDpm.Keys == s.loadVar.Keys
    && (forall d :: d in s.loadVar ==> s.loadVar[d] == d.cur)
  }

  /** How a step relates the states before and after it. */
  ghost predicate Step(g: SVFG, given: set<Dpm>, s: Solver, t: Solver)
    requires g.Valid()
  {
    && s.visited <= t.visited
    && (forall d {:trigger InQuery(t, d)} {:trigger InQuery(s, d)} :: InQuery(s, d) ==> InQuery(t, d))
    && Below(s.cache, t.cache)
    && s.loadVar.Keys <= t.loadVar.Keys
    && (s.outOfBudget ==> t.outOfBudget)
    && (!t.outOfBudget ==>
          && (forall d {:trigger Tended(g, given, s, t, d)} :: InQuery(s, d) ==> Tended(g, given, s, t, d))
          && (forall d {:trigger SettledIn(g, given, t, d)} ::
                InQuery(t, d) && !InQuery(s, d) ==> SettledIn(g, given, t, d)))
  }

  lemma StepGrows(g: SVFG, given: set<Dpm>, s: Solver, t: Solver)
    requires g.Valid() && Step(g, given, s, t)
    ensures s.visited <= t.visited && Below(s.cache, t.cache) && s.loadVar.Keys <= t.loadVar.Keys
    ensures forall d :: InQuery(s, d) ==> InQuery(t, d)
  {
  }

  lemma HoleInv(g: SVFG, given: set<Dpm>, s: Solver, base: set<Dpm>, d: Dpm)
    requires g.Valid() && Inv(g, given, s, base, {})
    ensures Inv(g, given, s, base, {d})
  {
  }

  lemma HoleFilled(g: SVFG, given: set<Dpm>, s: Solver, base: set<Dpm>, d: Dpm)
    requires g.Valid() && Inv(g, given, s, base, {d}) && d in s.visited
    ensures Inv(g, given, s, base, {})
  {
  }

  lemma BaseNotTraversed(g: SVFG, given: set<Dpm>, s: Solver, base: set<Dpm>)
    requires g.Valid() && Inv(g, given, s, base, {})
    ensures forall d :: d in base ==> !InQuery(s, d)
  {
  }

  /** Every recorded load variable is the demand's own. */
  lemma RecordedVars(g: SVFG, given: set<Dpm>, s: Solver, base: set<Dpm>)
    requires g.Valid() && Inv(g, given, s, base, {})
    ensures s.loadDpm.Keys == s.loadVar.Keys && forall d :: d in s.loadVar ==> s.loadVar[d] == d.cur
  {
  }

  /** The load that a demand on memory came from is known. */
  lemma RecordedHere(g: SVFG, given: set<Dpm>, s: Solver, base: set<Dpm>, d: Dpm)
    requires g.Valid() && Inv(g, given, s, base, {}) && InQuery(s, d)
    ensures g.TopLevel(d.loc) || d in s.loadVar
  {
  }

  lemma BelowTrans(c: Cache, k: Cache, l: Cache)
    requires Below(c, k) && Below(k, l)
    ensures Below(c, l)
  {
  }

  lemma StepRefl(g: SVFG, given: set<Dpm>, s: Solver)
    requires g.Valid()
    ensures Step(g, given, s, s)
  {
  }

  lemma SettledThroughStep(g: SVFG, given: set<Dpm>, s: Solver, t: Solver, d: Dpm)
    requires g.Valid() && SettledIn(g, given, s, d) && Tended(g, given, s, t, d)
    requires s.visited <= t.visited && Below(s.cache, t.cache)
    ensures SettledIn(g, given, t, d)
  {
    if !SettledIn(g, given, t, d) {
      forall y | Reads(g, given, s.cache, d, y)
        ensures Pts(s.cache, y) == Pts(t.cache, y)
      {
        ReadsAffect(g, given, s.cache, d, y);
      }
      SettledStays(g, given, s.cache, t.cache, s.visited, t.visited, d);
    }
  }

  lemma TendedTrans(g: SVFG, given: set<Dpm>, s: Solver, t: Solver, u: Solver, d: Dpm)
    requires g.Valid() && t.visited <= u.visited && Below(t.cache, u.cache)
    requires Tended(g, given, s, t, d) && Tended(g, given, t, u, d)
    ensures Tended(g, given, s, u, d)
  {
    if SettledIn(g, given, t, d) {
      SettledThroughStep(g, given, t, u, d);
    }
  }

  lemma StepTrans(g: SVFG, given: set<Dpm>, s: Solver, t: Solver, u: Solver)
    requires g.Valid() && Step(g, given, s, t) && Step(g, given, t, u)
    ensures Step(g, given, s, u)
  {
    if !u.outOfBudget {
      forall d | InQuery(s, d)
        ensures Tended(g, given, s, u, d)
      {
        assert Tended(g, given, s, t, d) && Tended(g, given, t, u, d);
        TendedTrans(g, given, s, t, u, d);
      }
      forall d | InQuery(u, d) && !InQuery(s, d)
        ensures SettledIn(g, given, u, d)
      {
        if InQuery(t, d) {
          assert SettledIn(g, given, t, d) && Tended(g, given, t, u, d);
          SettledThroughStep(g, given, t, u, d);
        }
      }
    }
  }

  // ---------- Evaluating one equation ----------

  /** `pts` collects the sets of the demands in `from`, as read at various moments between the
      states `s` and `t`, on behalf of the equation of `d`. */
  ghost predicate Gathered(g: SVFG, s: Solver, t: Solver, d: Dpm, from: set<Dpm>, pts: Pointees) {
    && (forall y :: y in from ==> y in t.visited && Affects(g, y, d))
    && (forall o :: o in pts ==> exists y :: y in from && o in Pts(t.cache, y))
    && (Unchanged(g, s, t, d) ==> forall y :: y in from ==> Pts(t.cache, y) <= pts)
  }

  /** Reading one more set, after whatever its evaluation did to the state. */
  lemma GatherMore(g: SVFG, s: Solver, t: Solver, u: Solver, d: Dpm, from: set<Dpm>, pts: Pointees, y: Dpm)
    requires Gathered(g, s, t, d, from, pts)
    requires Below(s.cache, t.cache) && Below(t.cache, u.cache) && t.visited <= u.visited
    requires y in u.visited && Affects(g, y, d)
    ensures Gathered(g, s, u, d, from + {y}, pts + Pts(u.cache, y))
  {
  }

  lemma GatherKeeps(g: SVFG, s: Solver, t: Solver, u: Solver, d: Dpm, from: set<Dpm>, pts: Pointees)
    requires Gathered(g, s, t, d, from, pts)
    requires Below(s.cache, t.cache) && Below(t.cache, u.cache) && t.visited <= u.visited
    ensures Gathered(g, s, u, d, from, pts)
  {
  }

  /** The evaluation of the equation of `d` between the states `s` and `t` yields `pts`: never more
      than the equation gives in the end, and all of it unless one of its inputs has changed. */
  ghost predicate Evaluated(g: SVFG, given: set<Dpm>, s: Solver, t: Solver, d: Dpm, pts: Pointees)
    requires g.Valid()
  {
    && d.loc in g.stmts
    && (forall o :: o in pts ==> Flows(g, given, t.cache, d, o))
    && (Unchanged(g, s, t, d) ==>
          && (forall o :: Flows(g, given, t.cache, d, o) ==> o in pts)
          && (forall y :: Reads(g, given, t.cache, d, y) ==> y in t.visited))
  }

  ghost function DirectSources(g: SVFG, l: NodeID): set<Dpm>
    requires l in g.inEdges
  {
    set e | e in g.inEdges[l] && e.DirectEdge? :: DirectSource(g, e)
  }

  ghost function IndirectSources(g: SVFG, l: NodeID, obj: NodeID): set<Dpm>
    requires l in g.inEdges
  {
    set e | e in g.inEdges[l] && Carries(g, e, obj) :: Dpm(obj, e.src)
  }

  lemma EvaluatedAddr(g: SVFG, given: set<Dpm>, s: Solver, d: Dpm)
    requires g.Valid() && d.loc in g.stmts && d !in given && g.stmts[d.loc].Addr?
    ensures Evaluated(g, given, s, s, d, g.stmts[d.loc].objects)
  {
  }

  lemma EvaluatedCopy(g: SVFG, given: set<Dpm>, s: Solver, t: Solver, d: Dpm, pts: Pointees)
    requires g.Valid() && d.loc in g.stmts && d !in given && g.stmts[d.loc].Copy?
    requires Gathered(g, s, t, d, DirectSources(g, d.loc), pts)
    ensures Evaluated(g, given, s, t, d, pts)
  {
  }

  lemma EvaluatedGep(g: SVFG, given: set<Dpm>, s: Solver, t: Solver, d: Dpm, base: Pointees)
    requires g.Valid() && d.loc in g.stmts && d !in given && g.stmts[d.loc].Gep?
    requires Gathered(g, s, t, d, DirectSources(g, d.loc), base) && base <= g.vars
    requires Below(t.cache, Least(g, given))
    ensures Evaluated(g, given, s, t, d, g.gep(d.loc, base))
  {
  }

  lemma EvaluatedMemRegion(g: SVFG, given: set<Dpm>, s: Solver, t: Solver, d: Dpm, pts: Pointees)
    requires g.Valid() && d.loc in g.stmts && d !in given && g.stmts[d.loc].MemRegion?
    requires Gathered(g, s, t, d, IndirectSources(g, d.loc, d.cur), pts)
    ensures Evaluated(g, given, s, t, d, pts)
  {
  }

  lemma IndirectSourceOf(g: SVFG, l: NodeID, obj: NodeID)
    requires l in g.inEdges
    ensures forall e :: e in g.inEdges[l] && Carries(g, e, obj) ==> Dpm(obj, e.src) in IndirectSources(g, l, obj)
  {
  }

  /** The demands that a load reads for the objects in `objs`. */
  ghost function LoadSources(g: SVFG, l: NodeID, objs: Pointees): set<Dpm>
    requires l in g.inEdges
  {
    set obj, y | obj in objs && y in IndirectSources(g, l, obj) :: y
  }

  lemma EvaluatedLoad(g: SVFG, given: set<Dpm>, s: Solver, t: Solver, d: Dpm, objs: Pointees, pts: Pointees)
    requires g.Valid() && d.loc in g.stmts && d !in given && g.stmts[d.loc].Load? && g.stmts[d.loc].dstIsPointer
    requires Gathered(g, s, t, d, {Dpm(g.stmts[d.loc].src, g.stmts[d.loc].srcDef)}, objs)
    requires Gathered(g, s, t, d, LoadSources(g, d.loc, objs), pts)
    ensures Evaluated(g, given, s, t, d, pts)
  {
    var y0 := Dpm(g.stmts[d.loc].src, g.stmts[d.loc].srcDef);
    var es := g.inEdges[d.loc];
    forall o | o in pts
      ensures Flows(g, given, t.cache, d, o)
    {
      var y :| y in LoadSources(g, d.loc, objs) && o in Pts(t.cache, y);
      var obj :| obj in objs && y in IndirectSources(g, d.loc, obj);
      assert IndirectFlow(g, t.cache, es, obj, o);
    }
    if Unchanged(g, s, t, d) {
      assert y0 in {y0};
      forall obj, e | obj in objs && e in es && Carries(g, e, obj)
        ensures Dpm(obj, e.src) in LoadSources(g, d.loc, objs)
      {
        IndirectSourceOf(g, d.loc, obj);
        assert Dpm(obj, e.src) in IndirectSources(g, d.loc, obj);
      }
      forall y | Reads(g, given, t.cache, d, y)
        ensures y in t.visited
      {
        if y != y0 {
          var e :| e in es && Carries(g, e, y.cur) && y == Dpm(y.cur, e.src);
          assert y in LoadSources(g, d.loc, objs);
        }
      }
    }
  }

  /** The demands that a store reads once its targets `targets` are known. */
  ghost function StoreSources(g: SVFG, d: Dpm, targets: Pointees): set<Dpm>
    requires d.loc in g.stmts && g.stmts[d.loc].Store? && d.loc in g.inEdges
  {
    (if d.cur in targets then {Dpm(g.stmts[d.loc].src, g.stmts[d.loc].srcDef)} else {})
    + (if KeepsOld(g, targets, d.cur, d.loc) then IndirectSources(g, d.loc, d.cur) else {})
  }

  lemma EvaluatedStore(g: SVFG, given: set<Dpm>, s: Solver, t: Solver, d: Dpm, targets: Pointees, pts: Pointees)
    requires g.Valid() && d.loc in g.stmts && d !in given && g.stmts[d.loc].Store? && g.stmts[d.loc].srcIsPointer
    requires Gathered(g, s, t, d, {Dpm(g.stmts[d.loc].dst, g.stmts[d.loc].dstDef)}, targets)
    requires Gathered(g, s, t, d, StoreSources(g, d, targets), pts)
    ensures Evaluated(g, given, s, t, d, pts)
  {
    var y0 := Dpm(g.stmts[d.loc].dst, g.stmts[d.loc].dstDef);
    var es := g.inEdges[d.loc];
    IndirectSourceOf(g, d.loc, d.cur);
    assert targets <= Pts(t.cache, y0);
    forall o | o in pts
      ensures Flows(g, given, t.cache, d, o)
    {
      var y :| y in StoreSources(g, d, targets) && o in Pts(t.cache, y);
      if KeepsOld(g, targets, d.cur, d.loc) && y in IndirectSources(g, d.loc, d.cur) {
        assert IndirectFlow(g, t.cache, es, d.cur, o);
      }
    }
    if Unchanged(g, s, t, d) {
      assert y0 in {y0};
      assert targets == Pts(t.cache, y0);
    }
  }

  /** A store of something else than a pointer yields nothing. */
  lemma NonPointerStored(g: SVFG, given: set<Dpm>, s: Solver, d: Dpm)
    requires g.Valid() && d.loc in g.stmts && d !in given && g.stmts[d.loc].Store? && !g.stmts[d.loc].srcIsPointer
    ensures Evaluated(g, given, s, s, d, {})
  {
  }

  // ---------- Finishing the evaluation of a demand ----------

  /** The state in which the evaluation of `d` begins. */
  function Marked(s: Solver, d: Dpm): Solver {
    var here := if d.loc in s.locs then s.locs[d.loc] else {};
    s.(visited := s.visited + {d}, locs := s.locs[d.loc := here + {d}])
  }

  lemma MarkedInv(g: SVFG, given: set<Dpm>, s: Solver, base: set<Dpm>, d: Dpm)
    requires g.Valid() && Inv(g, given, s, base, {d}) && d in g.Dpms() && d !in s.visited
    requires g.TopLevel(d.loc) || d in s.loadVar
    ensures Inv(g, given, Marked(s, d), base, {})
    ensures forall x :: InQuery(Marked(s, d), x) <==> InQuery(s, x) || x == d
  {
    var t := Marked(s, d);
    forall x
      ensures InQuery(t, x) <==> InQuery(s, x) || x == d
    {
    }
  }

  /** What a completed evaluation of `d` contributes to a step, seen from before it was marked. */
  lemma MarkedStep(g: SVFG, given: set<Dpm>, s: Solver, t: Solver, d: Dpm)
    requires g.Valid() && d !in s.visited
    requires Step(g, given, Marked(s, d), t)
    requires !t.outOfBudget ==> SettledIn(g, given, t, d)
    ensures Step(g, given, s, t)
  {
    var m := Marked(s, d);
    forall x
      ensures InQuery(m, x) <==> InQuery(s, x) || x == d
    {
    }
    if !t.outOfBudget {
      forall x | InQuery(s, x)
        ensures Tended(g, given, s, t, x)
      {
        assert Tended(g, given, m, t, x);
      }
    }
  }

  /** `u` is `t` after `pts` is added to the cached set of `d`. */
  ghost predicate Grows(t: Solver, u: Solver, d: Dpm, pts: Pointees) {
    u == t.(cache := t.cache[d := Pts(t.cache, d) + pts])
  }

  lemma GrowsBelow(t: Solver, u: Solver, d: Dpm, pts: Pointees)
    requires Grows(t, u, d, pts)
    ensures Below(t.cache, u.cache)
    ensures forall y :: y != d ==> Pts(u.cache, y) == Pts(t.cache, y)
    ensures Pts(u.cache, d) == Pts(t.cache, d) + pts
    ensures forall x :: InQuery(u, x) <==> InQuery(t, x)
  {
  }

  lemma GrowsInv(g: SVFG, given: set<Dpm>, s: Solver, t: Solver, u: Solver, base: set<Dpm>, d: Dpm, pts: Pointees)
    requires g.Valid() && Inv(g, given, t, base, {}) && d in g.Dpms() && Grows(t, u, d, pts)
    requires Evaluated(g, given, s, t, d, pts)
    ensures Inv(g, given, u, base, {})
  {
    GrowsBelow(t, u, d, pts);
    LeastIsPostFix(g, given);
    forall o | o in pts
      ensures o in Pts(Least(g, given), d)
    {
      FlowsMonotone(g, given, t.cache, Least(g, given), d, o);
    }
  }

  /** If the evaluation adds nothing to the cache, its demand is settled. */
  lemma NoGrowthSettles(g: SVFG, given: set<Dpm>, s: Solver, t: Solver, d: Dpm, pts: Pointees)
    requires g.Valid() && Evaluated(g, given, s, t, d, pts) && Tended(g, given, s, t, d)
    requires pts <= Pts(t.cache, d)
    ensures SettledIn(g, given, t, d)
  {
  }

  /** If it adds something, then none of its inputs has changed, and its demand is settled unless
      it reads itself. */
  lemma GrowthSettles(g: SVFG, given: set<Dpm>, s: Solver, t: Solver, u: Solver, d: Dpm, pts: Pointees)
    requires g.Valid() && Evaluated(g, given, s, t, d, pts) && Tended(g, given, s, t, d) && Grows(t, u, d, pts)
    requires !(pts <= Pts(t.cache, d)) && !Affects(g, d, d)
    ensures SettledIn(g, given, u, d)
  {
    GrowsBelow(t, u, d, pts);
    assert !SettledIn(g, given, t, d);
    forall y | Reads(g, given, t.cache, d, y)
      ensures Pts(t.cache, y) == Pts(u.cache, y)
    {
      ReadsAffect(g, given, t.cache, d, y);
    }
    forall y | Reads(g, given, u.cache, d, y)
      ensures y in u.visited
    {
      ReadsLocal(g, given, t.cache, u.cache, d, y);
    }
    forall o | Flows(g, given, u.cache, d, o)
      ensures o in Pts(u.cache, d)
    {
      FlowsLocal(g, given, t.cache, u.cache, d, o);
    }
  }

  lemma NoGrowthStaysSettled(g: SVFG, given: set<Dpm>, s: Solver, t: Solver, u: Solver, d: Dpm, pts: Pointees)
    requires g.Valid() && Evaluated(g, given, s, t, d, pts) && pts <= Pts(t.cache, d)
    requires InQuery(s, d) && Step(g, given, s, t) && Step(g, given, t, u)
    ensures !u.outOfBudget ==> SettledIn(g, given, u, d)
  {
    if !u.outOfBudget {
      assert Tended(g, given, s, t, d);
      NoGrowthSettles(g, given, s, t, d, pts);
      assert Tended(g, given, t, u, d);
      SettledThroughStep(g, given, t, u, d);
    }
  }

  lemma GrowthStaysSettled(g: SVFG, given: set<Dpm>, s: Solver, t: Solver, u: Solver, v: Solver, d: Dpm,
                           pts: Pointees)
    requires g.Valid() && Evaluated(g, given, s, t, d, pts) && Grows(t, u, d, pts) && !(pts <= Pts(t.cache, d))
    requires InQuery(s, d) && Step(g, given, s, t) && InQuery(u, d) && Step(g, given, u, v)
    requires t.outOfBudget ==> v.outOfBudget
    ensures !v.outOfBudget && !Affects(g, d, d) ==> SettledIn(g, given, v, d)
  {
    if !v.outOfBudget && !Affects(g, d, d) {
      assert Tended(g, given, s, t, d);
      GrowthSettles(g, given, s, t, u, d, pts);
      assert Tended(g, given, u, v, d);
      SettledThroughStep(g, given, u, v, d);
    }
  }

  /** Growth followed by the re-evaluation of everything it may affect is a step. */
  lemma GrowthIsStep(g: SVFG, given: set<Dpm>, t: Solver, u: Solver, v: Solver, d: Dpm, pts: Pointees)
    requires g.Valid() && Grows(t, u, d, pts) && Step(g, given, u, v)
    requires !v.outOfBudget ==> forall x :: InQuery(u, x) && Affects(g, d, x) ==> SettledIn(g, given, v, x)
    ensures Step(g, given, t, v)
  {
    GrowsBelow(t, u, d, pts);
    if !v.outOfBudget {
      forall x | InQuery(t, x)
        ensures Tended(g, given, t, v, x)
      {
        assert Tended(g, given, u, v, x);
        if !Affects(g, d, x) && Unchanged(g, u, v, x) {
          forall y | Affects(g, y, x)
            ensures Pts(v.cache, y) == Pts(t.cache, y)
          {
            assert y != d;
          }
        }
      }
    }
  }

  // ---------- Termination ----------

  ghost const NO_DPMS: set<Dpm> := {}

  ghost predicate Missing(g: SVFG, s: Solver, d: Dpm, o: NodeID) {
    d in g.Dpms() && o in g.vars && o !in Pts(s.cache, d)
  }

  ghost predicate Unmarked(g: SVFG, s: Solver, d: Dpm) {
    d in g.Dpms() && d !in s.visited
  }

  /** The facts still missing from the cache are among `m`, and the demands still unmarked among
      `n`: the two finite sets that shrink, in this order of importance, as the solver recurses. */
  ghost predicate Measured(g: SVFG, s: Solver, m: set<(Dpm, NodeID)>, n: set<Dpm>) {
    && (forall d: Dpm, o: NodeID {:trigger Missing(g, s, d, o)} :: Missing(g, s, d, o) ==> (d, o) in m)
    && (forall d {:trigger Unmarked(g, s, d)} :: Unmarked(g, s, d) ==> d in n)
  }

  lemma StepShrinks(g: SVFG, s: Solver, t: Solver, m: set<(Dpm, NodeID)>, n: set<Dpm>)
    requires Below(s.cache, t.cache) && s.visited <= t.visited && Measured(g, s, m, n)
    ensures Measured(g, t, m, n)
  {
    forall d: Dpm, o: NodeID | Missing(g, t, d, o)
      ensures (d, o) in m
    {
      assert Pts(s.cache, d) <= Pts(t.cache, d);
      assert Missing(g, s, d, o);
    }
    forall d | Unmarked(g, t, d)
      ensures d in n
    {
      assert Unmarked(g, s, d);
    }
  }

  lemma MeasuredMore(g: SVFG, s: Solver, m: set<(Dpm, NodeID)>, n: set<Dpm>, n': set<Dpm>)
    requires Measured(g, s, m, n) && n <= n'
    ensures Measured(g, s, m, n')
  {
  }

  lemma MarkShrinks(g: SVFG, s: Solver, d: Dpm, m: set<(Dpm, NodeID)>, n: set<Dpm>)
    requires d in g.Dpms() && d !in s.visited && Measured(g, s, m, n)
    ensures d in n && Measured(g, Marked(s, d), m, n - {d})
  {
    var t := Marked(s, d);
    assert Unmarked(g, s, d);
    forall y: Dpm, o: NodeID | Missing(g, t, y, o)
      ensures (y, o) in m
    {
      assert Missing(g, s, y, o);
    }
    forall y | Unmarked(g, t, y)
      ensures y in n - {d}
    {
      assert Unmarked(g, s, y);
    }
  }

  lemma ClearGrows(g: SVFG, s: Solver, t: Solver, d: Dpm, m: set<(Dpm, NodeID)>, n: set<Dpm>)
    requires Measured(g, s, m, n) && t == s.(visited := s.visited - {d})
    ensures Measured(g, t, m, n + {d})
  {
    forall y: Dpm, o: NodeID | Missing(g, t, y, o)
      ensures (y, o) in m
    {
      assert Missing(g, s, y, o);
    }
    forall y | Unmarked(g, t, y)
      ensures y in n + {d}
    {
      assert y != d ==> Unmarked(g, s, y);
    }
  }

  /** Growth of the cache removes a missing fact. */
  lemma GrowthShrinks(g: SVFG, given: set<Dpm>, t: Solver, u: Solver, d: Dpm, pts: Pointees,
                      m: set<(Dpm, NodeID)>, n: set<Dpm>)
    returns (m': set<(Dpm, NodeID)>)
    requires g.Valid() && Grows(t, u, d, pts) && d in g.Dpms() && Below(u.cache, Least(g, given))
    requires !(pts <= Pts(t.cache, d)) && Measured(g, t, m, n)
    ensures m' < m && Measured(g, u, m', n)
  {
    GrowsBelow(t, u, d, pts);
    var o :| o in pts && o !in Pts(t.cache, d);
    LeastInVars(g, given);
    assert o in Pts(u.cache, d) && o in g.vars;
    assert Missing(g, t, d, o);
    m' := m - {(d, o)};
    forall y: Dpm, p: NodeID | Missing(g, u, y, p)
      ensures (y, p) in m'
    {
      assert Missing(g, t, y, p);
    }
    forall y | Unmarked(g, u, y)
      ensures y in n
    {
      assert Unmarked(g, t, y);
    }
  }

  // ---------- How many evaluations a query can take ----------

  /** The largest number of edges that leave one of the locations `ls`. */
  ghost function Degree(g: SVFG, ls: set<NodeID>): nat
    requires ls <= g.outEdges.Keys
  {
    if ls == {} then 0
    else
      var l :| l in ls;
      var most := Degree(g, ls - {l});
      if |g.outEdges[l]| > most then |g.outEdges[l]| else most
  }

  lemma {:induction false} DegreeBounds(g: SVFG, ls: set<NodeID>, k: NodeID)
    requires ls <= g.outEdges.Keys && k in ls
    ensures |g.outEdges[k]| <= Degree(g, ls)
  {
    var l :| l in ls && Degree(g, ls) ==
      if |g.outEdges[l]| > Degree(g, ls - {l}) then |g.outEdges[l]| else Degree(g, ls - {l});
    if k != l {
      DegreeBounds(g, ls - {l}, k);
    }
  }

  /** The product of `n` and `k`, by repeated addition. */
  ghost function Times(n: nat, k: nat): nat {
    if n == 0 then 0 else Times(n - 1, k) + k
  }

  lemma TimesStep(i: nat, k: nat)
    ensures Times(0, k) == 0 && Times(i + 1, k) == Times(i, k) + k
  {
  }

  /** At most so many demands have to be evaluated again when one of them grows. */
  ghost function Fanout(g: SVFG): nat {
    Times(Degree(g, g.outEdges.Keys), |g.vars|)
  }

  ghost function AllFacts(g: SVFG): set<(Dpm, NodeID)> {
    set d, o | d in g.Dpms() && o in g.vars :: (d, o)
  }

  ghost function MissingFacts(g: SVFG, c: Cache): set<(Dpm, NodeID)> {
    set x | x in AllFacts(g) && x.1 !in Pts(c, x.0)
  }

  /** What a query can still spend: each unmarked demand can be evaluated once, and each fact that
      is missing can, once found, cause so many further evaluations. */
  ghost function Potential(g: SVFG, visited: set<Dpm>, c: Cache): nat {
    |g.Dpms() - visited| + Times(|MissingFacts(g, c)|, Fanout(g))
  }

  /** No query evaluates more statements than this. */
  ghost function Bound(g: SVFG): nat {
    |g.Dpms()| + Times(|AllFacts(g)|, Fanout(g))
  }

  lemma Subset<T>(s: set<T>, t: set<T>)
    requires s <= t
    ensures |s| <= |t|
  {
    assert t == s + (t - s);
  }

  lemma RemoveOne<T>(s: set<T>, x: T)
    requires x in s
    ensures |s - {x}| + 1 == |s|
  {
  }

  lemma {:induction false} TimesMono(a: nat, b: nat, k: nat)
    requires a <= b
    ensures Times(a, k) <= Times(b, k) && (a < b ==> Times(a, k) + k <= Times(b, k))
  {
    if a < b {
      TimesMono(a, b - 1, k);
    }
  }

  lemma PotentialIsBounded(g: SVFG, visited: set<Dpm>, c: Cache)
    ensures Potential(g, visited, c) <= Bound(g)
  {
    Subset(g.Dpms() - visited, g.Dpms());
    Subset(MissingFacts(g, c), AllFacts(g));
    TimesMono(|MissingFacts(g, c)|, |AllFacts(g)|, Fanout(g));
  }

  lemma MarkSpends(g: SVFG, visited: set<Dpm>, c: Cache, d: Dpm)
    requires d in g.Dpms() && d !in visited
    ensures Potential(g, visited + {d}, c) + 1 <= Potential(g, visited, c)
  {
    assert g.Dpms() - visited == (g.Dpms() - (visited + {d})) + {d};
  }

  lemma ClearCosts(g: SVFG, visited: set<Dpm>, c: Cache, d: Dpm)
    ensures Potential(g, visited - {d}, c) <= Potential(g, visited, c) + 1
  {
    Subset(g.Dpms() - (visited - {d}), (g.Dpms() - visited) + {d});
  }

  lemma FewerMissing(g: SVFG, c: Cache, k: Cache)
    requires Below(c, k)
    ensures MissingFacts(g, k) <= MissingFacts(g, c)
  {
  }

  lemma FactFound(g: SVFG, c: Cache, k: Cache, d: Dpm, o: NodeID)
    requires Below(c, k) && d in g.Dpms() && o in g.vars && o in Pts(k, d) && o !in Pts(c, d)
    ensures |MissingFacts(g, k)| < |MissingFacts(g, c)|
  {
    FewerMissing(g, c, k);
    assert (d, o) in AllFacts(g);
    Subset(MissingFacts(g, k) + {(d, o)}, MissingFacts(g, c));
  }

  lemma GrowthPays(g: SVFG, given: set<Dpm>, t: Solver, u: Solver, d: Dpm, pts: Pointees)
    requires g.Valid() && Grows(t, u, d, pts) && d in g.Dpms() && Below(u.cache, Least(g, given))
    ensures Potential(g, u.visited, u.cache) <= Potential(g, t.visited, t.cache)
    ensures !(pts <= Pts(t.cache, d)) ==>
      Potential(g, u.visited, u.cache) + Fanout(g) <= Potential(g, t.visited, t.cache)
  {
    hide MissingFacts, Fanout, Times, SVFG.Valid, Least;
    GrowsBelow(t, u, d, pts);
    var before, after := MissingFacts(g, t.cache), MissingFacts(g, u.cache);
    FewerMissing(g, t.cache, u.cache);
    Subset(after, before);
    if !(pts <= Pts(t.cache, d)) {
      var o :| o in pts && o !in Pts(t.cache, d);
      LeastInVars(g, given);
      assert o in Pts(u.cache, d);
      FactFound(g, t.cache, u.cache, d, o);
    }
    TimesMono(|after|, |before|, Fanout(g));
  }

  /** No more demands lie at one location than there are variables. */
  lemma {:induction false} DemandsThere(ds: set<Dpm>, l: NodeID, vars: set<NodeID>)
    requires forall d :: d in ds ==> d.loc == l && d.cur in vars
    ensures |ds| <= |vars|
  {
    if ds != {} {
      var d :| d in ds;
      DemandsThere(ds - {d}, l, vars - {d.cur});
    }
  }

  // ---------- Facts the solver's methods rely on ----------

  /** The definition of an operand affects the statement that uses it. */
  lemma OperandAffects(g: SVFG, e: Edge, v: NodeID, d: Dpm)
    requires g.Valid() && d.loc in g.stmts && e in g.inEdges[d.loc] && e.DirectEdge?
    ensures Affects(g, Dpm(v, e.src), d)
  {
  }

  lemma CarrierAffects(g: SVFG, e: Edge, obj: NodeID, d: Dpm)
    requires g.Valid() && d.loc in g.stmts && e in g.inEdges[d.loc] && Carries(g, e, obj)
    requires g.stmts[d.loc].Load? || obj == d.cur
    ensures Affects(g, Dpm(obj, e.src), d)
  {
  }

  lemma CachedInVars(g: SVFG, given: set<Dpm>, s: Solver, base: set<Dpm>, hole: set<Dpm>, d: Dpm)
    requires g.Valid() && Inv(g, given, s, base, hole)
    ensures Pts(s.cache, d) <= g.vars
  {
  }

  /** Un-marking a demand for re-evaluation. */
  lemma ClearedInv(g: SVFG, given: set<Dpm>, s: Solver, t: Solver, base: set<Dpm>, d: Dpm)
    requires g.Valid() && Inv(g, given, s, base, {}) && InQuery(s, d) && t == s.(visited := s.visited - {d})
    ensures Inv(g, given, t, base, {d})
  {
    assert forall x :: InQuery(t, x) <==> InQuery(s, x);
  }

  lemma ClearedStep(g: SVFG, given: set<Dpm>, s: Solver, t: Solver, u: Solver, d: Dpm)
    requires g.Valid() && t == s.(visited := s.visited - {d}) && Step(g, given, t, u) && d in u.visited
    ensures Step(g, given, s, u)
  {
    assert forall x :: InQuery(t, x) <==> InQuery(s, x);
    if !u.outOfBudget {
      forall x | InQuery(s, x)
        ensures Tended(g, given, s, u, x)
      {
        assert Tended(g, given, t, u, x);
      }
    }
  }

  /** Recording the load that a demand came from. */
  lemma RecordedStep(g: SVFG, given: set<Dpm>, s: Solver, t: Solver, base: set<Dpm>, hole: set<Dpm>, d: Dpm, from: Dpm)
    requires g.Valid() && Inv(g, given, s, base, hole)
    requires t == s.(loadVar := s.loadVar[d := d.cur], loadDpm := s.loadDpm[d := from])
    ensures Inv(g, given, t, base, hole) && Step(g, given, s, t)
  {
    assert forall x :: InQuery(t, x) <==> InQuery(s, x);
  }

  /** Storing a set that adds nothing is a step. */
  lemma IdleGrowthIsStep(g: SVFG, given: set<Dpm>, t: Solver, u: Solver, d: Dpm, pts: Pointees)
    requires g.Valid() && Grows(t, u, d, pts) && pts <= Pts(t.cache, d)
    ensures Step(g, given, t, u)
  {
  }

  /** Spending the budget is a step. */
  lemma BudgetStep(g: SVFG, given: set<Dpm>, s: Solver, t: Solver, base: set<Dpm>, hole: set<Dpm>)
    requires g.Valid() && t == s.(outOfBudget := t.outOfBudget) && (s.outOfBudget ==> t.outOfBudget)
    ensures Step(g, given, s, t)
    ensures Inv(g, given, s, base, hole) ==> Inv(g, given, t, base, hole)
  {
    assert forall x :: InQuery(t, x) <==> InQuery(s, x);
  }

  /** The part of `StoreSources` read on account of the targets in `done`. */
  ghost function StoreSourcesSoFar(g: SVFG, d: Dpm, strong: bool, done: Pointees): set<Dpm>
    requires d.loc in g.stmts && g.stmts[d.loc].Store? && d.loc in g.inEdges
  {
    (if d.cur in done then {Dpm(g.stmts[d.loc].src, g.stmts[d.loc].srcDef)} else {})
    + (if (d.cur in done && !strong) || done - {d.cur} != {} then IndirectSources(g, d.loc, d.cur) else {})
  }

  lemma StoreSourcesDone(g: SVFG, d: Dpm, targets: Pointees)
    requires d.loc in g.stmts && g.stmts[d.loc].Store? && d.loc in g.inEdges
    ensures var strong := |targets| == 1 && forall v :: v in targets ==> (v, d.loc) in g.strong;
      StoreSourcesSoFar(g, d, strong, targets) == StoreSources(g, d, targets)
  {
    if d.cur in targets {
      assert targets == {d.cur} + (targets - {d.cur});
      assert targets - {d.cur} == {} ==> targets == {d.cur};
      assert |targets| == 1 + |targets - {d.cur}|;
    } else {
      assert targets - {d.cur} == targets;
    }
  }

  lemma StoreSourcesSelf(g: SVFG, d: Dpm, strong: bool, done: Pointees)
    requires d.loc in g.stmts && g.stmts[d.loc].Store? && d.loc in g.inEdges
    ensures StoreSourcesSoFar(g, d, strong, done + {d.cur}) ==
              StoreSourcesSoFar(g, d, strong, done) + {Dpm(g.stmts[d.loc].src, g.stmts[d.loc].srcDef)}
              + (if strong then {} else IndirectSources(g, d.loc, d.cur))
  {
    assert done + {d.cur} - {d.cur} == done - {d.cur};
  }

  lemma StoreSourcesOther(g: SVFG, d: Dpm, strong: bool, done: Pointees, obj: NodeID)
    requires d.loc in g.stmts && g.stmts[d.loc].Store? && d.loc in g.inEdges && obj != d.cur
    ensures StoreSourcesSoFar(g, d, strong, done + {obj}) ==
              StoreSourcesSoFar(g, d, strong, done) + IndirectSources(g, d.loc, d.cur)
  {
    assert obj in done + {obj} - {d.cur};
  }

  ghost function DirectSourcesIn(g: SVFG, es: seq<Edge>): set<Dpm> {
    set e | e in es && e.DirectEdge? :: DirectSource(g, e)
  }

  ghost function IndirectSourcesIn(g: SVFG, es: seq<Edge>, obj: NodeID): set<Dpm> {
    set e | e in es && Carries(g, e, obj) :: Dpm(obj, e.src)
  }

  lemma DirectSourcesMore(g: SVFG, es: seq<Edge>, i: nat)
    requires i < |es|
    ensures DirectSourcesIn(g, es[..i + 1]) ==
              DirectSourcesIn(g, es[..i]) + if es[i].DirectEdge? then {DirectSource(g, es[i])} else {}
  {
  }

  lemma IndirectSourcesMore(g: SVFG, es: seq<Edge>, i: nat, obj: NodeID)
    requires i < |es|
    ensures IndirectSourcesIn(g, es[..i + 1], obj) ==
              IndirectSourcesIn(g, es[..i], obj) + if Carries(g, es[i], obj) then {Dpm(obj, es[i].src)} else {}
  {
  }

  lemma LoadSourcesMore(g: SVFG, l: NodeID, objs: Pointees, obj: NodeID)
    requires l in g.inEdges
    ensures LoadSources(g, l, objs + {obj}) == LoadSources(g, l, objs) + IndirectSources(g, l, obj)
  {
  }

  lemma GatheredInVars(g: SVFG, given: set<Dpm>, s: Solver, t: Solver, base: set<Dpm>, d: Dpm, from: set<Dpm>,
                       pts: Pointees)
    requires g.Valid() && Inv(g, given, t, base, {}) && Gathered(g, s, t, d, from, pts)
    ensures pts <= g.vars
  {
    forall o | o in pts
      ensures o in g.vars
    {
      var y :| y in from && o in Pts(t.cache, y);
      CachedInVars(g, given, t, base, {}, y);
    }
  }

  // ---------- Re-evaluation ----------

  /** Every demand traversed in state `u` that the growth of `d` may affect along one of the edges
      `es` is settled in state `v`. */
  ghost predicate Redone(g: SVFG, given: set<Dpm>, u: Solver, v: Solver, d: Dpm, es: seq<Edge>)
    requires g.Valid()
  {
    forall x, e :: InQuery(u, x) && e in es && AffectsAlong(g, e, d, x) ==> SettledIn(g, given, v, x)
  }

  lemma RedoneMore(g: SVFG, given: set<Dpm>, u: Solver, v: Solver, w: Solver, d: Dpm, es: seq<Edge>, e: Edge)
    requires g.Valid() && Step(g, given, u, v) && Step(g, given, v, w)
    requires !v.outOfBudget ==> Redone(g, given, u, v, d, es)
    requires !w.outOfBudget ==> forall x :: InQuery(v, x) && AffectsAlong(g, e, d, x) ==> SettledIn(g, given, w, x)
    ensures !w.outOfBudget ==> Redone(g, given, u, w, d, es + [e])
  {
    if !w.outOfBudget {
      forall x, e' | InQuery(u, x) && e' in es + [e] && AffectsAlong(g, e', d, x)
        ensures SettledIn(g, given, w, x)
      {
        assert InQuery(v, x);
        if e' in es {
          assert SettledIn(g, given, v, x) && Tended(g, given, v, w, x);
          SettledThroughStep(g, given, v, w, x);
        }
      }
    }
  }

  /** The demands recorded at a location were traversed, and are demands there. */
  lemma TraversedThere(g: SVFG, given: set<Dpm>, s: Solver, base: set<Dpm>, l: NodeID)
    requires g.Valid() && Inv(g, given, s, base, {}) && l in s.locs
    ensures forall x :: x in s.locs[l] ==> InQuery(s, x) && x.loc == l && x.cur in g.vars
  {
    forall x | x in s.locs[l]
      ensures InQuery(s, x) && x.loc == l && x.cur in g.vars
    {
      assert x.loc == l && InQuery(s, x);
      assert x in g.Dpms();
    }
  }

  /** Along an edge only demands at its target can be affected. */
  lemma AffectedThere(g: SVFG, s: Solver, e: Edge, d: Dpm)
    ensures forall x :: InQuery(s, x) && AffectsAlong(g, e, d, x) ==> e.dst in s.locs && x in s.locs[e.dst]
  {
  }

  lemma RedoneUpTo(g: SVFG, given: set<Dpm>, u: Solver, v: Solver, w: Solver, d: Dpm, es: seq<Edge>, i: nat)
    requires g.Valid() && Step(g, given, u, v) && Step(g, given, v, w) && i < |es|
    requires !v.outOfBudget ==> Redone(g, given, u, v, d, es[..i])
    requires !w.outOfBudget ==> forall x :: InQuery(v, x) && AffectsAlong(g, es[i], d, x) ==> SettledIn(g, given, w, x)
    ensures !w.outOfBudget ==> Redone(g, given, u, w, d, es[..i + 1])
  {
    assert es[..i + 1] == es[..i] + [es[i]];
    RedoneMore(g, given, u, v, w, d, es[..i], es[i]);
  }

  /** Re-evaluating one more demand keeps those already redone settled. */
  lemma SettledKept(g: SVFG, given: set<Dpm>, u: Solver, v: Solver, w: Solver, d: Dpm, e: Edge, todo: set<Dpm>)
    requires g.Valid() && Step(g, given, u, v) && Step(g, given, v, w)
    requires !v.outOfBudget ==>
               forall x :: InQuery(u, x) && x !in todo && AffectsAlong(g, e, d, x) ==> SettledIn(g, given, v, x)
    ensures !w.outOfBudget ==>
              forall x :: InQuery(u, x) && x !in todo && AffectsAlong(g, e, d, x) ==> SettledIn(g, given, w, x)
  {
    if !w.outOfBudget {
      forall x | InQuery(u, x) && x !in todo && AffectsAlong(g, e, d, x)
        ensures SettledIn(g, given, w, x)
      {
        assert InQuery(v, x) && Tended(g, given, v, w, x);
        SettledThroughStep(g, given, v, w, x);
      }
    }
  }

  // ---------- Queries ----------

  /** Between queries: the demands in `base` are settled among themselves, those whose sets are given
      are marked and hold them, and unless the last query ran out of budget all marked demands are
      settled. */
  ghost predicate Rested(g: SVFG, given: set<Dpm>, s: Solver, base: set<Dpm>)
    requires g.Valid()
  {
    && Inv(g, given, s, base, {})
    && (forall d {:trigger d in base} :: d in base ==> d.loc in g.stmts && Settled(g, given, s.cache, base, d))
    && (forall d {:trigger d in given} :: d in given ==> d in s.visited && g.andersen(d.cur) <= Pts(s.cache, d))
    && (!s.outOfBudget ==> forall d {:trigger d in s.visited} :: d in s.visited ==> SettledIn(g, given, s, d))
  }

  /** What is left marked when the next query starts. */
  lemma ResetRests(g: SVFG, given: set<Dpm>, s: Solver, t: Solver, base: set<Dpm>)
    requires g.Valid() && Rested(g, given, s, base)
    requires t == Solver(t.visited, s.cache, map[], map[], map[], false)
    requires forall d :: d in t.visited <==> d in s.visited && !(s.outOfBudget && InQuery(s, d) && d !in given)
    ensures Rested(g, given, t, t.visited)
  {
  }

  /** A demand settled by earlier queries keeps its set, whatever the current query does. */
  lemma BaseStaysLeast(g: SVFG, given: set<Dpm>, s: Solver, t: Solver, base: set<Dpm>)
    requires g.Valid() && Inv(g, given, s, base, {}) && Below(s.cache, t.cache) && Below(t.cache, Least(g, given))
    requires forall d :: d in base ==> d.loc in g.stmts && Settled(g, given, s.cache, base, d)
    ensures forall d :: d in base ==> d.loc in g.stmts && Settled(g, given, t.cache, base, d)
  {
    SettledIsLeast(g, given, s.cache, base);
    forall d | d in base
      ensures Settled(g, given, t.cache, base, d)
    {
      forall y | Reads(g, given, s.cache, d, y)
        ensures Pts(s.cache, y) == Pts(t.cache, y)
      {
        assert y in base && Pts(s.cache, y) == Pts(Least(g, given), y);
        assert Pts(s.cache, y) <= Pts(t.cache, y) <= Pts(Least(g, given), y);
      }
      SettledStays(g, given, s.cache, t.cache, base, base, d);
    }
  }

  /** The end of a query that began in a freshly reset state `s`. */
  lemma QueryRests(g: SVFG, given: set<Dpm>, s: Solver, t: Solver, base: set<Dpm>)
    requires g.Valid() && Rested(g, given, s, base) && s.locs == map[]
    requires Step(g, given, s, t) && Inv(g, given, t, base, {})
    ensures Rested(g, given, t, base)
    ensures !t.outOfBudget ==> forall d :: d in t.visited ==> Pts(t.cache, d) == Pts(Least(g, given), d)
  {
    BaseStaysLeast(g, given, s, t, base);
    if !t.outOfBudget {
      forall d | d in t.visited
        ensures SettledIn(g, given, t, d)
      {
        if d in base {
          assert Settled(g, given, t.cache, base, d);
        } else {
          assert InQuery(t, d) && !InQuery(s, d);
        }
      }
      SettledIsLeast(g, given, t.cache, t.visited);
    }
  }

  /** A query out of budget takes the set of its demand from Andersen's result: the invariant holds
      for the equations that say so. */
  lemma FallBackInv(g: SVFG, given: set<Dpm>, s: Solver, base: set<Dpm>, d: Dpm)
    requires g.Valid() && AndersenIsSound(g) && Inv(g, given, s, base, {})
    ensures Inv(g, given + {d}, s, base, {})
  {
    hide SVFG.Valid, AndersenIsSound;
    GivingOnlyAdds(g, given, given + {d});
    BelowTrans(s.cache, Least(g, given), Least(g, given + {d}));
  }

  /** Under these equations Andersen's set is what an evaluation of the demand yields, ... */
  lemma FallBackEvaluates(g: SVFG, given: set<Dpm>, s: Solver, d: Dpm)
    requires g.Valid() && d.loc in g.stmts
    ensures Evaluated(g, given + {d}, s, s, d, g.andersen(d.cur))
  {
  }

  /** ... and every other equation is as before. */
  lemma FallBackElsewhere(g: SVFG, given: set<Dpm>, c: Cache, seen: set<Dpm>, d: Dpm, b: Dpm)
    requires g.Valid() && b.loc in g.stmts && b != d && Settled(g, given, c, seen, b)
    ensures Settled(g, given + {d}, c, seen, b)
  {
    forall y | Reads(g, given + {d}, c, b, y)
      ensures y in seen
    {
      assert Reads(g, given, c, b, y);
    }
    forall o | Flows(g, given + {d}, c, b, o)
      ensures o in Pts(c, b)
    {
      assert Flows(g, given, c, b, o);
    }
  }

  /** After the fallback the solver rests under these equations. */
  lemma FallBackRests(g: SVFG, given: set<Dpm>, s: Solver, t: Solver, base: set<Dpm>, d: Dpm)
    requires g.Valid() && Rested(g, given, s, base) && s.outOfBudget && d in s.visited && d !in base
    requires Inv(g, given + {d}, s, base, {}) && Inv(g, given + {d}, t, base, {})
    requires Step(g, given + {d}, s, t) && g.andersen(d.cur) <= Pts(t.cache, d)
    ensures Rested(g, given + {d}, t, base)
  {
    hide Inv, SVFG.Valid, Settled, Flows, Reads;
    forall b | b in base
      ensures b.loc in g.stmts && Settled(g, given + {d}, s.cache, base, b)
    {
      FallBackElsewhere(g, given, s.cache, base, d, b);
    }
    InvIsBelow(g, given + {d}, t, base);
    BaseStaysLeast(g, given + {d}, s, t, base);
    forall x | x in given + {d}
      ensures x in t.visited && g.andersen(x.cur) <= Pts(t.cache, x)
    {
      assert Pts(s.cache, x) <= Pts(t.cache, x);
    }
  }

  lemma RestsBelow(g: SVFG, given: set<Dpm>, s: Solver, base: set<Dpm>)
    requires g.Valid() && Rested(g, given, s, base)
    ensures Below(s.cache, Least(g, given))
  {
  }

  lemma InvIsBelow(g: SVFG, given: set<Dpm>, s: Solver, base: set<Dpm>)
    requires g.Valid() && Inv(g, given, s, base, {})
    ensures Below(s.cache, Least(g, given))
  {
  }

  lemma AllMeasured(g: SVFG, s: Solver) returns (m: set<(Dpm, NodeID)>, n: set<Dpm>)
    ensures Measured(g, s, m, n)
  {
    m := set d, o | d in g.Dpms() && o in g.vars :: (d, o);
    n := g.Dpms();
  }
}
