/** Demand-driven, flow-sensitive points-to analysis: each query evaluates the equations it needs,
    and re-evaluates those that have read a set which has grown since. */
module DDASolver {
  import opened Nodes
  import opened PointsToTransfer
  import opened LeastSolution
  import opened DDAState

  type Facts = set<(Dpm, NodeID)>

  class DDAVFSolver {
    const svfg: SVFG
    const maxBudget: nat
    var backwardVisited: set<Dpm>
    var dpmToTLCPtSet: Cache              // cached sets at top-level statements
    var dpmToADCPtSet: Cache              // cached sets at stores and memory regions
    var locToDpmSet: map<NodeID, set<Dpm>>
    var loadToPTCVar: map<Dpm, NodeID>
    var dpmToLoadDpm: map<Dpm, Dpm>
    var outOfBudgetQuery: bool
    var outOfBudgetDpms: set<Dpm>         // demands answered from Andersen's result
    var steps: nat
    ghost var evaluations: nat            // how often the current query has evaluated a statement
    ghost var limit: nat                  // how often it can at most, ...
    ghost var owed: int                   // ... that many of these for demands to be evaluated again
    ghost var base: set<Dpm>              // the demands settled by earlier queries
    ghost var given: set<Dpm>             // the demands whose sets are taken from Andersen's result

    constructor (g: SVFG, budget: nat)
      requires g.Valid() && AndersenIsSound(g)
      ensures svfg == g && maxBudget == budget && outOfBudgetDpms == {} && Idle()
    {
      svfg, maxBudget, outOfBudgetDpms, given := g, budget, {}, {};
      backwardVisited, dpmToTLCPtSet, dpmToADCPtSet, locToDpmSet := {}, map[], map[], map[];
      loadToPTCVar, dpmToLoadDpm, outOfBudgetQuery, steps := map[], map[], false, 0;
      evaluations, base, limit, owed := 0, {}, 0, 0;
    }

    ghost function State(): Solver
      reads this
    {
      Solver(backwardVisited, dpmToTLCPtSet + dpmToADCPtSet, locToDpmSet, loadToPTCVar, dpmToLoadDpm, outOfBudgetQuery)
    }

    /** What stays as it is while a query is running. */
    ghost function Fixed(): (set<Dpm>, set<Dpm>, set<Dpm>, nat, int)
      reads this
    {
      (base, given, outOfBudgetDpms, limit, owed)
    }

    /** The same after `k` of the evaluations owed. */
    ghost function Paid(k: nat): (set<Dpm>, set<Dpm>, set<Dpm>, nat, int)
      reads this
    {
      (base, given, outOfBudgetDpms, limit, owed - k)
    }

    /** The invariant while a query is running: `m` covers the facts still missing from the
        cache and `n` the demands still unmarked. */
    ghost predicate Running(hole: set<Dpm>, m: Facts, n: set<Dpm>)
      reads this
    {
      && svfg.Valid() && Measured(svfg, State(), m, n)
      && CachesSplit() && Inv(svfg, given, State(), base, hole)
      && (!outOfBudgetQuery ==> given == outOfBudgetDpms && given <= base)   // such demands stay marked
    }

    /** The statements evaluated so far, plus `pending`, are covered by the steps counted; the query
        is out of budget only when all of it has been spent; and the limit is kept. */
    ghost predicate Budgeted(pending: nat)
      reads this
    {
      && evaluations + pending <= maxBudget
      && (!outOfBudgetQuery ==> evaluations + pending == steps)
      && (outOfBudgetQuery ==> evaluations + pending == maxBudget < limit)
      && Affordable(pending)
    }

    /** The statements evaluated so far, plus `pending`, leave enough for all that is still to come. */
    ghost predicate Affordable(pending: nat)
      reads this
    {
      owed >= 0 && evaluations + pending + owed + Potential(svfg, State().visited, State().cache) <= limit
    }

    // ---------- Caches and marks ----------

    function GetCachedPointsTo(d: Dpm): Pointees
      reads this
    {
      if svfg.TopLevel(d.loc) then Pts(dpmToTLCPtSet, d) else Pts(dpmToADCPtSet, d)
    }

    /** Each demand is cached in the map that its statement calls for. */
    ghost predicate CachesSplit()
      reads this
    {
      && (forall d :: d in dpmToTLCPtSet ==> svfg.TopLevel(d.loc))
      && (forall d :: d in dpmToADCPtSet ==> !svfg.TopLevel(d.loc))
    }

    lemma CachedIsState(d: Dpm)
      requires CachesSplit()
      ensures GetCachedPointsTo(d) == Pts(State().cache, d)
    {
    }

    method UnionDDAPts(d: Dpm, pts: Pointees) returns (grew: bool)
      requires CachesSplit()
      modifies this`dpmToTLCPtSet, this`dpmToADCPtSet
      ensures CachesSplit() && Grows(old(State()), State(), d, pts)
      ensures grew <==> !(pts <= Pts(old(State()).cache, d))
    {
      CachedIsState(d);
      var before := GetCachedPointsTo(d);
      grew := !(pts <= before);
      ghost var s := State();
      if svfg.TopLevel(d.loc) {
        dpmToTLCPtSet := dpmToTLCPtSet[d := before + pts];
      } else {
        dpmToADCPtSet := dpmToADCPtSet[d := before + pts];
      }
      assert State().cache == s.cache[d := before + pts];
    }

    method MarkbkVisited(d: Dpm)
      modifies this`backwardVisited
      ensures backwardVisited == old(backwardVisited) + {d}
    {
      backwardVisited := backwardVisited + {d};
    }

    method ClearbkVisited(d: Dpm)
      requires d in backwardVisited        // the original asserts this
      modifies this`backwardVisited
      ensures backwardVisited == old(backwardVisited) - {d}
    {
      backwardVisited := backwardVisited - {d};
    }

    method AddDpmToLoc(d: Dpm)
      modifies this`locToDpmSet
      ensures locToDpmSet == Marked(old(State()), d).locs
    {
      var here := if d.loc in locToDpmSet then locToDpmSet[d.loc] else {};
      locToDpmSet := locToDpmSet[d.loc := here + {d}];
    }

    method AddLoadDpmAndCVar(d: Dpm, loadDpm: Dpm, loadVar: NodeID, ghost m: Facts, ghost n: set<Dpm>)
      requires Running({}, m, n) && Budgeted(0) && loadVar == d.cur
      modifies this`loadToPTCVar, this`dpmToLoadDpm
      ensures Running({}, m, n) && Budgeted(0) && Step(svfg, given, old(State()), State()) && d in loadToPTCVar
      ensures State() == old(State()).(loadVar := old(loadToPTCVar)[d := d.cur],
        loadDpm := old(dpmToLoadDpm)[d := loadDpm])
    {
      ghost var s := State();
      loadToPTCVar := loadToPTCVar[d := loadVar];
      dpmToLoadDpm := dpmToLoadDpm[d := loadDpm];
      RecordedStep(svfg, given, s, State(), base, {}, d, loadDpm);
      StepShrinks(svfg, s, State(), m, n);
    }

    /** The demand for variable `v` at `loc`, with the load it came from recorded when `loc` is a
        load or a store. */
    method GetDPImWithOldCond(origin: Dpm, v: NodeID, loc: NodeID, ghost m: Facts, ghost n: set<Dpm>) returns (d: Dpm)
      requires Running({}, m, n) && Budgeted(0) && loc in svfg.stmts
      requires svfg.stmts[loc].Store? ==> origin in loadToPTCVar
      modifies this`loadToPTCVar, this`dpmToLoadDpm
      ensures d == Dpm(v, loc) && Running({}, m, n) && Budgeted(0) && Step(svfg, given, old(State()), State())
      ensures State() == old(State()).(loadVar := loadToPTCVar, loadDpm := dpmToLoadDpm)
      ensures svfg.stmts[loc].Store? || svfg.stmts[loc].Load? ==> d in loadToPTCVar
    {
      d := Dpm(v, loc);
      if svfg.stmts[loc].Store? {
        AddLoadDpmAndCVar(d, dpmToLoadDpm[origin], v, m, n);
      } else if svfg.stmts[loc].Load? {
        AddLoadDpmAndCVar(d, origin, v, m, n);
      }
    }

    predicate IsOutOfBudgetDpm(d: Dpm)
      reads this
    {
      d in outOfBudgetDpms
    }

    /** Counts a step and says whether to leave `d` as it is. That `d` itself is out of budget is
        never the reason: such demands stay marked, so that no query traverses them. */
    method TestOutOfBudget(d: Dpm, ghost m: Facts, ghost n: set<Dpm>) returns (out: bool)
      requires Running({}, m, n) && Budgeted(0) && Affordable(1) && InQuery(State(), d)
      modifies this`steps, this`outOfBudgetQuery
      ensures Running({}, m, n) && Step(svfg, given, old(State()), State()) && out == outOfBudgetQuery
      ensures Budgeted(if out then 0 else 1)
      ensures State() == old(State()).(outOfBudget := out)
    {
      if outOfBudgetQuery {
        return true;
      }
      ghost var s := State();
      steps := steps + 1;
      if steps > maxBudget {
        outOfBudgetQuery := true;
      }
      BudgetStep(svfg, given, s, State(), base, {});
      StepShrinks(svfg, s, State(), m, n);
      return IsOutOfBudgetDpm(d) || outOfBudgetQuery;
    }

    predicate IsStrongUpdate(targets: Pointees, store: NodeID) {
      |targets| == 1 && forall v :: v in targets ==> (v, store) in svfg.strong
    }

    // ---------- The solver ----------

    /** The points-to set of `d`: the cached one if `d` is marked, else evaluated afresh. */
    method FindPT(d: Dpm, ghost m: Facts, ghost n: set<Dpm>) returns (pts: Pointees)
      requires Running({d}, m, n) && Budgeted(0) && d in svfg.Dpms()
      requires d !in backwardVisited ==> svfg.TopLevel(d.loc) || d in loadToPTCVar
      modifies this
      ensures Fixed() == old(Fixed()) && Running({}, m, n) && Budgeted(0) && Step(svfg, given, old(State()), State())
      ensures d in backwardVisited && pts == Pts(State().cache, d)
      ensures d in old(backwardVisited) ==> State() == old(State())
      ensures !outOfBudgetQuery && d !in old(backwardVisited) ==> SettledIn(svfg, given, State(), d)
      decreases m, n, 0
    {
      hide Inv, Measured, Settled, Tended, Step, Budgeted;
      if d in backwardVisited {
        HoleFilled(svfg, given, State(), base, d);
        StepRefl(svfg, given, State());
        CachedIsState(d);
        return GetCachedPointsTo(d);
      }
      ghost var s := State();
      BeginVisit(d, m, n);
      ghost var u := State();
      Evaluate(d, m, n - {d});
      StepGrows(svfg, given, u, State());
      MeasuredMore(svfg, State(), m, n - {d}, n);
      MarkedStep(svfg, given, s, State(), d);
      CachedIsState(d);
      pts := GetCachedPointsTo(d);
    }

    method BeginVisit(d: Dpm, ghost m: Facts, ghost n: set<Dpm>)
      requires Running({d}, m, n) && Budgeted(0) && d in svfg.Dpms() && d !in backwardVisited
      requires svfg.TopLevel(d.loc) || d in loadToPTCVar
      modifies this`backwardVisited, this`locToDpmSet
      ensures d in n && Running({}, m, n - {d}) && State() == Marked(old(State()), d) && InQuery(State(), d)
      ensures Budgeted(0) && Affordable(1)
    {
      hide Inv, Measured, Potential;
      ghost var s := State();
      MarkbkVisited(d);
      AddDpmToLoc(d);
      MarkedInv(svfg, given, s, base, d);
      MarkShrinks(svfg, s, d, m, n);
      MarkSpends(svfg, s.visited, s.cache, d);
    }

    /** Evaluates `d`, just marked, unless the budget is spent. */
    method Evaluate(d: Dpm, ghost m: Facts, ghost n: set<Dpm>)
      requires Running({}, m, n) && Budgeted(0) && Affordable(1) && d in svfg.Dpms() && InQuery(State(), d)
      modifies this
      ensures Fixed() == old(Fixed()) && Running({}, m, n) && Budgeted(0) && Step(svfg, given, old(State()), State())
      ensures !outOfBudgetQuery ==> SettledIn(svfg, given, State(), d)
      decreases m, n, 13
    {
      hide Inv, Measured, Tended, Settled, Evaluated, Budgeted, Step;
      ghost var b := State();
      var out := TestOutOfBudget(d, m, n);
      if !out {
        ghost var b' := State();
        assert InQuery(b', d);
        BaseNotTraversed(svfg, given, b', base);
        var pts := HandleSingleStatement(d, m, n);
        ghost var t := State();
        UpdateCachedPointsTo(d, pts, b', m, n);
        StepTrans(svfg, given, b', t, State());
        StepTrans(svfg, given, b, b', State());
      }
    }

    /** Stores the evaluated set of `d`; if the cache grows, re-evaluates what may depend on it.
        `b` is the state in which the evaluation began. */
    method UpdateCachedPointsTo(d: Dpm, pts: Pointees, ghost b: Solver, ghost m: Facts, ghost n: set<Dpm>)
      requires Running({}, m, n) && Budgeted(0) && d in svfg.Dpms() && InQuery(b, d)
      requires Step(svfg, given, b, State()) && Evaluated(svfg, given, b, State(), d, pts)
      modifies this
      ensures Fixed() == old(Fixed()) && Running({}, m, n) && Budgeted(0) && Step(svfg, given, old(State()), State())
      ensures pts <= Pts(State().cache, d)
      ensures !outOfBudgetQuery ==> SettledIn(svfg, given, State(), d)
      decreases m, NO_DPMS, 3
    {
      hide Inv, Measured, Evaluated, Affects, Tended, SVFG.Valid, Budgeted, Fanout;
      ghost var t := State();
      var grew;
      ghost var m';
      grew, m' := UnionEvaluated(d, pts, b, m, n);
      ghost var u := State();
      GrowsBelow(t, u, d, pts);
      StepGrows(svfg, given, b, t);
      if grew {
        ReCompute(d, m, m', n);
        GrowthIsStep(svfg, given, t, u, State(), d, pts);
        StepShrinks(svfg, t, State(), m, n);
        GrowthStaysSettled(svfg, given, b, t, u, State(), d, pts);
      } else {
        IdleGrowthIsStep(svfg, given, t, u, d, pts);
        NoGrowthStaysSettled(svfg, given, b, t, u, d, pts);
      }
    }

    /** Adds the evaluated set of `d` to the cache. If the cache grows, the facts found pay for what
        has to be evaluated again. */
    method UnionEvaluated(d: Dpm, pts: Pointees, ghost b: Solver, ghost m: Facts, ghost n: set<Dpm>)
      returns (grew: bool, ghost m': Facts)
      requires Running({}, m, n) && Budgeted(0) && d in svfg.Dpms() && Evaluated(svfg, given, b, State(), d, pts)
      modifies this`dpmToTLCPtSet, this`dpmToADCPtSet, this`owed
      ensures Grows(old(State()), State(), d, pts) && (grew <==> !(pts <= Pts(old(State()).cache, d)))
      ensures owed == old(owed) + (if grew then Fanout(svfg) else 0) && (grew ==> owed >= Fanout(svfg))
      ensures Budgeted(0) && Running({}, m', n) && if grew then m' < m else m' == m
    {
      hide Inv, Measured, Evaluated, Potential, Fanout, SVFG.Valid, Least;
      ghost var t := State();
      grew := UnionDDAPts(d, pts);
      ghost var u := State();
      GrowsInv(svfg, given, b, t, u, base, d, pts);
      InvIsBelow(svfg, given, u, base);
      GrowthPays(svfg, given, t, u, d, pts);
      if grew {
        owed := owed + Fanout(svfg);
        m' := GrowthShrinks(svfg, given, t, u, d, pts, m, n);
      } else {
        GrowsBelow(t, u, d, pts);
        StepShrinks(svfg, t, u, m, n);
        m' := m;
      }
    }

    /** Fewer evaluations turn out to be needed than were owed. */
    ghost method Forgive(k: nat, m: Facts, n: set<Dpm>)
      requires Running({}, m, n) && Budgeted(0) && owed >= k
      modifies this`owed
      ensures Running({}, m, n) && Budgeted(0) && Fixed() == old(Paid(k))
    {
      hide Inv, Measured, Potential;
      owed := owed - k;
    }

    /** Re-evaluates the traversed demands at the targets of the outgoing edges of `d.loc`. */
    method ReCompute(d: Dpm, ghost m: Facts, ghost m': Facts, ghost n: set<Dpm>)
      requires m' < m && Running({}, m', n) && Budgeted(0) && d in svfg.Dpms() && owed >= Fanout(svfg)
      modifies this
      ensures Fixed() == old(Paid(Fanout(svfg))) && Running({}, m', n) && Budgeted(0)
      ensures Step(svfg, given, old(State()), State())
      ensures !outOfBudgetQuery ==>
                forall x :: InQuery(old(State()), x) && Affects(svfg, d, x) ==> SettledIn(svfg, given, State(), x)
      decreases m, NO_DPMS, 2
    {
      hide Inv, Measured, Tended, Settled, Times, Budgeted, Step, Degree;
      ghost var u := State();
      StepRefl(svfg, given, u);
      var es := svfg.outEdges[d.loc];
      DegreeBounds(svfg, svfg.outEdges.Keys, d.loc);
      TimesStep(0, |svfg.vars|);
      var i := 0;
      while i < |es|
        invariant 0 <= i <= |es|
        invariant Fixed() == old(Paid(Times(i, |svfg.vars|))) && Running({}, m', n) && Budgeted(0)
        invariant Step(svfg, given, u, State())
        invariant !outOfBudgetQuery ==> Redone(svfg, given, u, State(), d, es[..i])
      {
        ghost var v := State();
        TimesStep(i, |svfg.vars|);
        TimesMono(i + 1, Degree(svfg, svfg.outEdges.Keys), |svfg.vars|);
        ReComputeForEdge(d, es[i], m, m', n);
        RedoneUpTo(svfg, given, u, v, State(), d, es, i);
        StepTrans(svfg, given, u, v, State());
        i := i + 1;
      }
      assert es[..|es|] == es;
      TimesMono(i, Degree(svfg, svfg.outEdges.Keys), |svfg.vars|);
      Forgive(Fanout(svfg) - Times(i, |svfg.vars|), m', n);
    }

    /** The traversed demands that the growth of `d` may affect along the edge `e`. */
    method ReComputeForEdge(d: Dpm, e: Edge, ghost m: Facts, ghost m': Facts, ghost n: set<Dpm>)
      requires m' < m && Running({}, m', n) && Budgeted(0) && d in svfg.Dpms() && e in svfg.outEdges[d.loc]
      requires owed >= |svfg.vars|
      modifies this
      ensures Fixed() == old(Paid(|svfg.vars|)) && Running({}, m', n) && Budgeted(0)
      ensures Step(svfg, given, old(State()), State())
      ensures !outOfBudgetQuery ==>
                forall x :: InQuery(old(State()), x) && AffectsAlong(svfg, e, d, x) ==>
                  SettledIn(svfg, given, State(), x)
      decreases m, NO_DPMS, 1
    {
      hide Inv, Measured, Tended, Settled, Budgeted, Step, InQuery, AffectsAlong;
      ghost var u := State();
      StepRefl(svfg, given, u);
      AffectedThere(svfg, u, e, d);
      if e.dst !in locToDpmSet {
        Forgive(|svfg.vars|, m', n);
        return;
      }
      TraversedThere(svfg, given, u, base, e.dst);
      var todo := locToDpmSet[e.dst];
      ghost var done := 0;
      DemandsThere(todo, e.dst, svfg.vars);
      while todo != {}
        invariant done + |todo| <= |svfg.vars| && Fixed() == old(Paid(done))
        invariant Running({}, m', n) && Budgeted(0) && Step(svfg, given, u, State())
        invariant forall x :: x in todo ==> InQuery(u, x) && x.loc == e.dst
        invariant RedoneBut(u, d, e, todo)
        decreases todo
      {
        todo := RedoNext(d, e, todo, u, m, m', n);
        done := done + 1;
      }
      Forgive(|svfg.vars| - done, m', n);
    }

    /** Every demand traversed in state `u` that `e` makes `d` affect is settled, but for those of `todo`. */
    ghost predicate RedoneBut(u: Solver, d: Dpm, e: Edge, todo: set<Dpm>)
      requires svfg.Valid()
      reads this
    {
      !outOfBudgetQuery ==>
        forall x :: InQuery(u, x) && x !in todo && AffectsAlong(svfg, e, d, x) ==> SettledIn(svfg, given, State(), x)
    }

    method RedoNext(d: Dpm, e: Edge, todo: set<Dpm>, ghost u: Solver, ghost m: Facts, ghost m': Facts,
                    ghost n: set<Dpm>) returns (rest: set<Dpm>)
      requires m' < m && Running({}, m', n) && Budgeted(0) && d in svfg.Dpms() && e in svfg.outEdges[d.loc]
      requires owed >= 1 && todo != {} && Step(svfg, given, u, State()) && RedoneBut(u, d, e, todo)
      requires forall x :: x in todo ==> InQuery(u, x) && x.loc == e.dst
      modifies this
      ensures Fixed() == old(Paid(1)) && Running({}, m', n) && Budgeted(0)
      ensures Step(svfg, given, u, State()) && RedoneBut(u, d, e, rest) && rest < todo && |rest| + 1 == |todo|
      decreases m, NO_DPMS, 0, 2
    {
      hide Inv, Measured, Tended, Settled, Budgeted, Step, InQuery, AffectsAlong;
      var x :| x in todo;
      ghost var v := State();
      StepGrows(svfg, given, u, v);
      RedoAlong(d, e, x, m, m', n);
      SettledKept(svfg, given, u, v, State(), d, e, todo);
      StepTrans(svfg, given, u, v, State());
      RemoveOne(todo, x);
      rest := todo - {x};
    }

    /** The body of the loop over the demands at the target of `e`, for the demand `x`: along an
        indirect edge only demands for the same object matter, except at a load. */
    method RedoAlong(d: Dpm, e: Edge, x: Dpm, ghost m: Facts, ghost m': Facts, ghost n: set<Dpm>)
      requires m' < m && Running({}, m', n) && Budgeted(0) && d in svfg.Dpms() && e in svfg.outEdges[d.loc]
      requires InQuery(State(), x) && x.loc == e.dst && owed >= 1
      modifies this
      ensures Fixed() == old(Paid(1)) && Running({}, m', n) && Budgeted(0) && Step(svfg, given, old(State()), State())
      ensures !outOfBudgetQuery && AffectsAlong(svfg, e, d, x) ==> SettledIn(svfg, given, State(), x)
      decreases m, NO_DPMS, 0, 1
    {
      hide Inv, Measured, Tended, Settled, Step, Budgeted;
      if e.IndirectEdge? && !svfg.stmts[e.dst].Load? {
        if x.cur == d.cur {
          Redo(x, m, m', n);
        } else {
          StepRefl(svfg, given, State());
          Forgive(1, m', n);
        }
      } else {
        Redo(x, m, m', n);
      }
    }

    /** Un-marks a traversed demand and evaluates it again. */
    method Redo(x: Dpm, ghost m: Facts, ghost m': Facts, ghost n: set<Dpm>)
      requires m' < m && Running({}, m', n) && Budgeted(0) && InQuery(State(), x) && owed >= 1
      modifies this
      ensures Fixed() == old(Paid(1)) && Running({}, m', n) && Budgeted(0) && Step(svfg, given, old(State()), State())
      ensures !outOfBudgetQuery ==> SettledIn(svfg, given, State(), x)
      decreases m, NO_DPMS, 0, 0
    {
      hide Inv, Measured, Settled, Tended, Step, Budgeted;
      ghost var s := State();
      Unmark(x, m', n);
      ghost var t := State();
      var _ := FindPT(x, m', n + {x});
      ClearedStep(svfg, given, s, t, State(), x);
      StepGrows(svfg, given, s, State());
      StepShrinks(svfg, s, State(), m', n);
    }

    method Unmark(x: Dpm, ghost m: Facts, ghost n: set<Dpm>)
      requires Running({}, m, n) && Budgeted(0) && InQuery(State(), x) && owed >= 1
      modifies this`backwardVisited, this`owed
      ensures State() == old(State()).(visited := old(backwardVisited) - {x}) && Fixed() == old(Paid(1))
      ensures Running({x}, m, n + {x}) && Budgeted(0) && x in svfg.Dpms()
      ensures svfg.TopLevel(x.loc) || x in loadToPTCVar
    {
      hide Measured, Potential;
      ghost var s := State();
      ClearbkVisited(x);
      ghost var t := State();
      ClearedInv(svfg, given, s, t, base, x);
      ClearGrows(svfg, s, t, x, m, n);
      ClearCosts(svfg, s.visited, s.cache, x);
      owed := owed - 1;
    }

    // ---------- Evaluating statements ----------

    ghost method CountEvaluation(m: Facts, n: set<Dpm>)
      requires Running({}, m, n) && Budgeted(1)
      modifies this`evaluations
      ensures Running({}, m, n) && Budgeted(0)
    {
      hide Inv, Measured, Potential;
      evaluations := evaluations + 1;
    }

    /** Evaluates the equation of `d`. */
    method HandleSingleStatement(d: Dpm, ghost m: Facts, ghost n: set<Dpm>) returns (pts: Pointees)
      requires Running({}, m, n) && Budgeted(1) && d in svfg.Dpms() && InQuery(State(), d) && d !in given
      modifies this
      ensures Fixed() == old(Fixed()) && Running({}, m, n) && Budgeted(0) && Step(svfg, given, old(State()), State())
      ensures Evaluated(svfg, given, old(State()), State(), d, pts)
      decreases m, n, 12
    {
      hide Inv, Measured, Budgeted, Step, Tended, Evaluated, Unchanged;
      CountEvaluation(m, n);
      ghost var s := State();
      StepRefl(svfg, given, s);
      RecordedHere(svfg, given, s, base, d);
      match svfg.stmts[d.loc]
      case Addr(objects) =>
        pts := objects;
        EvaluatedAddr(svfg, given, s, d);
      case Copy =>
        pts := BacktraceAlongDirectVF({}, d, s, {}, m, n);
        EvaluatedCopy(svfg, given, s, State(), d, pts);
      case Gep =>
        var gepPts := BacktraceAlongDirectVF({}, d, s, {}, m, n);
        GatheredInVars(svfg, given, s, State(), base, d, DirectSources(svfg, d.loc), gepPts);
        pts := svfg.gep(d.loc, gepPts);
        InvIsBelow(svfg, given, State(), base);
        EvaluatedGep(svfg, given, s, State(), d, gepPts);
      case Load(_, _, _) =>
        pts := HandleLoad(d, m, n);
      case Store(_, _, _, _, _) =>
        pts := HandleStore(d, m, n);
      case MemRegion =>
        pts := BacktraceAlongIndirectVF({}, d, d, s, {}, m, n);
        EvaluatedMemRegion(svfg, given, s, State(), d, pts);
    }

    method HandleLoad(d: Dpm, ghost m: Facts, ghost n: set<Dpm>) returns (pts: Pointees)
      requires Running({}, m, n) && Budgeted(0) && d in svfg.Dpms() && d !in given && svfg.stmts[d.loc].Load?
      modifies this
      ensures Fixed() == old(Fixed()) && Running({}, m, n) && Budgeted(0) && Step(svfg, given, old(State()), State())
      ensures Evaluated(svfg, given, old(State()), State(), d, pts)
      decreases m, n, 10
    {
      hide Measured, Budgeted;
      ghost var s := State();
      StepRefl(svfg, given, s);
      var load := svfg.stmts[d.loc];
      pts := {};
      if !load.dstIsPointer {
        return;
      }
      assert svfg.StmtValid(d.loc);
      ghost var y0 := Dpm(load.src, load.srcDef);
      var loadPts := BackwardPropDpm({}, load.src, d, DirectEdge(load.srcDef, d.loc), d, s, {}, m, n);
      GatheredInVars(svfg, given, s, State(), base, d, {y0}, loadPts);
      ghost var t := State();
      pts := LoadTargets(d, loadPts, s, m, n);
      GatherKeeps(svfg, s, t, State(), d, {y0}, loadPts);
      StepTrans(svfg, given, s, t, State());
      EvaluatedLoad(svfg, given, s, State(), d, loadPts, pts);
    }

    /** The loop over the pointees of a load's operand. */
    method LoadTargets(d: Dpm, loadPts: Pointees, ghost s: Solver, ghost m: Facts, ghost n: set<Dpm>)
      returns (pts: Pointees)
      requires Running({}, m, n) && Budgeted(0) && d in svfg.Dpms() && svfg.stmts[d.loc].Load? && loadPts <= svfg.vars
      requires Below(s.cache, State().cache)
      modifies this
      ensures Fixed() == old(Fixed()) && Running({}, m, n) && Budgeted(0) && Step(svfg, given, old(State()), State())
      ensures Gathered(svfg, s, State(), d, LoadSources(svfg, d.loc, loadPts), pts)
      decreases m, n, 9
    {
      hide Inv, Measured, Tended, Budgeted;
      ghost var t := State();
      StepRefl(svfg, given, t);
      var todo := loadPts;
      ghost var done: Pointees := {};
      pts := {};
      while todo != {}
        invariant todo + done == loadPts
        invariant Fixed() == old(Fixed()) && Running({}, m, n) && Budgeted(0) && Step(svfg, given, t, State())
        invariant Gathered(svfg, s, State(), d, LoadSources(svfg, d.loc, done), pts)
        decreases todo
      {
        todo, pts, done := NextLoadTarget(d, todo, pts, done, s, t, m, n);
      }
      assert done == loadPts;
    }

    method NextLoadTarget(d: Dpm, todo: Pointees, pts0: Pointees, ghost done: Pointees, ghost s: Solver,
            ghost t: Solver, ghost m: Facts, ghost n: set<Dpm>)
      returns (rest: Pointees, pts: Pointees, ghost done': Pointees)
      requires Running({}, m, n) && Budgeted(0) && d in svfg.Dpms() && svfg.stmts[d.loc].Load? && todo <= svfg.vars
      requires todo != {} && Step(svfg, given, t, State()) && Below(s.cache, t.cache)
      requires Gathered(svfg, s, State(), d, LoadSources(svfg, d.loc, done), pts0)
      modifies this
      ensures Fixed() == old(Fixed()) && Running({}, m, n) && Budgeted(0) && Step(svfg, given, t, State())
      ensures rest < todo && rest + done' == todo + done
      ensures Gathered(svfg, s, State(), d, LoadSources(svfg, d.loc, done'), pts)
      decreases m, n, 8
    {
      hide Inv, Measured, Step, Tended, Budgeted, Gathered;
      var obj :| obj in todo;
      ghost var v := State();
      StepGrows(svfg, given, t, v);
      BelowTrans(s.cache, t.cache, v.cache);
      pts := LoadTarget(d, obj, pts0, s, done, m, n);
      StepTrans(svfg, given, t, v, State());
      rest := todo - {obj};
      done' := done + {obj};
    }

    /** The body of the loop over the pointees of a load's operand, for the pointee `obj`. */
    method LoadTarget(d: Dpm, obj: NodeID, pts0: Pointees, ghost s: Solver, ghost done: Pointees, ghost m: Facts,
            ghost n: set<Dpm>) returns (pts: Pointees)
      requires Running({}, m, n) && Budgeted(0) && d in svfg.Dpms() && svfg.stmts[d.loc].Load? && obj in svfg.vars
      requires Below(s.cache, State().cache) && Gathered(svfg, s, State(), d, LoadSources(svfg, d.loc, done), pts0)
      modifies this
      ensures Fixed() == old(Fixed()) && Running({}, m, n) && Budgeted(0) && Step(svfg, given, old(State()), State())
      ensures Gathered(svfg, s, State(), d, LoadSources(svfg, d.loc, done + {obj}), pts)
      decreases m, n, 7
    {
      hide Inv, Measured, Tended, Budgeted;
      ghost var t := State();
      var objDpm := GetDPImWithOldCond(d, obj, d.loc, m, n);
      ghost var u := State();
      GatherKeeps(svfg, s, t, u, d, LoadSources(svfg, d.loc, done), pts0);
      pts := BacktraceAlongIndirectVF(pts0, objDpm, d, s, LoadSources(svfg, d.loc, done), m, n);
      StepTrans(svfg, given, t, u, State());
      LoadSourcesMore(svfg, d.loc, done, obj);
    }

    method HandleStore(d: Dpm, ghost m: Facts, ghost n: set<Dpm>) returns (pts: Pointees)
      requires Running({}, m, n) && Budgeted(0) && d in svfg.Dpms() && d !in given && svfg.stmts[d.loc].Store?
      requires d in loadToPTCVar
      modifies this
      ensures Fixed() == old(Fixed()) && Running({}, m, n) && Budgeted(0) && Step(svfg, given, old(State()), State())
      ensures Evaluated(svfg, given, old(State()), State(), d, pts)
      decreases m, n, 11
    {
      hide Inv, Measured, Step, Tended, Evaluated, Unchanged, Budgeted;
      ghost var s := State();
      StepRefl(svfg, given, s);
      var store := svfg.stmts[d.loc];
      pts := {};
      if !store.srcIsPointer {
        NonPointerStored(svfg, given, s, d);
        return;
      }
      assert svfg.StmtValid(d.loc);
      ghost var y0 := Dpm(store.dst, store.dstDef);
      var storePts := BackwardPropDpm({}, store.dst, d, DirectEdge(store.dstDef, d.loc), d, s, {}, m, n);
      ghost var t := State();
      StepGrows(svfg, given, s, t);
      pts := StoreTargets(d, storePts, s, m, n);
      StepGrows(svfg, given, t, State());
      GatherKeeps(svfg, s, t, State(), d, {y0}, storePts);
      StepTrans(svfg, given, s, t, State());
      EvaluatedStore(svfg, given, s, State(), d, storePts, pts);
    }

    /** The loop over the targets of a store. */
    method StoreTargets(d: Dpm, storePts: Pointees, ghost s: Solver, ghost m: Facts, ghost n: set<Dpm>)
      returns (pts: Pointees)
      requires Running({}, m, n) && Budgeted(0) && d in svfg.Dpms() && svfg.stmts[d.loc].Store? && d in loadToPTCVar
      requires Below(s.cache, State().cache)
      modifies this
      ensures Fixed() == old(Fixed()) && Running({}, m, n) && Budgeted(0) && Step(svfg, given, old(State()), State())
      ensures Gathered(svfg, s, State(), d, StoreSources(svfg, d, storePts), pts)
      decreases m, n, 10
    {
      hide Inv, Measured, Tended, Budgeted;
      ghost var t := State();
      StepRefl(svfg, given, t);
      var strong := IsStrongUpdate(storePts, d.loc);
      var todo := storePts;
      ghost var done: Pointees := {};
      pts := {};
      while todo != {}
        invariant todo + done == storePts
        invariant Fixed() == old(Fixed()) && Running({}, m, n) && Budgeted(0) && Step(svfg, given, t, State())
        invariant Gathered(svfg, s, State(), d, StoreSourcesSoFar(svfg, d, strong, done), pts)
        decreases todo
      {
        todo, pts, done := NextStoreTarget(d, todo, pts, strong, done, s, t, m, n);
      }
      assert done == storePts;
      StoreSourcesDone(svfg, d, storePts);
    }

    method NextStoreTarget(d: Dpm, todo: Pointees, pts0: Pointees, strong: bool, ghost done: Pointees,
            ghost s: Solver, ghost t: Solver, ghost m: Facts, ghost n: set<Dpm>)
      returns (rest: Pointees, pts: Pointees, ghost done': Pointees)
      requires Running({}, m, n) && Budgeted(0) && d in svfg.Dpms() && svfg.stmts[d.loc].Store? && d in loadToPTCVar
      requires todo != {} && Step(svfg, given, t, State()) && Below(s.cache, t.cache)
      requires Gathered(svfg, s, State(), d, StoreSourcesSoFar(svfg, d, strong, done), pts0)
      modifies this
      ensures Fixed() == old(Fixed()) && Running({}, m, n) && Budgeted(0) && Step(svfg, given, t, State())
      ensures rest < todo && rest + done' == todo + done
      ensures Gathered(svfg, s, State(), d, StoreSourcesSoFar(svfg, d, strong, done'), pts)
      decreases m, n, 9
    {
      hide Inv, Measured, Step, Tended, Budgeted, Gathered;
      var obj :| obj in todo;
      ghost var v := State();
      StepGrows(svfg, given, t, v);
      BelowTrans(s.cache, t.cache, v.cache);
      pts := StoreTarget(d, obj, strong, pts0, s, done, m, n);
      StepTrans(svfg, given, t, v, State());
      rest := todo - {obj};
      done' := done + {obj};
    }

    /** The body of the loop over the targets of a store, for the target `obj`. */
    method StoreTarget(d: Dpm, obj: NodeID, strong: bool, pts0: Pointees, ghost s: Solver, ghost done: Pointees,
            ghost m: Facts, ghost n: set<Dpm>) returns (pts: Pointees)
      requires Running({}, m, n) && Budgeted(0) && d in svfg.Dpms() && svfg.stmts[d.loc].Store? && d in loadToPTCVar
      requires Below(s.cache, State().cache) &&
        Gathered(svfg, s, State(), d, StoreSourcesSoFar(svfg, d, strong, done), pts0)
      modifies this
      ensures Fixed() == old(Fixed()) && Running({}, m, n) && Budgeted(0) && Step(svfg, given, old(State()), State())
      ensures Gathered(svfg, s, State(), d, StoreSourcesSoFar(svfg, d, strong, done + {obj}), pts)
      decreases m, n, 8
    {
      hide Measured, Budgeted;
      ghost var from := StoreSourcesSoFar(svfg, d, strong, done);
      if obj == loadToPTCVar[d] {
        pts := StoreToObject(d, strong, pts0, s, from, m, n);
        StoreSourcesSelf(svfg, d, strong, done);
      } else {
        pts := BacktraceAlongIndirectVF(pts0, d, d, s, from, m, n);
        StoreSourcesOther(svfg, d, strong, done, obj);
      }
    }

    /** A store that writes the object in demand: the stored value flows in, and unless the update
        is strong so do the old contents. */
    method StoreToObject(d: Dpm, strong: bool, pts0: Pointees, ghost s: Solver, ghost from: set<Dpm>,
            ghost m: Facts, ghost n: set<Dpm>) returns (pts: Pointees)
      requires Running({}, m, n) && Budgeted(0) && d in svfg.Dpms() && svfg.stmts[d.loc].Store? && d in loadToPTCVar
      requires Below(s.cache, State().cache) && Gathered(svfg, s, State(), d, from, pts0)
      modifies this
      ensures Fixed() == old(Fixed()) && Running({}, m, n) && Budgeted(0) && Step(svfg, given, old(State()), State())
      ensures Gathered(svfg, s, State(), d,
                from + {Dpm(svfg.stmts[d.loc].src, svfg.stmts[d.loc].srcDef)}
                + (if strong then {} else IndirectSources(svfg, d.loc, d.cur)), pts)
      decreases m, n, 7
    {
      hide Inv, Measured, Step, Tended, Gathered, SVFG.Valid, Budgeted;
      ghost var t := State();
      ghost var y1 := Dpm(svfg.stmts[d.loc].src, svfg.stmts[d.loc].srcDef);
      pts := StoredValue(d, pts0, s, from, m, n);
      if !strong {
        ghost var t2 := State();
        StepGrows(svfg, given, t, t2);
        var oldDpm := GetDPImWithOldCond(d, d.cur, d.loc, m, n);
        ghost var t3 := State();
        StepGrows(svfg, given, t2, t3);
        BelowTrans(s.cache, t.cache, t2.cache);
        BelowTrans(s.cache, t2.cache, t3.cache);
        GatherKeeps(svfg, s, t2, t3, d, from + {y1}, pts);
        StepTrans(svfg, given, t, t2, t3);
        pts := BacktraceAlongIndirectVF(pts, oldDpm, d, s, from + {y1}, m, n);
        StepTrans(svfg, given, t, t3, State());
      } else {
        assert from + {y1} + {} == from + {y1};
      }
    }

    method StoredValue(d: Dpm, pts0: Pointees, ghost s: Solver, ghost from: set<Dpm>, ghost m: Facts,
            ghost n: set<Dpm>) returns (pts: Pointees)
      requires Running({}, m, n) && Budgeted(0) && d in svfg.Dpms() && svfg.stmts[d.loc].Store? && d in loadToPTCVar
      requires Below(s.cache, State().cache) && Gathered(svfg, s, State(), d, from, pts0)
      modifies this
      ensures Fixed() == old(Fixed()) && Running({}, m, n) && Budgeted(0) && Step(svfg, given, old(State()), State())
      ensures Gathered(svfg, s, State(), d, from + {Dpm(svfg.stmts[d.loc].src, svfg.stmts[d.loc].srcDef)}, pts)
      decreases m, n, 6
    {
      hide Inv, Measured, Tended, Budgeted;
      ghost var t := State();
      var store := svfg.stmts[d.loc];
      assert svfg.StmtValid(d.loc);
      var srcDpm := GetDPImWithOldCond(d, d.cur, d.loc, m, n);
      ghost var u := State();
      GatherKeeps(svfg, s, t, u, d, from, pts0);
      pts := BackwardPropDpm(pts0, store.src, srcDpm, DirectEdge(store.srcDef, d.loc), d, s, from, m, n);
      StepTrans(svfg, given, t, u, State());
    }

    /** Adds what flows into `d.loc` along direct edges. */
    method BacktraceAlongDirectVF(pts0: Pointees, d: Dpm, ghost s: Solver, ghost from: set<Dpm>, ghost m: Facts,
            ghost n: set<Dpm>) returns (pts: Pointees)
      requires Running({}, m, n) && Budgeted(0) && d in svfg.Dpms()
      requires Below(s.cache, State().cache) && Gathered(svfg, s, State(), d, from, pts0)
      modifies this
      ensures Fixed() == old(Fixed()) && Running({}, m, n) && Budgeted(0) && Step(svfg, given, old(State()), State())
      ensures Gathered(svfg, s, State(), d, from + DirectSources(svfg, d.loc), pts)
      decreases m, n, 6
    {
      hide Inv, Measured, Step, Tended, Gathered, Budgeted;
      ghost var t := State();
      StepRefl(svfg, given, t);
      pts := pts0;
      var es := svfg.inEdges[d.loc];
      var i := 0;
      assert from + DirectSourcesIn(svfg, es[..0]) == from;
      while i < |es|
        invariant 0 <= i <= |es|
        invariant Fixed() == old(Fixed()) && Running({}, m, n) && Budgeted(0) && Step(svfg, given, t, State())
        invariant Gathered(svfg, s, State(), d, from + DirectSourcesIn(svfg, es[..i]), pts)
      {
        StepGrows(svfg, given, t, State());
        BelowTrans(s.cache, t.cache, State().cache);
        ghost var v := State();
        pts := BacktraceAlongDirectEdge(pts, d, i, s, from, m, n);
        StepTrans(svfg, given, t, v, State());
        i := i + 1;
      }
      assert es[..|es|] == es;
      assert DirectSourcesIn(svfg, es) == DirectSources(svfg, d.loc);
    }

    /** The body of that loop, for incoming edge number `i`. */
    method BacktraceAlongDirectEdge(pts0: Pointees, d: Dpm, i: nat, ghost s: Solver, ghost from: set<Dpm>,
            ghost m: Facts, ghost n: set<Dpm>) returns (pts: Pointees)
      requires Running({}, m, n) && Budgeted(0) && d in svfg.Dpms() && i < |svfg.inEdges[d.loc]|
      requires Below(s.cache, State().cache)
      requires Gathered(svfg, s, State(), d, from + DirectSourcesIn(svfg, svfg.inEdges[d.loc][..i]), pts0)
      modifies this
      ensures Fixed() == old(Fixed()) && Running({}, m, n) && Budgeted(0) && Step(svfg, given, old(State()), State())
      ensures Gathered(svfg, s, State(), d, from + DirectSourcesIn(svfg, svfg.inEdges[d.loc][..i + 1]), pts)
      decreases m, n, 5
    {
      hide Inv, Measured, Step, Tended, Budgeted;
      var e := svfg.inEdges[d.loc][i];
      ghost var sources := DirectSourcesIn(svfg, svfg.inEdges[d.loc][..i]);
      DirectSourcesMore(svfg, svfg.inEdges[d.loc], i);
      if e.DirectEdge? {
        assert e in svfg.inEdges[d.loc] && svfg.TopLevel(e.src);
        var source := DirectSource(svfg, e);
        assert from + (sources + {source}) == from + sources + {source};
        pts := BackwardPropDpm(pts0, source.cur, d, e, d, s, from + sources, m, n);
      } else {
        StepRefl(svfg, given, State());
        pts := pts0;
      }
    }

    /** Adds the contents of object `o.cur` that flow into `d.loc` along indirect edges. */
    method BacktraceAlongIndirectVF(pts0: Pointees, o: Dpm, d: Dpm, ghost s: Solver, ghost from: set<Dpm>,
            ghost m: Facts, ghost n: set<Dpm>) returns (pts: Pointees)
      requires Running({}, m, n) && Budgeted(0) && d in svfg.Dpms()
      requires o.loc == d.loc && o in loadToPTCVar && o.cur in svfg.vars
      requires svfg.stmts[d.loc].Load? || o.cur == d.cur
      requires Below(s.cache, State().cache) && Gathered(svfg, s, State(), d, from, pts0)
      modifies this
      ensures Fixed() == old(Fixed()) && Running({}, m, n) && Budgeted(0) && Step(svfg, given, old(State()), State())
      ensures Gathered(svfg, s, State(), d, from + IndirectSources(svfg, d.loc, o.cur), pts)
      decreases m, n, 6
    {
      hide Inv, Measured, Step, Tended, Gathered, Budgeted;
      ghost var t := State();
      StepRefl(svfg, given, t);
      pts := pts0;
      if o.cur in svfg.constants {
        assert from + IndirectSources(svfg, d.loc, o.cur) == from;
        return;
      }
      var es := svfg.inEdges[o.loc];
      var i := 0;
      assert from + IndirectSourcesIn(svfg, es[..0], o.cur) == from;
      while i < |es|
        invariant 0 <= i <= |es|
        invariant Fixed() == old(Fixed()) && Running({}, m, n) && Budgeted(0) && Step(svfg, given, t, State())
        invariant Gathered(svfg, s, State(), d, from + IndirectSourcesIn(svfg, es[..i], o.cur), pts)
      {
        StepGrows(svfg, given, t, State());
        BelowTrans(s.cache, t.cache, State().cache);
        ghost var v := State();
        pts := BacktraceAlongIndirectEdge(pts, o, d, i, s, from, m, n);
        StepTrans(svfg, given, t, v, State());
        i := i + 1;
      }
      assert es[..|es|] == es;
      assert IndirectSourcesIn(svfg, es, o.cur) == IndirectSources(svfg, d.loc, o.cur);
    }

    /** The body of that loop, for incoming edge number `i`. */
    method BacktraceAlongIndirectEdge(pts0: Pointees, o: Dpm, d: Dpm, i: nat, ghost s: Solver, ghost from: set<Dpm>,
            ghost m: Facts, ghost n: set<Dpm>) returns (pts: Pointees)
      requires Running({}, m, n) && Budgeted(0) && d in svfg.Dpms()
      requires o.loc == d.loc && o in loadToPTCVar && o.cur in svfg.vars
      requires (svfg.stmts[d.loc].Load? || o.cur == d.cur) && o.cur !in svfg.constants && i < |svfg.inEdges[d.loc]|
      requires Below(s.cache, State().cache)
      requires Gathered(svfg, s, State(), d, from + IndirectSourcesIn(svfg, svfg.inEdges[d.loc][..i], o.cur), pts0)
      modifies this
      ensures Fixed() == old(Fixed()) && Running({}, m, n) && Budgeted(0) && Step(svfg, given, old(State()), State())
      ensures Gathered(svfg, s, State(), d, from + IndirectSourcesIn(svfg, svfg.inEdges[d.loc][..i + 1], o.cur), pts)
      decreases m, n, 5
    {
      hide Inv, Measured, Step, Tended, Budgeted;
      var e := svfg.inEdges[d.loc][i];
      ghost var sources := IndirectSourcesIn(svfg, svfg.inEdges[d.loc][..i], o.cur);
      IndirectSourcesMore(svfg, svfg.inEdges[d.loc], i, o.cur);
      if e.IndirectEdge? && o.cur in e.guard {
        assert from + (sources + {Dpm(o.cur, e.src)}) == from + sources + {Dpm(o.cur, e.src)};
        pts := BackwardPropDpm(pts0, o.cur, o, e, d, s, from + sources, m, n);
      } else {
        StepRefl(svfg, given, State());
        pts := pts0;
      }
    }

    /** Evaluates the demand for `ptr` at the source of `e` and adds its set to `pts0`. */
    method BackwardPropDpm(pts0: Pointees, ptr: NodeID, o: Dpm, e: Edge, d: Dpm, ghost s: Solver,
            ghost from: set<Dpm>, ghost m: Facts, ghost n: set<Dpm>) returns (pts: Pointees)
      requires Running({}, m, n) && Budgeted(0) && d in svfg.Dpms() && ptr in svfg.vars && e in svfg.inEdges[d.loc]
      requires e.IndirectEdge? ==> o in loadToPTCVar && ptr == o.cur && Carries(svfg, e, ptr)
      requires e.IndirectEdge? ==> svfg.stmts[d.loc].Load? || ptr == d.cur
      requires Below(s.cache, State().cache) && Gathered(svfg, s, State(), d, from, pts0)
      modifies this
      ensures Fixed() == old(Fixed()) && Running({}, m, n) && Budgeted(0) && Step(svfg, given, old(State()), State())
      ensures Gathered(svfg, s, State(), d, from + {Dpm(ptr, e.src)}, pts)
      decreases m, n, 4
    {
      hide Inv, Measured, Step, Unchanged, Affects, Budgeted;
      ghost var t := State();
      RecordedVars(svfg, given, t, base);
      var dpm := Dpm(ptr, e.src);
      if e.IndirectEdge? {
        CarrierAffects(svfg, e, ptr, d);
        AddLoadDpmAndCVar(dpm, dpmToLoadDpm[o], loadToPTCVar[o], m, n);
      } else {
        OperandAffects(svfg, e, ptr, d);
        StepRefl(svfg, given, t);
      }
      ghost var u := State();
      HoleInv(svfg, given, u, base, dpm);
      var r := FindPT(dpm, m, n);
      StepGrows(svfg, given, t, u);
      StepGrows(svfg, given, u, State());
      StepTrans(svfg, given, t, u, State());
      GatherMore(svfg, s, t, State(), d, from, pts0, dpm);
      pts := pts0 + r;
    }

    // ---------- Queries ----------

    /** The invariant between queries. */
    ghost predicate Idle()
      reads this
    {
      && svfg.Valid() && AndersenIsSound(svfg)
      && given == outOfBudgetDpms && CachesSplit() && Rested(svfg, given, State(), base)
    }

    /** Answers the query for the top-level variable of `d`, in time bounded by the budget. If it
        stays within the budget, the answer and all that it leaves marked are the least solution of
        the equations; if not, the answer is Andersen's and becomes one of the equations. Either
        way the answer misses nothing of the least solution for the graph itself and has nothing
        beyond Andersen's. */
    method ComputeDDAPts(d: Dpm) returns (pts: Pointees)
      requires Idle() && d in svfg.Dpms() && svfg.TopLevel(d.loc)
      modifies this
      ensures Idle() && evaluations <= maxBudget && evaluations <= Bound(svfg)
      ensures outOfBudgetQuery ==> evaluations == maxBudget < Bound(svfg)
      ensures Below(old(State()).cache, State().cache) && Below(State().cache, Least(svfg, given))
      ensures d in backwardVisited && pts == Pts(State().cache, d)
      ensures Pts(Least(svfg, {}), d) <= pts <= svfg.andersen(d.cur)
      ensures outOfBudgetDpms == if outOfBudgetQuery then old(outOfBudgetDpms) + {d} else old(outOfBudgetDpms)
      ensures outOfBudgetQuery ==> pts == svfg.andersen(d.cur)
      ensures !outOfBudgetQuery ==>
                && pts == Pts(Least(svfg, given), d)
                && forall x :: x in backwardVisited ==> GetCachedPointsTo(x) == Pts(Least(svfg, given), x)
    {
      hide Inv, Measured, Rested, Settled, SVFG.Valid, Least, AndersenIsSound;
      ResetQuery();
      pts := FindWithinBudget(d);
      if outOfBudgetQuery {
        pts := HandleOutOfBudgetDpm(d);
      }
      GivenIsBetween(svfg, outOfBudgetDpms, d);
      RestsBelow(svfg, given, State(), base);
      forall x
        ensures GetCachedPointsTo(x) == Pts(State().cache, x)
      {
        CachedIsState(x);
      }
    }

    /** The query itself, in a freshly reset state. */
    method FindWithinBudget(d: Dpm) returns (pts: Pointees)
      requires Idle() && d in svfg.Dpms() && svfg.TopLevel(d.loc)
      requires Budgeted(0) && State() == Solver(base, State().cache, map[], map[], map[], false)
      modifies this
      ensures Idle() && Budgeted(0) && Fixed() == old(Fixed()) && Below(old(State()).cache, State().cache)
      ensures d in backwardVisited && pts == Pts(State().cache, d)
      ensures outOfBudgetQuery ==> d !in base && InQuery(State(), d)
      ensures !outOfBudgetQuery ==>
                forall x :: x in backwardVisited ==> Pts(State().cache, x) == Pts(Least(svfg, given), x)
    {
      hide Measured, Settled, SVFG.Valid, Least, AndersenIsSound;
      ghost var s := State();
      ghost var m, n := AllMeasured(svfg, s);
      pts := FindPT(d, m, n);
      QueryRests(svfg, given, s, State(), base);
    }

    /** Answers a query out of budget with Andersen's result. */
    method HandleOutOfBudgetDpm(d: Dpm) returns (pts: Pointees)
      requires Idle() && outOfBudgetQuery && d in svfg.Dpms() && Budgeted(0)
      requires d in backwardVisited && d !in base && InQuery(State(), d)
      modifies this
      ensures Idle() && outOfBudgetQuery && d in backwardVisited && Budgeted(0) && limit == old(limit)
      ensures Below(old(State()).cache, State().cache)
      ensures outOfBudgetDpms == old(outOfBudgetDpms) + {d}
      ensures pts == svfg.andersen(d.cur) == Pts(State().cache, d)
    {
      hide Inv, Measured, Rested, Settled, SVFG.Valid, Least, AndersenIsSound;
      ghost var s := State();
      ghost var m, n := GiveSet(d);
      FallBackEvaluates(svfg, old(given), s, d);
      StepRefl(svfg, given, s);
      UpdateCachedPointsTo(d, svfg.andersen(d.cur), s, m, n);
      FallBackRests(svfg, old(given), s, State(), base, d);
      outOfBudgetDpms := outOfBudgetDpms + {d};
      GivenIsBetween(svfg, outOfBudgetDpms, d);
      RestsBelow(svfg, given, State(), base);
      pts := svfg.andersen(d.cur);
    }

    /** From here on the set of `d` is given. */
    ghost method GiveSet(d: Dpm) returns (m: Facts, n: set<Dpm>)
      requires Idle() && outOfBudgetQuery && d in svfg.Dpms()
      modifies this`given
      ensures given == old(given) + {d} && Running({}, m, n)
    {
      hide Inv, Measured, Settled, SVFG.Valid, Least, AndersenIsSound;
      given := given + {d};
      FallBackInv(svfg, old(given), State(), base, d);
      m, n := AllMeasured(svfg, State());
    }

    /** Prepares for the next query. After a query that ran out of budget, what it traversed is
        un-marked; everything that stays marked is settled. */
    method ResetQuery()
      requires Idle()
      modifies this
      ensures Idle() && State() == Solver(base, old(State()).cache, map[], map[], map[], false)
      ensures given == old(given) && outOfBudgetDpms == old(outOfBudgetDpms)
      ensures Budgeted(0) && steps == 0 && limit <= Bound(svfg)
    {
      hide Rested, SVFG.Valid, InQuery, AndersenIsSound, Potential, Bound;
      ghost var s := State();
      KeepSettledMarks();
      ClearQueryState();
      SetLimit();
      ResetRests(svfg, given, s, State(), old(base));
    }

    method ClearQueryState()
      modifies this`locToDpmSet, this`dpmToLoadDpm, this`loadToPTCVar, this`outOfBudgetQuery, this`steps
      modifies this`evaluations, this`base
      ensures State() == Solver(backwardVisited, old(State()).cache, map[], map[], map[], false)
      ensures steps == 0 && evaluations == 0 && base == backwardVisited
    {
      hide Potential;
      locToDpmSet, dpmToLoadDpm, loadToPTCVar := map[], map[], map[];
      outOfBudgetQuery := false;
      steps := 0;
      evaluations := 0;
      base := backwardVisited;
    }

    /** As much as a query that starts now can need. */
    ghost method SetLimit()
      requires evaluations == steps == 0 && !outOfBudgetQuery
      modifies this`limit, this`owed
      ensures Budgeted(0) && limit <= Bound(svfg)
    {
      hide Potential, Bound;
      PotentialIsBounded(svfg, State().visited, State().cache);
      limit, owed := Potential(svfg, State().visited, State().cache), 0;
    }

    /** Un-marks what a query out of budget has traversed. */
    method KeepSettledMarks()
      requires Idle()
      modifies this`backwardVisited
      ensures forall d :: d in backwardVisited <==>
        d in old(backwardVisited) && !(outOfBudgetQuery && InQuery(old(State()), d) && d !in outOfBudgetDpms)
    {
      if outOfBudgetQuery {
        OOBResetVisited();
      }
    }

    method OOBResetVisited()
      requires forall d :: InQuery(State(), d) ==> d in backwardVisited
      requires forall l, d :: l in locToDpmSet && d in locToDpmSet[l] ==> d.loc == l
      modifies this`backwardVisited
      ensures forall d :: d in backwardVisited <==>
        d in old(backwardVisited) && (InQuery(State(), d) ==> IsOutOfBudgetDpm(d))
    {
      var keys := locToDpmSet.Keys;
      while keys != {}
        invariant keys <= locToDpmSet.Keys
        invariant forall d :: d in backwardVisited <==>
                    d in old(backwardVisited) && (InQuery(State(), d) ==> IsOutOfBudgetDpm(d) || d.loc in keys)
        decreases keys
      {
        var l :| l in keys;
        keys := keys - {l};
        var dpms := locToDpmSet[l];
        while dpms != {}
          invariant dpms <= locToDpmSet[l]
          invariant forall d :: d in backwardVisited <==>
                      d in old(backwardVisited) &&
                      (InQuery(State(), d) ==> IsOutOfBudgetDpm(d) || d.loc in keys || d in dpms)
          decreases dpms
        {
          var d :| d in dpms;
          assert InQuery(State(), d);
          dpms := dpms - {d};
          if !IsOutOfBudgetDpm(d) {
            ClearbkVisited(d);
          }
        }
      }
    }
  }
}
