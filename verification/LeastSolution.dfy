/** The least solution of the points-to equations of a graph. */
module LeastSolution {
  import opened Nodes
  import opened PointsToTransfer

  /** `x` meets every equation as an inequality: what flows into a demand is in its set. */
  ghost predicate PostFix(g: SVFG, given: set<Dpm>, x: Cache)
    requires g.Valid()
  {
    forall d, o {:trigger Flows(g, given, x, d, o)} :: d in g.Dpms() && Flows(g, given, x, d, o) ==> o in Pts(x, d)
  }

  ghost predicate InEveryPostFix(g: SVFG, given: set<Dpm>, d: Dpm, o: NodeID)
    requires g.Valid()
  {
    forall x: Cache {:trigger PostFix(g, given, x)} :: PostFix(g, given, x) ==> o in Pts(x, d)
  }

  /** The intersection of all caches that meet the inequalities. */
  ghost function Least(g: SVFG, given: set<Dpm>): Cache
    requires g.Valid()
  {
    map d | d in g.Dpms() :: set o | o in g.vars && InEveryPostFix(g, given, d, o)
  }

  lemma FlowsInVars(g: SVFG, given: set<Dpm>, c: Cache, d: Dpm, o: NodeID)
    requires g.Valid() && d.loc in g.stmts && Flows(g, given, c, d, o)
    requires forall y :: Pts(c, y) <= g.vars
    ensures o in g.vars
  {
  }

  lemma LeastIsBelow(g: SVFG, given: set<Dpm>, x: Cache)
    requires g.Valid() && PostFix(g, given, x)
    ensures Below(Least(g, given), x)
  {
  }

  lemma LeastInVars(g: SVFG, given: set<Dpm>)
    requires g.Valid()
    ensures forall d :: Pts(Least(g, given), d) <= g.vars
  {
  }

  lemma LeastIsPostFix(g: SVFG, given: set<Dpm>)
    requires g.Valid()
    ensures PostFix(g, given, Least(g, given))
  {
    forall d, o | d in g.Dpms() && Flows(g, given, Least(g, given), d, o)
      ensures o in Pts(Least(g, given), d)
    {
      LeastInVars(g, given);
      FlowsInVars(g, given, Least(g, given), d, o);
      forall x: Cache | PostFix(g, given, x)
        ensures o in Pts(x, d)
      {
        LeastIsBelow(g, given, x);
        FlowsMonotone(g, given, Least(g, given), x, d, o);
      }
      assert InEveryPostFix(g, given, d, o);
    }
  }

  /** The right-hand sides of all equations under cache `c`. */
  ghost function Transfer(g: SVFG, given: set<Dpm>, c: Cache): Cache
    requires g.Valid()
  {
    map d | d in g.Dpms() :: set o | o in g.vars && Flows(g, given, c, d, o)
  }

  /** `Least` meets every equation exactly. */
  lemma LeastIsSolution(g: SVFG, given: set<Dpm>, d: Dpm, o: NodeID)
    requires g.Valid() && d in g.Dpms()
    ensures o in Pts(Least(g, given), d) <==> Flows(g, given, Least(g, given), d, o)
  {
    LeastIsPostFix(g, given);
    var l, t := Least(g, given), Transfer(g, given, Least(g, given));
    LeastInVars(g, given);
    forall y, p | p in Pts(t, y)
      ensures p in Pts(l, y)
    {
      assert Flows(g, given, l, y, p);
    }
    forall y, p | y in g.Dpms() && Flows(g, given, t, y, p)
      ensures p in Pts(t, y)
    {
      FlowsMonotone(g, given, t, l, y, p);
      FlowsInVars(g, given, l, y, p);
    }
    LeastIsBelow(g, given, t);
    assert Pts(l, d) <= Pts(t, d);
  }

  ghost predicate Solves(g: SVFG, given: set<Dpm>, x: Cache)
    requires g.Valid()
  {
    forall d, o {:trigger Flows(g, given, x, d, o)} :: d in g.Dpms() ==> (o in Pts(x, d) <==> Flows(g, given, x, d, o))
  }

  /** `Least` solves the equations, and no solution is smaller anywhere. */
  lemma LeastIsLeastSolution(g: SVFG, given: set<Dpm>, x: Cache)
    requires g.Valid()
    ensures Solves(g, given, Least(g, given))
    ensures Solves(g, given, x) ==> Below(Least(g, given), x)
  {
    forall d, o | d in g.Dpms()
      ensures o in Pts(Least(g, given), d) <==> Flows(g, given, Least(g, given), d, o)
    {
      LeastIsSolution(g, given, d, o);
    }
    if Solves(g, given, x) {
      LeastIsBelow(g, given, x);
    }
  }

  // ---------- Given sets ----------

  /** Andersen's result, as a set for each demand. */
  ghost function Insensitive(g: SVFG): Cache {
    map d | d in g.Dpms() :: g.andersen(d.cur)
  }

  /** Andersen's result accounts for whatever flows anywhere in the graph. */
  ghost predicate AndersenIsSound(g: SVFG)
    requires g.Valid()
  {
    PostFix(g, {}, Insensitive(g))
  }

  lemma GivenIsSound(g: SVFG, given: set<Dpm>)
    requires g.Valid() && AndersenIsSound(g)
    ensures Below(Least(g, given), Insensitive(g))
  {
    forall d, o | d in g.Dpms() && Flows(g, given, Insensitive(g), d, o)
      ensures o in Pts(Insensitive(g), d)
    {
      if d !in given {
        assert Flows(g, {}, Insensitive(g), d, o);
      }
    }
    LeastIsBelow(g, given, Insensitive(g));
  }

  /** Taking more sets from Andersen's result never loses a fact, here or elsewhere. */
  lemma GivingOnlyAdds(g: SVFG, given: set<Dpm>, more: set<Dpm>)
    requires g.Valid() && AndersenIsSound(g) && given <= more
    ensures Below(Least(g, given), Least(g, more))
  {
    hide Least;
    var l := Least(g, more);
    GivenIsSound(g, more);
    LeastIsPostFix(g, more);
    forall d, o | d in g.Dpms() && Flows(g, given, l, d, o)
      ensures o in Pts(l, d)
    {
      if d in more && d !in given {
        FlowsMonotone(g, {}, l, Insensitive(g), d, o);
      }
      assert Flows(g, more, l, d, o);
    }
    LeastIsBelow(g, given, l);
  }

  /** So the least solution lies between that of the graph itself and Andersen's result. */
  lemma GivenIsBetween(g: SVFG, given: set<Dpm>, d: Dpm)
    requires g.Valid() && AndersenIsSound(g) && d in g.Dpms()
    ensures Pts(Least(g, {}), d) <= Pts(Least(g, given), d) <= g.andersen(d.cur)
  {
    hide SVFG.Valid, Least, AndersenIsSound;
    GivingOnlyAdds(g, {}, given);
    GivenIsSound(g, given);
    assert Pts(Insensitive(g), d) == g.andersen(d.cur);
  }

  // ---------- Local solutions ----------

  /** Demand `d` is settled under cache `c` among the demands `seen`: everything its equation reads
      has been seen, and everything that flows in is cached. */
  ghost predicate Settled(g: SVFG, given: set<Dpm>, c: Cache, seen: set<Dpm>, d: Dpm)
    requires g.Valid() && d.loc in g.stmts
  {
    && (forall y :: Reads(g, given, c, d, y) ==> y in seen)
    && (forall o :: Flows(g, given, c, d, o) ==> o in Pts(c, d))
  }

  /** A set of demands that is settled among itself holds the least solution, even though the rest
      of the graph was never looked at. */
  lemma SettledIsLeast(g: SVFG, given: set<Dpm>, c: Cache, seen: set<Dpm>)
    requires g.Valid() && seen <= g.Dpms() && Below(c, Least(g, given))
    requires forall d :: d in seen ==> Settled(g, given, c, seen, d)
    ensures forall d :: d in seen ==> Pts(c, d) == Pts(Least(g, given), d)
  {
    var l := Least(g, given);
    var x := map d | d in g.Dpms() :: if d in seen then Pts(c, d) else Pts(l, d);
    LeastIsPostFix(g, given);
    forall d, o | d in g.Dpms() && Flows(g, given, x, d, o)
      ensures o in Pts(x, d)
    {
      if d in seen {
        assert Settled(g, given, c, seen, d);
        assert SameReads(g, given, c, x, d);
        FlowsLocal(g, given, c, x, d, o);
      } else {
        FlowsMonotone(g, given, x, l, d, o);
      }
    }
    LeastIsBelow(g, given, x);
    forall d | d in seen
      ensures Pts(c, d) == Pts(l, d)
    {
      assert Pts(l, d) <= Pts(x, d);
      assert Pts(c, d) <= Pts(l, d);
    }
  }

  /** Settled demands stay settled while the sets they read do not change. */
  lemma SettledStays(g: SVFG, given: set<Dpm>, c: Cache, k: Cache, seen: set<Dpm>, seen': set<Dpm>, d: Dpm)
    requires g.Valid() && d.loc in g.stmts && Settled(g, given, c, seen, d) && seen <= seen'
    requires Below(c, k) && SameReads(g, given, c, k, d)
    ensures Settled(g, given, k, seen', d)
  {
    forall y | Reads(g, given, k, d, y)
      ensures y in seen'
    {
      ReadsLocal(g, given, c, k, d, y);
    }
    forall o | Flows(g, given, k, d, o)
      ensures o in Pts(k, d)
    {
      FlowsLocal(g, given, c, k, d, o);
    }
  }
}
