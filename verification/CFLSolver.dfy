/** The solver's tables of edges, kept from both ends. */
module CFLSolver {
  import opened Nodes

  type Label = nat
  type DataMap = map<NodeID, map<Label, set<NodeID>>>

  function At(m: DataMap, key: NodeID, ty: Label): set<NodeID> {
    if key in m && ty in m[key] then m[key][ty] else {}
  }

  /** Replaces one set of a table. */
  function Put(m: DataMap, key: NodeID, ty: Label, data: set<NodeID>): (m': DataMap)
    ensures At(m', key, ty) == data
    ensures forall k: NodeID, t: Label :: (k, t) != (key, ty) ==> At(m', k, t) == At(m, k, t)
  {
    var typeMap: map<Label, set<NodeID>> := if key in m then m[key] else map[];
    m[key := typeMap[ty := data]]
  }

  class POCRSolver {
    var succMap: DataMap
    var predMap: DataMap

    constructor ()
      ensures Mirrored() && succMap == map[]
    {
      succMap, predMap := map[], map[];
    }

    /** There is an edge labelled `ty` from `src` to `dst`, as the table of targets has it. */
    ghost predicate Succ(src: NodeID, dst: NodeID, ty: Label)
      reads this
    {
      dst in At(succMap, src, ty)
    }

    ghost predicate Pred(src: NodeID, dst: NodeID, ty: Label)
      reads this
    {
      src in At(predMap, dst, ty)
    }

    /** Both tables hold the same edges. */
    ghost predicate Mirrored()
      reads this
    {
      forall src: NodeID, dst: NodeID, ty: Label :: Succ(src, dst, ty) <==> Pred(src, dst, ty)
    }

    method AddPred(key: NodeID, src: NodeID, ty: Label) returns (added: bool)
      modifies this`predMap
      ensures added <==> !old(Pred(src, key, ty))
      ensures forall s: NodeID, d: NodeID, t: Label :: Pred(s, d, t) <==>
        old(Pred(s, d, t)) || (s, d, t) == (src, key, ty)
    {
      added := src !in At(predMap, key, ty);
      predMap := Put(predMap, key, ty, At(predMap, key, ty) + {src});
    }

    method AddSucc(key: NodeID, dst: NodeID, ty: Label) returns (added: bool)
      modifies this`succMap
      ensures added <==> !old(Succ(key, dst, ty))
      ensures forall s: NodeID, d: NodeID, t: Label :: Succ(s, d, t) <==>
        old(Succ(s, d, t)) || (s, d, t) == (key, dst, ty)
    {
      added := dst !in At(succMap, key, ty);
      succMap := Put(succMap, key, ty, At(succMap, key, ty) + {dst});
    }

    method AddPreds(key: NodeID, data: set<NodeID>, ty: Label) returns (added: bool)
      modifies this`predMap
      ensures added <==> exists s | s in data :: !old(Pred(s, key, ty))
      ensures forall s: NodeID, d: NodeID, t: Label ::
        Pred(s, d, t) <==> old(Pred(s, d, t)) || (s in data && (d, t) == (key, ty))
    {
      if data == {} {
        return false;
      }
      added := !(data <= At(predMap, key, ty));
      predMap := Put(predMap, key, ty, At(predMap, key, ty) + data);
    }

    method AddSuccs(key: NodeID, data: set<NodeID>, ty: Label) returns (added: bool)
      modifies this`succMap
      ensures added <==> exists d | d in data :: !old(Succ(key, d, ty))
      ensures forall s: NodeID, d: NodeID, t: Label ::
        Succ(s, d, t) <==> old(Succ(s, d, t)) || (d in data && (s, t) == (key, ty))
    {
      if data == {} {
        return false;
      }
      added := !(data <= At(succMap, key, ty));
      succMap := Put(succMap, key, ty, At(succMap, key, ty) + data);
    }

    /** Adds one edge to both tables; true if it is new. */
    method AddEdge(src: NodeID, dst: NodeID, ty: Label) returns (added: bool)
      requires Mirrored()
      modifies this
      ensures Mirrored()
      ensures added <==> !old(Succ(src, dst, ty))
      ensures forall s: NodeID, d: NodeID, t: Label :: Succ(s, d, t) <==>
        old(Succ(s, d, t)) || (s, d, t) == (src, dst, ty)
    {
      var inSucc := AddSucc(src, dst, ty);
      added := AddPred(dst, src, ty);
    }

    /** Adds edges from one source; the answer is exactly the targets to which there was none. */
    method AddEdgesFrom(src: NodeID, dstData: set<NodeID>, ty: Label) returns (newDsts: set<NodeID>)
      requires Mirrored()
      modifies this
      ensures Mirrored()
      ensures forall d: NodeID :: d in newDsts <==> d in dstData && !old(Succ(src, d, ty))
      ensures forall s: NodeID, d: NodeID, t: Label ::
        Succ(s, d, t) <==> old(Succ(s, d, t)) || (d in dstData && (s, t) == (src, ty))
    {
      newDsts := {};
      var grown := AddSuccs(src, dstData, ty);
      if grown {
        label Grown:
        var rest := dstData;
        while rest != {}
          invariant rest <= dstData && succMap == old@Grown(succMap)
          invariant forall d: NodeID :: d in newDsts <==> d in dstData - rest && !old(Succ(src, d, ty))
          invariant forall s: NodeID, d: NodeID, t: Label ::
            Pred(s, d, t) <==> old(Pred(s, d, t)) || (d in dstData - rest && (s, t) == (src, ty))
        {
          var datum :| datum in rest;
          rest := rest - {datum};
          var added := AddPred(datum, src, ty);
          if added {
            newDsts := newDsts + {datum};
          }
        }
      }
    }

    /** Adds edges to one target; the answer is exactly the sources from which there was none. */
    method AddEdgesTo(srcData: set<NodeID>, dst: NodeID, ty: Label) returns (newSrcs: set<NodeID>)
      requires Mirrored()
      modifies this
      ensures Mirrored()
      ensures forall s: NodeID :: s in newSrcs <==> s in srcData && !old(Succ(s, dst, ty))
      ensures forall s: NodeID, d: NodeID, t: Label ::
        Succ(s, d, t) <==> old(Succ(s, d, t)) || (s in srcData && (d, t) == (dst, ty))
    {
      newSrcs := {};
      var grown := AddPreds(dst, srcData, ty);
      if grown {
        label Grown:
        var rest := srcData;
        while rest != {}
          invariant rest <= srcData && predMap == old@Grown(predMap)
          invariant forall s: NodeID :: s in newSrcs <==> s in srcData - rest && !old(Succ(s, dst, ty))
          invariant forall s: NodeID, d: NodeID, t: Label ::
            Succ(s, d, t) <==> old(Succ(s, d, t)) || (s in srcData - rest && (d, t) == (dst, ty))
        {
          var datum :| datum in rest;
          rest := rest - {datum};
          var added := AddSucc(datum, dst, ty);
          if added {
            newSrcs := newSrcs + {datum};
          }
        }
      }
    }

    method HasEdge(src: NodeID, dst: NodeID, ty: Label) returns (r: bool)
      ensures r <==> Succ(src, dst, ty)
    {
      if src !in succMap {
        return false;
      }
      if ty !in succMap[src] {
        return false;
      }
      r := dst in succMap[src][ty];
    }
  }
}
