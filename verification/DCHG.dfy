/** The class hierarchy graph built from debug information: one node per equivalence class of
    types, edges between them, and remembered sets of descendants. */
module DCHG {
  import opened Nodes
  import opened Reachability
  import opened DITypes
  import opened ClassHierarchy
  import opened Wrappers

  /** Every node has a canonical type of its own. */
  ghost predicate OneNodePerClass(nodeOf: map<DIType, NodeID>, canonicalTypes: set<DIType>,
          nodes: map<NodeID, DIType>, numTypes: nat) {
    && (forall t | t in nodeOf :: t in canonicalTypes && nodeOf[t] in nodes && nodes[nodeOf[t]] == t)
    && (forall n: NodeID | n in nodes :: n < numTypes && nodes[n] in nodeOf && nodeOf[nodes[n]] == n)
  }

  ghost function OutOf(edges: set<DCHEdge>, n: NodeID): set<DCHEdge> {
    set e | e in edges && e.src == n
  }

  /** Both ends of an edge know it. */
  ghost predicate EdgesMirrored(nodes: map<NodeID, DIType>, inEdges: map<NodeID, set<DCHEdge>>,
          outEdges: map<NodeID, set<DCHEdge>>, edges: set<DCHEdge>) {
    && inEdges.Keys == nodes.Keys && outEdges.Keys == nodes.Keys
    && (forall e | e in edges :: e.src in nodes && e.dst in nodes)
    && (forall n: NodeID | n in nodes :: inEdges[n] == Into(edges, n) && outEdges[n] == OutOf(edges, n))
  }

  ghost predicate CacheHolds(cache: map<DIType, set<NodeID>>, firstField: bool, nodeOf: map<DIType, NodeID>,
          edges: set<DCHEdge>) {
    forall t | t in cache :: t in nodeOf && IsCha(edges, firstField, nodeOf[t], cache[t])
  }

  lemma NewNodeHasNoEdges(nodes: map<NodeID, DIType>, inEdges: map<NodeID, set<DCHEdge>>,
          outEdges: map<NodeID, set<DCHEdge>>, edges: set<DCHEdge>, n: NodeID, c: DIType)
    requires EdgesMirrored(nodes, inEdges, outEdges, edges) && n !in nodes
    ensures EdgesMirrored(nodes[n := c], inEdges[n := {}], outEdges[n := {}], edges)
    ensures Into(edges, n) == {} && OutOf(edges, n) == {}
  {
  }

  lemma NewEdgeIsMirrored(nodes: map<NodeID, DIType>, inEdges: map<NodeID, set<DCHEdge>>,
          outEdges: map<NodeID, set<DCHEdge>>, edges: set<DCHEdge>, e: DCHEdge)
    requires EdgesMirrored(nodes, inEdges, outEdges, edges) && e.src in nodes && e.dst in nodes
    ensures EdgesMirrored(nodes, inEdges[e.dst := inEdges[e.dst] + {e}],
      outEdges[e.src := outEdges[e.src] + {e}], edges + {e})
  {
  }

  lemma AlreadyIn(edges: set<DCHEdge>, e: DCHEdge)
    requires e in edges
    ensures edges + {e} == edges
  {
  }

  lemma NewNodeIsAlone(nodeOf: map<DIType, NodeID>, canonicalTypes: set<DIType>, nodes: map<NodeID, DIType>,
          numTypes: nat, c: DIType)
    requires OneNodePerClass(nodeOf, canonicalTypes, nodes, numTypes) && c in canonicalTypes && c !in nodeOf
    ensures OneNodePerClass(nodeOf[c := numTypes], canonicalTypes, nodes[numTypes := c], numTypes + 1)
    ensures numTypes !in nodes
  {
  }

  ghost predicate Extends(types: set<DIType>, types': set<DIType>,
        nodeOf: map<DIType, NodeID>, nodeOf': map<DIType, NodeID>,
        nodes: map<NodeID, DIType>, nodes': map<NodeID, DIType>) {
    && types <= types'
    && (forall t | t in nodeOf :: t in nodeOf' && nodeOf'[t] == nodeOf[t])
    && (forall n: NodeID | n in nodes :: n in nodes' && nodes'[n] == nodes[n])
  }

  class DCHGraph {
    var canonicalTypeMap: map<DIType, DIType>
    var canonicalTypes: set<DIType>
    var diTypeToNodeMap: map<DIType, NodeID>
    var numTypes: NodeID
    var nodes: map<NodeID, DIType>
    var inEdges: map<NodeID, set<DCHEdge>>
    var outEdges: map<NodeID, set<DCHEdge>>
    var chaMap: map<DIType, set<NodeID>>
    var chaFFMap: map<DIType, set<NodeID>>
    /** All edges. */
    ghost var edges: set<DCHEdge>

    constructor ()
      ensures Valid() && CachesHold() && nodes == map[] && edges == {} && canonicalTypes == {}
    {
      canonicalTypeMap, canonicalTypes, diTypeToNodeMap, numTypes := map[], {}, map[], 0;
      nodes, inEdges, outEdges, chaMap, chaFFMap, edges := map[], map[], map[], map[], map[], {};
    }

    ghost predicate Valid()
      reads this
    {
      && Quotient(canonicalTypeMap, canonicalTypes)
      && OneNodePerClass(diTypeToNodeMap, canonicalTypes, nodes, numTypes)
      && EdgesMirrored(nodes, inEdges, outEdges, edges)
    }

    /** Every remembered set is the set of descendants. */
    ghost predicate CachesHold()
      reads this
    {
      CacheHolds(chaMap, false, diTypeToNodeMap, edges) && CacheHolds(chaFFMap, true, diTypeToNodeMap, edges)
    }

    /** Nodes and representatives are only ever added. */
    twostate predicate Grows()
      reads this
    {
      Extends(old(canonicalTypes), canonicalTypes, old(diTypeToNodeMap), diTypeToNodeMap, old(nodes), nodes)
    }

    twostate predicate SameGraph()
      reads this
    {
      && canonicalTypes == old(canonicalTypes) && diTypeToNodeMap == old(diTypeToNodeMap) && nodes == old(nodes)
      && inEdges == old(inEdges) && outEdges == old(outEdges) && numTypes == old(numTypes) && edges == old(edges)
    }

    /** The type standing for all types equivalent to `t`. */
    method GetCanonicalType(t: DIType) returns (r: DIType)
      requires Valid() && Supported(t)
      modifies this`canonicalTypeMap, this`canonicalTypes
      ensures Valid() && Grows()
      ensures Answered(old(canonicalTypes), t, canonicalTypes, r)
      ensures canonicalTypes <= old(canonicalTypes) + {Stripped(t)}
      ensures t in old(canonicalTypes) ==> r == t && canonicalTypes == old(canonicalTypes)
    {
      var stripped := StripQualifiers(t);
      StrippedIsEquivalent(t);
      if t in canonicalTypeMap {
        return canonicalTypeMap[t];
      }
      if t != stripped {
        if stripped in canonicalTypeMap {
          r := canonicalTypeMap[stripped];
          StrippedDecides(t, r);
          canonicalTypeMap := canonicalTypeMap[t := r];
          return;
        }
      }
      var rest := canonicalTypes;
      while rest != {}
        invariant rest <= canonicalTypes
        invariant forall c | c in canonicalTypes && c !in rest :: !Teq(stripped, c)
      {
        var canonType :| canonType in rest;
        if Teq(stripped, canonType) {
          StrippedDecides(t, canonType);
          canonicalTypeMap := canonicalTypeMap[stripped := canonType];
          return canonType;
        }
        rest := rest - {canonType};
      }
      NewRepresentative(canonicalTypes, stripped);
      canonicalTypes := canonicalTypes + {stripped};
      canonicalTypeMap := canonicalTypeMap[stripped := stripped];
      r := stripped;
    }

    /** The node of the class of `t`, new if the class has none yet. */
    method GetOrCreateNode(t: DIType) returns (n: NodeID)
      requires Valid() && Supported(t)
      modifies this`canonicalTypeMap, this`canonicalTypes, this`diTypeToNodeMap, this`numTypes, this`nodes
      modifies this`inEdges, this`outEdges
      ensures Valid() && Grows()
      ensures n in nodes && Teq(t, nodes[n])
      ensures t in old(diTypeToNodeMap) ==> n == diTypeToNodeMap[t] && SameGraph()
      ensures n !in old(nodes) ==> Into(edges, n) == {} && OutOf(edges, n) == {}
    {
      hide Quotient, Inequivalent, EdgesMirrored;
      var c := GetCanonicalType(t);
      if c in diTypeToNodeMap {
        n := diTypeToNodeMap[c];
        return;
      }
      n := AddNode(c);
    }

    method AddNode(c: DIType) returns (n: NodeID)
      requires Valid() && c in canonicalTypes && c !in diTypeToNodeMap
      modifies this`diTypeToNodeMap, this`numTypes, this`nodes, this`inEdges, this`outEdges
      ensures Valid() && diTypeToNodeMap == old(diTypeToNodeMap)[c := n]
      ensures n !in old(nodes) && nodes == old(nodes)[n := c] && Into(edges, n) == {} && OutOf(edges, n) == {}
    {
      n := numTypes;
      NewNodeIsAlone(diTypeToNodeMap, canonicalTypes, nodes, numTypes, c);
      NewNodeHasNoEdges(nodes, inEdges, outEdges, edges, n, c);
      numTypes := numTypes + 1;
      nodes := nodes[n := c];
      inEdges, outEdges := inEdges[n := {}], outEdges[n := {}];
      diTypeToNodeMap := diTypeToNodeMap[c := n];
    }

    /** `n` is the node of the class of `t`. */
    ghost predicate IsNodeOf(t: DIType, n: NodeID)
      reads this
    {
      n in nodes && Teq(t, nodes[n])
    }

    method EndNodes(t1: DIType, t2: DIType) returns (src: NodeID, dst: NodeID)
      requires Valid() && Supported(t1) && Supported(t2)
      modifies this`canonicalTypeMap, this`canonicalTypes, this`diTypeToNodeMap, this`numTypes, this`nodes
      modifies this`inEdges, this`outEdges
      ensures Valid() && Grows() && IsNodeOf(t1, src) && IsNodeOf(t2, dst)
    {
      src := GetOrCreateNode(t1);
      dst := GetOrCreateNode(t2);
    }

    /** The edge of a kind between two classes, if there is one. */
    method HasEdge(t1: DIType, t2: DIType, et: EdgeKind) returns (r: Option<DCHEdge>)
      requires Valid() && Supported(t1) && Supported(t2)
      modifies this`canonicalTypeMap, this`canonicalTypes, this`diTypeToNodeMap, this`numTypes, this`nodes
      modifies this`inEdges, this`outEdges
      ensures Valid() && Grows()
      ensures r.Some? ==> r.value in edges && r.value.kind == et
      ensures r.Some? ==> IsNodeOf(t1, r.value.src) && IsNodeOf(t2, r.value.dst)
      ensures r.None? ==> forall e | e in edges && e.kind == et :: !(IsNodeOf(t1, e.src) && IsNodeOf(t2, e.dst))
    {
      var src, dst := EndNodes(t1, t2);
      r := FindEdge(src, dst, et);
      if r.None? {
        NoSuchEdge(t1, src, t2, dst, et);
      }
    }

    method FindEdge(src: NodeID, dst: NodeID, et: EdgeKind) returns (r: Option<DCHEdge>)
      requires Valid() && src in nodes
      ensures r == if DCHEdge(src, dst, et) in edges then Some(DCHEdge(src, dst, et)) else None
    {
      var rest := outEdges[src];
      assert rest == OutOf(edges, src);
      while rest != {}
        invariant rest <= OutOf(edges, src)
        invariant DCHEdge(src, dst, et) in edges ==> DCHEdge(src, dst, et) in rest
      {
        var edge :| edge in rest;
        if edge.dst == dst && edge.kind == et {
          return Some(edge);
        }
        rest := rest - {edge};
      }
      r := None;
    }

    lemma NoSuchEdge(t1: DIType, src: NodeID, t2: DIType, dst: NodeID, et: EdgeKind)
      requires Valid() && IsNodeOf(t1, src) && IsNodeOf(t2, dst) && DCHEdge(src, dst, et) !in edges
      ensures forall e | e in edges && e.kind == et :: !(IsNodeOf(t1, e.src) && IsNodeOf(t2, e.dst))
    {
      forall e | e in edges && e.kind == et ensures !(IsNodeOf(t1, e.src) && IsNodeOf(t2, e.dst)) {
        if IsNodeOf(t1, e.src) && IsNodeOf(t2, e.dst) {
          TeqIsAnEquivalence(t1, t1, t1);
          TeqIsAnEquivalence(t2, t2, t2);
          SameNodeIffEquivalent(t1, src, t1, e.src);
          SameNodeIffEquivalent(t2, dst, t2, e.dst);
        }
      }
    }

    /** Adds an edge unless it is there already. */
    method AddEdge(t1: DIType, t2: DIType, et: EdgeKind) returns (edge: DCHEdge)
      requires Valid() && Supported(t1) && Supported(t2)
      modifies this`canonicalTypeMap, this`canonicalTypes, this`diTypeToNodeMap, this`numTypes, this`nodes
      modifies this`inEdges, this`outEdges, this`edges
      ensures Valid() && Grows()
      ensures IsNodeOf(t1, edge.src) && IsNodeOf(t2, edge.dst) && edge.kind == et
      ensures edges == old(edges) + {edge}
    {
      var src, dst := EndNodes(t1, t2);
      edge := AddEdgeBetween(t1, src, t2, dst, et);
    }

    method AddEdgeBetween(t1: DIType, src: NodeID, t2: DIType, dst: NodeID, et: EdgeKind) returns (edge: DCHEdge)
      requires Valid() && Supported(t1) && Supported(t2) && IsNodeOf(t1, src) && IsNodeOf(t2, dst)
      modifies this`canonicalTypeMap, this`canonicalTypes, this`diTypeToNodeMap, this`numTypes, this`nodes
      modifies this`inEdges, this`outEdges, this`edges
      ensures Valid() && Grows()
      ensures IsNodeOf(t1, edge.src) && IsNodeOf(t2, edge.dst) && edge.kind == et
      ensures edges == old(edges) + {edge}
    {
      var found := HasEdge(t1, t2, et);
      if found.Some? {
        edge := found.value;
        AlreadyIn(edges, edge);
        return;
      }
      assert IsNodeOf(t1, src) && IsNodeOf(t2, dst);
      edge := InsertEdge(src, dst, et);
    }

    method InsertEdge(src: NodeID, dst: NodeID, et: EdgeKind) returns (edge: DCHEdge)
      requires Valid() && src in nodes && dst in nodes
      modifies this`inEdges, this`outEdges, this`edges
      ensures Valid() && Grows() && edge == DCHEdge(src, dst, et) && edges == old(edges) + {edge}
    {
      edge := DCHEdge(src, dst, et);
      NewEdgeIsMirrored(nodes, inEdges, outEdges, edges, edge);
      outEdges := outEdges[src := outEdges[src] + {edge}];
      inEdges := inEdges[dst := inEdges[dst] + {edge}];
      edges := edges + {edge};
    }

    /** `children` are the nodes of the types that `t` is a base of. */
    ghost predicate AreChildren(t: DIType, firstField: bool, children: set<NodeID>)
      reads this
    {
      exists n: NodeID :: IsNodeOf(t, n) && IsCha(edges, firstField, n, children)
    }

    /** The descendants of a type, remembered for the next time. `rank` shows that the hierarchy
        has no cycles; without that the recursion need not end. */
    method Cha(t: DIType, firstField: bool, ghost rank: NodeID -> nat, ghost bound: nat) returns (children: set<NodeID>)
      requires Valid() && CachesHold() && Supported(t) && Acyclic(edges, firstField, rank)
      requires forall n: NodeID | IsNodeOf(t, n) :: rank(n) <= bound
      modifies this
      ensures Valid() && CachesHold() && Grows() && edges == old(edges)
      ensures AreChildren(t, firstField, children)
      ensures t in old(diTypeToNodeMap) ==> SameGraph()
      decreases bound, 2
    {
      hide Quotient, IsCha, EdgesMirrored;
      var c := GetCanonicalType(t);
      NodeOfCanonical(t, c);
      children := ChaOfCanonical(c, firstField, rank, bound);
      NodeOfCanonical(t, c);
    }

    method ChaOfCanonical(c: DIType, firstField: bool, ghost rank: NodeID -> nat, ghost bound: nat)
      returns (children: set<NodeID>)
      requires Valid() && CachesHold() && c in canonicalTypes && Acyclic(edges, firstField, rank)
      requires c in diTypeToNodeMap ==> rank(diTypeToNodeMap[c]) <= bound
      modifies this
      ensures Valid() && CachesHold() && Grows() && edges == old(edges)
      ensures c in diTypeToNodeMap && IsCha(edges, firstField, diTypeToNodeMap[c], children)
      ensures c in old(diTypeToNodeMap) ==> SameGraph()
      decreases bound, 1
    {
      hide Quotient, Inequivalent, IsCha, EdgesMirrored;
      var cacheMap := if firstField then chaFFMap else chaMap;
      if c in cacheMap {
        return cacheMap[c];
      }
      var n := NodeOfCanonicalType(c);
      children := ChaOfNode(n, firstField, rank, bound);
      Remember(c, firstField, children);
    }

    method NodeOfCanonicalType(c: DIType) returns (n: NodeID)
      requires Valid() && CachesHold() && c in canonicalTypes
      modifies this`canonicalTypeMap, this`canonicalTypes, this`diTypeToNodeMap, this`numTypes, this`nodes
      modifies this`inEdges, this`outEdges
      ensures Valid() && CachesHold() && Grows()
      ensures n in nodes && c in diTypeToNodeMap && n == diTypeToNodeMap[c]
      ensures c in old(diTypeToNodeMap) ==> SameGraph()
      ensures c !in old(diTypeToNodeMap) ==> Into(edges, n) == {}
    {
      NodeOfCanonical(c, c);
      n := GetOrCreateNode(c);
      NodeOfCanonical(c, c);
    }

    method Remember(c: DIType, firstField: bool, children: set<NodeID>)
      requires CachesHold() && c in diTypeToNodeMap && IsCha(edges, firstField, diTypeToNodeMap[c], children)
      modifies this`chaMap, this`chaFFMap
      ensures CachesHold()
    {
      if firstField {
        chaFFMap := chaFFMap[c := children];
      } else {
        chaMap := chaMap[c := children];
      }
    }

    method ChaOfNode(n: NodeID, firstField: bool, ghost rank: NodeID -> nat, ghost bound: nat)
      returns (children: set<NodeID>)
      requires Valid() && CachesHold() && n in nodes && Acyclic(edges, firstField, rank)
      requires rank(n) <= bound || Into(edges, n) == {}
      modifies this
      ensures Valid() && CachesHold() && SameGraph()
      ensures IsCha(edges, firstField, n, children)
      decreases bound, 0
    {
      // One is a child of oneself.
      children := {n};
      var rest := inEdges[n];
      ghost var done: set<DCHEdge> := {};
      while rest != {}
        invariant Valid() && CachesHold() && SameGraph()
        invariant done + rest == Into(edges, n)
        invariant ChaSoFar(edges, firstField, n, done, children)
      {
        var edge :| edge in rest;
        rest := rest - {edge};
        ghost var before := done;
        done := done + {edge};
        if edge.kind != INHERITANCE && edge.kind != FIRST_FIELD && edge.kind != STD_DEF {
          ChaSkipEdge(edges, firstField, n, before, children, edge);
          continue;
        }
        if !firstField && edge.kind == FIRST_FIELD {
          ChaSkipEdge(edges, firstField, n, before, children, edge);
          continue;
        }
        var cchildren := ChaOfSource(edge, firstField, rank);
        ChaAddEdge(edges, firstField, n, before, children, edge, cchildren);
        children := children + cchildren;
      }
      ChaComplete(edges, firstField, n, children);
    }

    method ChaOfSource(edge: DCHEdge, firstField: bool, ghost rank: NodeID -> nat) returns (children: set<NodeID>)
      requires Valid() && CachesHold() && Acyclic(edges, firstField, rank)
      requires edge in edges
      modifies this
      ensures Valid() && CachesHold() && SameGraph()
      ensures IsCha(edges, firstField, edge.src, children)
      decreases rank(edge.src), 3
    {
      OnlyNodeOf(edge.src);
      children := Cha(nodes[edge.src], firstField, rank, rank(edge.src));
      OnlyNodeOf(edge.src);
    }

    lemma OnlyNodeOf(n: NodeID)
      requires Valid() && n in nodes
      ensures forall k: NodeID | IsNodeOf(nodes[n], k) :: k == n
      ensures Supported(nodes[n])
    {
    }

    /** The node of a type's class is that of its canonical type. */
    lemma NodeOfCanonical(t: DIType, c: DIType)
      requires Valid() && c in canonicalTypes && (t == c || Teq(t, c))
      ensures c in diTypeToNodeMap ==> IsNodeOf(t, diTypeToNodeMap[c])
      ensures forall n: NodeID | IsNodeOf(t, n) :: c in diTypeToNodeMap && n == diTypeToNodeMap[c]
    {
      TeqIsAnEquivalence(t, c, c);
      forall n: NodeID | IsNodeOf(t, n) ensures nodes[n] == c {
        TeqIsAnEquivalence(c, t, nodes[n]);
      }
    }

    /** The answer to whether `a` is a base of `b`: `None` if one of them has no node, and else
        whether the node of `a` is reached from that of `b`. */
    ghost predicate Answers(a: DIType, b: DIType, firstField: bool, r: Option<bool>)
      reads this
    {
      if exists n: NodeID, k: NodeID :: IsNodeOf(a, n) && IsNodeOf(b, k) then
        r.Some? && forall n: NodeID, k: NodeID | IsNodeOf(a, n) && IsNodeOf(b, k) ::
          r.value <==> Reach(Allowed(edges, firstField), k, n)
      else r.None?
    }

    lemma AnswerOfCanonical(a: DIType, a': DIType, b: DIType, b': DIType, firstField: bool, r: Option<bool>)
      requires Valid() && a' in canonicalTypes && Teq(a, a') && b' in canonicalTypes && Teq(b, b')
      requires if a' in diTypeToNodeMap && b' in diTypeToNodeMap
        then r.Some? && (r.value <==> Reach(Allowed(edges, firstField), diTypeToNodeMap[b'], diTypeToNodeMap[a']))
        else r.None?
      ensures Answers(a, b, firstField, r)
    {
      NodeOfCanonical(a, a');
      NodeOfCanonical(b, b');
    }

    method IsBase(a: DIType, b: DIType, firstField: bool, ghost rank: NodeID -> nat) returns (r: Option<bool>)
      requires Valid() && CachesHold() && Supported(a) && Supported(b) && Acyclic(edges, firstField, rank)
      modifies this
      ensures Valid() && CachesHold() && Grows() && edges == old(edges)
      ensures Answers(a, b, firstField, r)
    {
      var a' := GetCanonicalType(a);
      var b' := GetCanonicalType(b);
      r := IsBaseOfCanonical(a', b', firstField, rank);
      AnswerOfCanonical(a, a', b, b', firstField, r);
    }

    method IsBaseOfCanonical(a: DIType, b: DIType, firstField: bool, ghost rank: NodeID -> nat)
      returns (r: Option<bool>)
      requires Valid() && CachesHold() && a in canonicalTypes && b in canonicalTypes && Acyclic(edges, firstField, rank)
      modifies this
      ensures Valid() && CachesHold() && SameGraph()
      ensures if a in diTypeToNodeMap && b in diTypeToNodeMap
        then r.Some? && (r.value <==> Reach(Allowed(edges, firstField), diTypeToNodeMap[b], diTypeToNodeMap[a]))
        else r.None?
    {
      if !(a in diTypeToNodeMap && b in diTypeToNodeMap) {
        return None;
      }
      var aChildren := ChaOfCanonical(a, firstField, rank, rank(diTypeToNodeMap[a]));
      r := Some(diTypeToNodeMap[b] in aChildren);
    }

    /** There is one node for each class. */
    lemma SameNodeIffEquivalent(a: DIType, n: NodeID, b: DIType, k: NodeID)
      requires Valid() && n in nodes && k in nodes && Teq(a, nodes[n]) && Teq(b, nodes[k])
      ensures n == k <==> Teq(a, b)
    {
      SameAnswerIffEquivalent(canonicalTypes, a, nodes[n], b, nodes[k]);
    }
  }

  lemma StrippedIsEquivalent(t: DIType)
    ensures Teq(t, Stripped(t)) && Teq(t, t)
  {
  }

  lemma StrippedDecides(t: DIType, c: DIType)
    requires Teq(Stripped(t), c)
    ensures Teq(t, c)
  {
  }

  lemma NewRepresentative(s: set<DIType>, t: DIType)
    requires Inequivalent(s) && forall c | c in s :: !Teq(t, c)
    ensures Inequivalent(s + {t})
  {
    forall a, b | a in s + {t} && b in s + {t} && Teq(a, b) ensures a == b {
      TeqIsAnEquivalence(a, b, a);
    }
  }
}
