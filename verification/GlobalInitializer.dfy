/** How the initializer of a global variable becomes stores into the variable's fields. */
module GlobalInitializer {
  import opened Nodes
  import opened TypeFlattening
  import opened TypeInfoCollector
  import opened Wrappers

  datatype ScalarKind = GlobalOrFunction | ConstExpr | BlockAddress | Plain(isPointer: bool, isNull: bool)

  /** A constant: of a single-value type; an array or struct with an operand for each element; an
      array of packed data; all zeros or undefined; anything else. */
  datatype Constant =
    | Scalar(node: NodeID, ty: Type, kind: ScalarKind)
    | Aggregate(ty: Type, operands: seq<Constant>)
    | Sequential(ty: Type, elements: seq<Constant>)
    | ZeroOrUndef(ty: Type)
    | Other(ty: Type)

  datatype Options = Options(modelArrays: bool, modelConsts: bool, vtableInSVFIR: bool)

  datatype GlobalVariable = GlobalVariable(node: NodeID, isVtbl: bool, initializerType: Type)

  /** The variable itself, or the field of it at an offset. */
  datatype Field = Base(gvar: NodeID) | GepField(gvar: NodeID, offset: nat)

  datatype Edge = Store(src: NodeID, dst: Field) | AddrOfConstant(node: NodeID) | CopyOfNull(node: NodeID)

  /** Operands and types of a constant agree. */
  predicate Typed(c: Constant) {
    match c
    case Scalar(_, ty, _) => ty.Single?
    case Aggregate(ty, ops) =>
      (ty.ArrayTy? || ty.StructTy?) && Fills(ty, ops) && forall i | 0 <= i < |ops| :: Typed(ops[i])
    case Sequential(ty, elems) => ty.ArrayTy? && Fills(ty, elems) && forall i | 0 <= i < |elems| :: Typed(elems[i])
    case ZeroOrUndef(ty) => !ty.Single?
    case Other(ty) => !ty.Single?
  }

  predicate Fills(ty: Type, ops: seq<Constant>)
    requires ty.ArrayTy? || ty.StructTy?
  {
    && |ops| == (if ty.ArrayTy? then ty.count else |ty.fields|)
    && forall i | 0 <= i < |ops| :: Step(ty, i) && ops[i].ty == Sub(ty, i)
  }

  /** The parts of a constant that are visited: none below the table of a class unless those are
      modelled, none of packed data unless constants are. */
  function Parts(opt: Options, gvar: GlobalVariable, c: Constant): (ps: seq<Constant>)
    ensures |ps| > 0 ==> c.Aggregate? || c.Sequential?
    ensures Typed(c) && ps != [] ==> Fills(c.ty, ps)
    ensures forall p | p in ps :: p < c && (Typed(c) ==> Typed(p))
  {
    match c
    case Aggregate(_, ops) => if gvar.isVtbl && !opt.vtableInSVFIR then [] else ops
    case Sequential(_, elems) => if opt.modelConsts then elems else []
    case _ => []
  }

  /** Index `i` of `t` has a place, so that looking it up does not fail. */
  predicate Lookup(opt: Options, t: Type, i: nat) {
    !(opt.modelArrays && t.ArrayTy? && Total(t) == 0 && i > 0)
  }

  /** Every index looked up has a place: no array of empty arrays is spelled out element by
      element past the first. */
  predicate Indexed(opt: Options, gvar: GlobalVariable, c: Constant)
    decreases c, 1, 0
  {
    IndexedFrom(opt, gvar, c, 0)
  }

  predicate IndexedFrom(opt: Options, gvar: GlobalVariable, c: Constant, k: nat)
    requires k <= |Parts(opt, gvar, c)|
    decreases c, 0, |Parts(opt, gvar, c)| - k
  {
    var ps := Parts(opt, gvar, c);
    k == |ps| || (
      assert ps[k] in ps;
      Lookup(opt, c.ty, k) && Indexed(opt, gvar, ps[k]) && IndexedFrom(opt, gvar, c, k + 1))
  }

  /** Following `path` from `c` visits parts only. */
  predicate Visits(opt: Options, gvar: GlobalVariable, c: Constant, path: seq<nat>)
    decreases |path|
  {
    path == [] || (
      var ps := Parts(opt, gvar, c);
      path[0] < |ps| && Visits(opt, gvar, ps[path[0]], path[1..]))
  }

  lemma {:induction false} VisitsInBounds(opt: Options, gvar: GlobalVariable, c: Constant, path: seq<nat>)
    requires Typed(c) && Visits(opt, gvar, c, path)
    ensures InBounds(c.ty, path)
    decreases |path|
  {
    if path != [] {
      var p := Parts(opt, gvar, c)[path[0]];
      assert p in Parts(opt, gvar, c);
      VisitsInBounds(opt, gvar, p, path[1..]);
    }
  }

  lemma {:induction false} IndexedIsPlaced(opt: Options, gvar: GlobalVariable, c: Constant, path: seq<nat>)
    requires Typed(c) && Indexed(opt, gvar, c) && Visits(opt, gvar, c, path) && InBounds(c.ty, path)
    ensures Placed(opt.modelArrays, c.ty, path)
    decreases |path|
  {
    if path != [] {
      var ps := Parts(opt, gvar, c);
      assert ps[path[0]] in ps;
      IndexedAt(opt, gvar, c, 0, path[0]);
      IndexedIsPlaced(opt, gvar, ps[path[0]], path[1..]);
    }
  }

  lemma {:induction false} IndexedAt(opt: Options, gvar: GlobalVariable, c: Constant, k: nat, i: nat)
    requires k <= i < |Parts(opt, gvar, c)| && IndexedFrom(opt, gvar, c, k)
    ensures Lookup(opt, c.ty, i) && Indexed(opt, gvar, Parts(opt, gvar, c)[i])
    decreases i - k
  {
    if k < i {
      IndexedAt(opt, gvar, c, k + 1, i);
    }
  }

  /** If a lookup fails, it is that of a part without a place. */
  lemma {:induction false} UnplacedPart(opt: Options, gvar: GlobalVariable, c: Constant) returns (path: seq<nat>)
    requires Typed(c) && !Indexed(opt, gvar, c)
    ensures Visits(opt, gvar, c, path) && InBounds(c.ty, path) && !Placed(opt.modelArrays, c.ty, path)
    decreases c, 1, 0
  {
    path := UnplacedPartFrom(opt, gvar, c, 0);
  }

  lemma {:induction false} UnplacedPartFrom(opt: Options, gvar: GlobalVariable, c: Constant, k: nat)
    returns (path: seq<nat>)
    requires Typed(c) && k <= |Parts(opt, gvar, c)| && !IndexedFrom(opt, gvar, c, k)
    ensures Visits(opt, gvar, c, path) && InBounds(c.ty, path) && !Placed(opt.modelArrays, c.ty, path)
    decreases c, 0, |Parts(opt, gvar, c)| - k
  {
    var ps := Parts(opt, gvar, c);
    assert ps[k] in ps;
    if !Lookup(opt, c.ty, k) {
      path := [k];
      assert path[1..] == [];
    } else if !Indexed(opt, gvar, ps[k]) {
      var rest := UnplacedPart(opt, gvar, ps[k]);
      path := [k] + rest;
      assert path[1..] == rest;
    } else {
      path := UnplacedPartFrom(opt, gvar, c, k + 1);
    }
  }

  /** Every lookup succeeds exactly if every part visited has a place in the flattened list. */
  lemma IndexedIffPlaced(opt: Options, gvar: GlobalVariable, c: Constant)
    requires Typed(c)
    ensures forall path | Visits(opt, gvar, c, path) :: InBounds(c.ty, path)
    ensures Indexed(opt, gvar, c) <==>
      forall path | Visits(opt, gvar, c, path) && InBounds(c.ty, path) :: Placed(opt.modelArrays, c.ty, path)
  {
    forall path | Visits(opt, gvar, c, path) ensures InBounds(c.ty, path) {
      VisitsInBounds(opt, gvar, c, path);
    }
    if Indexed(opt, gvar, c) {
      forall path | Visits(opt, gvar, c, path) && InBounds(c.ty, path) ensures Placed(opt.modelArrays, c.ty, path) {
        IndexedIsPlaced(opt, gvar, c, path);
      }
    } else {
      var path := UnplacedPart(opt, gvar, c);
    }
  }

  /** A constant for which a lookup fails: two empty arrays, one zero and one undefined, spelled out. */
  lemma EmptyPartsHaveOnePlace(gvar: GlobalVariable)
    ensures var empty := ArrayTy(0, Single(Number(1)));
      var c := Aggregate(ArrayTy(2, empty), [ZeroOrUndef(empty), ZeroOrUndef(empty)]);
      Typed(c) && Countable(c.ty) && !Indexed(Options(true, true, true), gvar, c)
  {
    var empty := ArrayTy(0, Single(Number(1)));
    var c := Aggregate(ArrayTy(2, empty), [ZeroOrUndef(empty), ZeroOrUndef(empty)]);
    assert Total(c.ty) == 0;
    assert !Lookup(Options(true, true, true), c.ty, 1);
    assert !IndexedFrom(Options(true, true, true), gvar, c, 1);
  }

  // ---------- The leaves and their places ----------

  predicate AllScalars(xs: seq<(Constant, nat)>) {
    forall x | x in xs :: x.0.Scalar?
  }

  /** The scalars visited, in order, each with the offset it is stored at. */
  function Leaves(opt: Options, gvar: GlobalVariable, c: Constant, offset: nat): (xs: seq<(Constant, nat)>)
    requires Typed(c)
    ensures AllScalars(xs)
    decreases c, 1, 0
  {
    if c.Scalar? then [(c, offset)] else LeavesFrom(opt, gvar, c, 0, offset)
  }

  function LeavesFrom(opt: Options, gvar: GlobalVariable, c: Constant, k: nat, offset: nat): (xs: seq<(Constant, nat)>)
    requires Typed(c) && k <= |Parts(opt, gvar, c)|
    ensures AllScalars(xs)
    decreases c, 0, |Parts(opt, gvar, c)| - k
  {
    var ps := Parts(opt, gvar, c);
    if k == |ps| then []
    else
      assert ps[k] in ps;
      Leaves(opt, gvar, ps[k], offset + Offset(opt.modelArrays, c.ty, k)) + LeavesFrom(opt, gvar, c, k + 1, offset)
  }

  /** Following `path` from `c` through visited parts leads to the scalar `leaf`. */
  predicate LeadsTo(opt: Options, gvar: GlobalVariable, c: Constant, path: seq<nat>, leaf: Constant)
    decreases |path|
  {
    if path == [] then c.Scalar? && c == leaf
    else
      var ps := Parts(opt, gvar, c);
      path[0] < |ps| && LeadsTo(opt, gvar, ps[path[0]], path[1..], leaf)
  }

  lemma {:induction false} LeadsToLeafPath(opt: Options, gvar: GlobalVariable, c: Constant, path: seq<nat>,
          leaf: Constant)
    requires Typed(c) && LeadsTo(opt, gvar, c, path, leaf)
    ensures LeafPath(c.ty, path) && TypeAt(c.ty, path) == leaf.ty
    decreases |path|
  {
    if path != [] {
      var p := Parts(opt, gvar, c)[path[0]];
      assert p in Parts(opt, gvar, c);
      LeadsToLeafPath(opt, gvar, p, path[1..], leaf);
    }
  }

  lemma {:induction false} PartHasLeaf(opt: Options, gvar: GlobalVariable, c: Constant, k: nat, i: nat, offset: nat,
          x: (Constant, nat))
    requires Typed(c) && k <= i < |Parts(opt, gvar, c)|
    requires x in Leaves(opt, gvar, Parts(opt, gvar, c)[i], offset + Offset(opt.modelArrays, c.ty, i))
    ensures x in LeavesFrom(opt, gvar, c, k, offset)
    decreases i - k
  {
    hide Flat, FlatAll, Leaves;
    var ps := Parts(opt, gvar, c);
    assert ps[k] in ps;
    if k < i {
      PartHasLeaf(opt, gvar, c, k + 1, i, offset, x);
    }
  }

  /** Every scalar visited is stored at the offset of its path. */
  lemma {:induction false} EveryLeafIsStored(opt: Options, gvar: GlobalVariable, c: Constant, path: seq<nat>,
          leaf: Constant, offset: nat)
    requires Typed(c) && LeadsTo(opt, gvar, c, path, leaf)
    ensures LeafPath(c.ty, path) &&
      (leaf, offset + OffsetAt(opt.modelArrays, c.ty, path)) in Leaves(opt, gvar, c, offset)
    decreases |path|
  {
    LeadsToLeafPath(opt, gvar, c, path, leaf);
    if path != [] {
      var ps := Parts(opt, gvar, c);
      assert ps[path[0]] in ps;
      EveryLeafIsStored(opt, gvar, ps[path[0]], path[1..], leaf, offset + Offset(opt.modelArrays, c.ty, path[0]));
      PartHasLeaf(opt, gvar, c, 0, path[0], offset, (leaf, offset + OffsetAt(opt.modelArrays, c.ty, path)));
    }
  }

  /** The part a stored leaf comes from. */
  lemma {:induction false} LeafHasPart(opt: Options, gvar: GlobalVariable, c: Constant, k: nat, offset: nat,
          x: (Constant, nat)) returns (i: nat)
    requires Typed(c) && k <= |Parts(opt, gvar, c)| && x in LeavesFrom(opt, gvar, c, k, offset)
    ensures k <= i < |Parts(opt, gvar, c)| && Step(c.ty, i)
    ensures Typed(Parts(opt, gvar, c)[i])
    ensures x in Leaves(opt, gvar, Parts(opt, gvar, c)[i], offset + Offset(opt.modelArrays, c.ty, i))
    decreases |Parts(opt, gvar, c)| - k
  {
    var ps := Parts(opt, gvar, c);
    assert ps[k] in ps;
    if x in Leaves(opt, gvar, ps[k], offset + Offset(opt.modelArrays, c.ty, k)) {
      i := k;
    } else {
      i := LeafHasPart(opt, gvar, c, k + 1, offset, x);
    }
  }

  /** Nothing else is stored: each store is that of a scalar at the offset of a path leading to it. */
  lemma {:induction false} EveryStoreHasAPath(opt: Options, gvar: GlobalVariable, c: Constant, offset: nat,
          x: (Constant, nat)) returns (path: seq<nat>)
    requires Typed(c) && x in Leaves(opt, gvar, c, offset)
    ensures LeadsTo(opt, gvar, c, path, x.0) && LeafPath(c.ty, path)
    ensures x.1 == offset + OffsetAt(opt.modelArrays, c.ty, path)
    decreases c
  {
    if c.Scalar? {
      path := [];
    } else {
      var i := LeafHasPart(opt, gvar, c, 0, offset, x);
      var p := Parts(opt, gvar, c)[i];
      assert p in Parts(opt, gvar, c);
      var rest := EveryStoreHasAPath(opt, gvar, p, offset + Offset(opt.modelArrays, c.ty, i), x);
      path := [i] + rest;
      assert path[1..] == rest && p.ty == Sub(c.ty, i);
    }
  }

  /** A leaf is stored at the position of its type in the flattened list of the whole. */
  lemma StoredAtItsPosition(opt: Options, gvar: GlobalVariable, c: Constant, offset: nat, x: (Constant, nat))
    requires Typed(c) && x in Leaves(opt, gvar, c, offset)
    ensures offset <= x.1 < offset + |Flat(opt.modelArrays, c.ty)|
    ensures Flat(opt.modelArrays, c.ty)[x.1 - offset] == x.0.ty
  {
    var path := EveryStoreHasAPath(opt, gvar, c, offset, x);
    LeadsToLeafPath(opt, gvar, c, path, x.0);
    LeafOffset(opt.modelArrays, c.ty, path);
  }

  predicate Increasing(s: seq<(Constant, nat)>) {
    forall i, j | 0 <= i < j < |s| :: s[i].1 < s[j].1
  }

  lemma IncreasingConcat(s: seq<(Constant, nat)>, t: seq<(Constant, nat)>)
    requires Increasing(s) && Increasing(t)
    requires forall x, y | x in s && y in t :: x.1 < y.1
    ensures Increasing(s + t)
  {
  }

  /** `x` lies in the part of `ty` that index `i` leads to, behind `offset`. */
  predicate InPart(ty: Type, i: nat, offset: nat, at: nat) {
    && Step(ty, i) && (ty.ArrayTy? ==> Total(ty) != 0)
    && offset + Offset(true, ty, i) <= at < offset + Offset(true, ty, i) + |Flat(true, Sub(ty, i))|
  }

  lemma LeafInPart(opt: Options, gvar: GlobalVariable, c: Constant, i: nat, offset: nat, y: (Constant, nat))
    requires opt.modelArrays && Typed(c) && i < |Parts(opt, gvar, c)| && Typed(Parts(opt, gvar, c)[i]) && Step(c.ty, i)
    requires y in Leaves(opt, gvar, Parts(opt, gvar, c)[i], offset + Offset(true, c.ty, i))
    ensures InPart(c.ty, i, offset, y.1)
  {
    var p, o := Parts(opt, gvar, c)[i], offset + Offset(true, c.ty, i);
    var path := EveryStoreHasAPath(opt, gvar, p, o, y);
    LeafBelow(c.ty, i, path);
    LeavesArePlaced(true, c.ty, [i] + path);
    StoredAtItsPosition(opt, gvar, p, o, y);
  }

  lemma InPartsApart(ty: Type, i: nat, j: nat, offset: nat, at: nat, at': nat)
    requires InPart(ty, i, offset, at) && InPart(ty, j, offset, at') && i < j
    ensures at < at'
  {
    StepsApart(true, ty, i, j);
  }

  /** The leaves of a later part lie behind those of an earlier one. */
  lemma PartsApart(opt: Options, gvar: GlobalVariable, c: Constant, k: nat, offset: nat, x: (Constant, nat),
          y: (Constant, nat))
    requires opt.modelArrays && Typed(c) && k < |Parts(opt, gvar, c)| && Typed(Parts(opt, gvar, c)[k])
    requires Step(c.ty, k) && x in Leaves(opt, gvar, Parts(opt, gvar, c)[k], offset + Offset(true, c.ty, k))
    requires y in LeavesFrom(opt, gvar, c, k + 1, offset)
    ensures x.1 < y.1
  {
    var i := LeafHasPart(opt, gvar, c, k + 1, offset, y);
    LeafInPart(opt, gvar, c, i, offset, y);
    LeafInPart(opt, gvar, c, k, offset, x);
    InPartsApart(c.ty, k, i, offset, x.1, y.1);
  }

  /** With arrays modelled the offsets increase from leaf to leaf: no two leaves share a field. */
  lemma {:induction false} LeavesIncrease(opt: Options, gvar: GlobalVariable, c: Constant, offset: nat)
    requires opt.modelArrays && Typed(c)
    ensures Increasing(Leaves(opt, gvar, c, offset))
    decreases c, 1, 0
  {
    if !c.Scalar? {
      LeavesIncreaseFrom(opt, gvar, c, 0, offset);
    }
  }

  lemma {:induction false} LeavesIncreaseFrom(opt: Options, gvar: GlobalVariable, c: Constant, k: nat, offset: nat)
    requires opt.modelArrays && Typed(c) && k <= |Parts(opt, gvar, c)|
    ensures Increasing(LeavesFrom(opt, gvar, c, k, offset))
    decreases c, 0, |Parts(opt, gvar, c)| - k
  {
    var ps := Parts(opt, gvar, c);
    if k < |ps| {
      assert ps[k] in ps;
      var o := offset + Offset(true, c.ty, k);
      var s, t := Leaves(opt, gvar, ps[k], o), LeavesFrom(opt, gvar, c, k + 1, offset);
      LeavesIncrease(opt, gvar, ps[k], o);
      LeavesIncreaseFrom(opt, gvar, c, k + 1, offset);
      forall x, y | x in s && y in t ensures x.1 < y.1 {
        PartsApart(opt, gvar, c, k, offset, x, y);
      }
      IncreasingConcat(s, t);
    }
  }

  // ---------- The edges ----------

  function GlobalVarField(gvar: GlobalVariable, offset: nat): Field {
    if offset == 0 && gvar.initializerType.Single? then Base(gvar.node) else GepField(gvar.node, offset)
  }

  function LeafEdges(gvar: GlobalVariable, x: (Constant, nat)): seq<Edge>
    requires x.0.Scalar?
  {
    match x.0.kind
    case BlockAddress => [AddrOfConstant(x.0.node)]
    case Plain(isPointer, isNull) =>
      [Store(x.0.node, GlobalVarField(gvar, x.1))] + (if isPointer && !isNull then [CopyOfNull(x.0.node)] else [])
    case _ => [Store(x.0.node, GlobalVarField(gvar, x.1))]
  }

  function EdgesFor(gvar: GlobalVariable, xs: seq<(Constant, nat)>): seq<Edge>
    requires AllScalars(xs)
  {
    if xs == [] then [] else LeafEdges(gvar, xs[0]) + EdgesFor(gvar, xs[1..])
  }

  // ---------- What the edges are, in terms of the constant alone ----------

  /** `path` leads from `c`, through operands of arrays and structs and elements of packed data, to
      the constant `d`. */
  ghost predicate Holds(c: Constant, path: seq<nat>, d: Constant)
    decreases |path|
  {
    if path == [] then c == d
    else
      match c
      case Aggregate(_, ops) => path[0] < |ops| && Holds(ops[path[0]], path[1..], d)
      case Sequential(_, elems) => path[0] < |elems| && Holds(elems[path[0]], path[1..], d)
      case _ => false
  }

  /** Everything that `path` goes through is looked into: arrays and structs unless they belong to
      the table of a class and such tables are not modelled, packed data if constants are. */
  ghost predicate LookedInto(opt: Options, gvar: GlobalVariable, c: Constant, path: seq<nat>) {
    forall k: nat, d | k < |path| && Holds(c, path[..k], d) ::
      (d.Aggregate? ==> !gvar.isVtbl || opt.vtableInSVFIR) && (d.Sequential? ==> opt.modelConsts)
  }

  lemma HoldsStep(c: Constant, path: seq<nat>, k: nat, d: Constant)
    requires 0 < k <= |path| && (c.Aggregate? || c.Sequential?)
    requires path[0] < if c.Aggregate? then |c.operands| else |c.elements|
    ensures var p := if c.Aggregate? then c.operands[path[0]] else c.elements[path[0]];
      Holds(c, path[..k], d) <==> Holds(p, path[1..][..k - 1], d)
  {
    assert path[..k][1..] == path[1..][..k - 1];
  }

  lemma {:induction false} LeadsToIffLookedInto(opt: Options, gvar: GlobalVariable, c: Constant, path: seq<nat>,
          leaf: Constant)
    ensures LeadsTo(opt, gvar, c, path, leaf) <==>
      leaf.Scalar? && Holds(c, path, leaf) && LookedInto(opt, gvar, c, path)
    decreases |path|
  {
    if path == [] {
    } else if (c.Aggregate? && path[0] < |c.operands|) || (c.Sequential? && path[0] < |c.elements|) {
      var p := if c.Aggregate? then c.operands[path[0]] else c.elements[path[0]];
      LeadsToIffLookedInto(opt, gvar, p, path[1..], leaf);
      LookedIntoStep(opt, gvar, c, path, p);
    }
  }

  lemma LookedIntoStep(opt: Options, gvar: GlobalVariable, c: Constant, path: seq<nat>, p: Constant)
    requires path != []
    requires (c.Aggregate? && path[0] < |c.operands| && p == c.operands[path[0]]) ||
      (c.Sequential? && path[0] < |c.elements| && p == c.elements[path[0]])
    ensures LookedInto(opt, gvar, c, path) <==> Parts(opt, gvar, c) != [] && LookedInto(opt, gvar, p, path[1..])
  {
    var rest := path[1..];
    assert path[..0] == [] && Holds(c, [], c);
    if LookedInto(opt, gvar, c, path) {
      forall k: nat, d | k < |rest| && Holds(p, rest[..k], d)
        ensures (d.Aggregate? ==> !gvar.isVtbl || opt.vtableInSVFIR) && (d.Sequential? ==> opt.modelConsts)
      {
        HoldsStep(c, path, k + 1, d);
      }
      assert Holds(c, path[..0], c);
    } else if Parts(opt, gvar, c) != [] && LookedInto(opt, gvar, p, rest) {
      forall k: nat, d | k < |path| && Holds(c, path[..k], d)
        ensures (d.Aggregate? ==> !gvar.isVtbl || opt.vtableInSVFIR) && (d.Sequential? ==> opt.modelConsts)
      {
        if k > 0 {
          HoldsStep(c, path, k, d);
        }
      }
    }
  }

  /** The edge is added on account of the scalar `leaf`, at offset `at` of the variable: the scalar
      is stored there, except for the address of a block, which is that of a constant object; and a
      pointer other than null starts out as null. */
  ghost predicate AddedFor(gvar: GlobalVariable, leaf: Constant, at: nat, e: Edge) {
    leaf.Scalar? && match e
    case Store(src, dst) =>
      && leaf.kind != BlockAddress && src == leaf.node
      && dst == if at == 0 && gvar.initializerType.Single? then Base(gvar.node) else GepField(gvar.node, at)
    case AddrOfConstant(n) => leaf.kind == BlockAddress && n == leaf.node
    case CopyOfNull(n) => leaf.kind == Plain(true, false) && n == leaf.node
  }

  /** The edge is added on account of what `path` leads to. */
  ghost predicate AddedAt(opt: Options, gvar: GlobalVariable, c: Constant, offset: nat, path: seq<nat>, e: Edge) {
    exists leaf :: Holds(c, path, leaf) && LookedInto(opt, gvar, c, path) && InBounds(c.ty, path) &&
      AddedFor(gvar, leaf, offset + OffsetAt(opt.modelArrays, c.ty, path), e)
  }

  /** The edges are those of the scalars in the parts looked into, and no others. */
  ghost predicate Initializes(opt: Options, gvar: GlobalVariable, c: Constant, offset: nat, added: seq<Edge>) {
    forall e :: e in added <==> exists path :: AddedAt(opt, gvar, c, offset, path, e)
  }

  lemma LeafEdgesAdded(gvar: GlobalVariable, x: (Constant, nat), e: Edge)
    requires x.0.Scalar?
    ensures e in LeafEdges(gvar, x) <==> AddedFor(gvar, x.0, x.1, e)
  {
  }

  lemma {:induction false} EdgesForMembers(gvar: GlobalVariable, xs: seq<(Constant, nat)>, e: Edge)
    requires AllScalars(xs)
    ensures e in EdgesFor(gvar, xs) <==> exists x :: x in xs && AddedFor(gvar, x.0, x.1, e)
  {
    if xs != [] {
      LeafEdgesAdded(gvar, xs[0], e);
      EdgesForMembers(gvar, xs[1..], e);
      assert forall x :: x in xs <==> x == xs[0] || x in xs[1..];
    }
  }

  /** Every edge of a leaf is called for. */
  lemma EdgeHasAPath(opt: Options, gvar: GlobalVariable, c: Constant, offset: nat, e: Edge)
    requires Typed(c) && e in EdgesFor(gvar, Leaves(opt, gvar, c, offset))
    ensures exists path :: AddedAt(opt, gvar, c, offset, path, e)
  {
    var xs := Leaves(opt, gvar, c, offset);
    EdgesForMembers(gvar, xs, e);
    var x :| x in xs && AddedFor(gvar, x.0, x.1, e);
    var path := EveryStoreHasAPath(opt, gvar, c, offset, x);
    LeadsToIffLookedInto(opt, gvar, c, path, x.0);
    assert AddedAt(opt, gvar, c, offset, path, e);
  }

  /** Every edge that is called for is that of a leaf. */
  lemma PathHasEdge(opt: Options, gvar: GlobalVariable, c: Constant, offset: nat, path: seq<nat>, e: Edge)
    requires Typed(c) && AddedAt(opt, gvar, c, offset, path, e)
    ensures e in EdgesFor(gvar, Leaves(opt, gvar, c, offset))
  {
    var xs := Leaves(opt, gvar, c, offset);
    var leaf := LeafAt(opt, gvar, c, offset, path, e);
    EveryLeafIsStored(opt, gvar, c, path, leaf, offset);
    assert (leaf, offset + OffsetAt(opt.modelArrays, c.ty, path)) in xs;
    EdgesForMembers(gvar, xs, e);
  }

  /** Main result: the edges of the leaves are exactly those that the constant calls for. */
  lemma EdgesInitialize(opt: Options, gvar: GlobalVariable, c: Constant, offset: nat, before: seq<Edge>)
    requires Typed(c)
    ensures var now := before + EdgesFor(gvar, Leaves(opt, gvar, c, offset));
      before <= now && Initializes(opt, gvar, c, offset, now[|before|..])
  {
    hide EdgesFor, Leaves, AddedAt;
    var added := EdgesFor(gvar, Leaves(opt, gvar, c, offset));
    assert (before + added)[|before|..] == added;
    forall e
      ensures e in added <==> exists path :: AddedAt(opt, gvar, c, offset, path, e)
    {
      if e in added {
        EdgeHasAPath(opt, gvar, c, offset, e);
      }
      if exists path :: AddedAt(opt, gvar, c, offset, path, e) {
        var path :| AddedAt(opt, gvar, c, offset, path, e);
        PathHasEdge(opt, gvar, c, offset, path, e);
      }
    }
  }

  lemma LeafAt(opt: Options, gvar: GlobalVariable, c: Constant, offset: nat, path: seq<nat>, e: Edge)
    returns (leaf: Constant)
    requires AddedAt(opt, gvar, c, offset, path, e)
    ensures LeadsTo(opt, gvar, c, path, leaf) && InBounds(c.ty, path)
    ensures AddedFor(gvar, leaf, offset + OffsetAt(opt.modelArrays, c.ty, path), e)
  {
    leaf :| Holds(c, path, leaf) && LookedInto(opt, gvar, c, path) && InBounds(c.ty, path) &&
      AddedFor(gvar, leaf, offset + OffsetAt(opt.modelArrays, c.ty, path), e);
    LeadsToIffLookedInto(opt, gvar, c, path, leaf);
  }

  lemma ConcatAssoc(a: seq<Edge>, b: seq<Edge>, c: seq<Edge>)
    ensures a + (b + c) == a + b + c
  {
  }

  lemma {:induction false} EdgesForConcat(gvar: GlobalVariable, a: seq<(Constant, nat)>, b: seq<(Constant, nat)>)
    requires AllScalars(a) && AllScalars(b)
    ensures AllScalars(a + b) && EdgesFor(gvar, a + b) == EdgesFor(gvar, a) + EdgesFor(gvar, b)
  {
    if a == [] {
      assert a + b == b;
    } else {
      assert (a + b)[0] == a[0] && (a + b)[1..] == a[1..] + b;
      EdgesForConcat(gvar, a[1..], b);
      ConcatAssoc(LeafEdges(gvar, a[0]), EdgesFor(gvar, a[1..]), EdgesFor(gvar, b));
    }
  }

  /** With arrays modelled, two edges store to one field only if they are for one leaf. */
  lemma FieldsApart(opt: Options, gvar: GlobalVariable, c: Constant, p: seq<nat>, d: Edge, q: seq<nat>, e: Edge)
    requires opt.modelArrays && Typed(c) && c.ty == gvar.initializerType && d.Store? && e.Store?
    requires AddedAt(opt, gvar, c, 0, p, d) && AddedAt(opt, gvar, c, 0, q, e)
    ensures d.dst == e.dst <==> p == q
  {
    var x := LeafAt(opt, gvar, c, 0, p, d);
    var y := LeafAt(opt, gvar, c, 0, q, e);
    LeadsToLeafPath(opt, gvar, c, p, x);
    LeadsToLeafPath(opt, gvar, c, q, y);
    if p != q {
      LeavesApart(c.ty, p, q);
    }
  }

  /** Without arrays modelled, two edges store to one field exactly if the paths to their leaves agree
      on all struct indices. */
  lemma FieldsShared(opt: Options, gvar: GlobalVariable, c: Constant, p: seq<nat>, d: Edge, q: seq<nat>, e: Edge)
    requires !opt.modelArrays && Typed(c) && c.ty == gvar.initializerType && d.Store? && e.Store?
    requires AddedAt(opt, gvar, c, 0, p, d) && AddedAt(opt, gvar, c, 0, q, e)
    ensures InBounds(c.ty, p) && InBounds(c.ty, q)
    ensures d.dst == e.dst <==> FieldsAlong(c.ty, p) == FieldsAlong(c.ty, q)
  {
    var x := LeafAt(opt, gvar, c, 0, p, d);
    var y := LeafAt(opt, gvar, c, 0, q, e);
    LeadsToLeafPath(opt, gvar, c, p, x);
    LeadsToLeafPath(opt, gvar, c, q, y);
    LeavesShareOffset(c.ty, p, q);
  }

  // ---------- The builder's recursion ----------

  lemma PartLookup(opt: Options, t: Type, i: nat, offset: nat)
    requires Step(t, i) && Countable(t) && offset + |Flat(opt.modelArrays, t)| < U32
    ensures Countable(Sub(t, i))
    ensures !Lookup(opt, t, i) ==> ElemIdx(opt.modelArrays, t, i) == None
    ensures Lookup(opt, t, i) ==> ElemIdx(opt.modelArrays, t, i) == Some(Offset(opt.modelArrays, t, i))
    ensures Lookup(opt, t, i) ==> offset + Offset(opt.modelArrays, t, i) + |Flat(opt.modelArrays, Sub(t, i))| < U32
  {
    ElemIdxIsOffset(opt.modelArrays, t, i);
    assert [i][1..] == [] && Placed(opt.modelArrays, Sub(t, i), []);
    if Lookup(opt, t, i) {
      SliceStep(opt.modelArrays, t, i);
    }
  }

  lemma LeavesFromStep(opt: Options, gvar: GlobalVariable, c: Constant, i: nat, offset: nat)
    returns (p: Constant, at: nat)
    requires Typed(c) && i < |Parts(opt, gvar, c)|
    ensures p == Parts(opt, gvar, c)[i] && Typed(p) && at == offset + Offset(opt.modelArrays, c.ty, i)
    ensures LeavesFrom(opt, gvar, c, i, offset) == Leaves(opt, gvar, p, at) + LeavesFrom(opt, gvar, c, i + 1, offset)
  {
    p, at := Parts(opt, gvar, c)[i], offset + Offset(opt.modelArrays, c.ty, i);
    assert p in Parts(opt, gvar, c);
  }

  /** The edges `now` are those at the start and those of the leaves of the first `i` parts. */
  ghost predicate PartsStored(opt: Options, gvar: GlobalVariable, c: Constant, offset: nat, start: seq<Edge>,
        i: nat, now: seq<Edge>)
    requires Typed(c) && i <= |Parts(opt, gvar, c)|
  {
    now + EdgesFor(gvar, LeavesFrom(opt, gvar, c, i, offset)) ==
      start + EdgesFor(gvar, LeavesFrom(opt, gvar, c, 0, offset))
  }

  /** Storing the leaves of one more part. */
  lemma PartStored(opt: Options, gvar: GlobalVariable, c: Constant, offset: nat, start: seq<Edge>, i: nat,
                   now: seq<Edge>, p: Constant, at: nat)
    requires Typed(c) && i < |Parts(opt, gvar, c)| && PartsStored(opt, gvar, c, offset, start, i, now)
    requires p == Parts(opt, gvar, c)[i] && Typed(p) && at == offset + Offset(opt.modelArrays, c.ty, i)
    ensures PartsStored(opt, gvar, c, offset, start, i + 1, now + EdgesFor(gvar, Leaves(opt, gvar, p, at)))
  {
    hide EdgesFor, LeavesFrom, Leaves;
    var _, _ := LeavesFromStep(opt, gvar, c, i, offset);
    var here, rest := Leaves(opt, gvar, p, at), LeavesFrom(opt, gvar, c, i + 1, offset);
    EdgesForConcat(gvar, here, rest);
    ConcatAssoc(now, EdgesFor(gvar, here), EdgesFor(gvar, rest));
  }

  lemma AllPartsStored(opt: Options, gvar: GlobalVariable, c: Constant, offset: nat, start: seq<Edge>, now: seq<Edge>)
    requires Typed(c) && PartsStored(opt, gvar, c, offset, start, |Parts(opt, gvar, c)|, now)
    ensures now == start + EdgesFor(gvar, LeavesFrom(opt, gvar, c, 0, offset))
  {
    assert now + [] == now;
  }

  class SVFIRBuilder {
    const moduleSet: LLVMModuleSet
    const opt: Options
    var edges: seq<Edge>

    constructor (moduleSet: LLVMModuleSet, opt: Options)
      ensures this.moduleSet == moduleSet && this.opt == opt && edges == []
    {
      this.moduleSet, this.opt, edges := moduleSet, opt, [];
    }

    /** Adds the edges of every scalar below `c`; if a lookup's assertion failed, `ok` is false. */
    method InitialGlobal(gvar: GlobalVariable, c: Constant, offset: nat) returns (ok: bool)
      requires moduleSet.Valid() && Typed(c) && Countable(c.ty) && offset + |Flat(opt.modelArrays, c.ty)| < U32
      modifies this`edges, moduleSet
      ensures moduleSet.Valid()
      ensures ok <==> Indexed(opt, gvar, c)
      ensures ok ==> edges == old(edges) + EdgesFor(gvar, Leaves(opt, gvar, c, offset))
      ensures ok ==> old(edges) <= edges && Initializes(opt, gvar, c, offset, edges[|old(edges)|..])
      decreases c, 1
    {
      hide Initializes;
      ok := true;
      EdgesInitialize(opt, gvar, c, offset, edges);
      match c {
        case Scalar(_, _, _) => AddLeaf(gvar, c, offset);
        case Aggregate(_, _) =>
          if gvar.isVtbl && !opt.vtableInSVFIR {
            return;
          }
          ok := InitialParts(gvar, c, offset);
        case Sequential(_, _) =>
          if opt.modelConsts {
            ok := InitialParts(gvar, c, offset);
          }
        case ZeroOrUndef(_) =>
        case Other(_) =>
      }
    }

    method AddLeaf(gvar: GlobalVariable, c: Constant, offset: nat)
      requires c.Scalar?
      modifies this`edges
      ensures edges == old(edges) + LeafEdges(gvar, (c, offset))
      ensures edges == old(edges) + EdgesFor(gvar, [(c, offset)])
    {
      var field := GlobalVarField(gvar, offset);
      match c.kind {
        case BlockAddress => edges := edges + [AddrOfConstant(c.node)];
        case GlobalOrFunction => edges := edges + [Store(c.node, field)];
        case ConstExpr => edges := edges + [Store(c.node, field)];
        case Plain(isPointer, isNull) =>
          edges := edges + [Store(c.node, field)];
          if isPointer && !isNull {
            edges := edges + [CopyOfNull(c.node)];
          }
      }
      assert EdgesFor(gvar, [(c, offset)]) == LeafEdges(gvar, (c, offset)) + EdgesFor(gvar, []);
    }

    method InitialParts(gvar: GlobalVariable, c: Constant, offset: nat) returns (ok: bool)
      requires moduleSet.Valid() && Typed(c) && Countable(c.ty) && offset + |Flat(opt.modelArrays, c.ty)| < U32
      requires (c.Aggregate? && Parts(opt, gvar, c) == c.operands) ||
        (c.Sequential? && Parts(opt, gvar, c) == c.elements)
      modifies this`edges, moduleSet
      ensures moduleSet.Valid()
      ensures ok <==> Indexed(opt, gvar, c)
      ensures ok ==> edges == old(edges) + EdgesFor(gvar, LeavesFrom(opt, gvar, c, 0, offset))
      decreases c, 0
    {
      hide EdgesFor, LeavesFrom, Leaves, AllScalars;
      var ps := Parts(opt, gvar, c);
      ghost var start := edges;
      var i := 0;
      while i < |ps|
        invariant i <= |ps| && moduleSet.Valid()
        invariant IndexedFrom(opt, gvar, c, 0) <==> IndexedFrom(opt, gvar, c, i)
        invariant PartsStored(opt, gvar, c, offset, start, i, edges)
      {
        ghost var p, at := LeavesFromStep(opt, gvar, c, i, offset);
        PartStored(opt, gvar, c, offset, start, i, edges, p, at);
        ok := InitialPart(gvar, c, ps[i], i, offset, at);
        if !ok {
          return;
        }
        i := i + 1;
      }
      AllPartsStored(opt, gvar, c, offset, start, edges);
      ok := true;
    }

    /** Looks up where part `i` starts, and adds the edges of the scalars below it. */
    method InitialPart(gvar: GlobalVariable, c: Constant, p: Constant, i: nat, offset: nat, ghost at: nat)
      returns (ok: bool)
      requires moduleSet.Valid() && Typed(c) && Countable(c.ty) && offset + |Flat(opt.modelArrays, c.ty)| < U32
      requires i < |Parts(opt, gvar, c)| && p == Parts(opt, gvar, c)[i] && Typed(p)
      requires at == offset + Offset(opt.modelArrays, c.ty, i)
      modifies this`edges, moduleSet
      ensures moduleSet.Valid()
      ensures ok <==> Indexed(opt, gvar, p) && Lookup(opt, c.ty, i)
      ensures ok ==> edges == old(edges) + EdgesFor(gvar, Leaves(opt, gvar, p, at))
      decreases c, 0, 0
    {
      hide EdgesFor, LeavesFrom, Leaves, Flat, FlatAll;
      assert p in Parts(opt, gvar, c);
      PartLookup(opt, c.ty, i, offset);
      moduleSet.GetSVFType(c.ty);
      var off := moduleSet.GetFlattenedElemIdx(opt.modelArrays, c.ty, i);
      if off.None? {
        return false;
      }
      var start := (offset + off.value) % U32;
      assert start == at;
      ok := InitialGlobal(gvar, p, start);
    }
  }
}
