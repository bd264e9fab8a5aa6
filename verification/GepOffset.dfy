/** The field a `getelementptr` instruction selects. */
module GepOffset {
  import opened TypeFlattening
  import opened TypeInfoCollector
  import opened Wrappers

  /** An index operand: a constant, with the value read from it as a signed 64-bit number, or not. */
  datatype Operand = ConstantInt(value: int) | Variable(id: nat)

  const PTR_TYPE := Single(Pointer)

  predicate IsPointerTy(t: Type) {
    t == PTR_TYPE
  }

  class AccessPath {
    var fldIdx: int
    var idxOperandPairs: seq<(Operand, Type)>

    constructor ()
      ensures fldIdx == 0 && idxOperandPairs == []
    {
      fldIdx, idxOperandPairs := 0, [];
    }
  }

  /** The language's rule for the indices after the first: they lead into nested arrays, structs
      and vectors, and a struct's index is a constant naming one of its fields. */
  predicate WellTyped(t: Type, ops: seq<Operand>)
    decreases |ops|
  {
    ops == [] || (Indexable(t, ops[0]) && WellTyped(Next(t, ops[0]), ops[1..]))
  }

  predicate Indexable(t: Type, op: Operand) {
    match t
    case Single(kind) => kind.Vector?
    case ArrayTy(_, _) => true
    case StructTy(_, fields) => op.ConstantInt? && 0 <= op.value < |fields|
  }

  function Next(t: Type, op: Operand): Type
    requires Indexable(t, op)
  {
    match t
    case Single(kind) => Single(kind.elem)
    case ArrayTy(_, elem) => elem
    case StructTy(_, fields) => fields[op.value]
  }

  /** The index an operand stands for: the first element if it is not a constant inside the array. */
  function Index(t: Type, op: Operand): nat
    requires Indexable(t, op) && !t.Single?
  {
    if t.StructTy? then op.value
    else if op.ConstantInt? && op.value % U32 < t.count then op.value % U32
    else 0
  }

  /** The path that operands lead along; inside a vector nothing is told apart. */
  function Path(t: Type, ops: seq<Operand>): seq<nat>
    requires WellTyped(t, ops)
    decreases |ops|
  {
    if ops == [] || t.Single? then [] else [Index(t, ops[0])] + Path(Next(t, ops[0]), ops[1..])
  }

  function Pairs(t: Type, ops: seq<Operand>): (pairs: seq<(Operand, Type)>)
    requires WellTyped(t, ops)
    ensures |pairs| == |ops|
    decreases |ops|
  {
    if ops == [] then [] else [(ops[0], t)] + Pairs(Next(t, ops[0]), ops[1..])
  }

  /** Operand `op`, applied inside `t`, leads to a part of type `u`. */
  ghost predicate Inside(t: Type, op: Operand, u: Type) {
    match t
    case ArrayTy(_, elem) => u == elem
    case StructTy(_, fields) => op.ConstantInt? && 0 <= op.value < |fields| && u == fields[op.value]
    case Single(kind) => kind.Vector? && u == Single(kind.elem)
  }

  /** The pairs hold the operands in order, each with the type inside which it is applied: the first
      leads on from type `t`, and each to the type of the next. */
  ghost predicate Follows(pairs: seq<(Operand, Type)>, t: Type, ops: seq<Operand>) {
    && |pairs| == |ops|
    && (forall k | 0 <= k < |ops| :: pairs[k].0 == ops[k])
    && (ops != [] ==> pairs[0].1 == t)
    && (forall j, k | 0 <= j < |ops| - 1 && k == j + 1 :: Inside(pairs[j].1, ops[j], pairs[k].1))
  }

  /** All operands have been added: the first is applied to the address, the others lead on from the
      source type. */
  ghost predicate Recorded(before: seq<(Operand, Type)>, now: seq<(Operand, Type)>, source: Type,
          operands: seq<Operand>)
    requires operands != []
  {
    && before + [(operands[0], Single(Pointer))] <= now
    && Follows(now[|before| + 1..], source, operands[1..])
  }

  lemma {:induction false} PairsFollow(t: Type, ops: seq<Operand>)
    requires WellTyped(t, ops)
    ensures Follows(Pairs(t, ops), t, ops)
    decreases |ops|
  {
    if ops != [] {
      var u, rest, pairs := Next(t, ops[0]), ops[1..], Pairs(t, ops);
      PairsFollow(u, rest);
      assert pairs[1..] == Pairs(u, rest);
      forall j, k | 0 <= j < |ops| - 1 && k == j + 1
        ensures Inside(pairs[j].1, ops[j], pairs[k].1)
      {
        if j > 0 {
          assert Inside(pairs[1..][j - 1].1, rest[j - 1], pairs[1..][j].1);
        }
      }
    }
  }

  lemma PairsRecorded(before: seq<(Operand, Type)>, source: Type, operands: seq<Operand>)
    requires operands != [] && WellTyped(source, operands[1..])
    ensures var now := before + [(operands[0], Single(Pointer))] + Pairs(source, operands[1..]);
      Recorded(before, now, source, operands)
  {
    var now := before + [(operands[0], Single(Pointer))] + Pairs(source, operands[1..]);
    assert now[|before| + 1..] == Pairs(source, operands[1..]);
    PairsFollow(source, operands[1..]);
  }

  /** For constant operands within bounds, each is paired with the type that those before it lead to. */
  lemma {:induction false} PairsOfPath(t: Type, path: seq<nat>, ops: seq<Operand>, k: nat)
    requires InBounds(t, path) && k < |ops| == |path|
    requires forall i | 0 <= i < |path| :: ops[i] == ConstantInt(path[i])
    ensures WellTyped(t, ops) && InBounds(t, path[..k])
    ensures Pairs(t, ops)[k] == (ops[k], TypeAt(t, path[..k]))
    decreases |path|
  {
    if k == 0 {
      ConstantIsWellTyped(t, path, ops);
    } else {
      PairsOfPath(Sub(t, path[0]), path[1..], ops[1..], k - 1);
      assert path[..k][1..] == path[1..][..k - 1];
    }
  }

  lemma {:induction false} ConstantIsWellTyped(t: Type, path: seq<nat>, ops: seq<Operand>)
    requires InBounds(t, path) && |ops| == |path|
    requires forall i | 0 <= i < |path| :: ops[i] == ConstantInt(path[i])
    ensures WellTyped(t, ops)
    decreases |path|
  {
    if path != [] {
      ConstantIsWellTyped(Sub(t, path[0]), path[1..], ops[1..]);
    }
  }

  // ---------- The offset of one step, and of all ----------

  function StepOffset(ma: bool, t: Type, op: Operand): Option<nat>
    requires Indexable(t, op)
  {
    if t.Single? || (t.ArrayTy? && (op.Variable? || t.count <= op.value % U32)) then Some(0)
    else ElemIdx(ma, t, op.value % U32)
  }

  function Plus(a: Option<nat>, b: Option<nat>): Option<nat> {
    if a.Some? && b.Some? then Some(a.value + b.value) else None
  }

  function GepWalk(ma: bool, t: Type, ops: seq<Operand>): Option<nat>
    requires WellTyped(t, ops)
    decreases |ops|
  {
    if ops == [] then Some(0)
    else Plus(StepOffset(ma, t, ops[0]), GepWalk(ma, Next(t, ops[0]), ops[1..]))
  }

  lemma StepOffsetIsOffset(ma: bool, t: Type, op: Operand)
    requires Indexable(t, op) && !t.Single? && Countable(t) && |Flat(ma, t)| < U32 && Step(t, Index(t, op))
    ensures InBounds(t, [Index(t, op)]) && StepOffset(ma, t, op) == Place(ma, t, [Index(t, op)])
  {
    OneStep(ma, t, Index(t, op));
    ElemIdxIsOffset(ma, t, Index(t, op));
  }

  /** Where the part that `path` leads to sits, if it has a place. */
  function Place(ma: bool, t: Type, path: seq<nat>): Option<nat>
    requires InBounds(t, path)
  {
    if Placed(ma, t, path) then Some(OffsetAt(ma, t, path)) else None
  }

  lemma OneStep(ma: bool, t: Type, i: nat)
    requires Step(t, i)
    ensures InBounds(t, [i])
    ensures Placed(ma, t, [i]) <==> !(ma && t.ArrayTy? && Total(t) == 0 && i != 0)
    ensures OffsetAt(ma, t, [i]) == Offset(ma, t, i)
  {
    assert [i][1..] == [] && Placed(ma, Sub(t, i), []) && OffsetAt(ma, Sub(t, i), []) == 0;
  }

  /** The place of a part is that of its first step and that of the rest within it. */
  lemma PlaceStep(ma: bool, t: Type, i: nat, rest: seq<nat>)
    requires Step(t, i) && InBounds(Sub(t, i), rest)
    ensures InBounds(t, [i]) && InBounds(t, [i] + rest)
    ensures Place(ma, t, [i] + rest) == Plus(Place(ma, t, [i]), Place(ma, Sub(t, i), rest))
  {
    OneStep(ma, t, i);
    assert ([i] + rest)[1..] == rest;
  }

  lemma PathStep(t: Type, ops: seq<Operand>)
    requires ops != [] && !t.Single? && WellTyped(t, ops) && Countable(t) && InBounds(t, Path(t, ops))
    ensures var i, u, rest := Index(t, ops[0]), Next(t, ops[0]), Path(Next(t, ops[0]), ops[1..]);
      Step(t, i) && u == Sub(t, i) && Countable(u) && InBounds(u, rest) && Path(t, ops) == [i] + rest
  {
    assert Path(t, ops)[1..] == Path(Next(t, ops[0]), ops[1..]);
  }

  lemma PartIsNoLonger(ma: bool, t: Type, i: nat)
    requires Step(t, i) && Placed(ma, t, [i])
    ensures |Flat(ma, Sub(t, i))| <= |Flat(ma, t)|
  {
    SliceStep(ma, t, i);
  }

  /** The offsets summed up along the operands are the position of the part they lead to; an
      assertion fails exactly if that part has no place in the flattened list. */
  lemma {:induction false} GepWalkIsOffset(ma: bool, t: Type, ops: seq<Operand>)
    requires WellTyped(t, ops) && Countable(t) && |Flat(ma, t)| < U32 && InBounds(t, Path(t, ops))
    ensures GepWalk(ma, t, ops) == Place(ma, t, Path(t, ops))
    decreases |ops|
  {
    hide FlatAll;
    if ops != [] && t.Single? {
      GepWalkIsOffset(ma, Next(t, ops[0]), ops[1..]);
    } else if ops != [] {
      var i, u := Index(t, ops[0]), Next(t, ops[0]);
      PathStep(t, ops);
      PlaceStep(ma, t, i, Path(u, ops[1..]));
      StepOffsetIsOffset(ma, t, ops[0]);
      if Placed(ma, t, [i]) {
        PartIsNoLonger(ma, t, i);
        GepWalkIsOffset(ma, u, ops[1..]);
      }
    }
  }

  /** The indices as the code reads them, cut off to 32 bits. */
  function Low(path: seq<nat>): seq<nat> {
    seq(|path|, i requires 0 <= i < |path| => path[i] % U32)
  }

  /** In-bounds constant operands lead along the path they spell, cut off to 32 bits, to the part
      they spell. Only an index into an array without elements can be cut off at all. */
  lemma {:induction false} ConstantPath(t: Type, path: seq<nat>, ops: seq<Operand>)
    requires InBounds(t, path) && Countable(t) && |ops| == |path|
    requires forall i | 0 <= i < |path| :: ops[i] == ConstantInt(path[i])
    ensures WellTyped(t, ops) && Path(t, ops) == Low(path)
    ensures InBounds(t, Low(path)) && TypeAt(t, Low(path)) == TypeAt(t, path)
    decreases |path|
  {
    if path != [] {
      ConstantPath(Sub(t, path[0]), path[1..], ops[1..]);
      assert Low(path) == [path[0] % U32] + Low(path[1..]);
    }
  }

  /** A lookup can fail within bounds: two elements that are empty arrays have one place. */
  lemma EmptyElementsHaveOnePlace()
    ensures var t := ArrayTy(2, ArrayTy(0, Single(Number(1))));
      InBounds(t, [1]) && Countable(t) && WellTyped(t, [ConstantInt(1)]) && GepWalk(true, t, [ConstantInt(1)]) == None
  {
  }

  /** Following one operand. */
  lemma WalkStep(ma: bool, t: Type, ops: seq<Operand>)
    requires ops != [] && WellTyped(t, ops) && Countable(t)
    ensures Indexable(t, ops[0]) && WellTyped(Next(t, ops[0]), ops[1..]) && Countable(Next(t, ops[0]))
    ensures Pairs(t, ops) == [(ops[0], t)] + Pairs(Next(t, ops[0]), ops[1..])
    ensures GepWalk(ma, t, ops) == Plus(StepOffset(ma, t, ops[0]), GepWalk(ma, Next(t, ops[0]), ops[1..]))
  {
  }

  lemma WalkEnd(ma: bool, t: Type)
    ensures Pairs(t, []) == [] && GepWalk(ma, t, []) == Some(0)
  {
  }

  // ---------- The builder's loop ----------

  class SVFIRBuilder {
    const moduleSet: LLVMModuleSet
    const modelArrays: bool

    constructor (moduleSet: LLVMModuleSet, modelArrays: bool)
      ensures this.moduleSet == moduleSet && this.modelArrays == modelArrays
    {
      this.moduleSet, this.modelArrays := moduleSet, modelArrays;
    }

    /** What one operand after the first adds to the offset. */
    method AddStep(gepTy: Type, op: Operand, ap: AccessPath) returns (ok: bool)
      requires moduleSet.Valid() && Countable(gepTy) && Indexable(gepTy, op)
      modifies moduleSet, ap`fldIdx
      ensures moduleSet.Valid()
      ensures ok <==> StepOffset(modelArrays, gepTy, op).Some?
      ensures ok ==> ap.fldIdx == old(ap.fldIdx) + StepOffset(modelArrays, gepTy, op).value
    {
      moduleSet.GetSVFType(gepTy);
      if gepTy.Single? {
        return true;
      }
      if gepTy.ArrayTy? {
        if op.Variable? || gepTy.count <= op.value % U32 {
          return true;
        }
      }
      var offset := moduleSet.GetFlattenedElemIdx(modelArrays, gepTy, op.value % U32);
      match offset {
        case None => ok := false;
        case Some(o) =>
          ap.fldIdx := ap.fldIdx + o;
          ok := true;
      }
    }

    /** Adds up the offsets of the constant indices; `isConst` is false exactly for a variable
        amount of pointer arithmetic on single values. If an assertion failed, `ok` is false. */
    method ComputeGepOffset(source: Type, operands: seq<Operand>, ap: AccessPath) returns (isConst: bool, ok: bool)
      requires moduleSet.Valid() && Countable(source) && operands != [] && WellTyped(source, operands[1..])
      modifies moduleSet, ap
      ensures moduleSet.Valid()
      ensures ok ==> (isConst <==> !(operands[0].Variable? && source.Single?))
      ensures ok ==>
        ap.idxOperandPairs == old(ap.idxOperandPairs) + [(operands[0], Single(Pointer))] + Pairs(source, operands[1..])
      ensures ok ==> Recorded(old(ap.idxOperandPairs), ap.idxOperandPairs, source, operands)
      ensures ok <==> GepWalk(modelArrays, source, operands[1..]).Some?
      ensures ok ==> ap.fldIdx == old(ap.fldIdx) + GepWalk(modelArrays, source, operands[1..]).value
    {
      hide Pairs, GepWalk, StepOffset, Countable, WellTyped, Indexable, Next, Recorded;
      isConst := true;
      var gepTy := PTR_TYPE;
      var k := 0;
      while k < |operands|
        invariant k <= |operands| && moduleSet.Valid()
        invariant k == 0 ==> gepTy == PTR_TYPE && isConst
        invariant k == 0 ==> ap.fldIdx == old(ap.fldIdx) && ap.idxOperandPairs == old(ap.idxOperandPairs)
        invariant k > 0 ==> Countable(gepTy) && WellTyped(gepTy, operands[k..])
        invariant k > 0 ==> (isConst <==> !(operands[0].Variable? && source.Single?))
        invariant k > 0 ==>
          ap.idxOperandPairs + Pairs(gepTy, operands[k..])
          == old(ap.idxOperandPairs) + [(operands[0], PTR_TYPE)] + Pairs(source, operands[1..])
        invariant k > 0 ==> Reaches(old(ap.fldIdx), source, operands[1..], ap.fldIdx, gepTy, operands[k..])
      {
        var op := operands[k];
        ap.idxOperandPairs := ap.idxOperandPairs + [(op, gepTy)];
        if k == 0 {
          if op.Variable? && IsPointerTy(gepTy) && source.Single? {
            isConst := false;
          }
          gepTy := source;
        } else {
          assert operands[k..][1..] == operands[k + 1..];
          WalkStep(modelArrays, gepTy, operands[k..]);
          ok := AddStep(gepTy, op, ap);
          if !ok {
            return;
          }
          gepTy := Next(gepTy, op);
        }
        k := k + 1;
      }
      assert operands[k..] == [];
      WalkEnd(modelArrays, gepTy);
      PairsRecorded(old(ap.idxOperandPairs), source, operands);
      ok := true;
    }

    /** Having come to offset `now` with `ops` still to follow from `t`. */
    ghost predicate Reaches(start: int, source: Type, all: seq<Operand>, now: int, t: Type, ops: seq<Operand>)
      requires WellTyped(source, all) && WellTyped(t, ops)
    {
      var w, v := GepWalk(modelArrays, source, all), GepWalk(modelArrays, t, ops);
      (w.Some? <==> v.Some?) && (w.Some? ==> start + w.value == now + v.value)
    }
  }

  /** The offset computed for an in-bounds path starts the slice of the flattened list that is the
      flattened list of the part the path leads to. */
  lemma GepSelectsItsPart(ma: bool, source: Type, path: seq<nat>, ops: seq<Operand>)
    requires Countable(source) && |Flat(ma, source)| < U32 && InBounds(source, path) && |ops| == |path|
    requires forall i | 0 <= i < |path| :: ops[i] == ConstantInt(path[i])
    ensures WellTyped(source, ops) && InBounds(source, Low(path))
    ensures GepWalk(ma, source, ops).Some? <==> Placed(ma, source, Low(path))
    ensures Placed(ma, source, Low(path)) ==>
      SliceAt(Flat(ma, source), GepWalk(ma, source, ops).value, Flat(ma, TypeAt(source, path)))
    ensures LeafPath(source, path) ==> Placed(ma, source, Low(path))
  {
    ConstantPath(source, path, ops);
    GepWalkIsOffset(ma, source, ops);
    if Placed(ma, source, Low(path)) {
      PathSlice(ma, source, Low(path));
    }
    if LeafPath(source, path) {
      LeavesArePlaced(ma, source, Low(path));
    }
  }
}
