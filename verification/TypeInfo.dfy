/** The flattened layout of every type, collected once and remembered, with the C++ program's
    32- and 64-bit arithmetic. */
module TypeInfoCollector {
  import opened TypeFlattening
  import opened Wrappers

  const U32 := 0x1_0000_0000
  const U64 := 0x1_0000_0000_0000_0000

  /** What is known about the layout of a type: where each field or element starts, without and
      with arrays modelled, and the flattened lists themselves. */
  datatype StInfo = StInfo(
    fldIdxVec: seq<nat>,
    elemIdxVec: seq<nat>,
    flattenFieldTypes: seq<Type>,
    flattenElementTypes: seq<Type>,
    numOfFlattenFields: nat,
    numOfFlattenElements: nat,
    stride: nat)
  {
    function AddFldWithType(fldIdx: nat, elemIdx: nat): StInfo {
      this.(fldIdxVec := fldIdxVec + [fldIdx], elemIdxVec := elemIdxVec + [elemIdx])
    }

    function SetNumOfFieldsAndElems(nf: nat, ne: nat): StInfo {
      this.(numOfFlattenFields := nf, numOfFlattenElements := ne)
    }
  }

  function NewStInfo(s: nat): StInfo {
    StInfo([], [], [], [], s % U32, s % U32, s % U32)
  }

  /** The types whose collection ends and passes its assertions: the element counts of arrays that
      have elements fit the 32-bit counters that run over them, and so do the flattened lists of
      structs. That a count fits 64 bits is part of being a type. */
  predicate Countable(t: Type) {
    match t
    case Single(_) => true
    case ArrayTy(count, elem) =>
      count < U64 && (Total(t) != 0 ==> count < U32 && Total(t) < U32) && Countable(elem)
    case StructTy(_, fields) =>
      && |fields| < U32 && |Flat(true, t)| < U32 && |Flat(false, t)| < U32
      && forall i | 0 <= i < |fields| :: Countable(fields[i])
  }

  /** How many index entries a type gets; an array without elements gets one for its dummy. */
  function NumIndices(t: Type): nat {
    match t
    case Single(_) => 1
    case StructTy(_, fields) => |fields|
    case ArrayTy(count, _) => if Total(t) == 0 then 1 else count
  }

  function IndexOffset(modelArrays: bool, t: Type, i: nat): nat {
    if Step(t, i) then Offset(modelArrays, t, i) else 0
  }

  /** The collected information is the true layout; only positions past 32 bits are cut off. */
  ghost predicate Describes(info: StInfo, t: Type) {
    && info.flattenFieldTypes == Flat(false, t)
    && info.flattenElementTypes == Flat(true, t)
    && info.numOfFlattenFields == |Flat(false, t)|
    && info.numOfFlattenElements == |Flat(true, t)| % U32
    && info.stride == Total(t) % U32
    && Indexes(info, t, NumIndices(t))
  }

  ghost predicate Indexes(info: StInfo, t: Type, n: nat) {
    && |info.fldIdxVec| == |info.elemIdxVec| == n
    && forall i | 0 <= i < n ::
        info.fldIdxVec[i] == IndexOffset(false, t, i) && info.elemIdxVec[i] == IndexOffset(true, t, i) % U32
  }

  // ---------- Arithmetic ----------

  lemma ProductMono(a: nat, b: nat, k: nat)
    requires a <= b
    ensures a * k <= b * k
  {
  }

  lemma DivModUnique(x: nat, m: nat, q: nat, r: nat)
    requires m > 0 && x == q * m + r && r < m
    ensures x / m == q && x % m == r
  {
    var d := x / m - q;
    assert d * m == r - x % m;
    if d >= 1 {
      ProductMono(1, d, m);
    }
  }

  lemma MulAssoc(a: nat, b: nat, c: nat)
    ensures a * b * c == a * (b * c) && a * b * c == a * c * b
  {
  }

  /** A factor may be cut off before a product is. */
  lemma ModProduct(a: nat, b: nat, m: nat)
    requires m > 0
    ensures ((a % m) * b) % m == (a * b) % m
  {
    var q, r := a / m, a % m;
    var p, s := (r * b) / m, (r * b) % m;
    ProductSplit(a, b, m, q, r, p, s);
    DivModUnique(a * b, m, q * b + p, s);
  }

  lemma ProductSplit(a: nat, b: nat, m: nat, q: nat, r: nat, p: nat, s: nat)
    requires a == q * m + r && r * b == p * m + s
    ensures a * b == (q * b + p) * m + s
  {
  }

  /** An element's position `at`: with the product of index and element size cut off to 32 bits,
      the rest of the computation stays within 64 bits, the division is exact, and the stored index
      is the true position, cut off to 32 bits. */
  lemma StrideIndex(i: nat, nfE: nat, total: nat, out: nat, inner: nat, at: nat)
    requires out > 0 && total == out * inner < U32 && at == i * (nfE * inner)
    ensures i * nfE % U32 * total < U64
    ensures i * nfE % U32 * total % U64 / out * out == i * nfE % U32 * total
    ensures i * nfE % U32 * total % U64 / out % U32 == at % U32
  {
    var a := i * nfE % U32;
    ProductFits(a, total);
    var x := a * total;
    assert x == (a * inner) * out by {
      MulAssoc(a, inner, out);
    }
    DivModUnique(x, out, a * inner, 0);
    ModProduct(i * nfE, inner, U32);
    MulAssoc(i, nfE, inner);
  }

  lemma ProductFits(a: nat, b: nat)
    requires a < U32 && b < U32
    ensures a * b < U64
  {
    ProductMono(a, U32, b);
  }

  // ---------- Countable types ----------

  lemma {:induction false} InnermostCountable(t: Type)
    requires Countable(t)
    ensures Countable(Innermost(t)) && |Flat(true, Innermost(t))| < U32 && |Flat(false, t)| < U32
    ensures |Flat(false, Innermost(t))| < U32
  {
    if t.ArrayTy? {
      InnermostCountable(t.elem);
    }
  }

  // ---------- The table ----------

  ghost predicate Extends(m: map<Type, StInfo>, n: map<Type, StInfo>) {
    forall t | t in m :: t in n && n[t] == m[t]
  }

  /** No more fields than the largest struct has; only structs are compared. */
  predicate FitsLargest(t: Type, size: nat) {
    t.StructTy? ==> |Flat(false, t)| <= size
  }

  /** The size is that of the largest struct, or zero if all have been empty. */
  predicate IsLargest(largest: Option<Type>, size: nat) {
    match largest
    case None => size == 0
    case Some(t) => t.StructTy? && |Flat(false, t)| == size
  }

  class LLVMModuleSet {
    /** The memo table, and the layout attached to every type seen. */
    var type2TypeInfo: map<Type, StInfo>
    var svfTypeInfo: map<Type, StInfo>
    /** The struct with the most fields so far, and how many it has. */
    var maxStruct: Option<Type>
    var maxStSize: nat

    constructor ()
      ensures Valid() && type2TypeInfo == map[] && svfTypeInfo == map[] && maxStruct == None
    {
      type2TypeInfo, svfTypeInfo := map[], map[];
      maxStruct, maxStSize := None, 0;
    }

    ghost predicate Valid()
      reads this
    {
      && (forall t | t in type2TypeInfo :: Describes(type2TypeInfo[t], t))
      && (forall t | t in svfTypeInfo :: Describes(svfTypeInfo[t], t))
      && (forall t | t in type2TypeInfo :: FitsLargest(t, maxStSize))
      && IsLargest(maxStruct, maxStSize)
    }

    /** Once known, a type's layout never changes, and only a larger struct replaces the largest. */
    twostate predicate Keeps()
      reads this
    {
      && Extends(old(type2TypeInfo), type2TypeInfo) && Extends(old(svfTypeInfo), svfTypeInfo)
      && old(maxStSize) <= maxStSize && (maxStSize == old(maxStSize) ==> maxStruct == old(maxStruct))
    }

    method GetSVFType(t: Type)
      requires Valid() && Countable(t)
      modifies this
      ensures Valid() && Keeps() && t in svfTypeInfo
      decreases t, 2
    {
      if t in svfTypeInfo {
        return;
      }
      if t.ArrayTy? {
        GetSVFType(t.elem);
      }
      var info := CollectTypeInfo(t);
      svfTypeInfo := svfTypeInfo[t := info];
    }

    method CollectTypeInfo(t: Type) returns (info: StInfo)
      requires Valid() && Countable(t)
      modifies this
      ensures Valid() && Keeps()
      ensures Describes(info, t) && t in type2TypeInfo
      decreases t, 1
    {
      if t in type2TypeInfo {
        return type2TypeInfo[t];
      }
      match t {
        case ArrayTy(_, _) => info := CollectArrayInfo(t);
        case StructTy(_, _) =>
          var nf;
          info, nf := CollectStructInfo(t);
          if nf > maxStSize {
            maxStruct, maxStSize := Some(t), nf;
          }
        case Single(_) => info := CollectSimpleTypeInfo(t);
      }
      if t !in type2TypeInfo {
        type2TypeInfo := type2TypeInfo[t := info];
      }
    }

    method CollectSimpleTypeInfo(t: Type) returns (info: StInfo)
      requires t.Single?
      ensures Describes(info, t)
    {
      info := NewStInfo(1).AddFldWithType(0, 0);
      info := info.(flattenFieldTypes := info.flattenFieldTypes + [t],
                    flattenElementTypes := info.flattenElementTypes + [t]);
      info := info.SetNumOfFieldsAndElems(1, 1);
    }

    method CollectArrayInfo(ty: Type) returns (info: StInfo)
      requires Valid() && ty.ArrayTy? && Countable(ty)
      modifies this
      ensures Valid() && Keeps() && Describes(info, ty)
      decreases ty, 0
    {
      var totalElemNum, elemTy := CountElements(ty);
      info := NewStInfo(totalElemNum);
      InnermostCountable(ty);
      GetSVFType(elemTy);
      if totalElemNum == 0 {
        info := info.AddFldWithType(0, 0);
        info := info.SetNumOfFieldsAndElems(1, 1);
        info := info.(flattenFieldTypes := info.flattenFieldTypes + [elemTy],
                      flattenElementTypes := info.flattenElementTypes + [elemTy]);
        return;
      }
      var elemStInfo := CollectTypeInfo(elemTy);
      info := RepeatElements(ty, info, elemStInfo, totalElemNum);
    }

    /** The layout of a non-empty array from that of its innermost elements. */
    static method RepeatElements(ty: Type, start: StInfo, elemStInfo: StInfo, totalElemNum: nat)
      returns (info: StInfo)
      requires ty.ArrayTy? && Countable(ty) && totalElemNum == Total(ty) != 0 && start == NewStInfo(totalElemNum)
      requires Describes(elemStInfo, Innermost(ty))
      ensures Describes(info, ty)
    {
      hide Flat, FlatAll, Times;
      info := start;
      ArrayFacts(ty);
      var nfF, nfE := elemStInfo.numOfFlattenFields, elemStInfo.numOfFlattenElements;
      var fields := AppendFirst(info.flattenFieldTypes, elemStInfo.flattenFieldTypes, nfF);
      var outArrayElemNum := ty.count % U32;
      var fldIdxVec, elemIdxVec := IndexElements(ty, nfE, totalElemNum, outArrayElemNum);
      var elements := AppendTimes(info.flattenElementTypes, elemStInfo.flattenElementTypes, totalElemNum, nfE);
      assert |elements| == nfE * totalElemNum % U64 by {
        TimesIsProduct(totalElemNum, nfE);
        ProductFits(nfE, totalElemNum);
      }
      info := StInfo(fldIdxVec, elemIdxVec, fields, elements, 0, 0, info.stride)
        .SetNumOfFieldsAndElems(nfF, nfE * totalElemNum % U64 % U32);
    }

    method CollectStructInfo(ty: Type) returns (info: StInfo, numFields: nat)
      requires Valid() && ty.StructTy? && Countable(ty)
      modifies this
      ensures Valid() && Keeps() && Describes(info, ty) && numFields == |Flat(false, ty)|
      decreases ty, 0
    {
      info := NewStInfo(1);
      var strideOffset: nat := 0;
      numFields := 0;
      var k := 0;
      while k < |ty.fields|
        invariant k <= |ty.fields| && Valid() && Keeps()
        invariant FieldsDone(info, ty, k, numFields, strideOffset)
      {
        info, numFields, strideOffset := CollectField(ty, k, info, numFields, strideOffset);
        k := k + 1;
      }
      assert ty.fields[..k] == ty.fields;
      assert |info.flattenElementTypes| == strideOffset;
      info := info.SetNumOfFieldsAndElems(numFields, strideOffset);
    }

    method CollectField(ty: Type, k: nat, info: StInfo, numFields: nat, strideOffset: nat)
      returns (next: StInfo, numFields': nat, strideOffset': nat)
      requires Valid() && ty.StructTy? && Countable(ty) && k < |ty.fields|
      requires FieldsDone(info, ty, k, numFields, strideOffset)
      modifies this
      ensures Valid() && Keeps() && FieldsDone(next, ty, k + 1, numFields', strideOffset')
      decreases ty, 0, 0
    {
      hide Flat, FlatAll, Describes;
      var elemTy := ty.fields[k];
      GetSVFType(elemTy);
      next := info.AddFldWithType(numFields, strideOffset);
      FieldSizes(ty, k);
      var nfF, nfE;
      next, nfF, nfE := AppendFlattened(elemTy, next);
      FieldDone(info, next, ty, k, numFields, strideOffset);
      numFields', strideOffset' := (numFields + nfF) % U32, (strideOffset + nfE) % U32;
    }

    /** Appends the flattened lists of one field. */
    method AppendFlattened(elemTy: Type, info: StInfo) returns (next: StInfo, nfF: nat, nfE: nat)
      requires Valid() && Countable(elemTy) && |Flat(true, elemTy)| < U32 && |Flat(false, elemTy)| < U32
      modifies this
      ensures Valid() && Keeps()
      ensures nfF == |Flat(false, elemTy)| && nfE == |Flat(true, elemTy)|
      ensures next == info.(flattenFieldTypes := info.flattenFieldTypes + Flat(false, elemTy),
                            flattenElementTypes := info.flattenElementTypes + Flat(true, elemTy))
      decreases elemTy, 3
    {
      if elemTy.StructTy? || elemTy.ArrayTy? {
        var subStInfo := CollectTypeInfo(elemTy);
        nfF, nfE := subStInfo.numOfFlattenFields, subStInfo.numOfFlattenElements;
        var fields := AppendFirst(info.flattenFieldTypes, subStInfo.flattenFieldTypes, nfF);
        var elements := AppendFirst(info.flattenElementTypes, subStInfo.flattenElementTypes, nfE);
        next := info.(flattenFieldTypes := fields, flattenElementTypes := elements);
      } else {
        nfF, nfE := 1, 1;
        next := info.(flattenFieldTypes := info.flattenFieldTypes + [elemTy],
                      flattenElementTypes := info.flattenElementTypes + [elemTy]);
      }
    }

    /** Looks an original index up in a type's layout; `None` is a failed assertion. */
    method GetFlattenedElemIdx(modelArrays: bool, t: Type, origId: nat) returns (r: Option<nat>)
      requires Valid() && t in svfTypeInfo
      ensures r == ElemIdx(modelArrays, t, origId)
    {
      if modelArrays {
        var so := svfTypeInfo[t].elemIdxVec;
        r := if origId < |so| then Some(so[origId]) else None;
      } else if t.StructTy? {
        var so := svfTypeInfo[t].fldIdxVec;
        r := if origId < |so| then Some(so[origId]) else None;
      } else {
        r := if t.ArrayTy? then Some(0) else None;
      }
    }
  }

  /** The answer to a lookup, in terms of the true layout. */
  function ElemIdx(modelArrays: bool, t: Type, i: nat): Option<nat> {
    if modelArrays then
      if i < NumIndices(t) then Some(IndexOffset(true, t, i) % U32) else None
    else
      match t
      case Single(_) => None
      case ArrayTy(_, _) => Some(0)
      case StructTy(_, fields) => if i < |fields| then Some(Offset(false, t, i)) else None
  }

  /** A lookup within bounds gives the true position, except past the one dummy entry of an array
      whose elements are all empty, where its assertion fails. */
  lemma ElemIdxIsOffset(ma: bool, t: Type, i: nat)
    requires Step(t, i) && |Flat(ma, t)| < U32
    ensures Placed(ma, t, [i]) ==> ElemIdx(ma, t, i) == Some(Offset(ma, t, i))
    ensures !Placed(ma, t, [i]) ==> ElemIdx(ma, t, i) == None
  {
    assert [i][1..] == [] && Placed(ma, Sub(t, i), []);
    if Placed(ma, t, [i]) {
      SliceStep(ma, t, i);
      assert Offset(ma, t, i) < U32;
    }
  }

  /** Out of bounds only two lookups succeed, both with zero: the entry of a single value or of the
      dummy of an empty array, and any index into an array that is not modelled. */
  lemma ElemIdxOutside(ma: bool, t: Type, i: nat)
    requires !Step(t, i)
    ensures ElemIdx(ma, t, i) == if (ma && i == 0 && !t.StructTy?) || (!ma && t.ArrayTy?) then Some(0) else None
  {
  }

  lemma ArrayFacts(ty: Type)
    requires ty.ArrayTy? && Countable(ty) && Total(ty) != 0
    ensures ty.count % U32 == ty.count && 0 < Total(ty) < U32 && NumIndices(ty) == ty.count
    ensures |Flat(true, Innermost(ty))| % U32 == |Flat(true, Innermost(ty))|
    ensures Flat(true, ty) == Repeat(Flat(true, Innermost(ty)), Total(ty))
    ensures Flat(false, ty) == Flat(false, Innermost(ty))
  {
    InnermostCountable(ty);
    FlatOfInnermost(ty);
  }

  // ---------- The loops of the collector ----------

  method AppendFirst(dst: seq<Type>, src: seq<Type>, n: nat) returns (r: seq<Type>)
    requires n <= |src|
    ensures r == dst + src[..n]
  {
    r := dst;
    for j := 0 to n
      invariant r == dst + src[..j]
    {
      r := r + [src[j]];
    }
  }

  method AppendTimes(dst: seq<Type>, src: seq<Type>, times: nat, n: nat) returns (r: seq<Type>)
    requires n == |src|
    ensures r == dst + Repeat(src, times)
  {
    r := dst;
    for i := 0 to times
      invariant r == dst + Repeat(src, i)
    {
      RepeatAdd(src, i, 1);
      RepeatOnce(src);
      r := AppendFirst(r, src, n);
    }
  }

  /** The number of innermost elements, multiplied up with 64-bit arithmetic. */
  method CountElements(ty: Type) returns (totalElemNum: nat, elemTy: Type)
    requires ty.ArrayTy? && Countable(ty)
    ensures totalElemNum == Total(ty) && elemTy == Innermost(ty)
  {
    totalElemNum, elemTy := ty.count, ty.elem;
    ghost var product: nat := ty.count;
    TimesIsProduct(product, Total(elemTy));
    while elemTy.ArrayTy?
      invariant totalElemNum == product % U64 && Total(ty) == product * Total(elemTy)
      invariant Innermost(elemTy) == Innermost(ty)
      decreases elemTy
    {
      ModProduct(product, elemTy.count, U64);
      TimesIsProduct(elemTy.count, Total(elemTy.elem));
      MulAssoc(product, elemTy.count, Total(elemTy.elem));
      totalElemNum := totalElemNum * elemTy.count % U64;
      product := product * elemTy.count;
      elemTy := elemTy.elem;
    }
  }

  /** Where each element of an array starts. */
  method IndexElements(ty: Type, nfE: nat, totalElemNum: nat, outArrayElemNum: nat)
    returns (fldIdxVec: seq<nat>, elemIdxVec: seq<nat>)
    requires ty.ArrayTy? && totalElemNum == Total(ty) && 0 < totalElemNum < U32 && outArrayElemNum == ty.count
    requires nfE == |Flat(true, Innermost(ty))|
    ensures |fldIdxVec| == |elemIdxVec| == ty.count
    ensures forall i | 0 <= i < ty.count ::
        fldIdxVec[i] == IndexOffset(false, ty, i) && elemIdxVec[i] == IndexOffset(true, ty, i) % U32
  {
    fldIdxVec, elemIdxVec := [], [];
    TotalOfArray(ty);
    for i := 0 to outArrayElemNum
      invariant |fldIdxVec| == |elemIdxVec| == i
      invariant forall j | 0 <= j < i ::
          fldIdxVec[j] == IndexOffset(false, ty, j) && elemIdxVec[j] == IndexOffset(true, ty, j) % U32
    {
      ElementIndex(ty, i, nfE);
      var idx := i * nfE % U32 * totalElemNum % U64 / outArrayElemNum;
      fldIdxVec, elemIdxVec := fldIdxVec + [0], elemIdxVec + [idx % U32];
    }
  }

  lemma ElementOffset(ty: Type, i: nat, nfE: nat)
    requires ty.ArrayTy? && Total(ty) != 0 && i < ty.count && nfE == |Flat(true, Innermost(ty))|
    ensures Total(ty) == ty.count * Total(ty.elem)
    ensures Offset(true, ty, i) == i * (nfE * Total(ty.elem))
  {
    TimesIsProduct(ty.count, Total(ty.elem));
    TotalOfArray(ty);
    FlatOfInnermost(ty.elem);
    TimesIsProduct(Total(ty.elem), nfE);
    TimesIsProduct(i, |Flat(true, ty.elem)|);
  }

  lemma ElementIndex(ty: Type, i: nat, nfE: nat)
    requires ty.ArrayTy? && 0 < Total(ty) < U32 && ty.count != 0 && i < ty.count && nfE == |Flat(true, Innermost(ty))|
    ensures i * nfE % U32 * Total(ty) % U64 / ty.count % U32 == Offset(true, ty, i) % U32
  {
    ElementOffset(ty, i, nfE);
    StrideIndex(i, nfE, Total(ty), ty.count, Total(ty.elem), Offset(true, ty, i));
  }

  /** The first `k` fields of a struct have been collected. */
  ghost predicate FieldsDone(info: StInfo, ty: Type, k: nat, numFields: nat, strideOffset: nat)
    requires ty.StructTy? && k <= |ty.fields|
  {
    && info.flattenFieldTypes == FlatAll(false, ty.fields[..k])
    && info.flattenElementTypes == FlatAll(true, ty.fields[..k])
    && numFields == |info.flattenFieldTypes| && strideOffset == |info.flattenElementTypes|
    && info.stride == 1
    && Indexes(info, ty, k)
  }

  /** A field's lists are no longer than the struct's. */
  lemma FieldSizes(ty: Type, k: nat)
    requires ty.StructTy? && Countable(ty) && k < |ty.fields|
    ensures |FlatAll(true, ty.fields[..k])| + |Flat(true, ty.fields[k])| < U32
    ensures |FlatAll(false, ty.fields[..k])| + |Flat(false, ty.fields[k])| < U32
  {
    FieldSlice(true, ty.fields, k);
    FieldSlice(false, ty.fields, k);
  }

  lemma FieldDone(info: StInfo, next: StInfo, ty: Type, k: nat, numFields: nat, strideOffset: nat)
    requires ty.StructTy? && Countable(ty) && k < |ty.fields|
    requires FieldsDone(info, ty, k, numFields, strideOffset)
    requires next.fldIdxVec == info.fldIdxVec + [numFields] && next.elemIdxVec == info.elemIdxVec + [strideOffset]
    requires next.flattenFieldTypes == info.flattenFieldTypes + Flat(false, ty.fields[k])
    requires next.flattenElementTypes == info.flattenElementTypes + Flat(true, ty.fields[k])
    requires next.stride == info.stride
    ensures FieldsDone(next, ty, k + 1, |next.flattenFieldTypes|, |next.flattenElementTypes|)
    ensures |next.flattenFieldTypes| < U32 && |next.flattenElementTypes| < U32
  {
    FieldSizes(ty, k);
    FieldSlice(true, ty.fields, k);
    FieldSlice(false, ty.fields, k);
  }
}
