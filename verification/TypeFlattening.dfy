/** How nested arrays and structs are laid out as one flat list of elements, and where a path of
    indices leads in that list. */
module TypeFlattening {

  /** A type of single values: an address, a number, or a vector of either. */
  datatype Kind = Pointer | Number(code: nat) | Vector(length: nat, elem: Kind)

  datatype Type = Single(kind: Kind) | ArrayTy(count: nat, elem: Type) | StructTy(name: nat, fields: seq<Type>)

  /** The element type below all array layers. */
  function Innermost(t: Type): (r: Type)
    ensures !r.ArrayTy?
    ensures t.ArrayTy? ==> r < t
  {
    if t.ArrayTy? then Innermost(t.elem) else t
  }

  /** The product of `n` and `k`, by repeated addition. */
  function Times(n: nat, k: nat): nat {
    if n == 0 then 0 else k + Times(n - 1, k)
  }

  /** The number of innermost elements of a multi-dimensional array. */
  function Total(t: Type): nat {
    if t.ArrayTy? then Times(t.count, Total(t.elem)) else 1
  }

  function Repeat(s: seq<Type>, n: nat): (r: seq<Type>)
    ensures |r| == Times(n, |s|)
  {
    if n == 0 then [] else s + Repeat(s, n - 1)
  }

  /** The flattened elements of a type. With `modelArrays` an array contributes every element,
      without it only one; an array without elements counts as one dummy element. */
  function Flat(modelArrays: bool, t: Type): seq<Type>
    decreases t, 1
  {
    match t
    case Single(_) => [t]
    case StructTy(_, fields) => FlatAll(modelArrays, fields)
    case ArrayTy(_, _) =>
      if Total(t) == 0 then [Innermost(t)]
      else if modelArrays then Repeat(Flat(modelArrays, Innermost(t)), Total(t))
      else Flat(modelArrays, Innermost(t))
  }

  function FlatAll(modelArrays: bool, ts: seq<Type>): seq<Type>
    decreases ts, 0
  {
    if ts == [] then [] else Flat(modelArrays, ts[0]) + FlatAll(modelArrays, ts[1..])
  }

  // ---------- Index paths ----------

  /** `i` is an index into `t`. */
  predicate Step(t: Type, i: nat) {
    match t
    case Single(_) => false
    case ArrayTy(count, _) => i < count
    case StructTy(_, fields) => i < |fields|
  }

  function Sub(t: Type, i: nat): Type
    requires Step(t, i)
  {
    if t.ArrayTy? then t.elem else t.fields[i]
  }

  /** Where element or field `i` of `t` starts in the flattened list. */
  function Offset(modelArrays: bool, t: Type, i: nat): nat
    requires Step(t, i)
  {
    if t.StructTy? then |FlatAll(modelArrays, t.fields[..i])|
    else if modelArrays then Times(i, |Flat(modelArrays, t.elem)|)
    else 0
  }

  predicate InBounds(t: Type, path: seq<nat>)
    decreases |path|
  {
    path == [] || (Step(t, path[0]) && InBounds(Sub(t, path[0]), path[1..]))
  }

  function TypeAt(t: Type, path: seq<nat>): Type
    requires InBounds(t, path)
    decreases |path|
  {
    if path == [] then t else TypeAt(Sub(t, path[0]), path[1..])
  }

  function OffsetAt(modelArrays: bool, t: Type, path: seq<nat>): nat
    requires InBounds(t, path)
    decreases |path|
  {
    if path == [] then 0
    else Offset(modelArrays, t, path[0]) + OffsetAt(modelArrays, Sub(t, path[0]), path[1..])
  }

  /** The one kind of step that the flattened list has no place for: past the first element of an
      array all of whose elements are empty arrays. */
  predicate Placed(modelArrays: bool, t: Type, path: seq<nat>)
    requires InBounds(t, path)
    decreases |path|
  {
    path == [] || (
      && (modelArrays && t.ArrayTy? && Total(t) == 0 ==> path[0] == 0)
      && Placed(modelArrays, Sub(t, path[0]), path[1..]))
  }

  /** `part` lies in `whole` from position `o` on. */
  predicate SliceAt(whole: seq<Type>, o: nat, part: seq<Type>) {
    o + |part| <= |whole| && whole[o..o + |part|] == part
  }

  // ---------- Repetition ----------

  lemma {:induction false} TimesIsProduct(n: nat, k: nat)
    ensures Times(n, k) == n * k
  {
    if n > 0 {
      TimesIsProduct(n - 1, k);
    }
  }

  lemma {:induction false} TimesMono(a: nat, b: nat, k: nat)
    requires a <= b
    ensures Times(a, k) <= Times(b, k)
  {
    if a < b {
      TimesMono(a, b - 1, k);
    }
  }

  lemma {:induction false} TimesZero(n: nat, k: nat)
    ensures Times(n, k) == 0 <==> n == 0 || k == 0
  {
    if n > 0 {
      TimesZero(n - 1, k);
    }
  }

  lemma {:induction false} RepeatAdd(s: seq<Type>, a: nat, b: nat)
    ensures Repeat(s, a + b) == Repeat(s, a) + Repeat(s, b)
  {
    if a > 0 {
      RepeatAdd(s, a - 1, b);
    }
  }

  lemma {:induction false} RepeatRepeat(s: seq<Type>, n: nat, r: nat)
    ensures Repeat(s, Times(n, r)) == Repeat(Repeat(s, r), n)
  {
    if n > 0 {
      RepeatAdd(s, r, Times(n - 1, r));
      RepeatRepeat(s, n - 1, r);
    }
  }

  lemma RepeatOnce(s: seq<Type>)
    ensures Repeat(s, 1) == s
  {
  }

  lemma RepeatSlice(s: seq<Type>, n: nat, i: nat)
    requires i < n
    ensures SliceAt(Repeat(s, n), Times(i, |s|), s)
  {
  }

  // ---------- Slices ----------

  lemma {:induction false} FlatAllConcat(ma: bool, a: seq<Type>, b: seq<Type>)
    ensures FlatAll(ma, a + b) == FlatAll(ma, a) + FlatAll(ma, b)
  {
    if a == [] {
      assert a + b == b;
    } else {
      assert (a + b)[0] == a[0] && (a + b)[1..] == a[1..] + b;
      FlatAllConcat(ma, a[1..], b);
    }
  }

  lemma TotalOfArray(t: Type)
    requires t.ArrayTy?
    ensures Total(t) == 0 <==> t.count == 0 || Total(t.elem) == 0
  {
    TimesZero(t.count, Total(t.elem));
  }

  /** Every type without empty arrays on top is so many copies of what lies below its arrays. */
  lemma FlatOfInnermost(t: Type)
    requires Total(t) != 0
    ensures Flat(true, t) == Repeat(Flat(true, Innermost(t)), Total(t))
    ensures Flat(false, t) == Flat(false, Innermost(t))
  {
  }

  /** A non-empty array is its element type's list, once per element. */
  lemma FlatArray(t: Type)
    requires t.ArrayTy? && Total(t) != 0
    ensures Flat(true, t) == Repeat(Flat(true, t.elem), t.count)
    ensures Flat(false, t) == Flat(false, t.elem)
  {
    TotalOfArray(t);
    FlatOfInnermost(t);
    FlatOfInnermost(t.elem);
    RepeatRepeat(Flat(true, Innermost(t)), t.count, Total(t.elem));
  }

  /** An array without elements is one dummy element, like its element type if that is one too. */
  lemma FlatEmptyArray(ma: bool, t: Type)
    requires t.ArrayTy? && Total(t) == 0 && t.count != 0
    ensures t.elem.ArrayTy? && Flat(ma, t.elem) == Flat(ma, t) && |Flat(ma, t)| == 1
  {
  }

  /** An array type given by its dimensions, outermost first. */
  function Nest(dims: seq<nat>, t: Type): Type {
    if dims == [] then t else ArrayTy(dims[0], Nest(dims[1..], t))
  }

  /** Whatever its dimensions, the one dummy of an array without elements is of the type that lies
      below all of them. */
  lemma {:induction false} DummyElement(ma: bool, dims: seq<nat>, t: Type)
    requires !t.ArrayTy?
    ensures Innermost(Nest(dims, t)) == t
    ensures 0 in dims ==> Total(Nest(dims, t)) == 0 && Flat(ma, Nest(dims, t)) == [t]
    ensures 0 !in dims ==> Total(Nest(dims, t)) != 0
  {
    if dims != [] {
      DummyElement(ma, dims[1..], t);
      TotalOfArray(Nest(dims, t));
    }
  }

  lemma SliceOfSlice(w: seq<Type>, a: nat, u: seq<Type>, b: nat, v: seq<Type>)
    requires SliceAt(w, a, u) && SliceAt(u, b, v)
    ensures SliceAt(w, a + b, v)
  {
    forall k | 0 <= k < |v| ensures w[a + b + k] == v[k] {
      assert v[k] == u[b..b + |v|][k] && u[b + k] == w[a..a + |u|][b + k];
    }
    assert w[a + b..a + b + |v|] == v;
  }

  lemma FieldSlice(ma: bool, fs: seq<Type>, i: nat)
    requires i < |fs|
    ensures SliceAt(FlatAll(ma, fs), |FlatAll(ma, fs[..i])|, Flat(ma, fs[i]))
    ensures FlatAll(ma, fs[..i + 1]) == FlatAll(ma, fs[..i]) + Flat(ma, fs[i])
  {
    assert fs == fs[..i] + [fs[i]] + fs[i + 1..] && fs[..i + 1] == fs[..i] + [fs[i]];
    FlatAllConcat(ma, fs[..i] + [fs[i]], fs[i + 1..]);
    FlatAllConcat(ma, fs[..i], [fs[i]]);
    assert FlatAll(ma, [fs[i]]) == Flat(ma, fs[i]) + FlatAll(ma, []);
  }

  /** The list of the part reached by one index is a slice of the list of the whole. */
  lemma SliceStep(ma: bool, t: Type, i: nat)
    requires Step(t, i) && (ma && t.ArrayTy? && Total(t) == 0 ==> i == 0)
    ensures SliceAt(Flat(ma, t), Offset(ma, t, i), Flat(ma, Sub(t, i)))
  {
    if t.StructTy? {
      FieldSlice(ma, t.fields, i);
    } else if Total(t) == 0 {
      FlatEmptyArray(ma, t);
      assert Offset(ma, t, i) == 0;
    } else {
      FlatArray(t);
      RepeatSlice(Flat(true, t.elem), t.count, i);
    }
  }

  /** Main result on layout: the sum of the offsets along a path is where the flattened list of
      the type it reaches sits in the flattened list of the whole. */
  lemma {:induction false} PathSlice(ma: bool, t: Type, path: seq<nat>)
    requires InBounds(t, path) && Placed(ma, t, path)
    ensures SliceAt(Flat(ma, t), OffsetAt(ma, t, path), Flat(ma, TypeAt(t, path)))
    decreases |path|
  {
    if path != [] {
      var u := Sub(t, path[0]);
      SliceStep(ma, t, path[0]);
      PathSlice(ma, u, path[1..]);
      SliceOfSlice(Flat(ma, t), Offset(ma, t, path[0]), Flat(ma, u), OffsetAt(ma, u, path[1..]),
        Flat(ma, TypeAt(u, path[1..])));
    }
  }

  // ---------- Leaves ----------

  predicate LeafPath(t: Type, path: seq<nat>) {
    InBounds(t, path) && TypeAt(t, path).Single?
  }

  /** No leaf lies below an array without elements, so every leaf has a place of its own. */
  lemma {:induction false} LeavesArePlaced(ma: bool, t: Type, path: seq<nat>)
    requires LeafPath(t, path)
    ensures Placed(ma, t, path)
    ensures t.ArrayTy? ==> Total(t) != 0
    decreases |path|
  {
    if path != [] {
      LeavesArePlaced(ma, Sub(t, path[0]), path[1..]);
      if t.ArrayTy? {
        TotalOfArray(t);
      }
    }
  }

  /** The offset of a leaf is the position of its type in the flattened list. */
  lemma LeafOffset(ma: bool, t: Type, path: seq<nat>)
    requires LeafPath(t, path)
    ensures OffsetAt(ma, t, path) < |Flat(ma, t)|
    ensures Flat(ma, t)[OffsetAt(ma, t, path)] == TypeAt(t, path)
  {
    LeavesArePlaced(ma, t, path);
    PathSlice(ma, t, path);
    var o := OffsetAt(ma, t, path);
    assert Flat(ma, t)[o] == Flat(ma, t)[o..o + 1][0];
  }

  /** The parts reached by different indices do not overlap, unless they are elements of an array
      that is not modelled. */
  lemma StepsApart(ma: bool, t: Type, i: nat, j: nat)
    requires Step(t, i) && Step(t, j) && i < j && (t.ArrayTy? ==> ma && Total(t) != 0)
    ensures Offset(ma, t, i) + |Flat(ma, Sub(t, i))| <= Offset(ma, t, j)
  {
    if t.StructTy? {
      var fs := t.fields;
      assert fs[..j] == fs[..i] + ([fs[i]] + fs[i + 1..j]);
      FlatAllConcat(ma, fs[..i], [fs[i]] + fs[i + 1..j]);
      FlatAllConcat(ma, [fs[i]], fs[i + 1..j]);
      assert FlatAll(ma, [fs[i]]) == Flat(ma, fs[i]) + FlatAll(ma, []);
    } else {
      TimesMono(i + 1, j, |Flat(true, t.elem)|);
    }
  }

  /** With arrays modelled, different leaves have different offsets. */
  lemma {:induction false} LeavesApart(t: Type, p: seq<nat>, q: seq<nat>)
    requires LeafPath(t, p) && LeafPath(t, q) && p != q
    ensures OffsetAt(true, t, p) != OffsetAt(true, t, q)
    decreases |p|
  {
    assert p != [] && q != [];
    LeavesArePlaced(true, t, p);
    LeafOffset(true, Sub(t, p[0]), p[1..]);
    LeafOffset(true, Sub(t, q[0]), q[1..]);
    if p[0] == q[0] {
      LeavesApart(Sub(t, p[0]), p[1..], q[1..]);
    } else if p[0] < q[0] {
      StepsApart(true, t, p[0], q[0]);
    } else {
      StepsApart(true, t, q[0], p[0]);
    }
  }

  /** The struct indices of a path, without the array indices. */
  function FieldsAlong(t: Type, path: seq<nat>): seq<nat>
    requires InBounds(t, path)
    decreases |path|
  {
    if path == [] then []
    else (if t.StructTy? then [path[0]] else []) + FieldsAlong(Sub(t, path[0]), path[1..])
  }

  /** Without arrays modelled, leaves share an offset exactly if their paths agree on all struct
      indices: elements of one array are not told apart, fields always are. */
  lemma {:induction false} LeavesShareOffset(t: Type, p: seq<nat>, q: seq<nat>)
    requires LeafPath(t, p) && LeafPath(t, q)
    ensures OffsetAt(false, t, p) == OffsetAt(false, t, q) <==> FieldsAlong(t, p) == FieldsAlong(t, q)
    decreases |p|
  {
    if p != [] && q != [] {
      var u, v := Sub(t, p[0]), Sub(t, q[0]);
      if u == v && (t.ArrayTy? || p[0] == q[0]) {
        LeavesShareOffset(u, p[1..], q[1..]);
        var k := if t.StructTy? then 1 else 0;
        assert FieldsAlong(t, p)[k..] == FieldsAlong(u, p[1..]) && FieldsAlong(t, q)[k..] == FieldsAlong(u, q[1..]);
      } else {
        LeafOffset(false, u, p[1..]);
        LeafOffset(false, v, q[1..]);
        StepsApart(false, t, if p[0] < q[0] then p[0] else q[0], if p[0] < q[0] then q[0] else p[0]);
        assert FieldsAlong(t, p)[0] == p[0] && FieldsAlong(t, q)[0] == q[0];
      }
    }
  }

  predicate NoEmptyArrays(t: Type) {
    match t
    case Single(_) => true
    case ArrayTy(count, elem) => count > 0 && NoEmptyArrays(elem)
    case StructTy(_, fields) => forall i | 0 <= i < |fields| :: NoEmptyArrays(fields[i])
  }

  lemma {:induction false} NoEmptyArraysTotal(t: Type)
    requires NoEmptyArrays(t)
    ensures Total(t) != 0
  {
    if t.ArrayTy? {
      NoEmptyArraysTotal(t.elem);
      TotalOfArray(t);
    }
  }

  /** The field in whose part of the flattened list position `k` lies. */
  lemma {:induction false} FieldAt(fs: seq<Type>, k: nat) returns (i: nat)
    requires k < |FlatAll(true, fs)|
    ensures i < |fs| && |FlatAll(true, fs[..i])| <= k < |FlatAll(true, fs[..i])| + |Flat(true, fs[i])|
  {
    if k < |Flat(true, fs[0])| {
      i := 0;
    } else {
      var j := FieldAt(fs[1..], k - |Flat(true, fs[0])|);
      i := j + 1;
      assert fs[..i] == [fs[0]] + fs[1..][..j];
      FlatAllConcat(true, [fs[0]], fs[1..][..j]);
      assert FlatAll(true, [fs[0]]) == Flat(true, fs[0]) + FlatAll(true, []);
    }
  }

  lemma LeafBelow(t: Type, i: nat, rest: seq<nat>)
    requires Step(t, i) && LeafPath(Sub(t, i), rest)
    ensures LeafPath(t, [i] + rest)
    ensures OffsetAt(true, t, [i] + rest) == Offset(true, t, i) + OffsetAt(true, Sub(t, i), rest)
  {
  }

  /** The element, of size `size`, in which position `k` lies. */
  lemma {:induction false} ElementAt(k: nat, size: nat, count: nat) returns (i: nat)
    requires k < Times(count, size)
    ensures i < count && Times(i, size) <= k < Times(i, size) + size
  {
    if k < size {
      i := 0;
    } else {
      var j := ElementAt(k - size, size, count - 1);
      i := j + 1;
    }
  }

  /** The index whose part of the flattened list holds position `k`. */
  lemma StepTo(t: Type, k: nat) returns (i: nat)
    requires NoEmptyArrays(t) && !t.Single? && k < |Flat(true, t)|
    ensures Step(t, i) && NoEmptyArrays(Sub(t, i))
    ensures Offset(true, t, i) <= k < Offset(true, t, i) + |Flat(true, Sub(t, i))|
  {
    if t.StructTy? {
      i := FieldAt(t.fields, k);
    } else {
      NoEmptyArraysTotal(t);
      FlatArray(t);
      i := ElementAt(k, |Flat(true, t.elem)|, t.count);
    }
  }

  /** With arrays modelled and no empty arrays, every position of the flattened list is that of a
      leaf: the leaves and the positions correspond one to one. */
  lemma {:induction false} EveryPositionIsALeaf(t: Type, k: nat) returns (path: seq<nat>)
    requires NoEmptyArrays(t) && k < |Flat(true, t)|
    ensures LeafPath(t, path) && OffsetAt(true, t, path) == k
    decreases t
  {
    if t.Single? {
      path := [];
    } else {
      var i := StepTo(t, k);
      assert Sub(t, i) < t;
      var rest := EveryPositionIsALeaf(Sub(t, i), k - Offset(true, t, i));
      LeafBelow(t, i, rest);
      path := [i] + rest;
    }
  }
}
