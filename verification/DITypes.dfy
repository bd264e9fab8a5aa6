/** Debug-information types, their equivalence, and what makes two of them equivalent. */
module DITypes {

  datatype Encoding = Signed | Unsigned | Boolean | Float | SignedChar | UnsignedChar | OtherEncoding(code: nat)

  datatype Tag =
    | ConstType | AtomicType | VolatileType | RestrictType | Typedef
    | ArrayType | ClassType | StructureType | UnionType | EnumerationType
    | Member | PointerType | PtrToMemberType | ReferenceType | RvalueReferenceType
    | Inheritance | Friend | OtherTag(code: nat)

  /** A type; `Null` is void. Objects are told apart by `id`, so equality of values is identity.
      The fields of structs and classes take no part in what follows. */
  datatype DIType =
    | Null
    | BasicType(id: nat, encoding: Encoding, sizeInBits: nat, alignInBits: nat)
    | SubroutineType(id: nat)
    | DerivedType(id: nat, tag: Tag, baseType: DIType)
    | CompositeType(id: nat, tag: Tag, baseType: DIType, identifier: string, name: string, file: nat, line: nat)

  predicate IsQualifier(tag: Tag) {
    tag.ConstType? || tag.AtomicType? || tag.VolatileType? || tag.RestrictType? || tag.Typedef?
  }

  predicate IsAddress(tag: Tag) {
    tag.Member? || tag.PointerType? || tag.PtrToMemberType? || tag.ReferenceType? || tag.RvalueReferenceType?
  }

  predicate IsAggregate(tag: Tag) {
    tag.ClassType? || tag.StructureType? || tag.UnionType? || tag.EnumerationType?
  }

  /** The types on which stripping passes its assertions. */
  predicate Supported(t: DIType) {
    match t
    case DerivedType(_, tag, base) => (IsQualifier(tag) || IsAddress(tag)) && Supported(base)
    case CompositeType(_, tag, base, _, _, _, _) => (tag == ArrayType && Supported(base)) || IsAggregate(tag)
    case _ => true
  }

  /** The type beneath all qualifiers and type definitions on top. */
  function Stripped(t: DIType): (r: DIType)
    ensures !(r.DerivedType? && IsQualifier(r.tag))
    ensures Supported(t) ==> Supported(r)
    ensures r == t || r < t
  {
    if t.DerivedType? && IsQualifier(t.tag) then Stripped(t.baseType) else t
  }

  method StripQualifiers(t: DIType) returns (r: DIType)
    requires Supported(t)
    ensures r == Stripped(t)
  {
    r := t;
    while r.DerivedType? && IsQualifier(r.tag)
      invariant Supported(r) && Stripped(r) == Stripped(t)
      decreases r
    {
      r := r.baseType;
    }
  }

  predicate IsIntegral(e: Encoding) {
    e == Signed || e == Unsigned || e == Boolean
  }

  predicate IsCharacter(e: Encoding) {
    e == SignedChar || e == UnsignedChar
  }

  predicate SameEncoding(e: Encoding, f: Encoding) {
    (IsIntegral(e) && IsIntegral(f)) || (e == Float && f == Float) || (IsCharacter(e) && IsCharacter(f))
  }

  predicate HasBase(t: DIType) {
    t.DerivedType? || (t.CompositeType? && t.tag == ArrayType)
  }

  /** Are two types equivalent, whatever their qualifiers? */
  predicate Teq(t1: DIType, t2: DIType)
    decreases t1, t2
  {
    var s1, s2 := Stripped(t1), Stripped(t2);
    if s1 == s2 then true
    else if s1.Null? || s2.Null? then false
    else if s1.BasicType? && s2.BasicType? then
      SameEncoding(s1.encoding, s2.encoding) && s1.sizeInBits == s2.sizeInBits && s1.alignInBits == s2.alignInBits
    else if HasBase(s1) && HasBase(s2) then Teq(s1.baseType, s2.baseType)
    else if s1.CompositeType? && s2.CompositeType? then
      s1.tag == s2.tag &&
      (s1.tag == EnumerationType ||
       (if s1.tag == ClassType then s1.identifier == s2.identifier
        else s1.name == s2.name && s1.file == s2.file && s1.line == s2.line))
    else false
  }

  // ---------- What an equivalence class is ----------

  /** The class of a type: integers, floats and characters by size; all pointers, references,
      arrays and members of one kind of base; enumerations, all one; classes by mangled name;
      structs and unions by where they are defined; the rest only themselves. */
  datatype Class =
    | Void
    | Integer(size: nat, align: nat)
    | FloatingPoint(size: nat, align: nat)
    | Character(size: nat, align: nat)
    | AddressOf(base: Class)
    | AnyEnumeration
    | ClassNamed(identifier: string)
    | DefinedAt(tag: Tag, name: string, file: nat, line: nat)
    | OnlyItself(t: DIType)

  function ClassOf(t: DIType): Class {
    match t
    case Null => Void
    case BasicType(_, encoding, size, align) =>
      (match encoding
       case Signed | Unsigned | Boolean => Integer(size, align)
       case Float => FloatingPoint(size, align)
       case SignedChar | UnsignedChar => Character(size, align)
       case OtherEncoding(_) => OnlyItself(t))
    case SubroutineType(_) => OnlyItself(t)
    case DerivedType(_, tag, base) =>
      (match tag
       case ConstType | AtomicType | VolatileType | RestrictType | Typedef => ClassOf(base)
       case _ => AddressOf(ClassOf(base)))
    case CompositeType(_, tag, base, identifier, name, file, line) =>
      if tag == ArrayType then AddressOf(ClassOf(base))
      else if tag == EnumerationType then AnyEnumeration
      else if tag == ClassType then ClassNamed(identifier)
      else DefinedAt(tag, name, file, line)
  }

  lemma {:induction false} ClassOfStripped(t: DIType)
    ensures ClassOf(Stripped(t)) == ClassOf(t)
  {
    if t.DerivedType? && IsQualifier(t.tag) {
      ClassOfStripped(t.baseType);
    }
  }

  /** Main result on the comparison: it holds exactly between members of one class. */
  lemma {:induction false} TeqIffSameClass(t1: DIType, t2: DIType)
    ensures Teq(t1, t2) <==> ClassOf(t1) == ClassOf(t2)
    decreases t1, t2
  {
    hide Supported;
    var s1, s2 := Stripped(t1), Stripped(t2);
    ClassOfStripped(t1);
    ClassOfStripped(t2);
    if s1 != s2 && HasBase(s1) && HasBase(s2) {
      TeqIffSameClass(s1.baseType, s2.baseType);
    }
  }

  lemma {:induction false} AddressIsOther(c: Class)
    ensures AddressOf(c) != c
  {
    if c.AddressOf? {
      AddressIsOther(c.base);
    }
  }

  /** What each tag of a derived type does: qualifiers and type definitions are transparent; an
      address of a type, or a member of it, is never equivalent to the type. */
  lemma TagsDecide(id: nat, tag: Tag, base: DIType)
    ensures tag in {ConstType, AtomicType, VolatileType, RestrictType, Typedef} ==>
      Stripped(DerivedType(id, tag, base)) == Stripped(base) && Teq(DerivedType(id, tag, base), base)
    ensures tag in {PointerType, PtrToMemberType, ReferenceType, RvalueReferenceType, Member} ==>
      Stripped(DerivedType(id, tag, base)) == DerivedType(id, tag, base) && !Teq(DerivedType(id, tag, base), base)
  {
    TeqIffSameClass(DerivedType(id, tag, base), base);
    AddressIsOther(ClassOf(base));
  }

  /** The comparison is an equivalence relation, blind to qualifiers on top. */
  lemma TeqIsAnEquivalence(a: DIType, b: DIType, c: DIType)
    ensures Teq(a, a)
    ensures Teq(a, b) ==> Teq(b, a)
    ensures Teq(a, b) && Teq(b, c) ==> Teq(a, c)
    ensures Teq(a, Stripped(a))
  {
    TeqIffSameClass(a, a);
    TeqIffSameClass(a, b);
    TeqIffSameClass(b, a);
    TeqIffSameClass(b, c);
    TeqIffSameClass(a, c);
    TeqIffSameClass(a, Stripped(a));
    ClassOfStripped(a);
  }

  // ---------- Canonical types ----------

  ghost predicate Inequivalent(s: set<DIType>) {
    forall a, b | a in s && b in s && Teq(a, b) :: a == b
  }

  /** A table of answers into a set of pairwise inequivalent representatives. */
  ghost predicate Quotient(m: map<DIType, DIType>, s: set<DIType>) {
    && Inequivalent(s)
    && (forall c | c in s :: Supported(c) && Stripped(c) == c)
    && (forall k | k in m :: m[k] in s && Teq(k, m[k]))
  }

  /** What one query does to the set of representatives, and what it answers. */
  ghost predicate Answered(s: set<DIType>, t: DIType, s': set<DIType>, r: DIType) {
    s <= s' && Inequivalent(s') && r in s' && Teq(t, r)
  }

  lemma SameAnswerIffEquivalent(s: set<DIType>, a: DIType, ra: DIType, b: DIType, rb: DIType)
    requires Inequivalent(s) && ra in s && rb in s && Teq(a, ra) && Teq(b, rb)
    ensures ra == rb <==> Teq(a, b)
  {
    TeqIffSameClass(a, ra);
    TeqIffSameClass(b, rb);
    TeqIffSameClass(a, b);
    TeqIffSameClass(ra, rb);
  }

  /** A run of queries: the representatives before each and after the last, and the answers. */
  ghost predicate IsRun(ss: seq<set<DIType>>, ts: seq<DIType>, rs: seq<DIType>) {
    |ss| == |ts| + 1 && |rs| == |ts|
    && forall i, j | 0 <= i < |ts| && j == i + 1 :: Answered(ss[i], ts[i], ss[j], rs[i])
  }

  lemma {:induction false} RunGrows(ss: seq<set<DIType>>, ts: seq<DIType>, rs: seq<DIType>, i: nat, j: nat)
    requires IsRun(ss, ts, rs) && i <= j <= |ts|
    ensures ss[i] <= ss[j]
    decreases j - i
  {
    if i < j {
      assert Answered(ss[i], ts[i], ss[i + 1], rs[i]);
      RunGrows(ss, ts, rs, i + 1, j);
    }
  }

  /** Over any sequence of calls, two answers are the same exactly if the questions are
      equivalent; in particular no answer ever changes. */
  lemma AnswersOverARun(ss: seq<set<DIType>>, ts: seq<DIType>, rs: seq<DIType>, i: nat, j: nat)
    requires IsRun(ss, ts, rs) && i <= j < |ts|
    ensures rs[i] == rs[j] <==> Teq(ts[i], ts[j])
  {
    assert Answered(ss[i], ts[i], ss[i + 1], rs[i]);
    assert Answered(ss[j], ts[j], ss[j + 1], rs[j]);
    RunGrows(ss, ts, rs, i + 1, j + 1);
    SameAnswerIffEquivalent(ss[j + 1], ts[i], rs[i], ts[j], rs[j]);
  }
}
