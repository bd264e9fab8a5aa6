/** One step of the pass: inserting the instruction for a constant expression, and replacing the
    operands of an instruction by its result. */
module ConstantExprStep {
  import opened ConstantExprIR
  import opened ConstantExprSplit

  function InsertAt(f: seq<Block>, b: nat, i: nat, n: Instr): seq<Block>
    requires b < |f| && i <= |f[b]|
  {
    f[b := f[b][..i] + [n] + f[b][i..]]
  }

  function ReplaceAt(f: seq<Block>, b: nat, i: nat, n: Instr): seq<Block>
    requires InstrAt(f, b, i)
  {
    f[b := f[b][i := n]]
  }

  /** The instruction that computes the expression `ce`. */
  function AsInstruction(ce: Value, id: nat): Instr
    requires ce.ConstExpr?
  {
    Instr(id, ce.op, ce.args, [])
  }

  // ---------- How much there is to split ----------

  function Size(v: Value): nat
    decreases v, 1
  {
    if v.ConstExpr? then 1 + SizeAll(v.args) else 0
  }

  function SizeAll(vs: seq<Value>): nat
    decreases vs, 0
  {
    if vs == [] then 0 else SizeAll(vs[1..]) + Size(vs[0])
  }

  function BlockSize(b: Block): nat {
    if b == [] then 0 else SizeAll(b[0].operands) + BlockSize(b[1..])
  }

  /** The number of expression nodes in the operands of a function. */
  function FunctionSize(f: seq<Block>): nat {
    if f == [] then 0 else BlockSize(f[0]) + FunctionSize(f[1..])
  }

  lemma {:induction false} BlockSizeConcat(a: Block, b: Block)
    ensures BlockSize(a + b) == BlockSize(a) + BlockSize(b)
  {
    if a == [] {
      assert a + b == b;
    } else {
      assert (a + b)[1..] == a[1..] + b;
      BlockSizeConcat(a[1..], b);
    }
  }

  lemma {:induction false} FunctionSizeUpdate(f: seq<Block>, b: nat, c: Block)
    requires b < |f|
    ensures FunctionSize(f[b := c]) == FunctionSize(f) - BlockSize(f[b]) + BlockSize(c)
  {
    if b == 0 {
      assert f[0 := c][1..] == f[1..];
    } else {
      assert f[b := c][1..] == f[1..][b - 1 := c];
      FunctionSizeUpdate(f[1..], b - 1, c);
    }
  }

  lemma InsertSize(f: seq<Block>, b: nat, i: nat, n: Instr)
    requires b < |f| && i <= |f[b]|
    ensures FunctionSize(InsertAt(f, b, i, n)) == FunctionSize(f) + SizeAll(n.operands)
  {
    var c := f[b];
    BlockSizeConcat(c[..i] + [n], c[i..]);
    BlockSizeConcat(c[..i], [n]);
    BlockSizeConcat(c[..i], c[i..]);
    assert c == c[..i] + c[i..];
    assert BlockSize([n]) == SizeAll(n.operands) + BlockSize([]);
    FunctionSizeUpdate(f, b, c[..i] + [n] + c[i..]);
  }

  lemma ReplaceSize(f: seq<Block>, b: nat, i: nat, n: Instr)
    requires InstrAt(f, b, i)
    ensures FunctionSize(ReplaceAt(f, b, i, n)) == FunctionSize(f) - SizeAll(f[b][i].operands) + SizeAll(n.operands)
  {
    var c := f[b];
    assert c == c[..i] + [c[i]] + c[i + 1..];
    assert c[i := n] == c[..i] + [n] + c[i + 1..];
    BlockSizeConcat(c[..i] + [c[i]], c[i + 1..]);
    BlockSizeConcat(c[..i], [c[i]]);
    BlockSizeConcat(c[..i] + [n], c[i + 1..]);
    BlockSizeConcat(c[..i], [n]);
    assert BlockSize([n]) == SizeAll(n.operands) + BlockSize([]);
    assert BlockSize([c[i]]) == SizeAll(c[i].operands) + BlockSize([]);
    FunctionSizeUpdate(f, b, c[i := n]);
  }

  /** `vs'` is `vs` with `Inst(id)` in place of `ce` at some positions, among them `index`. */
  predicate Substitutes(vs: seq<Value>, vs': seq<Value>, ce: Value, id: nat, index: nat) {
    && index < |vs| == |vs'| && vs[index] == ce && vs'[index] == Inst(id)
    && forall k :: 0 <= k < |vs| ==> vs'[k] == vs[k] || (vs'[k] == Inst(id) && vs[k] == ce)
  }

  lemma {:induction false} SubstitutesSize(vs: seq<Value>, vs': seq<Value>, ce: Value, id: nat, index: nat)
    requires Substitutes(vs, vs', ce, id, index)
    ensures SizeAll(vs') + Size(ce) <= SizeAll(vs)
  {
    if index > 0 {
      SubstitutesSize(vs[1..], vs'[1..], ce, id, index - 1);
    } else {
      SubstitutedSize(vs[1..], vs'[1..], ce, id);
    }
  }

  lemma {:induction false} SubstitutedSize(vs: seq<Value>, vs': seq<Value>, ce: Value, id: nat)
    requires |vs| == |vs'| && forall k :: 0 <= k < |vs| ==> vs'[k] == vs[k] || (vs'[k] == Inst(id) && vs[k] == ce)
    ensures SizeAll(vs') <= SizeAll(vs)
  {
    if vs != [] {
      SubstitutedSize(vs[1..], vs'[1..], ce, id);
    }
  }

  // ---------- Erasing ----------

  lemma {:induction false} EraseConcat(o: Origin, a: Block, b: Block)
    ensures Erase(o, a + b) == Erase(o, a) + Erase(o, b)
    decreases |b|
  {
    if b == [] {
      assert a + b == a;
    } else {
      var n := |b| - 1;
      assert a + b == (a + b[..n]) + [b[n]];
      assert b == b[..n] + [b[n]];
      EraseConcat(o, a, b[..n]);
      EraseLast(o, a + b[..n], b[n]);
      EraseLast(o, b[..n], b[n]);
    }
  }

  /** No instruction of the block is numbered `id` or uses such an instruction. */
  predicate Fresh(b: Block, id: nat) {
    forall i :: 0 <= i < |b| ==>
      b[i].id != id && forall k :: 0 <= k < |b[i].operands| ==> b[i].operands[k] != Inst(id)
  }

  lemma {:induction false} EraseFresh(o: Origin, b: Block, id: nat, v: Value)
    requires Fresh(b, id)
    ensures Erase(o[id := v], b) == Erase(o, b)
  {
    if b != [] {
      var n := |b| - 1;
      EraseFresh(o, b[..n], id, v);
      assert ResolveAll(o[id := v], b[n].operands) == ResolveAll(o, b[n].operands);
    }
  }

  lemma FunctionFresh(f: seq<Block>, bound: nat, b: nat)
    requires FunctionValid(f, bound) && b < |f|
    ensures Fresh(f[b], bound)
  {
    forall i | 0 <= i < |f[b]|
      ensures f[b][i].id != bound && forall k :: 0 <= k < |f[b][i].operands| ==> f[b][i].operands[k] != Inst(bound)
    {
      assert InstrAt(f, b, i);
    }
  }

  // ---------- Inserting ----------

  /** Where the instruction at (`b`, `i`) is after one is inserted at (`p`, `q`). */
  function Shifted(b: int, i: int, p: nat, q: nat): int {
    if b == p && q <= i then i + 1 else i
  }

  /** The instruction at (`b`, `i`) after the insertion is new or comes from before. */
  lemma InsertedFrom(f: seq<Block>, p: nat, q: nat, n: Instr, b: int, i: int)
    requires p < |f| && q < |f[p]| && InstrAt(InsertAt(f, p, q, n), b, i)
    ensures var f' := InsertAt(f, p, q, n);
      if b == p && i == q then f'[b][i] == n
      else var j := if b == p && q < i then i - 1 else i;
        InstrAt(f, b, j) && f'[b][i] == f[b][j] && i == Shifted(b, j, p, q)
  {
  }

  lemma InsertedDefines(f: seq<Block>, p: nat, q: nat, n: Instr, b: nat, i: nat, id: nat)
    requires p < |f| && q < |f[p]| && b < |f| && i <= |f[b]|
    requires Defines(f[b][..i], id)
    ensures var f' := InsertAt(f, p, q, n);
      var i' := if b == p && q < i then i + 1 else i;
      i' <= |f'[b]| && Defines(f'[b][..i'], id)
  {
    var f' := InsertAt(f, p, q, n);
    var j :| 0 <= j < i && f[b][..i][j].id == id;
    var j' := Shifted(b, j, p, q);
    assert f'[b][j'] == f[b][j];
    var i' := if b == p && q < i then i + 1 else i;
    assert f'[b][..i'][j'].id == id;
  }

  lemma InsertValid(f: seq<Block>, bound: nat, p: nat, q: nat, ce: Value)
    requires FunctionValid(f, bound) && p < |f| && q < |f[p]| && ce.ConstExpr? && IsConstant(ce)
    ensures FunctionValid(InsertAt(f, p, q, AsInstruction(ce, bound)), bound + 1)
  {
    var n := AsInstruction(ce, bound);
    var f' := InsertAt(f, p, q, n);
    forall b, i | InstrAt(f', b, i)
      ensures InstrValid(f'[b][i], |f'|, bound + 1) && PhiUniform(f'[b][i])
    {
      InsertedFrom(f, p, q, n, b, i);
      if !(b == p && i == q) {
        var j := if b == p && q < i then i - 1 else i;
        assert InstrAt(f, b, j);
      }
    }
    forall b, i, c, j | InstrAt(f', b, i) && InstrAt(f', c, j) && f'[b][i].id == f'[c][j].id
      ensures b == c && i == j
    {
      InsertedFrom(f, p, q, n, b, i);
      InsertedFrom(f, p, q, n, c, j);
      var i0 := if b == p && q < i then i - 1 else i;
      var j0 := if c == p && q < j then j - 1 else j;
      if !(b == p && i == q) {
        assert InstrAt(f, b, i0) && InstrValid(f[b][i0], |f|, bound);
      }
      if !(c == p && j == q) {
        assert InstrAt(f, c, j0) && InstrValid(f[c][j0], |f|, bound);
      }
    }
    forall b | 0 <= b < |f'|
      ensures |f'[b]| > 0 && f'[b][|f'[b]| - 1].op != PHI
    {
      assert f'[b][|f'[b]| - 1] == f[b][|f[b]| - 1];
    }
  }

  lemma InsertErases(f0: seq<Block>, f: seq<Block>, o: Origin, bound: nat, p: nat, q: nat, ce: Value)
    requires FunctionValid(f, bound) && p < |f| && q < |f[p]| && ce.ConstExpr? && IsConstant(ce)
    requires Splits(f0, f, o)
    ensures var f' := InsertAt(f, p, q, AsInstruction(ce, bound));
      forall b | 0 <= b < |f'| :: Erase(o[bound := ce], f'[b]) == f0[b]
  {
    var n := AsInstruction(ce, bound);
    var f' := InsertAt(f, p, q, n);
    var o' := o[bound := ce];
    forall b | 0 <= b < |f'|
      ensures Erase(o', f'[b]) == f0[b]
    {
      FunctionFresh(f, bound, b);
      EraseFresh(o, f[b], bound, ce);
      if b == p {
        var c := f[b];
        assert c == c[..q] + c[q..];
        EraseConcat(o', c[..q], c[q..]);
        EraseConcat(o', c[..q] + [n], c[q..]);
        EraseLast(o', c[..q], n);
      }
    }
  }

  lemma InsertUses(f0: seq<Block>, f: seq<Block>, o: Origin, bound: nat, p: nat, q: nat, ce: Value, b: int, i: int)
    requires FunctionValid(f, bound) && p < |f| && q < |f[p]| && ce.ConstExpr? && IsConstant(ce)
    requires Splits(f0, f, o)
    requires InstrAt(InsertAt(f, p, q, AsInstruction(ce, bound)), b, i)
    ensures var f' := InsertAt(f, p, q, AsInstruction(ce, bound));
      NewOk(o[bound := ce], f'[b][i]) && UsesAvailable(o[bound := ce], f', b, i)
  {
    var n := AsInstruction(ce, bound);
    var f' := InsertAt(f, p, q, n);
    var o' := o[bound := ce];
    InsertedFrom(f, p, q, n, b, i);
    if b == p && i == q {
      forall k | 0 <= k < |ce.args|
        ensures !ce.args[k].Inst?
      {
        assert IsConstant(ce.args[k]);
      }
      assert ResolveAll(o', ce.args) == ce.args;
    } else {
      var j := if b == p && q < i then i - 1 else i;
      var old' := f[b][j];
      assert InstrAt(f, b, j) && InstrValid(old', |f|, bound) && UsesAvailable(o, f, b, j);
      assert ResolveAll(o', old'.operands) == ResolveAll(o, old'.operands);
      forall k | 0 <= k < |old'.operands| && old'.operands[k].Inst? && old'.operands[k].id in o'
        ensures if old'.op == PHI then Defines(f'[old'.preds[k]], old'.operands[k].id)
                else Defines(f'[b][..i], old'.operands[k].id)
      {
        if old'.op == PHI {
          var d := old'.preds[k];
          assert f[d][..|f[d]|] == f[d] && f'[d][..|f'[d]|] == f'[d];
          InsertedDefines(f, p, q, n, d, |f[d]|, old'.operands[k].id);
        } else {
          InsertedDefines(f, p, q, n, b, j, old'.operands[k].id);
          DefinesMore(f'[b], if b == p && q < j then j + 1 else j, i, old'.operands[k].id);
        }
      }
    }
  }

  lemma DefinesMore(b: Block, i: nat, j: nat, id: nat)
    requires i <= j <= |b| && Defines(b[..i], id)
    ensures Defines(b[..j], id)
  {
  }

  lemma InsertSplits(f0: seq<Block>, f: seq<Block>, o: Origin, bound: nat, p: nat, q: nat, ce: Value)
    requires FunctionValid(f, bound) && p < |f| && q < |f[p]| && ce.ConstExpr? && IsConstant(ce)
    requires Splits(f0, f, o)
    ensures Splits(f0, InsertAt(f, p, q, AsInstruction(ce, bound)), o[bound := ce])
  {
    var f' := InsertAt(f, p, q, AsInstruction(ce, bound));
    InsertErases(f0, f, o, bound, p, q, ce);
    forall b, i | InstrAt(f', b, i)
      ensures NewOk(o[bound := ce], f'[b][i]) && UsesAvailable(o[bound := ce], f', b, i)
    {
      InsertUses(f0, f, o, bound, p, q, ce, b, i);
    }
  }

  // ---------- Replacing operands ----------

  lemma ReplaceValid(f: seq<Block>, bound: nat, b: nat, i: nat, n: Instr)
    requires FunctionValid(f, bound) && InstrAt(f, b, i)
    requires n.id == f[b][i].id && n.op == f[b][i].op && InstrValid(n, |f|, bound) && PhiUniform(n)
    ensures FunctionValid(ReplaceAt(f, b, i, n), bound)
  {
    var f' := ReplaceAt(f, b, i, n);
    forall c, j | InstrAt(f', c, j)
      ensures InstrAt(f, c, j) && f'[c][j].id == f[c][j].id && InstrValid(f'[c][j], |f'|, bound) && PhiUniform(f'[c][j])
    {
      assert InstrAt(f, c, j);
    }
    forall c | 0 <= c < |f'|
      ensures |f'[c]| > 0 && f'[c][|f'[c]| - 1].op != PHI
    {
      assert f'[c][|f'[c]| - 1].op == f[c][|f[c]| - 1].op;
    }
  }

  lemma ReplaceDefines(f: seq<Block>, b: nat, i: nat, n: Instr, c: nat, j: nat, id: nat)
    requires InstrAt(f, b, i) && n.id == f[b][i].id && c < |f| && j <= |f[c]|
    requires Defines(f[c][..j], id)
    ensures Defines(ReplaceAt(f, b, i, n)[c][..j], id)
  {
    var k :| 0 <= k < j && f[c][..j][k].id == id;
    assert ReplaceAt(f, b, i, n)[c][..j][k].id == id;
  }

  lemma ReplaceSplits(f0: seq<Block>, f: seq<Block>, o: Origin, bound: nat, b: nat, i: nat, vs: seq<Value>)
    requires FunctionValid(f, bound) && InstrAt(f, b, i) && Splits(f0, f, o)
    requires ResolveAll(o, vs) == ResolveAll(o, f[b][i].operands)
    requires UsesAvailable(o, ReplaceAt(f, b, i, f[b][i].(operands := vs)), b, i)
    ensures Splits(f0, ReplaceAt(f, b, i, f[b][i].(operands := vs)), o)
  {
    var n := f[b][i].(operands := vs);
    var f' := ReplaceAt(f, b, i, n);
    var c := f[b];
    assert c == c[..i] + [c[i]] + c[i + 1..];
    assert c[i := n] == c[..i] + [n] + c[i + 1..];
    EraseConcat(o, c[..i] + [c[i]], c[i + 1..]);
    EraseConcat(o, c[..i] + [n], c[i + 1..]);
    EraseLast(o, c[..i], c[i]);
    EraseLast(o, c[..i], n);
    assert InstrAt(f, b, i) && NewOk(o, f[b][i]);
    forall d, j | InstrAt(f', d, j)
      ensures NewOk(o, f'[d][j]) && UsesAvailable(o, f', d, j)
    {
      assert InstrAt(f, d, j) && UsesAvailable(o, f, d, j);
      if !(d == b && j == i) {
        ReplaceKeepsUses(f, o, bound, b, i, n, d, j);
      }
    }
  }

  lemma ReplaceKeepsUses(f: seq<Block>, o: Origin, bound: nat, b: nat, i: nat, n: Instr, d: int, j: int)
    requires FunctionValid(f, bound) && InstrAt(f, b, i) && n.id == f[b][i].id
    requires InstrAt(f, d, j) && UsesAvailable(o, f, d, j) && !(d == b && j == i)
    ensures UsesAvailable(o, ReplaceAt(f, b, i, n), d, j)
  {
    var f' := ReplaceAt(f, b, i, n);
    var m := f[d][j];
    assert InstrValid(m, |f|, bound);
    forall k | 0 <= k < |m.operands| && m.operands[k].Inst? && m.operands[k].id in o
      ensures if m.op == PHI then Defines(f'[m.preds[k]], m.operands[k].id) else Defines(f'[d][..j], m.operands[k].id)
    {
      if m.op == PHI {
        var e := m.preds[k];
        assert f[e][..|f[e]|] == f[e] && f'[e][..|f'[e]|] == f'[e];
        ReplaceDefines(f, b, i, n, e, |f[e]|, m.operands[k].id);
      } else {
        ReplaceDefines(f, b, i, n, d, j, m.operands[k].id);
      }
    }
  }

  // ---------- Splitting one operand ----------

  ghost predicate HasId(f: seq<Block>, id: nat) {
    exists b: nat, i: nat :: InstrAt(f, b, i) && f[b][i].id == id
  }

  /** Every instruction with an operand to split has its number in `w`. */
  ghost predicate Covered(f: seq<Block>, w: set<nat>) {
    forall b, i {:trigger InstrAt(f, b, i)} :: InstrAt(f, b, i) && NeedsBreaking(f[b][i]) ==> f[b][i].id in w
  }

  /** Operand `index` of the instruction at (`b`, `i`) is to be split out. The new instruction goes
      to (`p`, `q`): before the instruction itself, or for a phi before the terminator of the block
      that the operand comes from. `vs` are the operands afterwards. */
  ghost predicate Splittable(f: seq<Block>, bound: nat, b: nat, i: nat, index: nat, p: nat, q: nat, vs: seq<Value>) {
    && InstrAt(f, b, i) && InstrAt(f, p, q)
    && var n := f[b][i];
       && index < |n.operands| && HasConstantExpr(n.operands[index])
       && Substitutes(n.operands, vs, n.operands[index], bound, index)
       && (n.op != PHI ==> p == b && q == i)
       && (n.op == PHI ==>
             && |n.preds| == |n.operands| && p == n.preds[index] && q == |f[p]| - 1
             && forall k :: 0 <= k < |vs| ==> (vs[k] == Inst(bound) <==> n.preds[k] == p))
  }

  function SplitOperand(f: seq<Block>, bound: nat, b: nat, i: nat, index: nat, p: nat, q: nat,
                        vs: seq<Value>): seq<Block>
    requires Splittable(f, bound, b, i, index, p, q, vs)
  {
    var f1 := InsertAt(f, p, q, AsInstruction(f[b][i].operands[index], bound));
    ReplaceAt(f1, b, Shifted(b, i, p, q), f[b][i].(operands := vs))
  }

  lemma SplitIsValid(f: seq<Block>, bound: nat, b: nat, i: nat, index: nat, p: nat, q: nat, vs: seq<Value>)
    requires FunctionValid(f, bound) && Splittable(f, bound, b, i, index, p, q, vs)
    ensures FunctionValid(SplitOperand(f, bound, b, i, index, p, q, vs), bound + 1)
  {
    var n := f[b][i];
    assert InstrAt(f, b, i) && InstrValid(n, |f|, bound) && PhiUniform(n);
    var ce := n.operands[index];
    assert IsConstant(ce);
    var f1 := InsertAt(f, p, q, AsInstruction(ce, bound));
    InsertValid(f, bound, p, q, ce);
    ReplaceValid(f1, bound + 1, b, Shifted(b, i, p, q), n.(operands := vs));
  }

  /** A new instruction used after the split comes early enough: the one just inserted, or one that
      was used before. */
  lemma SplitUseAvailable(f: seq<Block>, f1: seq<Block>, o: Origin, bound: nat, b: nat, i: nat, index: nat, p: nat,
          q: nat, vs: seq<Value>, k: nat)
    requires Splittable(f, bound, b, i, index, p, q, vs)
    requires f1 == InsertAt(f, p, q, AsInstruction(f[b][i].operands[index], bound))
    requires InstrAt(f1, b, Shifted(b, i, p, q)) && f1[b][Shifted(b, i, p, q)] == f[b][i]
    requires UsesAvailable(o, f1, b, Shifted(b, i, p, q))
    requires k < |vs| && vs[k].Inst? && vs[k].id in o
    requires f[b][i].op == PHI ==> k < |f[b][i].preds| && f[b][i].preds[k] < |f|
    ensures var n, f2 := f[b][i], SplitOperand(f, bound, b, i, index, p, q, vs);
      if n.op == PHI then Defines(f2[n.preds[k]], vs[k].id) else Defines(f2[b][..Shifted(b, i, p, q)], vs[k].id)
  {
    var n, i1 := f[b][i], Shifted(b, i, p, q);
    var f2: seq<Block> := ReplaceAt(f1, b, i1, n.(operands := vs));
    if vs[k] == Inst(bound) {
      assert f2[p][q].id == bound;
      assert n.op != PHI ==> f2[b][..i1][q].id == bound;
    } else {
      assert n.operands[k] == vs[k];
      if n.op == PHI {
        var d := n.preds[k];
        assert f1[d][..|f1[d]|] == f1[d] && f2[d][..|f2[d]|] == f2[d];
        ReplaceDefines(f1, b, i1, n.(operands := vs), d, |f1[d]|, vs[k].id);
      } else {
        ReplaceDefines(f1, b, i1, n.(operands := vs), b, i1, vs[k].id);
      }
    }
  }

  lemma SplitKeepsMeaning(f0: seq<Block>, f: seq<Block>, o: Origin, bound: nat, b: nat, i: nat, index: nat, p: nat,
          q: nat, vs: seq<Value>)
    requires FunctionValid(f, bound) && Splittable(f, bound, b, i, index, p, q, vs) && Splits(f0, f, o)
    ensures Splits(f0, SplitOperand(f, bound, b, i, index, p, q, vs), o[bound := f[b][i].operands[index]])
  {
    var n := f[b][i];
    assert InstrAt(f, b, i) && InstrValid(n, |f|, bound);
    var ce := n.operands[index];
    var o' := o[bound := ce];
    var f1 := InsertAt(f, p, q, AsInstruction(ce, bound));
    var i1 := Shifted(b, i, p, q);
    InsertValid(f, bound, p, q, ce);
    InsertSplits(f0, f, o, bound, p, q, ce);
    assert f1[b][i1] == n && InstrAt(f1, b, i1) && UsesAvailable(o', f1, b, i1);
    assert ResolveAll(o', vs) == ResolveAll(o', n.operands);
    var f2 := ReplaceAt(f1, b, i1, n.(operands := vs));
    forall k | 0 <= k < |vs| && vs[k].Inst? && vs[k].id in o'
      ensures if n.op == PHI then Defines(f2[n.preds[k]], vs[k].id) else Defines(f2[b][..i1], vs[k].id)
    {
      SplitUseAvailable(f, f1, o', bound, b, i, index, p, q, vs, k);
    }
    ReplaceSplits(f0, f1, o', bound + 1, b, i1, vs);
  }

  lemma SplitShrinks(f: seq<Block>, bound: nat, b: nat, i: nat, index: nat, p: nat, q: nat, vs: seq<Value>)
    requires Splittable(f, bound, b, i, index, p, q, vs)
    ensures FunctionSize(SplitOperand(f, bound, b, i, index, p, q, vs)) < FunctionSize(f)
  {
    var n := f[b][i];
    var ce := n.operands[index];
    InsertSize(f, p, q, AsInstruction(ce, bound));
    var f1 := InsertAt(f, p, q, AsInstruction(ce, bound));
    assert f1[b][Shifted(b, i, p, q)] == n;
    ReplaceSize(f1, b, Shifted(b, i, p, q), n.(operands := vs));
    SubstitutesSize(n.operands, vs, ce, bound, index);
  }

  lemma SplitKeepsIds(f: seq<Block>, bound: nat, b: nat, i: nat, index: nat, p: nat, q: nat, vs: seq<Value>,
          w: set<nat>)
    requires FunctionValid(f, bound) && Splittable(f, bound, b, i, index, p, q, vs)
    ensures var f2 := SplitOperand(f, bound, b, i, index, p, q, vs);
      && (forall id :: HasId(f, id) || id == bound ==> HasId(f2, id))
      && (Covered(f, w) && f[b][i].id in w ==> Covered(f2, w + {bound}))
      && InstrAt(f2, b, Shifted(b, i, p, q)) && f2[b][Shifted(b, i, p, q)] == f[b][i].(operands := vs)
  {
    var n := AsInstruction(f[b][i].operands[index], bound);
    var f1 := InsertAt(f, p, q, n);
    var f2 := SplitOperand(f, bound, b, i, index, p, q, vs);
    forall id | HasId(f, id) || id == bound
      ensures HasId(f2, id)
    {
      if id == bound {
        assert InstrAt(f2, p, q) && f2[p][q].id == bound;
      } else {
        var c: nat, j: nat :| InstrAt(f, c, j) && f[c][j].id == id;
        assert InstrAt(f2, c, Shifted(c, j, p, q)) && f2[c][Shifted(c, j, p, q)].id == id;
      }
    }
    if Covered(f, w) && f[b][i].id in w {
      forall c, j | InstrAt(f2, c, j) && NeedsBreaking(f2[c][j])
        ensures f2[c][j].id in w + {bound}
      {
        assert InstrAt(f1, c, j);
        InsertedFrom(f, p, q, n, c, j);
      }
    }
  }
}
