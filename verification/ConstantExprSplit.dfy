/** A function in which some constant expressions have been split out, related to the original:
    erasing the new instructions gives the original back, and every run computes the same. */
module ConstantExprSplit {
  import opened ConstantExprIR

  /** The expression that each new instruction stands for. */
  type Origin = map<nat, Value>

  function Resolve(o: Origin, v: Value): Value {
    if v.Inst? && v.id in o then o[v.id] else v
  }

  function ResolveAll(o: Origin, vs: seq<Value>): (r: seq<Value>)
    ensures |r| == |vs| && forall k :: 0 <= k < |vs| ==> r[k] == Resolve(o, vs[k])
  {
    seq(|vs|, k requires 0 <= k < |vs| => Resolve(o, vs[k]))
  }

  function ResolveInstr(o: Origin, i: Instr): Instr {
    i.(operands := ResolveAll(o, i.operands))
  }

  /** The block without its new instructions, and with the expressions they stand for put back. */
  function Erase(o: Origin, b: Block): Block {
    if b == [] then []
    else Erase(o, b[..|b| - 1]) + (if b[|b| - 1].id in o then [] else [ResolveInstr(o, b[|b| - 1])])
  }

  /** A new instruction computes the expression it stands for. */
  predicate NewOk(o: Origin, i: Instr) {
    i.id in o ==> IsConstant(o[i.id]) && o[i.id] == ConstExpr(i.op, ResolveAll(o, i.operands))
  }

  predicate Defines(b: Block, id: nat) {
    exists j | 0 <= j < |b| :: b[j].id == id
  }

  /** Whatever new instructions the instruction `i` of block `b` uses come before it: earlier in
      the block, or for a phi in the block that the value comes from. */
  ghost predicate UsesAvailable(o: Origin, f: seq<Block>, b: int, i: int)
    requires InstrAt(f, b, i)
  {
    var n := f[b][i];
    forall k | 0 <= k < |n.operands| && n.operands[k].Inst? && n.operands[k].id in o ::
      if n.op == PHI then k < |n.preds| && n.preds[k] < |f| && Defines(f[n.preds[k]], n.operands[k].id)
      else Defines(f[b][..i], n.operands[k].id)
  }

  ghost predicate Splits(f0: seq<Block>, f: seq<Block>, o: Origin) {
    && |f| == |f0|
    && (forall b | 0 <= b < |f| :: Erase(o, f[b]) == f0[b])
    && (forall b, i {:trigger InstrAt(f, b, i)} :: InstrAt(f, b, i) ==> NewOk(o, f[b][i]) && UsesAvailable(o, f, b, i))
  }

  // ---------- Every run computes the same ----------

  function OldTrace<V>(o: Origin, t: seq<(nat, V)>): seq<(nat, V)> {
    if t == [] then [] else OldTrace(o, t[..|t| - 1]) + (if t[|t| - 1].0 in o then [] else [t[|t| - 1]])
  }

  /** The runs `s` of the original and `t` of the split function agree on all original instructions. */
  ghost predicate Agree<V(!new), M(!new)>(x: Machine<V, M>, o: Origin, s: Run<V, M>, t: Run<V, M>) {
    && (forall k: nat {:trigger Lookup(x, t.env, k)} :: k !in o ==> Lookup(x, s.env, k) == Lookup(x, t.env, k))
    && s.mem == t.mem
    && s.trace == OldTrace(o, t.trace)
  }

  /** The new instruction `k` holds the value of its expression. */
  ghost predicate Known<V(!new), M(!new)>(x: Machine<V, M>, o: Origin, env: map<nat, V>, k: nat) {
    k in o ==> k in env && env[k] == Eval(x, map[], o[k])
  }

  lemma OperandAgrees<V(!new), M(!new)>(x: Machine<V, M>, o: Origin, s: Run<V, M>, t: Run<V, M>, v: Value)
    requires Agree(x, o, s, t) && (v.Inst? || IsConstant(v))
    requires v.Inst? && v.id in o ==> IsConstant(o[v.id]) && Known(x, o, t.env, v.id)
    ensures Eval(x, t.env, v) == Eval(x, s.env, Resolve(o, v))
  {
    if v.Inst? {
      if v.id in o {
        ConstantEval(x, map[], s.env, o[v.id]);
      }
    } else {
      ConstantEval(x, t.env, s.env, v);
    }
  }

  lemma OperandsAgree<V(!new), M(!new)>(x: Machine<V, M>, o: Origin, s: Run<V, M>, t: Run<V, M>, vs: seq<Value>)
    requires Agree(x, o, s, t)
    requires forall k :: 0 <= k < |vs| ==> vs[k].Inst? || IsConstant(vs[k])
    requires forall k :: 0 <= k < |vs| && vs[k].Inst? && vs[k].id in o ==>
      IsConstant(o[vs[k].id]) && Known(x, o, t.env, vs[k].id)
    ensures EvalAll(x, t.env, vs) == EvalAll(x, s.env, ResolveAll(o, vs))
  {
    forall k | 0 <= k < |vs|
      ensures Eval(x, t.env, vs[k]) == Eval(x, s.env, ResolveAll(o, vs)[k])
    {
      OperandAgrees(x, o, s, t, vs[k]);
    }
  }

  lemma {:induction false} PhiAgrees<V(!new), M(!new)>(x: Machine<V, M>, o: Origin, s: Run<V, M>, t: Run<V, M>,
                                                      preds: seq<nat>, vs: seq<Value>, prev: nat)
    requires Agree(x, o, s, t)
    requires forall k :: 0 <= k < |vs| ==> vs[k].Inst? || IsConstant(vs[k])
    requires forall k :: 0 <= k < |vs| && k < |preds| && preds[k] == prev && vs[k].Inst? && vs[k].id in o ==>
               IsConstant(o[vs[k].id]) && Known(x, o, t.env, vs[k].id)
    ensures PhiValue(x, t.env, preds, vs, prev) == PhiValue(x, s.env, preds, ResolveAll(o, vs), prev)
  {
    if preds != [] && vs != [] {
      if preds[0] == prev {
        OperandAgrees(x, o, s, t, vs[0]);
      } else {
        PhiAgrees(x, o, s, t, preds[1..], vs[1..], prev);
        assert ResolveAll(o, vs)[1..] == ResolveAll(o, vs[1..]);
      }
    }
  }

  /** A new instruction leaves the original run where it was, and makes its own value known. */
  lemma NewInstrAgrees<V(!new), M(!new)>(x: Machine<V, M>, o: Origin, s: Run<V, M>, t: Run<V, M>, i: Instr,
          prev: nat, entry: map<nat, V>)
    requires x.Valid() && Agree(x, o, s, t) && i.id in o && NewOk(o, i)
    requires forall k :: 0 <= k < |i.operands| ==> i.operands[k].Inst? || IsConstant(i.operands[k])
    requires forall k :: 0 <= k < |i.operands| && i.operands[k].Inst? && i.operands[k].id in o ==>
               IsConstant(o[i.operands[k].id]) && Known(x, o, t.env, i.operands[k].id)
    ensures var u := ExecInstr(x, i, prev, entry, t);
      Agree(x, o, s, u) && Known(x, o, u.env, i.id)
  {
    var u := ExecInstr(x, i, prev, entry, t);
    OperandsAgree(x, o, s, t, i.operands);
    var args := ResolveAll(o, i.operands);
    assert u.env == t.env[i.id := x.pure(i.op, EvalAll(x, s.env, args))];
    assert Eval(x, s.env, o[i.id]) == x.pure(i.op, EvalAll(x, s.env, args));
    ConstantEval(x, map[], s.env, o[i.id]);
    assert u.trace[..|u.trace| - 1] == t.trace;
    forall k: nat | k !in o
      ensures Lookup(x, s.env, k) == Lookup(x, u.env, k)
    {
      assert Lookup(x, s.env, k) == Lookup(x, t.env, k);
    }
  }

  /** An original instruction computes the same value in both runs. */
  lemma OldInstrAgrees<V(!new), M(!new)>(x: Machine<V, M>, o: Origin, s: Run<V, M>, t: Run<V, M>, i: Instr, prev: nat,
                                         s0: Run<V, M>, t0: Run<V, M>)
    requires Agree(x, o, s, t) && Agree(x, o, s0, t0) && i.id !in o
    requires forall k :: 0 <= k < |i.operands| ==> i.operands[k].Inst? || IsConstant(i.operands[k])
    requires forall k :: 0 <= k < |i.operands| && i.operands[k].Inst? && i.operands[k].id in o ==>
      IsConstant(o[i.operands[k].id])
    requires i.op != PHI ==> forall k :: 0 <= k < |i.operands| && i.operands[k].Inst? ==>
      Known(x, o, t.env, i.operands[k].id)
    requires i.op == PHI ==>
               forall k :: 0 <= k < |i.operands| && k < |i.preds| && i.preds[k] == prev && i.operands[k].Inst? ==>
                 Known(x, o, t0.env, i.operands[k].id)
    ensures Agree(x, o, ExecInstr(x, ResolveInstr(o, i), prev, s0.env, s), ExecInstr(x, i, prev, t0.env, t))
  {
    if i.op == PHI {
      PhiAgrees(x, o, s0, t0, i.preds, i.operands, prev);
    } else {
      OperandsAgree(x, o, s, t, i.operands);
    }
    var s' := ExecInstr(x, ResolveInstr(o, i), prev, s0.env, s);
    var t' := ExecInstr(x, i, prev, t0.env, t);
    assert t'.trace[..|t'.trace| - 1] == t.trace;
    forall k: nat | k !in o
      ensures Lookup(x, s'.env, k) == Lookup(x, t'.env, k)
    {
      assert Lookup(x, s.env, k) == Lookup(x, t.env, k);
    }
  }

  /** What running the instruction `i` after the block `c` needs to know about it; `ready` holds the
      new instructions whose values are known on entry from `prev`. */
  ghost predicate InstrReady(o: Origin, c: Block, i: Instr, prev: nat, ready: set<nat>) {
    && NewOk(o, i)
    && (forall k :: 0 <= k < |i.operands| ==> i.operands[k].Inst? || IsConstant(i.operands[k]))
    && (forall k :: 0 <= k < |i.operands| && i.operands[k].Inst? && i.operands[k].id in o ==>
          && IsConstant(o[i.operands[k].id])
          && (i.op != PHI ==> Defines(c, i.operands[k].id))
          && (i.op == PHI && k < |i.preds| && i.preds[k] == prev ==> i.operands[k].id in ready))
  }

  ghost predicate BlockReady(o: Origin, b: Block, prev: nat, ready: set<nat>) {
    forall i {:trigger b[i]} :: 0 <= i < |b| ==> InstrReady(o, b[..i], b[i], prev, ready)
  }

  /** The values known after the block `c`, entered with those of `ready` known. */
  ghost predicate AllKnown<V(!new), M(!new)>(x: Machine<V, M>, o: Origin, c: Block, ready: set<nat>, env: map<nat, V>) {
    forall k :: k in ready || Defines(c, k) ==> Known(x, o, env, k)
  }

  /** Running one more instruction: `s1` and `t1` are the runs after the block `c`. */
  lemma InstrStep<V(!new), M(!new)>(x: Machine<V, M>, o: Origin, c: Block, i: Instr, prev: nat, ready: set<nat>,
                                    s: Run<V, M>, t: Run<V, M>, s1: Run<V, M>, t1: Run<V, M>)
    requires x.Valid() && Agree(x, o, s, t) && InstrReady(o, c, i, prev, ready)
    requires AllKnown(x, o, [], ready, t.env)
    requires Agree(x, o, s1, t1) && AllKnown(x, o, c, ready, t1.env)
    ensures var s2 := if i.id in o then s1 else ExecInstr(x, ResolveInstr(o, i), prev, s.env, s1);
            var t2 := ExecInstr(x, i, prev, t.env, t1);
            Agree(x, o, s2, t2) && AllKnown(x, o, c + [i], ready, t2.env)
  {
    var t2 := ExecInstr(x, i, prev, t.env, t1);
    if i.id in o {
      NewInstrAgrees(x, o, s1, t1, i, prev, t.env);
    } else {
      OldInstrAgrees(x, o, s1, t1, i, prev, s, t);
    }
    forall k | k in ready || Defines(c + [i], k)
      ensures Known(x, o, t2.env, k)
    {
      if k != i.id {
        DefinedBefore(c, i, k);
      }
    }
  }

  lemma DefinedBefore(c: Block, i: Instr, k: nat)
    requires k != i.id
    ensures Defines(c + [i], k) <==> Defines(c, k)
  {
    if Defines(c + [i], k) {
      var j :| 0 <= j < |c + [i]| && (c + [i])[j].id == k;
      assert j < |c| && c[j].id == k;
    }
    if Defines(c, k) {
      var j :| 0 <= j < |c| && c[j].id == k;
      assert (c + [i])[j].id == k;
    }
  }

  /** Running one more instruction `i` after the block `c`. */
  lemma BlockStep<V(!new), M(!new)>(x: Machine<V, M>, o: Origin, c: Block, i: Instr, prev: nat, ready: set<nat>,
                                    s: Run<V, M>, t: Run<V, M>)
    requires x.Valid() && Agree(x, o, s, t) && InstrReady(o, c, i, prev, ready)
    requires AllKnown(x, o, [], ready, t.env)
    requires Agree(x, o, ExecBlock(x, Erase(o, c), prev, s), ExecBlock(x, c, prev, t))
    requires AllKnown(x, o, c, ready, ExecBlock(x, c, prev, t).env)
    ensures Agree(x, o, ExecBlock(x, Erase(o, c + [i]), prev, s), ExecBlock(x, c + [i], prev, t))
    ensures AllKnown(x, o, c + [i], ready, ExecBlock(x, c + [i], prev, t).env)
  {
    InstrStep(x, o, c, i, prev, ready, s, t, ExecBlock(x, Erase(o, c), prev, s), ExecBlock(x, c, prev, t));
    ExecBlockLast(x, c, i, prev, t);
    EraseLast(o, c, i);
    if i.id in o {
      assert Erase(o, c + [i]) == Erase(o, c);
    } else {
      ExecBlockLast(x, Erase(o, c), ResolveInstr(o, i), prev, s);
    }
  }

  lemma {:induction false} BlockAgrees<V(!new), M(!new)>(x: Machine<V, M>, o: Origin, b: Block, prev: nat,
                                                        ready: set<nat>, s: Run<V, M>, t: Run<V, M>)
    requires x.Valid() && Agree(x, o, s, t) && BlockReady(o, b, prev, ready) && AllKnown(x, o, [], ready, t.env)
    ensures Agree(x, o, ExecBlock(x, Erase(o, b), prev, s), ExecBlock(x, b, prev, t))
    ensures AllKnown(x, o, b, ready, ExecBlock(x, b, prev, t).env)
    decreases |b|
  {
    if b != [] {
      var c, i := b[..|b| - 1], b[|b| - 1];
      assert b == c + [i];
      BlockReadyPrefix(o, b, prev, ready);
      BlockAgrees(x, o, c, prev, ready, s, t);
      BlockStep(x, o, c, i, prev, ready, s, t);
    }
  }

  lemma BlockReadyPrefix(o: Origin, b: Block, prev: nat, ready: set<nat>)
    requires BlockReady(o, b, prev, ready) && b != []
    ensures BlockReady(o, b[..|b| - 1], prev, ready)
  {
    var c := b[..|b| - 1];
    forall j | 0 <= j < |c|
      ensures c[j] == b[j] && c[..j] == b[..j]
    {
    }
  }

  lemma EraseLast(o: Origin, c: Block, i: Instr)
    ensures Erase(o, c + [i]) == Erase(o, c) + if i.id in o then [] else [ResolveInstr(o, i)]
  {
  }

  lemma ExecBlockLast<V(!new), M(!new)>(x: Machine<V, M>, b: Block, i: Instr, prev: nat, s: Run<V, M>)
    ensures ExecBlock(x, b + [i], prev, s) == ExecInstr(x, i, prev, s.env, ExecBlock(x, b, prev, s))
  {
  }

  /** The instructions of the blocks on `path`. */
  ghost function Ready(f: seq<Block>, path: seq<nat>): set<nat>
    requires forall k | 0 <= k < |path| :: path[k] < |f|
  {
    if path == [] then {}
    else Ready(f, path[..|path| - 1]) + (set i: Instr | i in f[path[|path| - 1]] :: i.id)
  }

  /** Splitting preserves meaning: along every path, all original instructions compute the same
      values, in the same order and with the same effects on memory. */
  lemma {:induction false} SplitPreservesRuns<V(!new), M(!new)>(x: Machine<V, M>, f0: seq<Block>, f: seq<Block>,
                                                               o: Origin, bound: nat, path: seq<nat>, s: Run<V, M>)
    requires x.Valid() && Splits(f0, f, o) && FunctionValid(f, bound)
    requires forall k | 0 <= k < |path| :: path[k] < |f|
    requires s.trace == []
    ensures Agree(x, o, ExecPath(x, f0, path, s), ExecPath(x, f, path, s))
    ensures forall j :: j in Ready(f, path) ==> Known(x, o, ExecPath(x, f, path, s).env, j)
    decreases |path|
  {
    if path != [] {
      var n := |path| - 1;
      var prev := if n == 0 then |f| else path[n - 1];
      var rest := path[..n];
      SplitPreservesRuns(x, f0, f, o, bound, rest, s);
      BlockIsReady(f0, f, o, bound, rest, path[n], prev, Ready(f, rest));
      BlockAgrees(x, o, f[path[n]], prev, Ready(f, rest), ExecPath(x, f0, rest, s), ExecPath(x, f, rest, s));
    }
  }

  lemma BlockIsReady(f0: seq<Block>, f: seq<Block>, o: Origin, bound: nat, rest: seq<nat>, b: nat, prev: nat,
          ready: set<nat>)
    requires Splits(f0, f, o) && FunctionValid(f, bound) && b < |f|
    requires forall k | 0 <= k < |rest| :: rest[k] < |f|
    requires prev == if rest == [] then |f| else rest[|rest| - 1]
    requires ready == Ready(f, rest)
    ensures BlockReady(o, f[b], prev, ready)
  {
    forall i, k | 0 <= i < |f[b]| && 0 <= k < |f[b][i].operands| && f[b][i].operands[k].Inst? &&
      f[b][i].operands[k].id in o
      ensures IsConstant(o[f[b][i].operands[k].id])
      ensures f[b][i].op != PHI ==> Defines(f[b][..i], f[b][i].operands[k].id)
      ensures f[b][i].op == PHI && k < |f[b][i].preds| && f[b][i].preds[k] == prev ==> f[b][i].operands[k].id in ready
    {
      assert InstrAt(f, b, i) && UsesAvailable(o, f, b, i);
      var n := f[b][i];
      var d := if n.op == PHI then n.preds[k] else b;
      assert Defines(f[d], n.operands[k].id);
      var j :| 0 <= j < |f[d]| && f[d][j].id == n.operands[k].id;
      assert InstrAt(f, d, j) && NewOk(o, f[d][j]);
    }
    forall i | 0 <= i < |f[b]|
      ensures NewOk(o, f[b][i])
      ensures forall k :: 0 <= k < |f[b][i].operands| ==> f[b][i].operands[k].Inst? || IsConstant(f[b][i].operands[k])
    {
      assert InstrAt(f, b, i);
    }
  }
}
