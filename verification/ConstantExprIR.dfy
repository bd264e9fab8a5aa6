/** A small view of LLVM functions: blocks of instructions whose operands may be nested constant
    expressions, and what it means to run them. */
module ConstantExprIR {

  /** `Cast` stands for every other opcode a constant expression may have, `Effect` for the
      remaining instructions: memory accesses, calls and terminators. */
  datatype Op = GetElementPtr | Binary(code: nat) | Unary(code: nat) | Cast(code: nat) | Effect(code: nat) | PHI

  /** `Const` stands for every constant that is not an expression, and for function arguments. */
  datatype Value = Const(name: nat) | Inst(id: nat) | ConstExpr(op: Op, args: seq<Value>)

  /** An instruction. The operands of a phi come from the blocks `preds`, in this order. */
  datatype Instr = Instr(id: nat, op: Op, operands: seq<Value>, preds: seq<nat>)

  type Block = seq<Instr>

  predicate HasConstantGEP(v: Value) {
    v.ConstExpr? && (v.op == GetElementPtr || exists i | 0 <= i < |v.args| :: HasConstantGEP(v.args[i]))
  }

  predicate HasConstantBinaryOrUnaryOp(v: Value) {
    v.ConstExpr? && (v.op.Binary? || v.op.Unary? ||
      exists i | 0 <= i < |v.args| :: HasConstantBinaryOrUnaryOp(v.args[i]))
  }

  /** The operand is an expression that the pass has to split out. */
  predicate HasConstantExpr(v: Value) {
    HasConstantGEP(v) || HasConstantBinaryOrUnaryOp(v)
  }

  predicate NeedsBreaking(i: Instr) {
    exists k | 0 <= k < |i.operands| :: HasConstantExpr(i.operands[k])
  }

  /** `u` is `v` itself, or occurs in an argument of the constant expression `v`. */
  ghost predicate Occurs(u: Value, v: Value) {
    u == v || (v.ConstExpr? && exists i | 0 <= i < |v.args| :: Occurs(u, v.args[i]))
  }

  /** A `getelementptr`, binary or unary expression occurs in `v`. */
  ghost predicate HoldsBreakable(v: Value) {
    exists u :: Occurs(u, v) && u.ConstExpr? && (u.op == GetElementPtr || u.op.Binary? || u.op.Unary?)
  }

  lemma {:induction false} GEPOccurs(v: Value)
    ensures HasConstantGEP(v) <==> exists u :: Occurs(u, v) && u.ConstExpr? && u.op == GetElementPtr
  {
    if v.ConstExpr? {
      forall i | 0 <= i < |v.args|
        ensures HasConstantGEP(v.args[i]) <==> exists u :: Occurs(u, v.args[i]) && u.ConstExpr? && u.op == GetElementPtr
      {
        GEPOccurs(v.args[i]);
      }
    }
  }

  lemma {:induction false} BinaryOrUnaryOpOccurs(v: Value)
    ensures HasConstantBinaryOrUnaryOp(v) <==>
      exists u :: Occurs(u, v) && u.ConstExpr? && (u.op.Binary? || u.op.Unary?)
  {
    if v.ConstExpr? {
      forall i | 0 <= i < |v.args|
        ensures HasConstantBinaryOrUnaryOp(v.args[i]) <==>
          exists u :: Occurs(u, v.args[i]) && u.ConstExpr? && (u.op.Binary? || u.op.Unary?)
      {
        BinaryOrUnaryOpOccurs(v.args[i]);
      }
    }
  }

  /** The tests find an expression at whatever depth it occurs, and nothing else. */
  lemma HasConstantExprIffOccurs(v: Value)
    ensures HasConstantExpr(v) <==> HoldsBreakable(v)
  {
    GEPOccurs(v);
    BinaryOrUnaryOpOccurs(v);
  }

  // ---------- Well-formed functions ----------

  predicate ExprOp(op: Op) {
    !op.Effect? && op != PHI
  }

  /** A value that no execution can change: no instruction occurs in it. */
  predicate IsConstant(v: Value) {
    match v
    case Const(_) => true
    case Inst(_) => false
    case ConstExpr(op, args) => ExprOp(op) && forall i | 0 <= i < |args| :: IsConstant(args[i])
  }

  predicate OperandValid(v: Value, bound: nat) {
    if v.Inst? then v.id < bound else IsConstant(v)
  }

  predicate InstrValid(i: Instr, blocks: nat, bound: nat) {
    && i.id < bound
    && (forall k | 0 <= k < |i.operands| :: OperandValid(i.operands[k], bound))
    && (i.op == PHI ==> |i.preds| == |i.operands| && forall k | 0 <= k < |i.preds| :: i.preds[k] < blocks)
  }

  /** A phi names the same value for every mention of the same incoming block. */
  predicate PhiUniform(i: Instr) {
    i.op == PHI && |i.preds| == |i.operands| ==>
      forall j, k | 0 <= j < |i.preds| && 0 <= k < |i.preds| && i.preds[j] == i.preds[k] ::
        i.operands[j] == i.operands[k]
  }

  predicate InstrAt(f: seq<Block>, b: int, i: int) {
    0 <= b < |f| && 0 <= i < |f[b]|
  }

  /** Instructions have distinct numbers below `bound`, and every block ends in a terminator. */
  ghost predicate FunctionValid(f: seq<Block>, bound: nat) {
    && (forall b, i {:trigger InstrAt(f, b, i)} :: InstrAt(f, b, i) ==>
      InstrValid(f[b][i], |f|, bound) && PhiUniform(f[b][i]))
    && (forall b | 0 <= b < |f| :: |f[b]| > 0 && f[b][|f[b]| - 1].op != PHI)
    && (forall b, i, c, j {:trigger InstrAt(f, b, i), InstrAt(f, c, j)} ::
          InstrAt(f, b, i) && InstrAt(f, c, j) && f[b][i].id == f[c][j].id ==> b == c && i == j)
  }

  // ---------- Running a function ----------

  /** The meaning of opcodes: `pure` for those of constant expressions, `exec` for instructions. */
  datatype Machine<!V(!new), !M(!new)> = Machine(
    constant: nat -> V,
    pure: (Op, seq<V>) -> V,
    exec: (Op, seq<V>, M) -> (V, M),
    undef: V)
  {
    /** An instruction with the opcode of an expression computes that expression. */
    ghost predicate Valid() {
      forall op, args, m :: ExprOp(op) ==> exec(op, args, m) == (pure(op, args), m)
    }
  }

  /** `trace` lists the instructions executed so far with the values they computed. */
  datatype Run<V, M> = Run(env: map<nat, V>, mem: M, trace: seq<(nat, V)>)

  function Lookup<V(!new), M(!new)>(x: Machine<V, M>, env: map<nat, V>, id: nat): V {
    if id in env then env[id] else x.undef
  }

  function Eval<V(!new), M(!new)>(x: Machine<V, M>, env: map<nat, V>, v: Value): V {
    match v
    case Const(name) => x.constant(name)
    case Inst(id) => Lookup(x, env, id)
    case ConstExpr(op, args) => x.pure(op, seq(|args|, i requires 0 <= i < |args| => Eval(x, env, args[i])))
  }

  function EvalAll<V(!new), M(!new)>(x: Machine<V, M>, env: map<nat, V>, vs: seq<Value>): seq<V> {
    seq(|vs|, i requires 0 <= i < |vs| => Eval(x, env, vs[i]))
  }

  /** What a phi evaluates to on entry from `prev`, in the environment at the end of `prev`. */
  function PhiValue<V(!new), M(!new)>(x: Machine<V, M>, entry: map<nat, V>, preds: seq<nat>, operands: seq<Value>,
          prev: nat): V {
    if preds == [] || operands == [] then x.undef
    else if preds[0] == prev then Eval(x, entry, operands[0])
    else PhiValue(x, entry, preds[1..], operands[1..], prev)
  }

  function ExecInstr<V(!new), M(!new)>(x: Machine<V, M>, i: Instr, prev: nat, entry: map<nat, V>,
                                       s: Run<V, M>): Run<V, M>
  {
    var r := if i.op == PHI then (PhiValue(x, entry, i.preds, i.operands, prev), s.mem)
             else x.exec(i.op, EvalAll(x, s.env, i.operands), s.mem);
    Run(s.env[i.id := r.0], r.1, s.trace + [(i.id, r.0)])
  }

  /** Runs a block entered from `prev`; its phis read the environment in which it is entered. */
  function ExecBlock<V(!new), M(!new)>(x: Machine<V, M>, b: Block, prev: nat, s: Run<V, M>): Run<V, M> {
    if b == [] then s
    else ExecInstr(x, b[|b| - 1], prev, s.env, ExecBlock(x, b[..|b| - 1], prev, s))
  }

  /** Runs the blocks of `path`, whichever branches it takes. The first one is entered from the
      outside: no block has the number |f|. */
  function ExecPath<V(!new), M(!new)>(x: Machine<V, M>, f: seq<Block>, path: seq<nat>, s: Run<V, M>): Run<V, M>
    requires forall k | 0 <= k < |path| :: path[k] < |f|
  {
    if path == [] then s
    else
      var n := |path| - 1;
      var prev := if n == 0 then |f| else path[n - 1];
      ExecBlock(x, f[path[n]], prev, ExecPath(x, f, path[..n], s))
  }

  /** Constants mean the same in every environment. */
  lemma {:induction false} ConstantEval<V(!new), M(!new)>(x: Machine<V, M>, env: map<nat, V>, env': map<nat, V>,
          v: Value)
    requires IsConstant(v)
    ensures Eval(x, env, v) == Eval(x, env', v)
  {
    match v
    case Const(_) =>
    case ConstExpr(op, args) =>
      forall i | 0 <= i < |args|
        ensures Eval(x, env, args[i]) == Eval(x, env', args[i])
      {
        ConstantEval(x, env, env', args[i]);
      }
      assert seq(|args|, i requires 0 <= i < |args| => Eval(x, env, args[i]))
          == seq(|args|, i requires 0 <= i < |args| => Eval(x, env', args[i]));
    case Inst(_) =>
  }
}
