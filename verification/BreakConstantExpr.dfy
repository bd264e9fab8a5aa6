/** The pass that turns nested constant expressions into instructions. */
module BreakConstantExpr {
  import opened ConstantExprIR
  import opened ConstantExprSplit
  import opened ConstantExprStep

  /** The operands with every use of `ce` replaced by the result of instruction `id`. */
  function ReplaceUsesOfWith(vs: seq<Value>, ce: Value, id: nat): seq<Value> {
    seq(|vs|, k requires 0 <= k < |vs| => if vs[k] == ce then Inst(id) else vs[k])
  }

  /** Operands that were equal in `vs` are equal in `ws`. */
  ghost predicate KeepsEqual(vs: seq<Value>, ws: seq<Value>) {
    |ws| == |vs| && forall j, k | 0 <= j < |vs| && 0 <= k < |vs| && vs[j] == vs[k] :: ws[j] == ws[k]
  }

  /** The instruction is `n` with its operands split, equal ones alike. */
  ghost predicate IsSplitOf(f: seq<Block>, b: int, i: int, n: Instr) {
    InstrAt(f, b, i) && f[b][i].id == n.id && KeepsEqual(n.operands, f[b][i].operands)
  }

  class IRFunction {
    var blocks: seq<Block>
    var nextId: nat

    constructor (f: seq<Block>, bound: nat)
      requires FunctionValid(f, bound)
      ensures blocks == f && nextId == bound
    {
      blocks, nextId := f, bound;
    }

    /** The state of the pass over a function that was `f0`, in which the numbers below `first`
        were taken. */
    ghost predicate Splitting(f0: seq<Block>, first: nat, o: Origin)
      reads this
    {
      && FunctionValid(blocks, nextId) && Splits(f0, blocks, o)
      && forall k :: k in o ==> first <= k < nextId
    }

    /** Inserts the instruction for `ce` before the one at (`p`, `q`). */
    method ConvertExpression(ce: Value, p: nat, q: nat) returns (id: nat)
      requires ce.ConstExpr? && InstrAt(blocks, p, q)
      modifies this
      ensures id == old(nextId) && nextId == id + 1
      ensures blocks == InsertAt(old(blocks), p, q, AsInstruction(ce, id))
    {
      id := nextId;
      blocks := InsertAt(blocks, p, q, AsInstruction(ce, id));
      nextId := nextId + 1;
    }

    /** Splits operand `index` of the instruction at (`b`, `i`), which is the one numbered `self`. */
    method SplitOut(b: nat, i: nat, index: nat, p: nat, q: nat, vs: seq<Value>,
                    ghost f0: seq<Block>, ghost first: nat, ghost o: Origin, ghost w: set<nat>)
      returns (id: nat, i': nat, ghost o': Origin)
      requires Splitting(f0, first, o) && first <= nextId && Splittable(blocks, nextId, b, i, index, p, q, vs)
      requires Covered(blocks, w) && blocks[b][i].id in w
      modifies this
      ensures Splitting(f0, first, o') && first <= nextId && id == old(nextId)
      ensures FunctionSize(blocks) < FunctionSize(old(blocks)) && Covered(blocks, w + {id})
      ensures forall k :: HasId(old(blocks), k) || k == id ==> HasId(blocks, k)
      ensures InstrAt(blocks, b, i') && blocks[b][i'] == old(blocks)[b][i].(operands := vs)
    {
      hide FunctionValid, Splits, FunctionSize, HasId, Covered;
      ghost var ce := blocks[b][i].operands[index];
      ghost var f2 := SplitOperand(blocks, nextId, b, i, index, p, q, vs);
      SplitFacts(f0, blocks, o, nextId, b, i, index, p, q, vs, w);
      o' := o[nextId := ce];
      id, i' := ReplaceOperand(b, i, index, p, q, vs);
      assert blocks == f2;
    }

    method ReplaceOperand(b: nat, i: nat, index: nat, p: nat, q: nat, vs: seq<Value>) returns (id: nat, i': nat)
      requires Splittable(blocks, nextId, b, i, index, p, q, vs)
      modifies this
      ensures id == old(nextId) && nextId == id + 1 && i' == Shifted(b, i, p, q)
      ensures blocks == SplitOperand(old(blocks), id, b, i, index, p, q, vs)
    {
      var n := blocks[b][i];
      id := ConvertExpression(n.operands[index], p, q);
      i' := Shifted(b, i, p, q);
      blocks := ReplaceAt(blocks, b, i', n.(operands := vs));
    }

    /** What holds while the operands of the instruction `self` are being split: `start` is the
        function before that, `w` the rest of the worklist, `pushed` what has been added to it. */
    ghost predicate Progress(f0: seq<Block>, first: nat, o: Origin, start: seq<Block>, w: set<nat>, self: nat,
            pushed: seq<nat>)
      reads this
    {
      && Splitting(f0, first, o) && first <= nextId
      && Covered(blocks, w + {self} + Numbers(pushed))
      && (forall k :: HasId(start, k) || k in pushed ==> HasId(blocks, k))
      && (FunctionSize(blocks) < FunctionSize(start) || (pushed == [] && blocks == start))
    }

    /** Splits operand `index` of the instruction at (`b`, `i`), if it has to be, leaving `vs` as
        operands and inserting the new instruction at (`p`, `q`). */
    method ProcessOperand(b: nat, i: nat, index: nat, p: nat, q: nat, vs: seq<Value>, pushed: seq<nat>,
                          ghost f0: seq<Block>, ghost first: nat, ghost o: Origin, ghost start: seq<Block>,
                          ghost w: set<nat>)
      returns (i': nat, pushed': seq<nat>, ghost o': Origin)
      requires InstrAt(blocks, b, i) && Progress(f0, first, o, start, w, blocks[b][i].id, pushed)
      requires Splittable(blocks, nextId, b, i, index, p, q, vs)
      modifies this
      ensures Progress(f0, first, o', start, w, old(blocks)[b][i].id, pushed')
      ensures InstrAt(blocks, b, i') && blocks[b][i'] == old(blocks)[b][i].(operands := vs)
      ensures b < |old(blocks)| && |blocks| == |old(blocks)|
    {
      hide FunctionValid, FunctionSize;
      ghost var self := blocks[b][i].id;
      ghost var w0 := w + {self} + Numbers(pushed);
      var id;
      id, i', o' := SplitOut(b, i, index, p, q, vs, f0, first, o, w0);
      pushed' := pushed + [id];
      assert w + {self} + Numbers(pushed') == w0 + {id};
    }

    /** Splits the operands of an instruction that is not a phi. Equal ones are replaced by one new
        instruction. */
    method ProcessInstruction(b: nat, i0: nat, ghost f0: seq<Block>, ghost first: nat, ghost o: Origin,
                              ghost w: set<nat>)
      returns (pushed: seq<nat>, ghost o': Origin)
      requires InstrAt(blocks, b, i0) && blocks[b][i0].op != PHI
      requires Progress(f0, first, o, blocks, w, blocks[b][i0].id, [])
      modifies this
      ensures Progress(f0, first, o', old(blocks), w, old(blocks)[b][i0].id, pushed)
      ensures Covered(blocks, w + Numbers(pushed))
      ensures b < |old(blocks)| && exists i :: IsSplitOf(blocks, b, i, old(blocks)[b][i0])
    {
      hide FunctionValid, Splits, FunctionSize, HasId, Covered, HasConstantExpr;
      ghost var start, self := blocks, blocks[b][i0].id;
      var i, index := i0, 0;
      pushed, o' := [], o;
      var count := |blocks[b][i].operands|;
      while index < count
        invariant index <= count && Progress(f0, first, o', start, w, self, pushed)
        invariant InstrAt(blocks, b, i) && blocks[b][i].id == self && blocks[b][i].op != PHI
        invariant |blocks[b][i].operands| == count && KeepsEqual(start[b][i0].operands, blocks[b][i].operands)
        invariant DoneUpTo(blocks[b][i].operands, index)
      {
        var vs := blocks[b][i].operands;
        if HasConstantExpr(vs[index]) {
          ghost var next := nextId;
          var vs' := ReplaceUsesOfWith(vs, vs[index], nextId);
          i, pushed, o' := ProcessOperand(b, i, index, b, i, vs', pushed, f0, first, o', start, w);
          DoneMore(vs, vs', vs[index], next, index);
        }
        index := index + 1;
      }
      SelfIsDone(blocks, nextId, b, i, w, Numbers(pushed));
      assert IsSplitOf(blocks, b, i, start[b][i0]);
    }

    /** Splits operand `index` of a phi, before the terminator of the block that it comes from. */
    method ProcessPhiOperand(b: nat, i: nat, index: nat, pushed: seq<nat>,
                             ghost f0: seq<Block>, ghost first: nat, ghost o: Origin, ghost start: seq<Block>,
                             ghost w: set<nat>)
      returns (i': nat, pushed': seq<nat>, ghost o': Origin)
      requires InstrAt(blocks, b, i) && blocks[b][i].op == PHI && index < |blocks[b][i].operands|
      requires HasConstantExpr(blocks[b][i].operands[index]) && DoneUpTo(blocks[b][i].operands, index)
      requires Progress(f0, first, o, start, w, blocks[b][i].id, pushed)
      modifies this
      ensures Progress(f0, first, o', start, w, old(blocks)[b][i].id, pushed')
      ensures InstrAt(blocks, b, i') && blocks[b][i'].id == old(blocks)[b][i].id && blocks[b][i'].op == PHI
      ensures |blocks[b][i'].operands| == |old(blocks)[b][i].operands| && DoneUpTo(blocks[b][i'].operands, index + 1)
    {
      var n := blocks[b][i];
      assert InstrAt(blocks, b, i) && InstrValid(n, |blocks|, nextId) && PhiUniform(n);
      var p := n.preds[index];
      var q := |blocks[p]| - 1;                     // the terminator of the incoming block
      var vs' := SetIncomingFrom(n.preds, n.operands, index, nextId);
      ghost var next := nextId;
      PhiSplittable(blocks, nextId, b, i, index);
      i', pushed', o' := ProcessOperand(b, i, index, p, q, vs', pushed, f0, first, o, start, w);
      DoneMore(n.operands, vs', n.operands[index], next, index);
    }

    /** Splits the operands of a phi, each in the block that it comes from. */
    method ProcessPhi(b: nat, i0: nat, ghost f0: seq<Block>, ghost first: nat, ghost o: Origin, ghost w: set<nat>)
      returns (pushed: seq<nat>, ghost o': Origin)
      requires InstrAt(blocks, b, i0) && blocks[b][i0].op == PHI
      requires Progress(f0, first, o, blocks, w, blocks[b][i0].id, [])
      modifies this
      ensures Progress(f0, first, o', old(blocks), w, old(blocks)[b][i0].id, pushed)
      ensures Covered(blocks, w + Numbers(pushed))
    {
      ghost var start, self := blocks, blocks[b][i0].id;
      var i, index := i0, 0;
      pushed, o' := [], o;
      var count := |blocks[b][i].operands|;
      while index < count
        invariant index <= count && Progress(f0, first, o', start, w, self, pushed)
        invariant InstrAt(blocks, b, i) && blocks[b][i].id == self && blocks[b][i].op == PHI
        invariant |blocks[b][i].operands| == count
        invariant DoneUpTo(blocks[b][i].operands, index)
      {
        if HasConstantExpr(blocks[b][i].operands[index]) {
          i, pushed, o' := ProcessPhiOperand(b, i, index, pushed, f0, first, o', start, w);
        }
        index := index + 1;
      }
      SelfIsDone(blocks, nextId, b, i, w, Numbers(pushed));
    }

    /** Finds the instruction numbered `id`. */
    method Locate(id: nat) returns (b: nat, i: nat)
      requires HasId(blocks, id)
      ensures InstrAt(blocks, b, i) && blocks[b][i].id == id
    {
      b, i := 0, 0;
      while b < |blocks|
        invariant b <= |blocks|
        invariant forall c: nat, j: nat :: c < b && InstrAt(blocks, c, j) ==> blocks[c][j].id != id
      {
        i := 0;
        while i < |blocks[b]|
          invariant i <= |blocks[b]|
          invariant forall j :: 0 <= j < i ==> blocks[b][j].id != id
        {
          if blocks[b][i].id == id {
            return;
          }
          i := i + 1;
        }
        b := b + 1;
      }
      assert false;
    }

    /** Takes the instruction numbered `id` off the worklist and splits its operands. */
    method ProcessNext(id: nat, ghost f0: seq<Block>, ghost first: nat, ghost o: Origin, ghost w: set<nat>)
      returns (pushed: seq<nat>, ghost o': Origin)
      requires HasId(blocks, id) && Progress(f0, first, o, blocks, w, id, [])
      modifies this
      ensures Progress(f0, first, o', old(blocks), w, id, pushed)
      ensures Covered(blocks, w + Numbers(pushed))
    {
      var b, i := Locate(id);
      if blocks[b][i].op == PHI {
        pushed, o' := ProcessPhi(b, i, f0, first, o, w);
      } else {
        pushed, o' := ProcessInstruction(b, i, f0, first, o, w);
      }
    }

    /** The instructions with operands to split, one mention for each such operand. */
    method InitialWorklist() returns (worklist: seq<nat>)
      ensures Covered(blocks, Numbers(worklist))
      ensures forall k :: k in worklist ==> HasBreakable(blocks, k)
    {
      worklist := [];
      var b := 0;
      while b < |blocks|
        invariant b <= |blocks|
        invariant forall k :: k in worklist ==> HasBreakable(blocks, k)
        invariant forall c, j {:trigger InstrAt(blocks, c, j)} ::
                    InstrAt(blocks, c, j) && c < b && NeedsBreaking(blocks[c][j]) ==> blocks[c][j].id in worklist
      {
        var i := 0;
        while i < |blocks[b]|
          invariant i <= |blocks[b]|
          invariant forall k :: k in worklist ==> HasBreakable(blocks, k)
          invariant forall c, j {:trigger InstrAt(blocks, c, j)} ::
                      InstrAt(blocks, c, j) && (c < b || (c == b && j < i)) && NeedsBreaking(blocks[c][j]) ==>
                        blocks[c][j].id in worklist
        {
          var found := Mentions(b, i);
          worklist := worklist + found;
          i := i + 1;
        }
        b := b + 1;
      }
    }

    method Mentions(b: nat, i: nat) returns (found: seq<nat>)
      requires InstrAt(blocks, b, i)
      ensures NeedsBreaking(blocks[b][i]) ==> blocks[b][i].id in found
      ensures forall k :: k in found ==> k == blocks[b][i].id && NeedsBreaking(blocks[b][i])
    {
      found := [];
      var vs := blocks[b][i].operands;
      var index := 0;
      while index < |vs|
        invariant index <= |vs|
        invariant found == [] ==> DoneUpTo(vs, index)
        invariant forall k :: k in found ==> k == blocks[b][i].id && NeedsBreaking(blocks[b][i])
      {
        if HasConstantExpr(vs[index]) {
          found := found + [blocks[b][i].id];
        }
        index := index + 1;
      }
      if found != [] {
        assert found[0] in found;
      }
    }

    /** Splits out every constant expression that has to be. The result is related to the original
        by `o`, which maps each new instruction to the expression it computes. */
    method RunOnFunction() returns (modified: bool, ghost o: Origin)
      requires FunctionValid(blocks, nextId)
      modifies this
      ensures FunctionValid(blocks, nextId) && Splits(old(blocks), blocks, o)
      ensures forall k :: k in o ==> old(nextId) <= k
      ensures NormalForm(blocks)
      ensures modified <==> !NormalForm(old(blocks))
      ensures !modified ==> blocks == old(blocks)
    {
      ghost var f0, first := blocks, nextId;
      o := map[];
      NothingSplit(f0);
      var worklist := InitialWorklist();
      modified := |worklist| > 0;
      ModifiedIffBreakable(f0, worklist);
      while |worklist| > 0
        invariant Working(f0, first, o, worklist)
        invariant !modified ==> worklist == [] && blocks == f0
        decreases FunctionSize(blocks), |worklist|
      {
        worklist, o := ProcessLast(worklist, f0, first, o);
      }
      NormalIffNoneNeedsBreaking(f0);
      NormalIffNoneNeedsBreaking(blocks);
    }

    /** What holds while `worklist` is being emptied: it covers all that is left to split. */
    ghost predicate Working(f0: seq<Block>, first: nat, o: Origin, worklist: seq<nat>)
      reads this
    {
      && Splitting(f0, first, o) && first <= nextId
      && Covered(blocks, Numbers(worklist))
      && forall k :: k in worklist ==> HasId(blocks, k)
    }

    /** Takes the last instruction off the worklist; either the constant expressions have become
        smaller altogether, or they have not changed and nothing was added to the worklist. */
    method ProcessLast(worklist: seq<nat>, ghost f0: seq<Block>, ghost first: nat, ghost o: Origin)
      returns (worklist': seq<nat>, ghost o': Origin)
      requires |worklist| > 0 && Working(f0, first, o, worklist)
      modifies this
      ensures Working(f0, first, o', worklist')
      ensures FunctionSize(blocks) < FunctionSize(old(blocks)) ||
        (FunctionSize(blocks) == FunctionSize(old(blocks)) && |worklist'| < |worklist|)
    {
      var id := worklist[|worklist| - 1];
      var rest := worklist[..|worklist| - 1];
      LastNumber(worklist);
      var pushed;
      pushed, o' := ProcessNext(id, f0, first, o, Numbers(rest));
      worklist' := rest + pushed;
      NumbersNext(rest, pushed);
    }
  }

  /** What splitting one operand keeps, and what it makes smaller. */
  lemma SplitFacts(f0: seq<Block>, f: seq<Block>, o: Origin, bound: nat, b: nat, i: nat, index: nat, p: nat, q: nat,
          vs: seq<Value>, w: set<nat>)
    requires FunctionValid(f, bound) && Splittable(f, bound, b, i, index, p, q, vs) && Splits(f0, f, o)
    requires Covered(f, w) && f[b][i].id in w
    ensures var f2 := SplitOperand(f, bound, b, i, index, p, q, vs);
      && FunctionValid(f2, bound + 1) && Splits(f0, f2, o[bound := f[b][i].operands[index]])
      && FunctionSize(f2) < FunctionSize(f) && Covered(f2, w + {bound})
      && (forall k :: HasId(f, k) || k == bound ==> HasId(f2, k))
      && InstrAt(f2, b, Shifted(b, i, p, q)) && f2[b][Shifted(b, i, p, q)] == f[b][i].(operands := vs)
  {
    SplitIsValid(f, bound, b, i, index, p, q, vs);
    SplitKeepsMeaning(f0, f, o, bound, b, i, index, p, q, vs);
    SplitShrinks(f, bound, b, i, index, p, q, vs);
    SplitKeepsIds(f, bound, b, i, index, p, q, vs, w);
  }

  lemma ModifiedIffBreakable(f: seq<Block>, worklist: seq<nat>)
    requires Covered(f, Numbers(worklist)) && forall k :: k in worklist ==> HasBreakable(f, k)
    ensures |worklist| > 0 <==> exists k :: HasBreakable(f, k)
    ensures forall k :: k in worklist ==> HasId(f, k)
  {
    if |worklist| > 0 {
      assert HasBreakable(f, worklist[0]);
    }
    forall k | HasBreakable(f, k)
      ensures |worklist| > 0
    {
      var b: nat, i: nat :| InstrAt(f, b, i) && f[b][i].id == k && NeedsBreaking(f[b][i]);
      assert k in Numbers(worklist);
    }
    forall k | k in worklist
      ensures HasId(f, k)
    {
      var b: nat, i: nat :| InstrAt(f, b, i) && f[b][i].id == k && NeedsBreaking(f[b][i]);
    }
  }

  ghost function Numbers(w: seq<nat>): set<nat> {
    set k | k in w
  }

  ghost predicate HasBreakable(f: seq<Block>, id: nat) {
    exists b: nat, i: nat :: InstrAt(f, b, i) && f[b][i].id == id && NeedsBreaking(f[b][i])
  }

  predicate DoneUpTo(vs: seq<Value>, n: nat)
    requires n <= |vs|
  {
    forall k :: 0 <= k < n ==> !HasConstantExpr(vs[k])
  }

  /** The incoming values of a phi with `Inst(id)` for the block of entry `index`, from there on. */
  function SetIncomingFrom(preds: seq<nat>, vs: seq<Value>, index: nat, id: nat): seq<Value>
    requires |preds| == |vs| && index < |vs|
  {
    seq(|vs|, k requires 0 <= k < |vs| => if k >= index && preds[k] == preds[index] then Inst(id) else vs[k])
  }

  /** Entries before `index` for the same block would hold the same value, and have been split. */
  lemma PhiSplittable(f: seq<Block>, bound: nat, b: nat, i: nat, index: nat)
    requires FunctionValid(f, bound) && InstrAt(f, b, i) && f[b][i].op == PHI && index < |f[b][i].operands|
    requires |f[b][i].preds| == |f[b][i].operands| && f[b][i].preds[index] < |f|
    requires HasConstantExpr(f[b][i].operands[index]) && DoneUpTo(f[b][i].operands, index)
    ensures var n := f[b][i]; var p := n.preds[index];
      Splittable(f, bound, b, i, index, p, |f[p]| - 1, SetIncomingFrom(n.preds, n.operands, index, bound))
  {
  }

  lemma {:induction false} ErasesNothing(b: Block)
    ensures Erase(map[], b) == b
  {
    if b != [] {
      ErasesNothing(b[..|b| - 1]);
      assert ResolveAll(map[], b[|b| - 1].operands) == b[|b| - 1].operands;
    }
  }

  lemma NothingSplit(f: seq<Block>)
    ensures Splits(f, f, map[])
  {
    forall b | 0 <= b < |f|
      ensures Erase(map[], f[b]) == f[b]
    {
      ErasesNothing(f[b]);
    }
  }

  /** An instruction without operands to split need not be on the worklist. */
  lemma SelfIsDone(f: seq<Block>, bound: nat, b: nat, i: nat, w: set<nat>, p: set<nat>)
    requires FunctionValid(f, bound) && InstrAt(f, b, i) && DoneUpTo(f[b][i].operands, |f[b][i].operands|)
    requires Covered(f, w + {f[b][i].id} + p)
    ensures Covered(f, w + p)
  {
  }

  lemma DoneMore(vs: seq<Value>, vs': seq<Value>, ce: Value, id: nat, index: nat)
    requires Substitutes(vs, vs', ce, id, index) && DoneUpTo(vs, index)
    ensures DoneUpTo(vs', index + 1)
  {
  }

  lemma NumbersNext(rest: seq<nat>, pushed: seq<nat>)
    ensures Numbers(rest + pushed) == Numbers(rest) + Numbers(pushed)
  {
  }

  lemma LastNumber(worklist: seq<nat>)
    requires |worklist| > 0
    ensures var id, rest := worklist[|worklist| - 1], worklist[..|worklist| - 1];
      && id in worklist && Numbers(worklist) == Numbers(rest) + {id} + Numbers([])
      && forall k :: k in rest ==> k in worklist
  {
  }

  /** `f` is `f0` with constant expressions split out into instructions numbered from `first` on. */
  ghost predicate SplitFrom(f0: seq<Block>, f: seq<Block>, first: nat) {
    exists o: Origin :: Splits(f0, f, o) && forall k :: k in o ==> first <= k
  }

  /** Main result: on every path, whatever the opcodes mean, the function left by the pass computes
      for each original instruction what the function before it computes, and leaves the same
      memory. */
  lemma PassPreservesMeaning<V(!new), M(!new)>(x: Machine<V, M>, f0: seq<Block>, f: seq<Block>, first: nat, bound: nat,
                                               path: seq<nat>, s: Run<V, M>)
    requires x.Valid() && SplitFrom(f0, f, first) && FunctionValid(f, bound)
    requires forall k | 0 <= k < |path| :: path[k] < |f|
    requires s.trace == []
    ensures |f0| == |f|
    ensures exists o: Origin ::
      (forall k :: k in o ==> first <= k) && Agree(x, o, ExecPath(x, f0, path, s), ExecPath(x, f, path, s))
  {
    var o: Origin :| Splits(f0, f, o) && forall k :: k in o ==> first <= k;
    SplitPreservesRuns(x, f0, f, o, bound, path, s);
  }

  /** Nowhere in an operand occurs an expression that is to be broken. */
  ghost predicate NormalForm(f: seq<Block>) {
    forall b, i, k {:trigger OperandAt(f, b, i, k)} :: OperandAt(f, b, i, k) ==> !HoldsBreakable(f[b][i].operands[k])
  }

  ghost predicate OperandAt(f: seq<Block>, b: int, i: int, k: int) {
    InstrAt(f, b, i) && 0 <= k < |f[b][i].operands|
  }

  lemma NormalIffNoneNeedsBreaking(f: seq<Block>)
    ensures NormalForm(f) <==> forall b, i {:trigger InstrAt(f, b, i)} :: InstrAt(f, b, i) ==> !NeedsBreaking(f[b][i])
    ensures NormalForm(f) <==> !exists id :: HasBreakable(f, id)
  {
    forall b, i, k | OperandAt(f, b, i, k)
      ensures HoldsBreakable(f[b][i].operands[k]) <==> HasConstantExpr(f[b][i].operands[k])
    {
      HasConstantExprIffOccurs(f[b][i].operands[k]);
    }
    forall b, i | InstrAt(f, b, i) && NeedsBreaking(f[b][i])
      ensures !NormalForm(f) && HasBreakable(f, f[b][i].id)
    {
      var k :| 0 <= k < |f[b][i].operands| && HasConstantExpr(f[b][i].operands[k]);
      assert OperandAt(f, b, i, k);
    }
    if !NormalForm(f) {
      var b, i, k :| OperandAt(f, b, i, k) && HoldsBreakable(f[b][i].operands[k]);
      assert InstrAt(f, b, i) && NeedsBreaking(f[b][i]);
    }
  }

  /** `g` holds the result of the pass on a function that was `f0`. */
  ghost predicate Broken(g: IRFunction, f0: seq<Block>, first: nat)
    reads g
  {
    FunctionValid(g.blocks, g.nextId) && NormalForm(g.blocks) && SplitFrom(f0, g.blocks, first)
  }

  /** Runs the pass on every function of a module. */
  method RunOnModule(functions: seq<IRFunction>) returns (modified: bool)
    requires forall j, k :: 0 <= j < k < |functions| ==> functions[j] != functions[k]
    requires forall j :: 0 <= j < |functions| ==> FunctionValid(functions[j].blocks, functions[j].nextId)
    modifies functions
    ensures forall j :: 0 <= j < |functions| ==>
      Broken(functions[j], old(functions[j].blocks), old(functions[j].nextId))
    ensures modified <==> exists j :: 0 <= j < |functions| && !NormalForm(old(functions[j].blocks))
    ensures !modified ==> forall j :: 0 <= j < |functions| ==> functions[j].blocks == old(functions[j].blocks)
  {
    hide FunctionValid, SplitFrom;
    modified := false;
    var i := 0;
    while i < |functions|
      invariant i <= |functions|
      invariant forall j :: 0 <= j < i ==> Broken(functions[j], old(functions[j].blocks), old(functions[j].nextId))
      invariant forall j :: i <= j < |functions| ==>
                  functions[j].blocks == old(functions[j].blocks) && functions[j].nextId == old(functions[j].nextId)
      invariant modified <==> exists j :: 0 <= j < i && !NormalForm(old(functions[j].blocks))
      invariant !modified ==> forall j :: 0 <= j < i ==> functions[j].blocks == old(functions[j].blocks)
    {
      var m := BreakFunction(functions[i]);
      modified := modified || m;
      i := i + 1;
    }
  }

  method BreakFunction(g: IRFunction) returns (modified: bool)
    requires FunctionValid(g.blocks, g.nextId)
    modifies g
    ensures Broken(g, old(g.blocks), old(g.nextId))
    ensures modified <==> !NormalForm(old(g.blocks))
    ensures !modified ==> g.blocks == old(g.blocks)
  {
    ghost var f0, first := g.blocks, g.nextId;
    ghost var o;
    modified, o := g.RunOnFunction();
    assert SplitFrom(f0, g.blocks, first);
  }
}
