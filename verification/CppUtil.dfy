/** Angle brackets in demangled C++ names. */
module CppUtil {

  predicate Open(input: string, k: nat) {
    k < |input| && input[k] == '<'
  }

  /** A closing bracket, not the end of an arrow; the very first character never counts. */
  predicate Closer(input: string, k: nat) {
    0 < k < |input| && input[k] == '>' && input[k - 1] != '-'
  }

  predicate Bracket(input: string, k: nat) {
    Open(input, k) || Closer(input, k)
  }

  /** The last bracket before position `n`, or -1. */
  function LastBracket(input: string, n: nat): (k: int)
    requires n <= |input|
    ensures -1 <= k < n
    ensures k >= 0 ==> Bracket(input, k)
    ensures forall j: nat | k < j < n :: !Bracket(input, j)
  {
    if n == 0 then -1 else if Bracket(input, n - 1) then n - 1 else LastBracket(input, n - 1)
  }

  /** Every closing bracket before `n` whose preceding bracket is an opening one, with that one. */
  function InnermostPairs(input: string, n: nat): seq<(nat, nat)>
    requires n <= |input|
  {
    if n == 0 then []
    else
      var o := LastBracket(input, n - 1);
      InnermostPairs(input, n - 1) + if Closer(input, n - 1) && o >= 0 && Open(input, o) then [(o, n - 1)] else []
  }

  /** A pair of brackets with no bracket in between. */
  predicate IsInnermost(input: string, o: nat, c: nat) {
    o < c && Open(input, o) && Closer(input, c) && forall k: nat | o < k < c :: !Bracket(input, k)
  }

  /** The list holds exactly the innermost pairs. */
  lemma {:induction false} InnermostPairsAreAll(input: string, n: nat, o: nat, c: nat)
    requires n <= |input|
    ensures (o, c) in InnermostPairs(input, n) <==> c < n && IsInnermost(input, o, c)
  {
    if n > 0 {
      InnermostPairsAreAll(input, n - 1, o, c);
      var l := LastBracket(input, n - 1);
      if c == n - 1 && IsInnermost(input, o, c) {
        assert Bracket(input, o);
        assert l == o;
      }
    }
  }

  /** The pairs are listed from left to right and do not overlap. */
  lemma {:induction false} InnermostPairsInOrder(input: string, n: nat, i: nat, j: nat)
    requires n <= |input| && i < j < |InnermostPairs(input, n)|
    ensures InnermostPairs(input, n)[i].1 < InnermostPairs(input, n)[j].0
  {
    var before, last := InnermostPairs(input, n - 1), LastBracket(input, n - 1);
    if j < |before| {
      InnermostPairsInOrder(input, n - 1, i, j);
    } else {
      var p := before[i];
      assert p in before;
      InnermostPairsAreAll(input, n - 1, p.0, p.1);
      assert Bracket(input, p.1) && p.1 <= last && !Open(input, p.1);
    }
  }

  // ---------- The search with a stack ----------

  predicate InRange(input: string, pairs: seq<(nat, nat)>) {
    forall i | 0 <= i < |pairs| :: pairs[i].0 < pairs[i].1 < |input|
  }

  /** The texts are what lies between the brackets of the pairs. */
  ghost predicate AreTexts(input: string, pairs: seq<(nat, nat)>, texts: seq<string>)
    requires InRange(input, pairs)
  {
    |texts| == |pairs| && forall i | 0 <= i < |pairs| :: IsText(input, pairs[i].0, pairs[i].1, texts[i])
  }

  /** The input up to the opening bracket, that bracket, the text and the closing bracket make up
      the input up to there. */
  ghost predicate IsText(input: string, o: nat, c: nat, text: string)
    requires o < c < |input|
  {
    input[..o] + [input[o]] + text + [input[c]] == input[..c + 1]
  }

  lemma SlicesAreTexts(input: string, pairs: seq<(nat, nat)>, texts: seq<string>)
    requires InRange(input, pairs) && |texts| == |pairs|
    requires forall i | 0 <= i < |pairs| :: texts[i] == input[pairs[i].0 + 1..pairs[i].1]
    ensures AreTexts(input, pairs, texts)
  {
    forall i | 0 <= i < |pairs| ensures IsText(input, pairs[i].0, pairs[i].1, texts[i]) {
      var o, c := pairs[i].0, pairs[i].1;
      assert input[..c + 1] == input[..o] + [input[o]] + input[o + 1..c] + [input[c]];
    }
  }

  lemma PairsInRange(input: string, n: nat)
    requires n <= |input|
    ensures InRange(input, InnermostPairs(input, n))
  {
  }

  /** Where the stretch behind entry `p` of the stack ends. */
  function EndOf(stack: seq<nat>, p: nat, i: nat): nat
    requires p < |stack|
  {
    if p + 1 < |stack| then stack[p + 1] else i
  }

  /** The stack holds opening brackets from left to right; behind each, up to the next, either there
      is no bracket or one has been used; and an opening bracket seen last is on top. */
  ghost predicate StackOk(input: string, stack: seq<nat>, used: seq<bool>, i: nat)
    requires i <= |input| == |used|
  {
    && (forall p | 0 <= p < |stack| :: stack[p] < EndOf(stack, p, i) <= i && Open(input, stack[p]))
    && (forall p | 0 <= p < |stack| :: Stretch(input, used, stack[p], EndOf(stack, p, i)))
    && (forall k: nat | k < |used| && used[k] :: Bracket(input, k))
    && (var l := LastBracket(input, i); l >= 0 && Open(input, l) ==> stack != [] && stack[|stack| - 1] == l)
  }

  ghost predicate Plain(input: string, lo: nat, hi: nat) {
    forall k: nat | lo < k < hi :: !Bracket(input, k)
  }

  ghost predicate Marked(used: seq<bool>, lo: nat, hi: nat)
    requires hi <= |used|
  {
    exists k: nat :: lo < k < hi && used[k]
  }

  ghost predicate Stretch(input: string, used: seq<bool>, lo: nat, hi: nat) {
    Plain(input, lo, hi) || (hi <= |used| && Marked(used, lo, hi))
  }

  /** Finds the innermost brackets with a stack and marks on those found; they are exactly the
      pairs without a bracket in between. */
  method FindInnermostBrackets(input: string) returns (ans: seq<string>)
    ensures InRange(input, InnermostPairs(input, |input|))
    ensures AreTexts(input, InnermostPairs(input, |input|), ans)
  {
    var stack: seq<nat> := [];
    var innerMostPairs: seq<(nat, nat)> := [];
    var used := new bool[|input|](_ => false);
    var i := 0;
    while i < |input|
      invariant i <= |input| == used.Length
      invariant StackOk(input, stack, used[..], i)
      invariant innerMostPairs == InnermostPairs(input, i)
    {
      if input[i] == '<' {
        PushOk(input, stack, used[..], i);
        stack := stack + [i];
      } else if input[i] == '>' && i > 0 && input[i - 1] != '-' {
        if stack != [] {
          var pair := ClosePair(input, stack, used, i);
          stack := stack[..|stack| - 1];
          innerMostPairs := innerMostPairs + pair;
        }
      } else {
        OtherOk(input, stack, used[..], i);
      }
      i := i + 1;
    }
    PairsInRange(input, |input|);
    ans := seq(|innerMostPairs|,
      j requires 0 <= j < |innerMostPairs| => input[innerMostPairs[j].0 + 1..innerMostPairs[j].1]);
    SlicesAreTexts(input, innerMostPairs, ans);
  }

  /** Takes the opening bracket off the stack; the pair counts if it is innermost. */
  method ClosePair(input: string, stack: seq<nat>, used: array<bool>, i: nat) returns (pair: seq<(nat, nat)>)
    requires i < |input| == used.Length && StackOk(input, stack, used[..], i) && Closer(input, i) && stack != []
    modifies used
    ensures StackOk(input, stack[..|stack| - 1], used[..], i + 1)
    ensures InnermostPairs(input, i + 1) == InnermostPairs(input, i) + pair
  {
    ghost var before := used[..];
    var openIndex := stack[|stack| - 1];
    TopIsInnermost(input, stack, before, i);
    var isInnermost := NoneUsed(used, openIndex + 1, i);
    pair := [];
    if isInnermost {
      assert !Marked(before, openIndex, i);
      pair := [(openIndex, i)];
      used[openIndex], used[i] := true, true;
      assert used[..][openIndex];
    } else {
      ghost var k: nat :| openIndex + 1 <= k < i && used[k];
      assert before[k];
    }
    PopOk(input, stack, before, used[..], i);
  }

  method NoneUsed(used: array<bool>, from: nat, to: nat) returns (isInnermost: bool)
    requires from <= to <= used.Length
    ensures isInnermost <==> forall k: nat | from <= k < to :: !used[k]
  {
    isInnermost := true;
    var j := from;
    while j < to && isInnermost
      invariant from <= j <= to
      invariant isInnermost <==> forall k | from <= k < j :: !used[k]
    {
      if used[j] {
        isInnermost := false;
      }
      j := j + 1;
    }
  }

  lemma PushOk(input: string, stack: seq<nat>, used: seq<bool>, i: nat)
    requires i < |input| == |used| && StackOk(input, stack, used, i) && Open(input, i)
    ensures StackOk(input, stack + [i], used, i + 1)
    ensures InnermostPairs(input, i + 1) == InnermostPairs(input, i)
  {
  }

  lemma OtherOk(input: string, stack: seq<nat>, used: seq<bool>, i: nat)
    requires i < |input| == |used| && StackOk(input, stack, used, i) && !Bracket(input, i)
    ensures StackOk(input, stack, used, i + 1)
    ensures InnermostPairs(input, i + 1) == InnermostPairs(input, i)
  {
  }

  /** The bracket on top of the stack is innermost exactly if nothing behind it has been used. */
  lemma TopIsInnermost(input: string, stack: seq<nat>, used: seq<bool>, i: nat)
    requires i < |input| == |used| && StackOk(input, stack, used, i) && Closer(input, i) && stack != []
    ensures var o := stack[|stack| - 1];
      && o < i && Open(input, o)
      && InnermostPairs(input, i + 1) == InnermostPairs(input, i) + if Marked(used, o, i) then [] else [(o, i)]
  {
    var o := stack[|stack| - 1];
    assert EndOf(stack, |stack| - 1, i) == i && Stretch(input, used, o, i);
    if Marked(used, o, i) {
      var k: nat :| o < k < i && used[k];
      assert Bracket(input, k);
    } else {
      assert Bracket(input, o);
      assert LastBracket(input, i) == o;
    }
  }

  lemma CloserIsLast(input: string, i: nat)
    requires Closer(input, i)
    ensures LastBracket(input, i + 1) == i && !Open(input, i)
  {
  }

  /** Taking the top off keeps the stack in order, provided a used bracket is left in its place. */
  lemma PopOk(input: string, stack: seq<nat>, used: seq<bool>, u: seq<bool>, i: nat)
    requires i < |input| == |used| == |u| && StackOk(input, stack, used, i) && Closer(input, i) && stack != []
    requires forall k: nat | k < |u| && u[k] :: Bracket(input, k)
    requires forall k: nat | k < |u| && used[k] :: u[k]
    requires exists k: nat :: stack[|stack| - 1] <= k < i && u[k]
    ensures StackOk(input, stack[..|stack| - 1], u, i + 1)
  {
    hide LastBracket, Bracket, Closer, Open, Plain;
    CloserIsLast(input, i);
    var o, s := stack[|stack| - 1], stack[..|stack| - 1];
    forall p | 0 <= p < |s|
      ensures s[p] < EndOf(s, p, i + 1) <= i + 1 && Stretch(input, u, s[p], EndOf(s, p, i + 1))
    {
      var lo, hi := stack[p], EndOf(stack, p, i);
      assert lo < hi <= i && Stretch(input, used, lo, hi);
      if p + 1 < |s| {
        assert EndOf(s, p, i + 1) == hi;
        if Marked(used, lo, hi) {
          var k: nat :| lo < k < hi && used[k];
          assert lo < k < hi && u[k];
        }
      } else {
        assert hi == o && EndOf(s, p, i + 1) == i + 1;
        var k: nat :| o <= k < i && u[k];
        assert lo < k < i + 1 && u[k];
      }
    }
  }

  // ---------- What the answer means ----------

  /** The text between innermost brackets has no opening bracket, and its only `>` end arrows. */
  lemma TextHasNoBrackets(input: string, o: nat, c: nat, text: string, j: nat)
    requires IsInnermost(input, o, c) && IsText(input, o, c, text) && j < |text|
    ensures text[j] != '<'
    ensures text[j] == '>' ==> j > 0 && text[j - 1] == '-'
  {
    var whole := input[..o] + [input[o]] + text + [input[c]];
    assert |whole| == c + 1 && whole[o + 1 + j] == text[j] && input[..c + 1][o + 1 + j] == input[o + 1 + j];
    if j > 0 {
      assert whole[o + j] == text[j - 1] && input[..c + 1][o + j] == input[o + j];
    }
    assert !Bracket(input, o + 1 + j);
    assert input[o] == '<';
  }

  /** How many more brackets open than close from `lo` up to `hi`. */
  function Depth(input: string, lo: nat, hi: nat): int
    requires lo <= hi <= |input|
    decreases hi
  {
    if lo == hi then 0
    else Depth(input, lo, hi - 1) + (if Open(input, hi - 1) then 1 else if Closer(input, hi - 1) then -1 else 0)
  }

  /** Brackets that match: those in between are balanced, and none of those before closes more
      than has been opened. */
  ghost predicate MatchedPair(input: string, o: nat, c: nat) {
    o < c && Open(input, o) && Closer(input, c) && Depth(input, o + 1, c) == 0 && NeverNegative(input, o + 1, c)
  }

  ghost predicate NeverNegative(input: string, lo: nat, hi: nat)
    requires hi <= |input|
  {
    forall k: nat | lo <= k <= hi :: Depth(input, lo, k) >= 0
  }

  lemma {:induction false} PlainIsFlat(input: string, lo: nat, hi: nat)
    requires lo <= hi <= |input| && forall k: nat | lo <= k < hi :: !Bracket(input, k)
    ensures Depth(input, lo, hi) == 0
  {
    if lo < hi {
      PlainIsFlat(input, lo, hi - 1);
      assert !Bracket(input, hi - 1);
    }
  }

  /** The first closing bracket behind `o`. */
  lemma {:induction false} FirstCloser(input: string, o: nat, c: nat) returns (first: nat)
    requires o < c && Closer(input, c)
    ensures o < first <= c && Closer(input, first) && forall k: nat | o < k < first :: !Closer(input, k)
    decreases c - o
  {
    if Closer(input, o + 1) {
      first := o + 1;
    } else {
      first := FirstCloser(input, o + 1, c);
    }
  }

  /** Between any opening bracket and any later closing one lies an innermost pair. */
  lemma EnclosesInnermost(input: string, o: nat, c: nat) returns (o': nat, c': nat)
    requires o < c && Open(input, o) && Closer(input, c)
    ensures o <= o' < c' <= c && IsInnermost(input, o', c')
    ensures forall k: nat | o < k < c' :: !Closer(input, k)
  {
    c' := FirstCloser(input, o, c);
    var l := LastBracket(input, c');
    assert Bracket(input, o);
    o' := l;
  }

  /** Main result on meaning: innermost pairs are the matched pairs that contain no other. */
  lemma InnermostIffAlone(input: string, o: nat, c: nat)
    ensures IsInnermost(input, o, c) <==>
      MatchedPair(input, o, c) &&
      forall p: nat, q: nat | o <= p && q <= c && MatchedPair(input, p, q) :: p == o && q == c
  {
    if IsInnermost(input, o, c) {
      InnermostMatches(input, o, c);
      forall p: nat, q: nat | o <= p && q <= c && MatchedPair(input, p, q) ensures p == o && q == c {
        assert Bracket(input, p) && Bracket(input, q);
      }
    } else if MatchedPair(input, o, c) {
      var p, q := EnclosesInnermost(input, o, c);
      InnermostMatches(input, p, q);
    }
  }

  lemma InnermostMatches(input: string, o: nat, c: nat)
    requires IsInnermost(input, o, c)
    ensures MatchedPair(input, o, c)
  {
    var lo := o + 1;
    forall k: nat | lo <= k <= c ensures Depth(input, lo, k) == 0 {
      PlainIsFlat(input, lo, k);
    }
  }

  // ---------- The name before its last bracket group ----------

  /** How many more `>` than `<` there are from position `p` on. */
  function Excess(name: string, p: nat): int
    requires p <= |name|
    decreases |name| - p
  {
    if p == |name| then 0
    else Excess(name, p + 1) + (if name[p] == '>' then 1 else if name[p] == '<' then -1 else 0)
  }

  /** Cuts off the bracket group that ends the name, if one does and it is complete. */
  method GetBeforeBrackets(name: string) returns (r: string)
    ensures r <= name
    ensures r != name ==> name[|name| - 1] == '>' && name[|r|] == '<' && Excess(name, |r|) == 0
    ensures r != name ==> forall p | |r| < p < |name| :: Excess(name, p) > 0
    ensures r == name && name != "" && name[|name| - 1] == '>' ==> forall p | 0 <= p < |name| :: Excess(name, p) > 0
  {
    if name == "" || name[|name| - 1] != '>' {
      return name;
    }
    var bracketNum, pos := 1, |name| - 2;
    assert Excess(name, |name| - 1) == 1;
    while pos >= 0
      invariant -1 <= pos < |name| - 1
      invariant bracketNum == Excess(name, pos + 1)
      invariant forall p | pos < p < |name| :: Excess(name, p) > 0
    {
      if name[pos] == '>' {
        bracketNum := bracketNum + 1;
      }
      if name[pos] == '<' {
        bracketNum := bracketNum - 1;
      }
      if bracketNum == 0 {
        break;
      }
      pos := pos - 1;
    }
    r := if pos >= 0 then name[..pos] else name;
  }
}
