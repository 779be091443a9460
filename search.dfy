/** What `findSolutions` computes (src/com/solver/Game.java:163-1200), as
    functions: the index tuples its four nested loops visit, the 320
    shape-and-operator combinations tried for each tuple, the candidates in
    the order they are tried, and the list of strings appended for the
    candidates that reach the target. The method itself is in solver.dfy. */
module Search {
  import opened Wrappers
  import opened Expressions
  import opened Multisets

  /** The value every candidate is compared with (Game.java:24). */
  const TARGET: real := 24.0

  // ----- Orderings: the four nested index loops ----------------------------

  /** The indices `i, j, k, l` of the four loops, naming the cards used as
      `a, b, c, d`. */
  datatype Ordering = Ordering(i: nat, j: nat, k: nat, l: nat)

  /** Four different indices below `n`: an arrangement of four of the cards. */
  predicate IsPermutation(n: nat, t: Ordering) {
    && t.i < n && t.j < n && t.k < n && t.l < n
    && t.i != t.j && t.i != t.k && t.i != t.l
    && t.j != t.k && t.j != t.l
    && t.k != t.l
  }

  /** Lexicographic order on index tuples, `i` most significant. */
  predicate Precedes(t: Ordering, u: Ordering) {
    || t.i < u.i
    || (t.i == u.i && t.j < u.j)
    || (t.i == u.i && t.j == u.j && t.k < u.k)
    || (t.i == u.i && t.j == u.j && t.k == u.k && t.l < u.l)
  }

  predicate Increasing(ts: seq<Ordering>) {
    forall p, q :: 0 <= p < q < |ts| ==> Precedes(ts[p], ts[q])
  }

  lemma IncreasingAppend(xs: seq<Ordering>, ys: seq<Ordering>)
    requires Increasing(xs) && Increasing(ys)
    requires forall x, y :: x in xs && y in ys ==> Precedes(x, y)
    ensures Increasing(xs + ys)
  {
    forall p, q | 0 <= p < q < |xs + ys|
      ensures Precedes((xs + ys)[p], (xs + ys)[q])
    {
      if q < |xs| {
      } else if p >= |xs| {
        assert (xs + ys)[p] == ys[p - |xs|] && (xs + ys)[q] == ys[q - |xs|];
      } else {
        assert (xs + ys)[p] == xs[p] && (xs + ys)[q] == ys[q - |xs|];
      }
    }
  }

  /** The innermost loop run up to `l` for fixed `i, j, k`: the tuples it
      reaches without taking the `continue` at Game.java:184-186. */
  function LoopL(i: nat, j: nat, k: nat, l: nat): seq<Ordering> {
    if l == 0 then []
    else LoopL(i, j, k, l - 1) + (if i == l - 1 || j == l - 1 || k == l - 1 then [] else [Ordering(i, j, k, l - 1)])
  }

  /** The third loop run up to `k` for fixed `i, j` (skip at Game.java:180-182). */
  function LoopK(n: nat, i: nat, j: nat, k: nat): seq<Ordering> {
    if k == 0 then []
    else LoopK(n, i, j, k - 1) + (if i == k - 1 || j == k - 1 then [] else LoopL(i, j, k - 1, n))
  }

  /** The second loop run up to `j` for fixed `i` (skip at Game.java:176-178). */
  function LoopJ(n: nat, i: nat, j: nat): seq<Ordering> {
    if j == 0 then []
    else LoopJ(n, i, j - 1) + (if i == j - 1 then [] else LoopK(n, i, j - 1, n))
  }

  /** The outermost loop run up to `i` (Game.java:174-175). */
  function LoopI(n: nat, i: nat): seq<Ordering> {
    if i == 0 then [] else LoopI(n, i - 1) + LoopJ(n, i - 1, n)
  }

  /** Every tuple the four loops reach, in the order they reach it. */
  function Orderings(n: nat): seq<Ordering> {
    LoopI(n, n)
  }

  lemma {:induction false} LoopLFacts(i: nat, j: nat, k: nat, l: nat)
    ensures forall t {:trigger t in LoopL(i, j, k, l)} :: t in LoopL(i, j, k, l) <==>
      t.i == i && t.j == j && t.k == k && t.l < l && t.l != i && t.l != j && t.l != k
    ensures Increasing(LoopL(i, j, k, l))
  {
    if l > 0 {
      LoopLFacts(i, j, k, l - 1);
      var step := if i == l - 1 || j == l - 1 || k == l - 1 then [] else [Ordering(i, j, k, l - 1)];
      IncreasingAppend(LoopL(i, j, k, l - 1), step);
    }
  }

  lemma {:induction false} LoopKMembers(n: nat, i: nat, j: nat, k: nat)
    ensures forall t {:trigger t in LoopK(n, i, j, k)} :: t in LoopK(n, i, j, k) <==>
      && t.i == i && t.j == j && t.k < k && t.k != i && t.k != j
      && t.l < n && t.l != i && t.l != j && t.l != t.k
  {
    if k > 0 {
      LoopKMembers(n, i, j, k - 1);
      LoopLFacts(i, j, k - 1, n);
    }
  }

  lemma LoopKStepAfter(n: nat, i: nat, j: nat, k: nat)
    requires k > 0
    ensures forall x, y :: x in LoopK(n, i, j, k - 1) && y in LoopL(i, j, k - 1, n) ==> Precedes(x, y)
  {
    LoopKMembers(n, i, j, k - 1);
    LoopLFacts(i, j, k - 1, n);
  }

  lemma LoopKIncreasingStep(n: nat, i: nat, j: nat, k: nat)
    requires k > 0 && i != k - 1 && j != k - 1
    requires Increasing(LoopK(n, i, j, k - 1)) && Increasing(LoopL(i, j, k - 1, n))
    ensures Increasing(LoopK(n, i, j, k))
  {
    LoopKStepAfter(n, i, j, k);
    IncreasingAppend(LoopK(n, i, j, k - 1), LoopL(i, j, k - 1, n));
  }

  lemma {:induction false} LoopKIncreasing(n: nat, i: nat, j: nat, k: nat)
    ensures Increasing(LoopK(n, i, j, k))
  {
    if k > 0 {
      LoopKIncreasing(n, i, j, k - 1);
      if i != k - 1 && j != k - 1 {
        LoopLFacts(i, j, k - 1, n);
        LoopKIncreasingStep(n, i, j, k);
      } else {
        assert LoopK(n, i, j, k) == LoopK(n, i, j, k - 1) + [];
      }
    }
  }

  lemma {:induction false} LoopJMembers(n: nat, i: nat, j: nat)
    ensures forall t {:trigger t in LoopJ(n, i, j)} :: t in LoopJ(n, i, j) <==>
      && t.i == i && t.j < j && t.j != i
      && t.k < n && t.k != i && t.k != t.j
      && t.l < n && t.l != i && t.l != t.j && t.l != t.k
  {
    if j > 0 {
      LoopJMembers(n, i, j - 1);
      LoopKMembers(n, i, j - 1, n);
      var prev := LoopJ(n, i, j - 1);
      var step := if i == j - 1 then [] else LoopK(n, i, j - 1, n);
      assert LoopJ(n, i, j) == prev + step;
      forall t ensures t in LoopJ(n, i, j) <==> t in prev || t in step {
      }
    }
  }

  lemma LoopJStepAfter(n: nat, i: nat, j: nat)
    requires j > 0
    ensures forall x, y :: x in LoopJ(n, i, j - 1) && y in LoopK(n, i, j - 1, n) ==> Precedes(x, y)
  {
    LoopJMembers(n, i, j - 1);
    LoopKMembers(n, i, j - 1, n);
  }

  lemma LoopJIncreasingStep(n: nat, i: nat, j: nat)
    requires j > 0 && i != j - 1
    requires Increasing(LoopJ(n, i, j - 1)) && Increasing(LoopK(n, i, j - 1, n))
    ensures Increasing(LoopJ(n, i, j))
  {
    LoopJStepAfter(n, i, j);
    IncreasingAppend(LoopJ(n, i, j - 1), LoopK(n, i, j - 1, n));
  }

  lemma {:induction false} LoopJIncreasing(n: nat, i: nat, j: nat)
    ensures Increasing(LoopJ(n, i, j))
  {
    if j > 0 {
      LoopJIncreasing(n, i, j - 1);
      if i != j - 1 {
        LoopKIncreasing(n, i, j - 1, n);
        LoopJIncreasingStep(n, i, j);
      } else {
        assert LoopJ(n, i, j) == LoopJ(n, i, j - 1) + [];
      }
    }
  }

  lemma {:induction false} LoopIMembers(n: nat, i: nat)
    requires i <= n
    ensures forall t {:trigger t in LoopI(n, i)} :: t in LoopI(n, i) <==> t.i < i && IsPermutation(n, t)
  {
    if i > 0 {
      LoopIMembers(n, i - 1);
      LoopJMembers(n, i - 1, n);
      forall t ensures t in LoopI(n, i) <==> t.i < i && IsPermutation(n, t) {
        assert t in LoopI(n, i) <==> t in LoopI(n, i - 1) || t in LoopJ(n, i - 1, n);
      }
    }
  }

  lemma LoopIStepAfter(n: nat, i: nat)
    requires 0 < i <= n
    ensures forall x, y :: x in LoopI(n, i - 1) && y in LoopJ(n, i - 1, n) ==> Precedes(x, y)
  {
    forall x, y | x in LoopI(n, i - 1) && y in LoopJ(n, i - 1, n) ensures Precedes(x, y) {
      LoopIMembers(n, i - 1);
      LoopJMembers(n, i - 1, n);
      assert x.i < i - 1 && y.i == i - 1;
    }
  }

  lemma LoopIIncreasingStep(n: nat, i: nat)
    requires 0 < i <= n
    requires Increasing(LoopI(n, i - 1)) && Increasing(LoopJ(n, i - 1, n))
    ensures Increasing(LoopI(n, i))
  {
    LoopIStepAfter(n, i);
    IncreasingAppend(LoopI(n, i - 1), LoopJ(n, i - 1, n));
  }

  lemma {:induction false} LoopIIncreasing(n: nat, i: nat)
    requires i <= n
    ensures Increasing(LoopI(n, i))
  {
    if i > 0 {
      LoopIIncreasing(n, i - 1);
      LoopJIncreasing(n, i - 1, n);
      LoopIIncreasingStep(n, i);
    }
  }

  /** The loops reach exactly the arrangements of four of the `n` indices,
      in strictly increasing lexicographic order. */
  lemma OrderingsFacts(n: nat)
    ensures forall t {:trigger t in Orderings(n)} :: t in Orderings(n) <==> IsPermutation(n, t)
    ensures Increasing(Orderings(n))
  {
    LoopIMembers(n, n);
    LoopIIncreasing(n, n);
  }

  /** An increasing sequence repeats no tuple. */
  lemma IncreasingDistinct(ts: seq<Ordering>)
    requires Increasing(ts)
    ensures forall p, q :: 0 <= p < q < |ts| ==> ts[p] != ts[q]
  {
    forall p, q | 0 <= p < q < |ts| ensures ts[p] != ts[q] {
      assert Precedes(ts[p], ts[q]);
    }
  }

  // ----- How many tuples the loops reach ----------------------------------

  function Below(x: nat, bound: nat): int {
    if x < bound then 1 else 0
  }

  lemma {:induction false} LoopLLength(i: nat, j: nat, k: nat, l: nat)
    requires i != j && i != k && j != k
    ensures |LoopL(i, j, k, l)| == l - Below(i, l) - Below(j, l) - Below(k, l)
  {
    if l > 0 {
      LoopLLength(i, j, k, l - 1);
    }
  }

  lemma Distribute(x: int, m: int)
    ensures (x + 1) * m == x * m + m
  {
  }

  lemma {:induction false} LoopKLength(n: nat, i: nat, j: nat, k: nat)
    requires i < n && j < n && i != j && k <= n
    ensures |LoopK(n, i, j, k)| == (k - Below(i, k) - Below(j, k)) * (n - 3)
  {
    if k > 0 {
      LoopKLength(n, i, j, k - 1);
      var x := k - 1 - Below(i, k - 1) - Below(j, k - 1);
      if i != k - 1 && j != k - 1 {
        LoopLLength(i, j, k - 1, n);
        assert k - Below(i, k) - Below(j, k) == x + 1;
        Distribute(x, n - 3);
      } else {
        assert k - Below(i, k) - Below(j, k) == x;
      }
    }
  }

  lemma {:induction false} LoopJLength(n: nat, i: nat, j: nat)
    requires i < n && j <= n
    ensures |LoopJ(n, i, j)| == (j - Below(i, j)) * ((n - 2) * (n - 3))
  {
    if j > 0 {
      LoopJLength(n, i, j - 1);
      var x := j - 1 - Below(i, j - 1);
      if i != j - 1 {
        LoopKLength(n, i, j - 1, n);
        assert j - Below(i, j) == x + 1;
        Distribute(x, (n - 2) * (n - 3));
      } else {
        assert j - Below(i, j) == x;
      }
    }
  }

  lemma {:induction false} LoopILength(n: nat, i: nat)
    requires i <= n
    ensures |LoopI(n, i)| == i * ((n - 1) * ((n - 2) * (n - 3)))
  {
    if i > 0 {
      LoopILength(n, i - 1);
      LoopJLength(n, i - 1, n);
      var q := (n - 1) * ((n - 2) * (n - 3));
      assert |LoopJ(n, i - 1, n)| == q;
      Distribute(i - 1, q);
    }
  }

  lemma Associate(n: int, x: int, y: int, z: int)
    ensures n * (x * (y * z)) == n * x * y * z
  {
  }

  /** The loops reach n(n-1)(n-2)(n-3) tuples over `n` cards. */
  lemma OrderingsLength(n: nat)
    ensures |Orderings(n)| == n * (n - 1) * (n - 2) * (n - 3)
  {
    LoopILength(n, n);
    Associate(n, n - 1, n - 2, n - 3);
  }

  /** Each arrangement of four of the `n` indices is visited exactly once. */
  lemma OrderingsMultiplicity(n: nat, t: Ordering)
    ensures multiset(Orderings(n))[t] == if IsPermutation(n, t) then 1 else 0
  {
    OrderingsFacts(n);
    IncreasingDistinct(Orderings(n));
    DistinctMultiplicity(Orderings(n), t);
  }

  /** Over four cards the loops visit exactly the 24 arrangements of the
      indices 0..3 (each once, by `OrderingsMultiplicity`), in
      lexicographic order. `n` is a parameter fixed by the precondition
      rather than the literal 4, which keeps the verifier from unfolding the
      loops over a constant. */
  lemma FourCardOrderings(n: nat)
    requires n == 4
    ensures |Orderings(n)| == 24
    ensures forall t {:trigger t in Orderings(n)} :: t in Orderings(n) <==> IsPermutation(n, t)
    ensures Increasing(Orderings(n))
  {
    OrderingsLength(n);
    FourFactorial(n);
    OrderingsFacts(n);
  }

  /** 4! = 24, with `n` a parameter fixed by the precondition for the same
      reason as above. */
  lemma FourFactorial(n: int)
    requires n == 4
    ensures n * (n - 1) * (n - 2) * (n - 3) == 24
  {
  }

  // ----- The 320 combinations tried for each tuple --------------------------

  /** Operators in the order the source lists them: `+ - * /`. */
  function OpAt(x: nat): Op
    requires x < 4
  {
    [Add, Sub, Mul, Div][x]
  }

  function OpIndex(op: Op): (x: nat)
    ensures x < 4 && OpAt(x) == op
  {
    match op
    case Add => 0
    case Sub => 1
    case Mul => 2
    case Div => 3
  }

  /** Shapes in the order the source tries them (Game.java:222, 416, 610, 804, 998). */
  function ShapeAt(x: nat): Shape
    requires x < 5
  {
    [LeftDeep, InnerLeft, InnerRight, RightDeep, Balanced][x]
  }

  function ShapeIndex(shape: Shape): (x: nat)
    ensures x < 5 && ShapeAt(x) == shape
  {
    match shape
    case LeftDeep => 0
    case InnerLeft => 1
    case InnerRight => 2
    case RightDeep => 3
    case Balanced => 4
  }

  /** The `m`-th of the 320 conditions tried for one tuple: the shape varies
      slowest, then the first operator of the text, then the second, and the
      third fastest, each operator through `+ - * /`. */
  function CombinationAt(m: nat): (Shape, Ops)
    requires m < 320
  {
    (ShapeAt(m / 64), Ops(OpAt(m / 16 % 4), OpAt(m / 4 % 4), OpAt(m % 4)))
  }

  /** The position of a shape and operator triple among the 320 conditions. */
  function CombinationIndex(shape: Shape, ops: Ops): nat {
    64 * ShapeIndex(shape) + 16 * OpIndex(ops.first) + 4 * OpIndex(ops.second) + OpIndex(ops.third)
  }

  lemma CombinationIndexDigits(shape: Shape, ops: Ops)
    ensures var x := CombinationIndex(shape, ops);
      && x < 320
      && x / 64 == ShapeIndex(shape)
      && x / 16 % 4 == OpIndex(ops.first)
      && x / 4 % 4 == OpIndex(ops.second)
      && x % 4 == OpIndex(ops.third)
  {
    var (s, o1, o2, o3) := (ShapeIndex(shape), OpIndex(ops.first), OpIndex(ops.second), OpIndex(ops.third));
    var x := CombinationIndex(shape, ops);
    assert x == 64 * s + (16 * o1 + 4 * o2 + o3);
    assert x / 16 == 4 * s + o1 && x / 4 == 16 * s + 4 * o1 + o2;
  }

  lemma CombinationDigits(m: nat)
    requires m < 320
    ensures m == 64 * (m / 64) + 16 * (m / 16 % 4) + 4 * (m / 4 % 4) + m % 4
  {
  }

  /** The 320 conditions try every shape with every operator triple exactly
      once: `CombinationAt` and `CombinationIndex` are inverse bijections. */
  lemma CombinationBijection(m: nat, shape: Shape, ops: Ops)
    requires m < 320
    ensures CombinationIndex(shape, ops) < 320
    ensures CombinationAt(CombinationIndex(shape, ops)) == (shape, ops)
    ensures CombinationIndex(CombinationAt(m).0, CombinationAt(m).1) == m
  {
    CombinationIndexDigits(shape, ops);
    CombinationDigits(m);
    assert ShapeIndex(ShapeAt(m / 64)) == m / 64;
    assert OpIndex(OpAt(m / 16 % 4)) == m / 16 % 4;
    assert OpIndex(OpAt(m / 4 % 4)) == m / 4 % 4;
    assert OpIndex(OpAt(m % 4)) == m % 4;
  }

  // ----- Candidates ---------------------------------------------------------

  /** One condition of the search: the cards used, their shape, the operators. */
  datatype Candidate = Candidate(ord: Ordering, shape: Shape, ops: Ops)

  /** The 320 conditions tried for one tuple, in the source's order. */
  function CandidatesAt(t: Ordering): seq<Candidate> {
    seq(320, m requires 0 <= m < 320 => Candidate(t, CombinationAt(m).0, CombinationAt(m).1))
  }

  /** The conditions tried for a run of tuples, one block of 320 per tuple. */
  function CandidatesOf(ts: seq<Ordering>): (r: seq<Candidate>)
    ensures |r| == 320 * |ts|
    ensures forall x :: x in r ==> x.ord in ts
  {
    if ts == [] then []
    else
      var prev := CandidatesOf(ts[..|ts| - 1]);
      assert forall x :: x in prev ==> x.ord in ts;
      prev + CandidatesAt(ts[|ts| - 1])
  }

  /** Every condition `findSolutions` evaluates, in evaluation order. */
  function Candidates(n: nat): seq<Candidate> {
    CandidatesOf(Orderings(n))
  }

  lemma {:induction false} CandidatesOfAppend(ts: seq<Ordering>, us: seq<Ordering>)
    ensures CandidatesOf(ts + us) == CandidatesOf(ts) + CandidatesOf(us)
    decreases |us|
  {
    if us == [] {
      assert ts + us == ts;
    } else {
      var us' := us[..|us| - 1];
      assert (ts + us)[..|ts + us| - 1] == ts + us';
      CandidatesOfAppend(ts, us');
    }
  }

  /** Position `320 p + m` of the candidate list is the `m`-th condition for
      the `p`-th tuple: tuples vary slowest, then shapes, then operators. */
  lemma {:induction false} CandidatesOfIndex(ts: seq<Ordering>, p: nat, m: nat)
    requires p < |ts| && m < 320
    ensures 320 * p + m < |CandidatesOf(ts)|
    ensures CandidatesOf(ts)[320 * p + m] == Candidate(ts[p], CombinationAt(m).0, CombinationAt(m).1)
    decreases |ts|
  {
    var ts' := ts[..|ts| - 1];
    if p < |ts| - 1 {
      CandidatesOfIndex(ts', p, m);
    }
  }

  /** Every condition for a listed tuple is among the candidates. */
  lemma CandidatesOfComplete(ts: seq<Ordering>, x: Candidate)
    requires x.ord in ts
    ensures x in CandidatesOf(ts)
  {
    var p :| 0 <= p < |ts| && ts[p] == x.ord;
    var m := CombinationIndex(x.shape, x.ops);
    CombinationBijection(0, x.shape, x.ops);
    CandidatesOfIndex(ts, p, m);
  }

  // ----- The solutions ------------------------------------------------------

  /** All four indices of `t` are below `n`. */
  predicate Within(n: nat, t: Ordering) {
    t.i < n && t.j < n && t.k < n && t.l < n
  }

  /** The candidate only uses indices of `cards`. */
  predicate Fits(cards: seq<int>, x: Candidate) {
    Within(|cards|, x.ord)
  }

  /** The card values a candidate uses, as `a, b, c, d`. */
  function Picked(cards: seq<int>, t: Ordering): (r: seq<int>)
    requires Within(|cards|, t)
    ensures |r| == 4 && r[0] == cards[t.i] && r[1] == cards[t.j] && r[2] == cards[t.k] && r[3] == cards[t.l]
  {
    [cards[t.i], cards[t.j], cards[t.k], cards[t.l]]
  }

  /** The candidate's condition holds: its value is exactly the target. */
  predicate IsSolution(cards: seq<int>, x: Candidate)
    requires Fits(cards, x)
  {
    var Ordering(i, j, k, l) := x.ord;
    Eval(x.shape, x.ops, cards[i] as real, cards[j] as real, cards[k] as real, cards[l] as real) == Some(TARGET)
  }

  /** The string the source appends for a candidate. */
  function Text(cards: seq<int>, x: Candidate): string
    requires Fits(cards, x)
  {
    var Ordering(i, j, k, l) := x.ord;
    Render(x.shape, x.ops, cards[i], cards[j], cards[k], cards[l])
  }

  /** The strings appended while the candidates `xs` are tried in order. */
  function SolutionTexts(cards: seq<int>, xs: seq<Candidate>): seq<string>
    requires forall x :: x in xs ==> Fits(cards, x)
  {
    if xs == [] then []
    else
      var x := xs[|xs| - 1];
      SolutionTexts(cards, xs[..|xs| - 1]) + (if IsSolution(cards, x) then [Text(cards, x)] else [])
  }

  /** The contents of `solutions` once `findSolutions` has run on `cards`. */
  function Solutions(cards: seq<int>): seq<string> {
    var n := |cards|;
    OrderingsFacts(n);
    SolutionTexts(cards, Candidates(n))
  }

  lemma {:induction false} SolutionTextsAppend(cards: seq<int>, xs: seq<Candidate>, ys: seq<Candidate>)
    requires forall x :: x in xs + ys ==> Fits(cards, x)
    ensures SolutionTexts(cards, xs + ys) == SolutionTexts(cards, xs) + SolutionTexts(cards, ys)
    decreases |ys|
  {
    if ys == [] {
      assert xs + ys == xs;
    } else {
      var ys' := ys[..|ys| - 1];
      assert (xs + ys)[..|xs + ys| - 1] == xs + ys';
      SolutionTextsAppend(cards, xs, ys');
    }
  }

  /** Soundness and completeness: a string is appended exactly when some
      tried candidate reaches the target and renders as that string. */
  lemma {:induction false} SolutionTextsSpec(cards: seq<int>, xs: seq<Candidate>, s: string)
    requires forall x :: x in xs ==> Fits(cards, x)
    ensures s in SolutionTexts(cards, xs) <==> exists x :: x in xs && IsSolution(cards, x) && Text(cards, x) == s
  {
    if xs != [] {
      var xs' := xs[..|xs| - 1];
      var last := xs[|xs| - 1];
      SolutionTextsSpec(cards, xs', s);
      assert xs == xs' + [last];
      if s in SolutionTexts(cards, xs') {
        var x :| x in xs' && IsSolution(cards, x) && Text(cards, x) == s;
        assert x in xs;
      }
    }
  }

  /** Each candidate appends at most one string. */
  lemma {:induction false} SolutionTextsLength(cards: seq<int>, xs: seq<Candidate>)
    requires forall x :: x in xs ==> Fits(cards, x)
    ensures |SolutionTexts(cards, xs)| <= |xs|
  {
    if xs != [] {
      SolutionTextsLength(cards, xs[..|xs| - 1]);
    }
  }

  /** A string in `solutions` comes from some arrangement of the cards, some
      shape and some operator triple whose value is exactly 24. */
  lemma SolutionsSound(cards: seq<int>, s: string)
    requires s in Solutions(cards)
    ensures exists t: Ordering, shape: Shape, ops: Ops ::
      && IsPermutation(|cards|, t)
      && Eval(shape, ops, cards[t.i] as real, cards[t.j] as real, cards[t.k] as real, cards[t.l] as real) == Some(TARGET)
      && Render(shape, ops, cards[t.i], cards[t.j], cards[t.k], cards[t.l]) == s
  {
    var n := |cards|;
    OrderingsFacts(n);
    var xs := Candidates(n);
    SolutionTextsSpec(cards, xs, s);
    var x :| x in xs && IsSolution(cards, x) && Text(cards, x) == s;
    assert IsPermutation(n, x.ord);
  }

  /** Every arrangement, shape and operator triple whose value is exactly 24
      puts its string in `solutions`. */
  lemma SolutionsComplete(cards: seq<int>, t: Ordering, shape: Shape, ops: Ops)
    requires IsPermutation(|cards|, t)
    requires Eval(shape, ops, cards[t.i] as real, cards[t.j] as real, cards[t.k] as real, cards[t.l] as real) == Some(TARGET)
    ensures Render(shape, ops, cards[t.i], cards[t.j], cards[t.k], cards[t.l]) in Solutions(cards)
  {
    var n := |cards|;
    OrderingsFacts(n);
    var x := Candidate(t, shape, ops);
    CandidatesOfComplete(Orderings(n), x);
    SolutionTextsSpec(cards, Candidates(n), Text(cards, x));
  }

  /** `solutions` holds at most one string per candidate: 320 for each of
      the n(n-1)(n-2)(n-3) arrangements (`OrderingsLength`), 7,680 over
      four cards. */
  lemma SolutionsBound(cards: seq<int>)
    ensures |Solutions(cards)| <= 320 * |Orderings(|cards|)|
  {
    var n := |cards|;
    OrderingsFacts(n);
    SolutionTextsLength(cards, Candidates(n));
  }

  lemma FourCardSolutionsBound(cards: seq<int>)
    requires |cards| == 4
    ensures |Solutions(cards)| <= 7680
  {
    SolutionsBound(cards);
    FourCardOrderings(|cards|);
  }

  function Count(a: int, u: int): nat {
    if a == u then 1 else 0
  }

  lemma DisplayCount(a: int, b: int, c: int, d: int, u: int)
    ensures multiset{a, b, c, d}[u] == Count(a, u) + Count(b, u) + Count(c, u) + Count(d, u)
  {
    assert multiset{a}[u] == Count(a, u);
    assert multiset{a, b}[u] == Count(a, u) + Count(b, u);
    assert multiset{a, b, c}[u] == Count(a, u) + Count(b, u) + Count(c, u);
  }

  lemma ArrangementCount(v: seq<int>, t: Ordering, u: int)
    requires |v| == 4 && IsPermutation(4, t)
    ensures Count(v[t.i], u) + Count(v[t.j], u) + Count(v[t.k], u) + Count(v[t.l], u)
         == Count(v[0], u) + Count(v[1], u) + Count(v[2], u) + Count(v[3], u)
  {
  }

  lemma ArrangementCountAt(v: seq<int>, t: Ordering, u: int)
    requires |v| == 4 && IsPermutation(4, t)
    ensures multiset{v[t.i], v[t.j], v[t.k], v[t.l]}[u] == multiset{v[0], v[1], v[2], v[3]}[u]
  {
    ArrangementCount(v, t, u);
    DisplayCount(v[t.i], v[t.j], v[t.k], v[t.l], u);
    DisplayCount(v[0], v[1], v[2], v[3], u);
  }

  /** The values an arrangement of the indices 0..3 picks from four values
      are those four values, each as often. */
  lemma ArrangementMultiset(v: seq<int>, t: Ordering)
    requires |v| == 4 && IsPermutation(4, t)
    ensures multiset{v[t.i], v[t.j], v[t.k], v[t.l]} == multiset{v[0], v[1], v[2], v[3]}
  {
    var m := multiset{v[t.i], v[t.j], v[t.k], v[t.l]};
    var m' := multiset{v[0], v[1], v[2], v[3]};
    forall u ensures m[u] == m'[u] {
      ArrangementCountAt(v, t, u);
    }
    MultisetExtensionality(m, m');
  }

  /** Over four cards an arrangement uses every card exactly once. */
  lemma PickedIsPermutation(cards: seq<int>, t: Ordering)
    requires |cards| == 4 && IsPermutation(4, t)
    ensures multiset(Picked(cards, t)) == multiset(cards)
  {
    assert cards == [cards[0], cards[1], cards[2], cards[3]];
    assert multiset(Picked(cards, t)) == multiset{cards[t.i], cards[t.j], cards[t.k], cards[t.l]};
    ArrangementMultiset(cards, t);
  }

  /** Every string in `solutions` reads back as an expression, over the values
      of four different cards, that does not divide by zero and whose value is
      exactly 24; over four cards the expression uses each card once. */
  lemma SolutionsParse(cards: seq<int>, s: string)
    requires s in Solutions(cards)
    ensures Parse(s).Some?
    ensures Value(Parse(s).value) == Some(TARGET) && !DividesByZero(Parse(s).value)
    ensures exists t :: IsPermutation(|cards|, t) && Leaves(Parse(s).value) == Picked(cards, t)
    ensures |cards| == 4 ==> multiset(Leaves(Parse(s).value)) == multiset(cards)
  {
    SolutionsSound(cards, s);
    var t: Ordering, shape: Shape, ops: Ops :|
      && IsPermutation(|cards|, t)
      && Eval(shape, ops, cards[t.i] as real, cards[t.j] as real, cards[t.k] as real, cards[t.l] as real) == Some(TARGET)
      && Render(shape, ops, cards[t.i], cards[t.j], cards[t.k], cards[t.l]) == s;
    var (a, b, c, d) := (cards[t.i], cards[t.j], cards[t.k], cards[t.l]);
    ParseRender(shape, ops, a, b, c, d);
    EvalIsTreeValue(shape, ops, a, b, c, d);
    UndefinedIffDividesByZero(Tree(shape, ops, a, b, c, d));
    assert Leaves(Parse(s).value) == Picked(cards, t);
    if |cards| == 4 {
      PickedIsPermutation(cards, t);
    }
  }
}
