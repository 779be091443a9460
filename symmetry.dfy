/** Rearranging the four cards before `findSolutions` runs
    (src/com/solver/Game.java:174-190) changes the order of `solutions` but
    not which strings it holds, nor how often: the loops try every
    arrangement of the cards, whatever order they come in. */
module Symmetry {
  import opened Expressions
  import opened Search
  import opened Multisets

  // ----- Solutions depend only on the values each candidate picks -----------

  /** Two candidates try the same condition on the same values. */
  predicate Agree(c: seq<int>, x: Candidate, c': seq<int>, y: Candidate)
    requires Fits(c, x) && Fits(c', y)
  {
    x.shape == y.shape && x.ops == y.ops && Picked(c, x.ord) == Picked(c', y.ord)
  }

  /** Candidate lists that agree position by position append the same strings. */
  lemma {:induction false} SolutionTextsCongruent(c: seq<int>, xs: seq<Candidate>, c': seq<int>, ys: seq<Candidate>)
    requires forall x :: x in xs ==> Fits(c, x)
    requires forall y :: y in ys ==> Fits(c', y)
    requires |xs| == |ys|
    requires forall p :: 0 <= p < |xs| ==> Agree(c, xs[p], c', ys[p])
    ensures SolutionTexts(c, xs) == SolutionTexts(c', ys)
  {
    if xs != [] {
      var n := |xs| - 1;
      assert Agree(c, xs[n], c', ys[n]);
      var (x, y) := (xs[n], ys[n]);
      assert Picked(c, x.ord) == Picked(c', y.ord);
      SolutionTextsCongruent(c, xs[..n], c', ys[..n]);
    }
  }

  // ----- The strings of a run of tuples --------------------------------------

  predicate AllWithin(n: nat, ts: seq<Ordering>) {
    forall t :: t in ts ==> Within(n, t)
  }

  /** The strings appended while the tuples `ts` are tried. */
  function TextsOf(c: seq<int>, ts: seq<Ordering>): seq<string>
    requires AllWithin(|c|, ts)
  {
    SolutionTexts(c, CandidatesOf(ts))
  }

  lemma TextsOfAppend(c: seq<int>, ts: seq<Ordering>, us: seq<Ordering>)
    requires AllWithin(|c|, ts) && AllWithin(|c|, us)
    ensures AllWithin(|c|, ts + us)
    ensures TextsOf(c, ts + us) == TextsOf(c, ts) + TextsOf(c, us)
  {
    CandidatesOfAppend(ts, us);
    SolutionTextsAppend(c, CandidatesOf(ts), CandidatesOf(us));
  }

  /** Moving one tuple out of the middle of a run moves its strings along. */
  lemma TextsOfSplit(c: seq<int>, a: seq<Ordering>, x: Ordering, b: seq<Ordering>)
    requires AllWithin(|c|, a) && Within(|c|, x) && AllWithin(|c|, b)
    ensures AllWithin(|c|, a + b) && AllWithin(|c|, a + [x] + b)
    ensures multiset(TextsOf(c, a + [x] + b)) == multiset(TextsOf(c, a + b)) + multiset(TextsOf(c, [x]))
  {
    TextsOfAppend(c, a, b);
    TextsOfAppend(c, a, [x]);
    TextsOfAppend(c, a + [x], b);
  }

  /** Which strings a run of tuples appends, and how often, depends only on
      the multiset of its tuples. */
  lemma {:induction false} TextsOfPermuted(c: seq<int>, ts: seq<Ordering>, us: seq<Ordering>)
    requires AllWithin(|c|, ts)
    requires multiset(ts) == multiset(us)
    ensures AllWithin(|c|, us)
    ensures multiset(TextsOf(c, ts)) == multiset(TextsOf(c, us))
    decreases |ts|
  {
    assert forall u :: u in us ==> u in multiset(ts);
    if ts != [] {
      var n := |ts| - 1;
      var x := ts[n];
      var ts' := ts[..n];
      assert ts == ts' + [x];
      assert x in multiset(us);
      var p :| 0 <= p < |us| && us[p] == x;
      var (a, b) := (us[..p], us[p + 1..]);
      assert us == a + [x] + b;
      assert multiset(ts') + multiset{x} == multiset(a + b) + multiset{x};
      MultisetCancel(multiset(ts'), multiset(a + b), multiset{x});
      TextsOfPermuted(c, ts', a + b);
      TextsOfSplit(c, a, x, b);
      TextsOfSplit(c, ts', x, []);
      assert ts' + [x] + [] == ts && ts' + [] == ts';
    } else {
      assert |multiset(us)| == 0;
    }
  }

  // ----- Exchanging two cards ------------------------------------------------

  function SwapIndex(a: nat, b: nat, x: nat): nat {
    if x == a then b else if x == b then a else x
  }

  /** The tuple that picks, from the exchanged cards, what `t` picks from the
      original ones. */
  function SwapOrdering(a: nat, b: nat, t: Ordering): Ordering {
    Ordering(SwapIndex(a, b, t.i), SwapIndex(a, b, t.j), SwapIndex(a, b, t.k), SwapIndex(a, b, t.l))
  }

  function SwapAll(a: nat, b: nat, ts: seq<Ordering>): (r: seq<Ordering>)
    ensures |r| == |ts|
  {
    seq(|ts|, p requires 0 <= p < |ts| => SwapOrdering(a, b, ts[p]))
  }

  /** `cards` with the cards at `a` and `b` exchanged. */
  function Swap(cards: seq<int>, a: nat, b: nat): (r: seq<int>)
    requires a < |cards| && b < |cards|
    ensures |r| == |cards|
    ensures forall x :: 0 <= x < |cards| ==> r[x] == cards[SwapIndex(a, b, x)]
    ensures multiset(r) == multiset(cards)
  {
    cards[a := cards[b]][b := cards[a]]
  }

  lemma SwapInvolution(a: nat, b: nat, t: Ordering)
    ensures SwapOrdering(a, b, SwapOrdering(a, b, t)) == t
  {
  }

  /** Exchanging two indices below `n` keeps a tuple an arrangement of `n`
      indices, and keeps different tuples different. */
  lemma SwapPreserves(n: nat, a: nat, b: nat, t: Ordering)
    requires a < n && b < n
    ensures IsPermutation(n, SwapOrdering(a, b, t)) <==> IsPermutation(n, t)
  {
  }

  lemma SwapAllDistinct(n: nat, a: nat, b: nat)
    requires a < n && b < n
    ensures forall p, q :: 0 <= p < q < |Orderings(n)| ==> SwapAll(a, b, Orderings(n))[p] != SwapAll(a, b, Orderings(n))[q]
  {
    var os := Orderings(n);
    var ss := SwapAll(a, b, os);
    OrderingsFacts(n);
    IncreasingDistinct(os);
    forall p, q | 0 <= p < q < |ss| ensures ss[p] != ss[q] {
      SwapInvolution(a, b, os[p]);
      SwapInvolution(a, b, os[q]);
    }
  }

  lemma SwapAllMembers(n: nat, a: nat, b: nat, t: Ordering)
    requires a < n && b < n
    ensures t in SwapAll(a, b, Orderings(n)) <==> IsPermutation(n, t)
  {
    var os := Orderings(n);
    var ss := SwapAll(a, b, os);
    OrderingsFacts(n);
    if IsPermutation(n, t) {
      var u := SwapOrdering(a, b, t);
      SwapPreserves(n, a, b, t);
      assert u in os;
      var p :| 0 <= p < |os| && os[p] == u;
      SwapInvolution(a, b, t);
      assert ss[p] == t;
    }
    if t in ss {
      var p :| 0 <= p < |ss| && ss[p] == t;
      assert os[p] in os;
      SwapPreserves(n, a, b, os[p]);
    }
  }

  /** Exchanging two indices maps the arrangements of `n` indices onto
      themselves, so the loops' tuples and their exchanged images form the
      same multiset. */
  lemma SwapOrderings(n: nat, a: nat, b: nat)
    requires a < n && b < n
    ensures multiset(SwapAll(a, b, Orderings(n))) == multiset(Orderings(n))
  {
    var os := Orderings(n);
    var ss := SwapAll(a, b, os);
    SwapAllDistinct(n, a, b);
    forall t ensures multiset(ss)[t] == multiset(os)[t] {
      OrderingsMultiplicity(n, t);
      DistinctMultiplicity(ss, t);
      SwapAllMembers(n, a, b, t);
    }
    assert multiset(ss) == multiset(os);
  }

  lemma SwapAllWithin(n: nat, a: nat, b: nat, ts: seq<Ordering>)
    requires a < n && b < n && AllWithin(n, ts)
    ensures AllWithin(n, SwapAll(a, b, ts))
  {
    var ss := SwapAll(a, b, ts);
    forall t | t in ss ensures Within(n, t) {
      var p :| 0 <= p < |ss| && ss[p] == t;
      assert ts[p] in ts;
    }
  }

  lemma SwapAgreeAt(c: seq<int>, a: nat, b: nat, ts: seq<Ordering>, q: nat)
    requires a < |c| && b < |c| && AllWithin(|c|, ts) && AllWithin(|c|, SwapAll(a, b, ts))
    requires q < |CandidatesOf(ts)|
    ensures q < |CandidatesOf(SwapAll(a, b, ts))|
    ensures Agree(Swap(c, a, b), CandidatesOf(ts)[q], c, CandidatesOf(SwapAll(a, b, ts))[q])
  {
    var ss := SwapAll(a, b, ts);
    var (p, m) := (q / 320, q % 320);
    assert q == 320 * p + m;
    CandidatesOfIndex(ts, p, m);
    CandidatesOfIndex(ss, p, m);
    var c' := Swap(c, a, b);
    assert Picked(c', ts[p]) == Picked(c, ss[p]);
  }

  /** Trying `ts` on the exchanged cards appends exactly what trying the
      exchanged tuples on the original cards does. */
  lemma SwapTexts(c: seq<int>, a: nat, b: nat, ts: seq<Ordering>)
    requires a < |c| && b < |c| && AllWithin(|c|, ts)
    ensures AllWithin(|c|, SwapAll(a, b, ts))
    ensures TextsOf(Swap(c, a, b), ts) == TextsOf(c, SwapAll(a, b, ts))
  {
    var ss := SwapAll(a, b, ts);
    SwapAllWithin(|c|, a, b, ts);
    var (xs, ys) := (CandidatesOf(ts), CandidatesOf(ss));
    forall q | 0 <= q < |xs| ensures Agree(Swap(c, a, b), xs[q], c, ys[q]) {
      SwapAgreeAt(c, a, b, ts, q);
    }
    SolutionTextsCongruent(Swap(c, a, b), xs, c, ys);
  }

  lemma OrderingsWithin(n: nat)
    ensures AllWithin(n, Orderings(n))
  {
    OrderingsFacts(n);
  }

  /** Exchanging two cards leaves the multiset of solutions unchanged. */
  lemma SwapInvariance(cards: seq<int>, a: nat, b: nat)
    requires a < |cards| && b < |cards|
    ensures multiset(Solutions(Swap(cards, a, b))) == multiset(Solutions(cards))
  {
    var n := |cards|;
    var os := Orderings(n);
    OrderingsWithin(n);
    SwapTexts(cards, a, b, os);
    SwapOrderings(n, a, b);
    TextsOfPermuted(cards, SwapAll(a, b, os), os);
  }

  // ----- Any rearrangement ---------------------------------------------------

  /** Where two rearrangements of the same cards first differ, the card
      wanted there lies further along. */
  lemma FindSwap(c: seq<int>, d: seq<int>, p: nat) returns (q: nat)
    requires p < |c| == |d| && c[..p] == d[..p] && c[p] != d[p]
    requires multiset(c) == multiset(d)
    ensures p < q < |c| && c[q] == d[p]
  {
    assert c == c[..p] + c[p..] && d == d[..p] + d[p..];
    assert multiset(c) == multiset(c[..p]) + multiset(c[p..]);
    assert multiset(d) == multiset(d[..p]) + multiset(d[p..]);
    MultisetCancel(multiset(c[p..]), multiset(d[p..]), multiset(c[..p]));
    assert d[p] in multiset(c[p..]);
    var r :| 0 <= r < |c[p..]| && c[p..][r] == d[p];
    q := p + r;
  }

  lemma SwapExtendsPrefix(c: seq<int>, d: seq<int>, p: nat, q: nat)
    requires p < q < |c| == |d| && c[..p] == d[..p] && c[q] == d[p]
    ensures Swap(c, p, q)[..p + 1] == d[..p + 1]
  {
    var c' := Swap(c, p, q);
    forall x | 0 <= x < p + 1 ensures c'[x] == d[x] {
      if x < p {
        assert c[x] == c[..p][x];
        assert d[x] == d[..p][x];
      }
    }
  }

  lemma {:induction false} ReachBySwaps(c: seq<int>, d: seq<int>, p: nat)
    requires p <= |c| == |d| && c[..p] == d[..p]
    requires multiset(c) == multiset(d)
    ensures multiset(Solutions(c)) == multiset(Solutions(d))
    decreases |c| - p
  {
    if p == |c| {
      assert c == c[..p] && d == d[..p];
    } else if c[p] == d[p] {
      assert c[..p + 1] == c[..p] + [c[p]] && d[..p + 1] == d[..p] + [d[p]];
      ReachBySwaps(c, d, p + 1);
    } else {
      var q := FindSwap(c, d, p);
      SwapExtendsPrefix(c, d, p, q);
      ReachBySwaps(Swap(c, p, q), d, p + 1);
      SwapInvariance(c, p, q);
    }
  }

  /** Any two orders of the same cards have the same solutions, each as many
      times: reordering the input only reorders `solutions`. */
  lemma PermutationInvariance(c: seq<int>, d: seq<int>)
    requires multiset(c) == multiset(d)
    ensures multiset(Solutions(c)) == multiset(Solutions(d))
  {
    assert |c| == |multiset(c)| == |multiset(d)| == |d|;
    ReachBySwaps(c, d, 0);
  }
}
