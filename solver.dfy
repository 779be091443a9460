/** The `Game` object (src/com/solver/Game.java): the cards being played,
    read from the player or drawn from a shuffled deck, and the solutions
    found for them by the brute-force search. */
module Solver {
  import opened Wrappers
  import opened Decimal
  import opened Expressions
  import opened Search
  import opened Symmetry
  import opened Cards
  import opened Input
  import opened Sequences

  class Game {
    /** The numeric values of the cards being played; `null` until they
        are read or drawn. */
    var cards: array?<int>

    /** The solutions found for `cards`, in the order they were found. */
    var solutions: seq<string>

    /** A new game holds no cards and no solutions. */
    constructor ()
      ensures cards == null && solutions == []
    {
      cards := null;
      solutions := [];
    }

    /** The validation part of `inputCardsFromUser` (Game.java:40-92): each
        line, already split into tokens, is checked by `CheckAttempt`, which
        appends what it kept to one accumulator that is never cleared; the
        loop stops at the first accepted line or when the lines run out.
        The accumulator is then split and its first four words parsed.
        `ok` is false exactly where the source throws while parsing. */
    method InputCardsFromUser(lines: seq<seq<string>>) returns (ok: bool)
      modifies this`cards
      ensures cards != null && fresh(cards) && cards.Length == 4
      ensures ok <==> ReadCards(lines).Some?
      ensures ok ==> cards[..] == ReadCards(lines).value
    {
      var acc := "";
      var r := 0;
      while r < |lines|
        invariant r <= |lines|
        invariant Accumulate(lines[r..], acc) == Accumulate(lines, "")
      {
        var line := lines[r];
        var tokens := new string[|line|](m requires 0 <= m < |line| => line[m]);
        assert tokens[..] == line;
        AccumulateStep(lines, r, acc);
        var accepted;
        acc, accepted := CheckAttempt(tokens, acc);
        if accepted {
          break;
        }
        r := r + 1;
      }
      ok := ParseCards(Words(acc));
    }

    /** `inputCardsFromUser` as evidently intended: the accumulator starts
        empty on every attempt, so the cards are those of the accepted line;
        when no line is accepted there are no cards. */
    method InputCardsIntended(lines: seq<seq<string>>) returns (ok: bool)
      modifies this`cards
      ensures ok <==> Intended(lines).Some?
      ensures ok ==> cards != null && fresh(cards) && cards[..] == Intended(lines).value
    {
      var r := 0;
      while r < |lines|
        invariant r <= |lines|
        invariant Intended(lines[r..]) == Intended(lines)
      {
        var line := lines[r];
        var tokens := new string[|line|](m requires 0 <= m < |line| => line[m]);
        assert tokens[..] == line;
        IntendedStep(lines, r);
        var acc, accepted := CheckAttempt(tokens, "");
        if accepted {
          AcceptedReadsBack(line);
          assert acc == Appended(line);
          ok := ParseCards(Words(acc));
          return;
        }
        r := r + 1;
      }
      ok := false;
    }

    /** The last step of both ways of obtaining cards (Game.java:89-92 and
        130-133): `cards` becomes a new array of four, filled with
        `Integer.parseInt` of the first four words. `ok` is false where the
        source throws instead. */
    method ParseCards(words: seq<string>) returns (ok: bool)
      modifies this`cards
      ensures cards != null && fresh(cards) && cards.Length == 4
      ensures ok <==> FirstFour(words).Some?
      ensures ok ==> cards[..] == FirstFour(words).value
    {
      var arr := new int[4];
      cards := arr;
      ok := true;
      for i := 0 to 4
        invariant cards == arr
        invariant ok ==> i <= |words| && forall m :: 0 <= m < i ==> ParseInt(words[m]) == Some(arr[m])
        invariant !ok ==> FirstFour(words).None?
      {
        if i >= |words| {
          ok := false;
          break;
        }
        var v := ParseInt(words[i]);
        if v.None? {
          ok := false;
          break;
        }
        arr[i] := v.value;
      }
    }

    /** `generateCards` (Game.java:101-135): the first four labels of the
        shuffled deck are drawn, converted in place and parsed; every drawn
        label is a valid one, so parsing cannot fail. The shuffle itself is
        the parameter `shuffled`, any rearrangement of the deck. */
    method GenerateCards(shuffled: seq<string>)
      requires IsShuffle(shuffled)
      modifies this`cards
      ensures cards != null && fresh(cards) && cards.Length == 4
      ensures AllValid(shuffled[..4]) && cards[..] == Ranks(shuffled[..4])
    {
      var drawn := DrawCards(shuffled);
      DrawnRanks(shuffled);
      var ok := ParseCards(drawn[..]);
    }

    /** The four labels drawn from the top of `shuffled`, each converted in
        place (Game.java:110-127). */
    static method DrawCards(shuffled: seq<string>) returns (drawn: array<string>)
      requires |shuffled| >= 4
      ensures fresh(drawn) && drawn[..] == Converted(shuffled[..4])
    {
      drawn := new string[4](m requires 0 <= m < 4 => shuffled[m]);
      for i := 0 to 4
        invariant forall m :: 0 <= m < i ==> drawn[m] == ConvertCard(shuffled[m])
        invariant forall m :: i <= m < 4 ==> drawn[m] == shuffled[m]
      {
        drawn[i] := ConvertCard(drawn[i]);
      }
    }

    /** `findSolutions` (Game.java:163-1200): `solutions` is reset, then
        every arrangement of four distinct card indices is tried, in the
        order of the four nested loops, and for each the 320 conditions in
        the order they are written; each string whose expression is exactly
        24 is appended. The cards are not changed. */
    method FindSolutions()
      requires cards != null && cards.Length >= 4
      modifies this`solutions
      ensures solutions == Solutions(cards[..])
    {
      solutions := [];
      var n := cards.Length;
      ghost var c := cards[..];
      for i := 0 to n
        invariant solutions == FoundI(c, i)
      {
        ConcatAssoc([], FoundI(c, i), FoundJ(c, i, n));
        SearchJ(i);
      }
      FoundSolutions(c);
    }

    /** The second loop, for a fixed first index `i`. */
    method SearchJ(i: nat)
      requires cards != null && i < cards.Length
      modifies this`solutions
      ensures solutions == old(solutions) + FoundJ(cards[..], i, cards.Length)
    {
      var n := cards.Length;
      ghost var c := cards[..];
      ghost var pre := solutions;
      for j := 0 to n
        invariant solutions == pre + FoundJ(c, i, j)
      {
        if i == j {
          continue;
        }
        ConcatAssoc(pre, FoundJ(c, i, j), FoundK(c, i, j, n));
        SearchK(i, j);
      }
    }

    /** The third loop, for fixed `i` and `j`. */
    method SearchK(i: nat, j: nat)
      requires cards != null && i < cards.Length && j < cards.Length
      modifies this`solutions
      ensures solutions == old(solutions) + FoundK(cards[..], i, j, cards.Length)
    {
      var n := cards.Length;
      ghost var c := cards[..];
      ghost var pre := solutions;
      for k := 0 to n
        invariant solutions == pre + FoundK(c, i, j, k)
      {
        if i == k || j == k {
          continue;
        }
        ConcatAssoc(pre, FoundK(c, i, j, k), FoundL(c, i, j, k, n));
        SearchL(i, j, k);
      }
    }

    /** The innermost loop, for fixed `i`, `j` and `k`. */
    method SearchL(i: nat, j: nat, k: nat)
      requires cards != null && i < cards.Length && j < cards.Length && k < cards.Length
      modifies this`solutions
      ensures solutions == old(solutions) + FoundL(cards[..], i, j, k, cards.Length)
    {
      var n := cards.Length;
      ghost var c := cards[..];
      ghost var pre := solutions;
      for l := 0 to n
        invariant solutions == pre + FoundL(c, i, j, k, l)
      {
        if i == l || j == l || k == l {
          continue;
        }
        var t := Ordering(i, j, k, l);
        ConcatAssoc(pre, FoundL(c, i, j, k, l), Tried(c, t));
        TryOrdering(t);
      }
    }

    /** The 320 conditions tried for one arrangement of the cards
        (Game.java:188-1190): five shapes, and in each the 64 operator
        triples, in the order the source writes them. */
    method TryOrdering(t: Ordering)
      requires cards != null && Within(cards.Length, t)
      modifies this`solutions
      ensures solutions == old(solutions) + Tried(cards[..], t)
    {
      ghost var hand := cards[..];
      var (a, b, c, d) := (cards[t.i], cards[t.j], cards[t.k], cards[t.l]);
      for m := 0 to 320
        invariant solutions == old(solutions) + TriedUpTo(hand, t, m)
      {
        var (shape, ops) := CombinationAt(m);
        TriedStep(hand, t, m);
        if Eval(shape, ops, a as real, b as real, c as real, d as real) == Some(TARGET) {
          ConcatAssoc(old(solutions), TriedUpTo(hand, t, m), [Render(shape, ops, a, b, c, d)]);
          solutions := solutions + [Render(shape, ops, a, b, c, d)];
        } else {
          EmptyRight(TriedUpTo(hand, t, m));
        }
      }
      TriedAll(hand, t);
    }
  }

  /** The strings found by the first `m` of the 320 conditions tried for
      arrangement `t`. */
  function TriedUpTo(c: seq<int>, t: Ordering, m: nat): seq<string> {
    if Within(|c|, t) && m <= 320 then SolutionTexts(c, CandidatesAt(t)[..m]) else []
  }

  /** Trying condition `m` appends its string exactly when its value is 24. */
  lemma TriedStep(c: seq<int>, t: Ordering, m: nat)
    requires Within(|c|, t) && m < 320
    ensures TriedUpTo(c, t, m + 1) == TriedUpTo(c, t, m)
      + (if Eval(CombinationAt(m).0, CombinationAt(m).1, c[t.i] as real, c[t.j] as real, c[t.k] as real, c[t.l] as real) == Some(TARGET)
         then [Render(CombinationAt(m).0, CombinationAt(m).1, c[t.i], c[t.j], c[t.k], c[t.l])] else [])
  {
    var xs := CandidatesAt(t);
    assert forall x :: x in xs ==> Fits(c, x);
    SolutionTextsStep(c, xs, m);
  }

  /** All 320 conditions give the strings found for the arrangement. */
  lemma TriedAll(c: seq<int>, t: Ordering)
    requires Within(|c|, t)
    ensures TriedUpTo(c, t, 320) == Tried(c, t)
  {
    assert CandidatesAt(t)[..320] == CandidatesAt(t);
  }

  /** Trying condition `m` extends the strings of the first `m` conditions. */
  lemma SolutionTextsStep(cards: seq<int>, xs: seq<Candidate>, m: nat)
    requires m < |xs| && forall x :: x in xs ==> Fits(cards, x)
    ensures SolutionTexts(cards, xs[..m + 1])
         == SolutionTexts(cards, xs[..m]) + (if IsSolution(cards, xs[m]) then [Text(cards, xs[m])] else [])
  {
    assert xs[..m + 1][..m] == xs[..m];
  }

  /** Any rearrangement of the deck holds only valid labels. */
  lemma DrawnValid(shuffled: seq<string>, m: nat)
    requires m < |shuffled| && IsShuffle(shuffled)
    ensures shuffled[m] in VALID_INPUTS
  {
    assert shuffled[m] in multiset(shuffled);
    DeckMultiplicity(shuffled[m]);
  }

  /** The first four labels of a shuffled deck, once converted, parse to
      their ranks. */
  lemma DrawnRanks(shuffled: seq<string>)
    requires IsShuffle(shuffled)
    ensures AllValid(shuffled[..4])
    ensures FirstFour(Converted(shuffled[..4])) == Some(Ranks(shuffled[..4]))
  {
    var hand := shuffled[..4];
    forall m | 0 <= m < 4 ensures hand[m] in VALID_INPUTS {
      DrawnValid(shuffled, m);
    }
    HandRanks(hand);
  }


  /** The strings found for one arrangement `t` of the cards (none when
      `t` picks an index beyond the cards). */
  function Tried(c: seq<int>, t: Ordering): seq<string> {
    if Within(|c|, t) then SolutionTexts(c, CandidatesAt(t)) else []
  }

  /** The strings found by the innermost loop run up to `l`, skipping the
      indices already taken (Game.java:184-186). */
  function FoundL(c: seq<int>, i: nat, j: nat, k: nat, l: nat): seq<string>
  {
    if l == 0 then []
    else if i == l - 1 || j == l - 1 || k == l - 1 then FoundL(c, i, j, k, l - 1)
    else FoundL(c, i, j, k, l - 1) + Tried(c, Ordering(i, j, k, l - 1))
  }

  /** The strings found by the third loop run up to `k` (Game.java:180-182). */
  function FoundK(c: seq<int>, i: nat, j: nat, k: nat): seq<string>
  {
    if k == 0 then []
    else if i == k - 1 || j == k - 1 then FoundK(c, i, j, k - 1)
    else FoundK(c, i, j, k - 1) + FoundL(c, i, j, k - 1, |c|)
  }

  /** The strings found by the second loop run up to `j` (Game.java:176-178). */
  function FoundJ(c: seq<int>, i: nat, j: nat): seq<string>
  {
    if j == 0 then []
    else if i == j - 1 then FoundJ(c, i, j - 1)
    else FoundJ(c, i, j - 1) + FoundK(c, i, j - 1, |c|)
  }

  /** The strings found by the outermost loop run up to `i`. */
  function FoundI(c: seq<int>, i: nat): seq<string>
  {
    if i == 0 then [] else FoundI(c, i - 1) + FoundJ(c, i - 1, |c|)
  }

  lemma LoopLWithin(n: nat, i: nat, j: nat, k: nat, l: nat)
    requires i < n && j < n && k < n && l <= n
    ensures AllWithin(n, LoopL(i, j, k, l))
  {
    LoopLFacts(i, j, k, l);
  }

  lemma LoopKWithin(n: nat, i: nat, j: nat, k: nat)
    requires i < n && j < n && k <= n
    ensures AllWithin(n, LoopK(n, i, j, k))
  {
    LoopKMembers(n, i, j, k);
  }

  lemma LoopJWithin(n: nat, i: nat, j: nat)
    requires i < n && j <= n
    ensures AllWithin(n, LoopJ(n, i, j))
  {
    LoopJMembers(n, i, j);
  }

  lemma LoopIWithin(n: nat, i: nat)
    requires i <= n
    ensures AllWithin(n, LoopI(n, i))
  {
    LoopIMembers(n, i);
  }

  lemma TextsOfSingle(c: seq<int>, t: Ordering)
    requires Within(|c|, t)
    ensures AllWithin(|c|, [t])
    ensures TextsOf(c, [t]) == Tried(c, t)
  {
    assert CandidatesOf([t]) == CandidatesAt(t) by {
      assert [t][..0] == [];
    }
  }


  /** The innermost loop finds the strings of the tuples it reaches. */
  lemma {:induction false} FoundLTexts(c: seq<int>, i: nat, j: nat, k: nat, l: nat)
    requires i < |c| && j < |c| && k < |c| && l <= |c|
    ensures AllWithin(|c|, LoopL(i, j, k, l))
    ensures FoundL(c, i, j, k, l) == TextsOf(c, LoopL(i, j, k, l))
  {
    LoopLWithin(|c|, i, j, k, l);
    if l > 0 {
      var m := l - 1;
      FoundLTexts(c, i, j, k, m);
      FoundLStep(c, i, j, k, m);
    }
  }

  lemma FoundLStep(c: seq<int>, i: nat, j: nat, k: nat, m: nat)
    requires i < |c| && j < |c| && k < |c| && m < |c|
    requires AllWithin(|c|, LoopL(i, j, k, m))
    requires FoundL(c, i, j, k, m) == TextsOf(c, LoopL(i, j, k, m))
    ensures AllWithin(|c|, LoopL(i, j, k, m + 1))
    ensures FoundL(c, i, j, k, m + 1) == TextsOf(c, LoopL(i, j, k, m + 1))
  {
    LoopLWithin(|c|, i, j, k, m + 1);
    if i == m || j == m || k == m {
      EmptyRight(LoopL(i, j, k, m));
    } else {
      var t := Ordering(i, j, k, m);
      TextsOfSingle(c, t);
      TextsOfAppend(c, LoopL(i, j, k, m), [t]);
    }
  }

  lemma {:induction false} FoundKTexts(c: seq<int>, i: nat, j: nat, k: nat)
    requires i < |c| && j < |c| && k <= |c|
    ensures AllWithin(|c|, LoopK(|c|, i, j, k))
    ensures FoundK(c, i, j, k) == TextsOf(c, LoopK(|c|, i, j, k))
  {
    LoopKWithin(|c|, i, j, k);
    if k > 0 {
      var m := k - 1;
      FoundKTexts(c, i, j, m);
      FoundKStep(c, i, j, m);
    }
  }

  lemma FoundKStep(c: seq<int>, i: nat, j: nat, m: nat)
    requires i < |c| && j < |c| && m < |c|
    requires AllWithin(|c|, LoopK(|c|, i, j, m))
    requires FoundK(c, i, j, m) == TextsOf(c, LoopK(|c|, i, j, m))
    ensures AllWithin(|c|, LoopK(|c|, i, j, m + 1))
    ensures FoundK(c, i, j, m + 1) == TextsOf(c, LoopK(|c|, i, j, m + 1))
  {
    var n := |c|;
    LoopKWithin(n, i, j, m + 1);
    if i == m || j == m {
      EmptyRight(LoopK(n, i, j, m));
    } else {
      FoundLTexts(c, i, j, m, n);
      TextsOfAppend(c, LoopK(n, i, j, m), LoopL(i, j, m, n));
    }
  }

  lemma {:induction false} FoundJTexts(c: seq<int>, i: nat, j: nat)
    requires i < |c| && j <= |c|
    ensures AllWithin(|c|, LoopJ(|c|, i, j))
    ensures FoundJ(c, i, j) == TextsOf(c, LoopJ(|c|, i, j))
  {
    LoopJWithin(|c|, i, j);
    if j > 0 {
      var m := j - 1;
      FoundJTexts(c, i, m);
      FoundJStep(c, i, m);
    }
  }

  lemma FoundJStep(c: seq<int>, i: nat, m: nat)
    requires i < |c| && m < |c|
    requires AllWithin(|c|, LoopJ(|c|, i, m))
    requires FoundJ(c, i, m) == TextsOf(c, LoopJ(|c|, i, m))
    ensures AllWithin(|c|, LoopJ(|c|, i, m + 1))
    ensures FoundJ(c, i, m + 1) == TextsOf(c, LoopJ(|c|, i, m + 1))
  {
    var n := |c|;
    LoopJWithin(n, i, m + 1);
    if i == m {
      EmptyRight(LoopJ(n, i, m));
    } else {
      FoundKTexts(c, i, m, n);
      TextsOfAppend(c, LoopJ(n, i, m), LoopK(n, i, m, n));
    }
  }

  lemma {:induction false} FoundITexts(c: seq<int>, i: nat)
    requires i <= |c|
    ensures AllWithin(|c|, LoopI(|c|, i))
    ensures FoundI(c, i) == TextsOf(c, LoopI(|c|, i))
  {
    var n := |c|;
    LoopIWithin(n, i);
    if i > 0 {
      FoundITexts(c, i - 1);
      FoundJTexts(c, i - 1, n);
      TextsOfAppend(c, LoopI(n, i - 1), LoopJ(n, i - 1, n));
    }
  }

  /** The four nested loops, run to the end, find the strings of every
      candidate, in order. */
  lemma FoundSolutions(c: seq<int>)
    ensures FoundI(c, |c|) == Solutions(c)
  {
    FoundITexts(c, |c|);
  }
}
