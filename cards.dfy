/** Card labels (src/com/solver/Game.java:13-22, 141-157): the thirteen
    labels a player may type, the 52-card deck cards are drawn from, and the
    conversion of a label to the decimal text of its rank. */
module Cards {
  import opened Wrappers
  import opened Decimal
  import opened Multisets

  /** The labels accepted as cards, ace to king (Game.java:13-15). */
  const VALID_INPUTS: seq<string> := ["A", "2", "3", "4", "5", "6", "7", "8", "9", "10", "J", "Q", "K"]

  /** Four suits' worth of the thirteen labels, one row of the source's
      array per suit (Game.java:17-22). */
  const DECK_OF_CARDS: seq<string> := VALID_INPUTS + VALID_INPUTS + VALID_INPUTS + VALID_INPUTS

  /** `shuffled` is the deck in some order, as `Collections.shuffle` leaves
      it. */
  predicate IsShuffle(shuffled: seq<string>) {
    |shuffled| == 52 && multiset(shuffled) == multiset(DECK_OF_CARDS)
  }

  /** `convertCards`: the ace and the court cards become the text of their
      rank; every other label is returned as it is. */
  function ConvertCard(card: string): string {
    if card == "A" then "1"
    else if card == "J" then "11"
    else if card == "Q" then "12"
    else if card == "K" then "13"
    else card
  }

  /** A label's rank, from its position among the valid labels: the ace is 1,
      the king 13. */
  function Rank(card: string): (r: int)
    requires card in VALID_INPUTS
    ensures 1 <= r <= 13 && VALID_INPUTS[r - 1] == card
  {
    PositionOf(VALID_INPUTS, card) + 1
  }

  function PositionOf(cards: seq<string>, card: string): (p: nat)
    requires card in cards
    ensures p < |cards| && cards[p] == card
  {
    if cards[0] == card then 0 else 1 + PositionOf(cards[1..], card)
  }

  /** The text a valid label converts to. */
  predicate IsRankText(w: string) {
    exists m :: 0 <= m < 13 && w == ConvertCard(VALID_INPUTS[m])
  }

  /** Every valid label converts to the decimal text of its rank, the number
      one more than its position in `VALID_INPUTS`. */
  lemma ConvertValid(m: nat)
    requires m < 13
    ensures ParseInt(ConvertCard(VALID_INPUTS[m])) == Some(m + 1)
  {
    var w := ConvertCard(VALID_INPUTS[m]);
    if m == 0 || m >= 9 {
      assert w == FormatInt(m + 1);
      ParseFormatInt(m + 1);
    } else {
      assert w == [('0' as int + m + 1) as char];
    }
  }

  /** `convertCards` followed by `Integer.parseInt` yields the rank. */
  lemma ConvertRank(card: string)
    requires card in VALID_INPUTS
    ensures ParseInt(ConvertCard(card)) == Some(Rank(card))
    ensures IsRankText(ConvertCard(card))
  {
    ConvertValid(Rank(card) - 1);
  }

  /** A rank text is a non-empty word without spaces that `Integer.parseInt`
      reads as a number from 1 to 13. */
  lemma RankTextShape(w: string)
    requires IsRankText(w)
    ensures 0 < |w| && ' ' !in w
    ensures ParseInt(w).Some? && 1 <= ParseInt(w).value <= 13
  {
    var m :| 0 <= m < 13 && w == ConvertCard(VALID_INPUTS[m]);
    ConvertValid(m);
  }

  /** The labels other than the four converted ones are left unchanged. */
  lemma ConvertUnchanged(card: string)
    requires card != "A" && card != "J" && card != "Q" && card != "K"
    ensures ConvertCard(card) == card
  {
  }

  lemma ValidDistinct()
    ensures forall p, q :: 0 <= p < q < |VALID_INPUTS| ==> VALID_INPUTS[p] != VALID_INPUTS[q]
  {
    forall p, q | 0 <= p < q < |VALID_INPUTS| ensures VALID_INPUTS[p] != VALID_INPUTS[q] {
      ConvertValid(p);
      ConvertValid(q);
    }
  }

  /** The deck holds each of the thirteen labels exactly four times and
      nothing else. */
  lemma DeckMultiplicity(l: string)
    ensures multiset(DECK_OF_CARDS)[l] == if l in VALID_INPUTS then 4 else 0
    ensures |DECK_OF_CARDS| == 52
  {
    ValidDistinct();
    DistinctMultiplicity(VALID_INPUTS, l);
    var v := VALID_INPUTS;
    assert multiset(DECK_OF_CARDS) == multiset(v) + multiset(v) + multiset(v) + multiset(v);
  }
}
