/** Cards, hole cards and flops, and the "no conflicting cards" condition that the
    card library checks before any hand is evaluated. */
module Cards {

  /** Rank of a card, deuce (2) to ace (14): thirteen values. */
  type Rank = r: int | 2 <= r <= 14 witness 2

  datatype Suit = Clubs | Diamonds | Hearts | Spades

  /** A card is a plain value: two cards are the same card when rank and suit agree. */
  datatype Card = Card(rank: Rank, suit: Suit)

  /** A player's two private cards, in the order they were given. */
  datatype HoleCards = HoleCards(first: Card, second: Card) {
    function Cards(): (cs: seq<Card>)
      ensures |cs| == 2 && cs[0] == first && cs[1] == second
    {
      [first, second]
    }
  }

  /** The three community cards, in the order they were given. */
  datatype Flop = Flop(first: Card, second: Card, third: Card) {
    function Cards(): (cs: seq<Card>)
      ensures |cs| == 3 && cs[0] == first && cs[1] == second && cs[2] == third
    {
      [first, second, third]
    }
  }

  /** The five-card hand handed to the two-pair check: the hole cards followed by the
      flop cards, nothing dropped and nothing added. */
  function Hand(hole: HoleCards, flop: Flop): (hand: seq<Card>)
    ensures |hand| == 5
    ensures hand[..2] == hole.Cards() && hand[2..] == flop.Cards()
  {
    hole.Cards() + flop.Cards()
  }

  /** The five-card hand holds each hole card and each flop card as often as they were
      given: nothing is dropped and nothing is added. */
  lemma HandKeepsEveryCard(hole: HoleCards, flop: Flop)
    ensures multiset(Hand(hole, flop)) == multiset(hole.Cards()) + multiset(flop.Cards())
  {
  }

  /** No card occurs twice in `cards`: each card is compared with every later one. */
  predicate Distinct(cards: seq<Card>)
  {
    cards == [] || (cards[0] !in cards[1..] && Distinct(cards[1..]))
  }

  /** Distinct holds exactly when no two positions carry the same card. */
  lemma {:induction false} DistinctIffNoRepeat(cards: seq<Card>)
    ensures Distinct(cards) <==> forall i, j :: 0 <= i < j < |cards| ==> cards[i] != cards[j]
  {
    if cards != [] {
      DistinctIffNoRepeat(cards[1..]);
      if !Distinct(cards) {
        if cards[0] in cards[1..] {
          var j :| 0 <= j < |cards[1..]| && cards[1..][j] == cards[0];
          assert cards[0] == cards[j + 1];
        } else {
          var i, j :| 0 <= i < j < |cards[1..]| && cards[1..][i] == cards[1..][j];
          assert cards[i + 1] == cards[j + 1];
        }
      }
    }
  }

  /** Distinct holds exactly when every card occurs at most once: the check depends only
      on which cards are present, not on the order in which they are listed. */
  lemma {:induction false} DistinctIffSingleOccurrences(cards: seq<Card>)
    ensures Distinct(cards) <==> forall c :: multiset(cards)[c] <= 1
  {
    if cards != [] {
      DistinctIffSingleOccurrences(cards[1..]);
      assert cards == [cards[0]] + cards[1..];
      assert multiset(cards) == multiset{cards[0]} + multiset(cards[1..]);
      if Distinct(cards) {
        assert multiset(cards[1..])[cards[0]] == 0;
        forall c ensures multiset(cards)[c] <= 1 {
          assert multiset(cards)[c] == (if c == cards[0] then 1 else 0) + multiset(cards[1..])[c];
        }
      } else if cards[0] in cards[1..] {
        assert multiset(cards)[cards[0]] >= 2;
      } else {
        var c :| multiset(cards[1..])[c] > 1;
        assert multiset(cards)[c] >= multiset(cards[1..])[c];
      }
    }
  }

  /** The conflict condition on five well-formed cards: when the hole cards differ from
      each other and the flop has no repeated card, the five cards conflict exactly when a
      hole card lies on the flop. */
  lemma HoleOnFlopIsTheOnlyConflict(hole: HoleCards, flop: Flop)
    requires Distinct(hole.Cards()) && Distinct(flop.Cards())
    ensures !Distinct(Hand(hole, flop)) <==> hole.first in flop.Cards() || hole.second in flop.Cards()
  {
    DistinctIffNoRepeat(Hand(hole, flop));
    DistinctIffNoRepeat(hole.Cards());
    DistinctIffNoRepeat(flop.Cards());
  }
}
