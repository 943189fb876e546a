/**
 * Playing cards and the trump-aware ordering of durak.py.
 *
 * The source keeps the trump suit in a class attribute (`LocalCard.trump`)
 * that the game sets once; here it is an explicit parameter of the ordering.
 */
module Cards {

  /** The four suits, in the order the deck is built: spades, hearts, clubs, diamonds. */
  datatype Suit = Spades | Hearts | Clubs | Diamonds

  /** The suits in construction order. */
  const Suits: seq<Suit> := [Spades, Hearts, Clubs, Diamonds]

  /** An immutable card; `rank` runs from 6 (or 2) up to 14, the ace. */
  datatype Card = Card(rank: int, suit: Suit)

  /**
   * `Card.__gt__`: cards of one suit compare by rank; cards of different
   * suits have no relation (the method returns None, which is falsy).
   */
  predicate PlainGreater(a: Card, b: Card)
  {
    a.suit == b.suit && a.rank > b.rank
  }

  /**
   * `LocalCard.__gt__`: as `Card.__gt__`, except that a card of the trump
   * suit beats every card of another suit.
   */
  predicate Beats(trump: Suit, a: Card, b: Card)
  {
    if a.suit == b.suit then a.rank > b.rank
    else a.suit == trump
  }

  /** Within one suit, `Beats` is exactly the rank order, whatever the trump. */
  lemma BeatsSameSuit(trump: Suit, a: Card, b: Card)
    requires a.suit == b.suit
    ensures Beats(trump, a, b) <==> a.rank > b.rank
  {
  }

  /** A trump beats any card of another suit, whatever the ranks. */
  lemma TrumpBeatsOffSuit(trump: Suit, a: Card, b: Card)
    requires a.suit == trump && b.suit != trump
    ensures Beats(trump, a, b) && !Beats(trump, b, a)
  {
  }

  /** A card that is not a trump never beats a card of a different suit. */
  lemma OffSuitNeverBeats(trump: Suit, a: Card, b: Card)
    requires a.suit != trump && a.suit != b.suit
    ensures !Beats(trump, a, b)
  {
  }

  /** `Beats` is a strict order: irreflexive, asymmetric and transitive. */
  lemma BeatsStrictOrder(trump: Suit, a: Card, b: Card, c: Card)
    ensures !Beats(trump, a, a)
    ensures Beats(trump, a, b) ==> !Beats(trump, b, a)
    ensures Beats(trump, a, b) && Beats(trump, b, c) ==> Beats(trump, a, c)
  {
  }

  /** The trump-aware order only adds the trump rule to the plain one. */
  lemma BeatsExtendsPlain(trump: Suit, a: Card, b: Card)
    ensures Beats(trump, a, b) <==> PlainGreater(a, b) || (a.suit == trump && b.suit != trump)
  {
  }
}
