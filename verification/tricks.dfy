/**
 * The `Field` of durak.py: the state of one trick and its attack/defend
 * protocol.
 *
 * A player's move is an `Offer`: the hand index the player typed, or
 * nothing. The source asks again after every illegal card, without bound;
 * here the answers come from a finite stream of offers, and a stream that
 * runs dry declines.
 */
module Tricks {
  import opened Wrappers
  import opened Cards
  import opened Decks

  /** A player's answer when asked for a card: a hand index as typed (any integer) or none. */
  datatype Offer = Pick(index: int) | Pass

  /** What `attack` and `defend` return: '' (play on), 'defend win' and 'attack win'. */
  datatype Outcome = Continue | DefendWin | AttackWin

  /**
   * `HumanPlayer.attack`/`defend` without the terminal: the offered card and
   * the hand without it; a decline and an index that raises IndexError both
   * give None.
   */
  function Answer(hand: seq<Card>, o: Offer): Option<(Card, seq<Card>)>
  {
    match o
    case Pass => None
    case Pick(i) => Take(hand, i)
  }

  /** An answered offer removes exactly the offered card from the hand. */
  lemma AnswerConserves(hand: seq<Card>, o: Offer)
    ensures Answer(hand, o).Some? ==>
              var (c, rest) := Answer(hand, o).value;
              c in hand && multiset(rest) + multiset{c} == multiset(hand)
  {
    if o.Pick? {
      TakeConserves(hand, o.index);
    }
  }

  /** How the reprompt loop of `attack` ends: a decline, or an accepted card. */
  datatype AttackEnd = NoAttack | Attacked(card: Card)

  /**
   * The reprompt loop of `Field.attack` (durak.py:264-278): a card whose rank
   * is not among the non-empty `ranks` goes back to the END of the hand and
   * the player is asked again. Yields the end, the hand and the unused offers.
   */
  function RunAttack(ranks: set<int>, hand: seq<Card>, offers: seq<Offer>): (AttackEnd, seq<Card>, seq<Offer>)
    decreases |offers|
  {
    if offers == [] then (NoAttack, hand, [])
    else
      match Answer(hand, offers[0])
      case None => (NoAttack, hand, offers[1..])
      case Some((c, rest)) =>
        if ranks != {} && c.rank !in ranks then RunAttack(ranks, rest + [c], offers[1..])
        else (Attacked(c), rest, offers[1..])
  }

  /** The cards an attack end puts on the table. */
  function Played(e: AttackEnd): multiset<Card>
  {
    match e
    case NoAttack => multiset{}
    case Attacked(c) => multiset{c}
  }

  /**
   * The attack loop loses no card: the hand afterwards plus the accepted card
   * is the hand before; an accepted card came from the hand and obeys the
   * throw-in rule.
   */
  lemma {:induction false} RunAttackSound(ranks: set<int>, hand: seq<Card>, offers: seq<Offer>)
    ensures var (e, h, _) := RunAttack(ranks, hand, offers);
            multiset(h) + Played(e) == multiset(hand) &&
            (e.Attacked? ==> e.card in hand && (ranks == {} || e.card.rank in ranks))
    decreases |offers|
  {
    if offers != [] {
      AnswerConserves(hand, offers[0]);
      match Answer(hand, offers[0])
      case None =>
      case Some((c, rest)) =>
        if ranks != {} && c.rank !in ranks {
          RunAttackSound(ranks, rest + [c], offers[1..]);
          assert multiset(rest + [c]) == multiset(hand);
        }
    }
  }

  /** The unused offers are a suffix of the offers, and an accepted card used at least one. */
  lemma {:induction false} RunAttackUses(ranks: set<int>, hand: seq<Card>, offers: seq<Offer>)
    ensures var (e, _, rest) := RunAttack(ranks, hand, offers);
            |rest| <= |offers| && rest == offers[|offers| - |rest|..] &&
            (e.Attacked? ==> |rest| < |offers|)
    decreases |offers|
  {
    if offers != [] {
      match Answer(hand, offers[0])
      case None =>
      case Some((c, rest)) =>
        if ranks != {} && c.rank !in ranks {
          RunAttackUses(ranks, rest + [c], offers[1..]);
          var (_, _, unused) := RunAttack(ranks, rest + [c], offers[1..]);
          assert offers[1..][|offers| - 1 - |unused|..] == offers[|offers| - |unused|..];
        }
    }
  }

  /** With no card of a playable rank in hand, every offer is refused and the attack is declined. */
  lemma {:induction false} RunAttackNoThrowIn(ranks: set<int>, hand: seq<Card>, offers: seq<Offer>)
    requires ranks != {}
    requires forall c :: c in hand ==> c.rank !in ranks
    ensures RunAttack(ranks, hand, offers).0 == NoAttack
    decreases |offers|
  {
    if offers != [] {
      AnswerConserves(hand, offers[0]);
      match Answer(hand, offers[0])
      case None =>
      case Some((c, rest)) =>
        assert forall d :: d in rest + [c] ==> d in hand by {
          assert multiset(rest + [c]) == multiset(hand);
        }
        RunAttackNoThrowIn(ranks, rest + [c], offers[1..]);
    }
  }

  /** How the reprompt loop of `defend` ends: the defender takes the cards, or covers with a card. */
  datatype DefendEnd = GaveUp | Covered(card: Card)

  /**
   * The reprompt loop of `Field.defend` (durak.py:283-296): a card that does
   * not beat the attack card goes back to the end of the hand and the
   * defender is asked again.
   */
  function RunDefend(trump: Suit, target: Card, hand: seq<Card>, offers: seq<Offer>): (DefendEnd, seq<Card>, seq<Offer>)
    decreases |offers|
  {
    if offers == [] then (GaveUp, hand, [])
    else
      match Answer(hand, offers[0])
      case None => (GaveUp, hand, offers[1..])
      case Some((c, rest)) =>
        if Beats(trump, c, target) then (Covered(c), rest, offers[1..])
        else RunDefend(trump, target, rest + [c], offers[1..])
  }

  /** The card a defend end puts on the table. */
  function Covering(e: DefendEnd): multiset<Card>
  {
    match e
    case GaveUp => multiset{}
    case Covered(c) => multiset{c}
  }

  /**
   * The defend loop loses no card, and a covering card came from the hand
   * and beats the attack card.
   */
  lemma {:induction false} RunDefendSound(trump: Suit, target: Card, hand: seq<Card>, offers: seq<Offer>)
    ensures var (e, h, _) := RunDefend(trump, target, hand, offers);
            multiset(h) + Covering(e) == multiset(hand) &&
            (e.Covered? ==> e.card in hand && Beats(trump, e.card, target))
    decreases |offers|
  {
    if offers != [] {
      AnswerConserves(hand, offers[0]);
      match Answer(hand, offers[0])
      case None =>
      case Some((c, rest)) =>
        if !Beats(trump, c, target) {
          RunDefendSound(trump, target, rest + [c], offers[1..]);
          assert multiset(rest + [c]) == multiset(hand);
        }
    }
  }

  /** The unused offers are a suffix of the offers. */
  lemma {:induction false} RunDefendUses(trump: Suit, target: Card, hand: seq<Card>, offers: seq<Offer>)
    ensures var (_, _, rest) := RunDefend(trump, target, hand, offers);
            |rest| <= |offers| && rest == offers[|offers| - |rest|..]
    decreases |offers|
  {
    if offers != [] {
      match Answer(hand, offers[0])
      case None =>
      case Some((c, rest)) =>
        if !Beats(trump, c, target) {
          RunDefendUses(trump, target, rest + [c], offers[1..]);
          var (_, _, unused) := RunDefend(trump, target, rest + [c], offers[1..]);
          assert offers[1..][|offers| - 1 - |unused|..] == offers[|offers| - |unused|..];
        }
    }
  }

  /** A defender with no card that beats the attack card can only take the cards. */
  lemma {:induction false} RunDefendNoCover(trump: Suit, target: Card, hand: seq<Card>, offers: seq<Offer>)
    requires forall c :: c in hand ==> !Beats(trump, c, target)
    ensures RunDefend(trump, target, hand, offers).0 == GaveUp
    decreases |offers|
  {
    if offers != [] {
      AnswerConserves(hand, offers[0]);
      match Answer(hand, offers[0])
      case None =>
      case Some((c, rest)) =>
        assert forall d :: d in rest + [c] ==> d in hand by {
          assert multiset(rest + [c]) == multiset(hand);
        }
        RunDefendNoCover(trump, target, rest + [c], offers[1..]);
    }
  }

  /**
   * `HumanPlayer.attack`/`defend` (durak.py:221-233) without the terminal:
   * pop the card at the offered index; an IndexError becomes None.
   */
  method Ask(player: Deck, o: Offer) returns (c: Option<Card>)
    modifies player
    ensures Answer(old(player.cards), o).None? ==> c == None && player.cards == old(player.cards)
    ensures Answer(old(player.cards), o).Some? ==>
              c == Some(Answer(old(player.cards), o).value.0) &&
              player.cards == Answer(old(player.cards), o).value.1
  {
    match o
    case Pass => c := None;
    case Pick(i) => c := player.GetCard(i);
  }

  /**
   * The reprompt loop of `Field.attack`: ask until the attacker declines or
   * offers a card of a playable rank, putting refused cards back at the end
   * of the hand.
   */
  method AskAttacker(player: Deck, ranks: set<int>, offers: seq<Offer>) returns (card: Option<Card>, rest: seq<Offer>)
    modifies player
    ensures var (e, h, unused) := RunAttack(ranks, old(player.cards), offers);
            player.cards == h && rest == unused &&
            card == (match e case NoAttack => None case Attacked(c) => Some(c))
  {
    rest := offers;
    while true
      invariant RunAttack(ranks, player.cards, rest) == RunAttack(ranks, old(player.cards), offers)
      decreases |rest|
    {
      card := None;
      if rest != [] {
        card := Ask(player, rest[0]);
        rest := rest[1..];
      }
      if card == None || ranks == {} || card.value.rank in ranks {
        return;
      }
      player.Append(card.value);
    }
  }

  /**
   * The reprompt loop of `Field.defend`: ask until the defender declines or
   * offers a card that beats `target`, putting refused cards back at the end
   * of the hand.
   */
  method AskDefender(player: Deck, trump: Suit, target: Card, offers: seq<Offer>) returns (card: Option<Card>, rest: seq<Offer>)
    modifies player
    ensures var (e, h, unused) := RunDefend(trump, target, old(player.cards), offers);
            player.cards == h && rest == unused &&
            card == (match e case GaveUp => None case Covered(c) => Some(c))
    ensures card == None ==> multiset(player.cards) == multiset(old(player.cards))
    ensures card != None ==> multiset(player.cards) + multiset{card.value} == multiset(old(player.cards))
  {
    RunDefendSound(trump, target, player.cards, offers);
    rest := offers;
    while true
      invariant RunDefend(trump, target, player.cards, rest) == RunDefend(trump, target, old(player.cards), offers)
      decreases |rest|
    {
      card := None;
      if rest != [] {
        card := Ask(player, rest[0]);
        rest := rest[1..];
      }
      if card == None || Beats(trump, card.value, target) {
        return;
      }
      player.Append(card.value);
    }
  }

  /** Covering moves the covering card from the hand to the table, beside the attack card. */
  lemma CoverConserves(hand0: seq<Card>, hand1: seq<Card>, beaten: seq<Card>, target: Card, c: Card)
    requires multiset(hand1) + multiset{c} == multiset(hand0)
    ensures multiset(hand1) + (multiset(beaten + [target, c]) + multiset{}) == multiset(hand0) + (multiset(beaten) + multiset{target})
  {
  }

  /** The state of one trick. */
  class Field {
    /** The unanswered attack card, if any. */
    var attackCard: Option<Card>
    /** Attack and covering cards of the trick so far, in pairs. */
    var beaten: seq<Card>
    /** Ranks that may be thrown in. */
    var ranks: set<int>
    /** Attacks left in this trick. */
    var capacity: int

    /** A fresh trick: nothing on the table, and room for six attacks whatever the defender holds. */
    constructor ()
      ensures attackCard == None && beaten == [] && ranks == {} && capacity == 6
    {
      attackCard := None;
      beaten := [];
      ranks := {};
      capacity := 6;
    }

    /** The cards on the table. */
    function Table(): multiset<Card>
      reads this
    {
      multiset(beaten) + match attackCard case None => multiset{} case Some(c) => multiset{c}
    }

    /**
     * `Field.attack`: with an empty hand or no capacity left the defender
     * wins at once; otherwise the attacker is asked until a card of a
     * playable rank is offered (it becomes the attack card, its rank is
     * recorded, one unit of capacity is used) or the attacker declines (the
     * defender wins). Never returns 'attack win'.
     */
    method Attack(player: Deck, offers: seq<Offer>) returns (r: Outcome, rest: seq<Offer>)
      modifies this, player
      ensures old(player.cards == [] || capacity == 0) ==>
                r == DefendWin && rest == offers && unchanged(this, player)
      ensures old(player.cards != [] && capacity != 0) ==>
                var (e, h, unused) := RunAttack(old(ranks), old(player.cards), offers);
                player.cards == h && rest == unused && beaten == old(beaten) &&
                (e.NoAttack? ==> r == DefendWin && attackCard == None && ranks == old(ranks) && capacity == old(capacity)) &&
                (e.Attacked? ==> r == Continue && attackCard == Some(e.card) &&
                                 ranks == old(ranks) + {e.card.rank} && capacity == old(capacity) - 1)
      ensures old(attackCard) == None ==> multiset(player.cards) + Table() == old(multiset(player.cards) + Table())
      ensures r == Continue ==> attackCard.Some? && old(capacity) != 0 && capacity == old(capacity) - 1
      ensures r != Continue ==> r == DefendWin && capacity == old(capacity) &&
                                (old(attackCard) == None ==> attackCard == None)
    {
      if player.Size() == 0 || capacity == 0 {
        return DefendWin, offers;
      }
      RunAttackSound(ranks, player.cards, offers);
      var card;
      card, rest := AskAttacker(player, ranks, offers);
      if card == None {
        attackCard := None;
        return DefendWin, rest;
      }
      capacity := capacity - 1;
      attackCard := card;
      ranks := ranks + {card.value.rank};
      r := Continue;
    }

    /**
     * `Field.defend`: with an empty hand or no attack card the defender wins
     * at once; otherwise the defender is asked until a card that beats the
     * attack card is offered (both go to `beaten`, the covering rank is
     * recorded, the attack card is cleared) or the defender declines, which
     * is 'attack win' and leaves the table as it was.
     */
    method Defend(player: Deck, trump: Suit, offers: seq<Offer>) returns (r: Outcome, rest: seq<Offer>)
      modifies this, player
      ensures old(player.cards == [] || attackCard == None) ==>
                r == DefendWin && rest == offers && unchanged(this, player)
      ensures old(player.cards != [] && attackCard != None) ==>
                var (e, h, unused) := RunDefend(trump, old(attackCard).value, old(player.cards), offers);
                player.cards == h && rest == unused && capacity == old(capacity) &&
                (e.GaveUp? ==> r == AttackWin && attackCard == old(attackCard) &&
                               beaten == old(beaten) && ranks == old(ranks)) &&
                (e.Covered? ==> r == Continue && attackCard == None &&
                                beaten == old(beaten) + [old(attackCard).value, e.card] &&
                                ranks == old(ranks) + {e.card.rank})
      ensures multiset(player.cards) + Table() == old(multiset(player.cards) + Table())
      ensures capacity == old(capacity)
      ensures r == Continue ==> attackCard == None
      ensures r == AttackWin ==> attackCard.Some?
      ensures r == DefendWin ==> attackCard == old(attackCard)
    {
      if player.Size() == 0 || attackCard == None {
        return DefendWin, offers;
      }
      var target := attackCard.value;
      ghost var hand0 := player.cards;
      var card;
      card, rest := AskDefender(player, trump, target, offers);
      if card == None {
        return AttackWin, rest;
      }
      CoverConserves(hand0, player.cards, beaten, target, card.value);
      beaten := beaten + [target, card.value];
      ranks := ranks + {card.value.rank};
      attackCard := None;
      r := Continue;
    }
  }
}
