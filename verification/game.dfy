/**
 * `Game` and `GameDuel` of durak.py: dealing, the trump, turn order, the
 * trick loop, refilling and the end of the round.
 *
 * Players are reduced to their hands (`Deck` objects) and attack flags; what
 * a player answers comes from a stream of offers. The game also keeps two
 * ghost multisets that the source has no counterpart for: `allCards`, the
 * cards it started with, and `discard`, the cards of tricks the defender won,
 * which the source drops together with the old `Field`. With them the
 * invariant `Valid()` states that no card is created or lost.
 */
module Durak {
  import opened Wrappers
  import opened Cards
  import opened Decks
  import opened Tricks
  import opened Rules

  /**
   * The seat after `t` at a table of `n` players, where the source writes
   * `(t + 1) % n`; `NextSeatIsMod` shows the two agree for every seat.
   */
  function NextSeat(t: nat, n: nat): (r: nat)
    requires t < n
    ensures r < n
  {
    if t + 1 == n then 0 else t + 1
  }

  lemma NextSeatIsMod(t: nat, n: nat)
    requires t < n
    ensures NextSeat(t, n) == (t + 1) % n
    ensures n >= 2 ==> NextSeat(t, n) != t
  {
  }

  /** `Game.winner`: unset (None), 'draw', or the index of the player who ran out of cards first, the winner. */
  datatype Winner = Undecided | Draw | Seat(index: nat)

  /** The cards of each hand, in player order. */
  function CardsOf(hs: seq<Deck>): (r: seq<seq<Card>>)
    reads hs
    ensures |r| == |hs| && forall i :: 0 <= i < |hs| ==> r[i] == hs[i].cards
  {
    seq(|hs|, i requires 0 <= i < |hs| reads hs => hs[i].cards)
  }

  /** The list comprehension of `Game.draw_cards`: hand `i` gets the cards `hs[i]`. */
  method SetCards(hands: seq<Deck>, hs: seq<seq<Card>>)
    requires |hs| == |hands|
    requires forall i, j :: 0 <= i < j < |hands| ==> hands[i] != hands[j]
    modifies hands
    ensures CardsOf(hands) == hs
  {
    for i := 0 to |hands|
      invariant forall k :: 0 <= k < i ==> hands[k].cards == hs[k]
    {
      hands[i].cards := hs[i];
    }
  }

  /**
   * `HumanPlayer.shortage`: a hand of at most `target` cards draws up to
   * `target` cards from the top of the deck, putting each one at the front.
   */
  method Shortage(hand: Deck, deck: Deck, target: int)
    requires hand != deck
    modifies hand, deck
    ensures (deck.cards, hand.cards) == Refill(old(deck.cards), old(hand.cards), target)
  {
    var need := target - hand.Size();
    if need >= 0 {
      ghost var d0 := deck.cards;
      var drawn := deck.GetUpperCards(need);
      ghost var h0 := hand.cards;
      for j := 0 to |drawn|
        invariant hand.cards == Reversed(drawn[..j]) + h0
        invariant deck.cards == d0[..|d0| - |drawn|]
      {
        hand.PutInEnd(drawn[j]);
        assert drawn[..j + 1][..j] == drawn[..j];
      }
      assert drawn[..|drawn|] == drawn;
      TopDownReversed(d0, |drawn|);
    }
  }

  /** The attacker's-win branch of `GameDuel.play_loop`: the defender extends the hand with the table of `f`. */
  method TakeInto(defender: Deck, f: Field)
    requires f.attackCard.Some?
    modifies defender
    ensures defender.cards == old(defender.cards) + f.beaten + [f.attackCard.value]
    ensures multiset(defender.cards) == old(multiset(defender.cards)) + f.Table()
  {
    defender.Extend(f.beaten);
    defender.Append(f.attackCard.value);
  }

  /** The loop of `Game.restore_cards`: `shortage` for each player of `order` in turn. */
  method Restore(deck: Deck, hands: seq<Deck>, order: seq<nat>, target: int)
    requires deck !in hands
    requires forall i, j :: 0 <= i < j < |hands| ==> hands[i] != hands[j]
    requires forall k :: 0 <= k < |order| ==> order[k] < |hands|
    modifies deck, hands
    ensures (deck.cards, CardsOf(hands)) == RestoreSpec(old(deck.cards), old(CardsOf(hands)), order, target)
  {
    ghost var d0 := deck.cards;
    ghost var hs0 := CardsOf(hands);
    for k := 0 to |order|
      invariant (deck.cards, CardsOf(hands)) == RestoreSpec(d0, hs0, order[..k], target)
    {
      ghost var before := order[..k];
      assert order[..k + 1] == before + [order[k]];
      RestoreStep(d0, hs0, before, order[k], target);
      ghost var hs := CardsOf(hands);
      Shortage(hands[order[k]], deck, target);
      assert CardsOf(hands) == hs[order[k] := hands[order[k]].cards];
    }
    assert order[..|order|] == order;
  }

  /** Moving cards between the deck and the hands, beside an untouched discard, loses none. */
  lemma Rebalance(deck0: multiset<Card>, deck1: multiset<Card>, pool0: multiset<Card>, pool1: multiset<Card>,
                  discard: multiset<Card>, all: multiset<Card>)
    requires deck0 + discard + pool0 == all
    requires deck1 + pool1 == deck0 + pool0
    ensures deck1 + discard + pool1 == all
  {
    calc {
      deck1 + discard + pool1;
      discard + (deck1 + pool1);
      discard + (deck0 + pool0);
      all;
    }
  }

  /** Moving the top card to the bottom keeps the cards. */
  lemma BuryTop(s: seq<Card>)
    requires s != []
    ensures multiset([s[|s| - 1]] + s[..|s| - 1]) == multiset(s)
  {
    assert s == s[..|s| - 1] + [s[|s| - 1]];
  }

  /** After dealing `m` cards off `s`, the top card and the rest below it. */
  lemma BelowDealt(s: seq<Card>, m: nat)
    requires m < |s|
    ensures var s1 := s[..|s| - m];
            s1[|s1| - 1] == s[|s| - 1 - m] && s1[..|s1| - 1] == s[..|s| - 1 - m]
  {
  }

  /**
   * The inner loop of `GameDuel.play_loop`: attack and defend on `field`
   * until one of them ends the trick (a result other than None in the
   * source). Cards only move between the two hands and the table.
   */
  method Trick(field: Field, attacker: Deck, defender: Deck, trump: Suit, offers: seq<Offer>)
    returns (result: Outcome, rest: seq<Offer>)
    requires attacker != defender
    requires field.attackCard == None && field.capacity >= 0
    modifies field, attacker, defender
    ensures result == AttackWin || result == DefendWin
    ensures |rest| <= |offers|
    ensures result == AttackWin ==> field.attackCard.Some?
    ensures multiset(attacker.cards) + multiset(defender.cards) + field.Table() ==
            old(multiset(attacker.cards) + multiset(defender.cards) + field.Table())
  {
    rest := offers;
    result := Continue;
    while result == Continue
      invariant result == Continue ==> field.attackCard == None
      invariant result == AttackWin ==> field.attackCard.Some?
      invariant field.capacity >= 0 && |rest| <= |offers|
      invariant multiset(attacker.cards) + multiset(defender.cards) + field.Table() ==
                old(multiset(attacker.cards) + multiset(defender.cards) + field.Table())
      decreases field.capacity + (if result == Continue then 1 else 0)
    {
      ghost var a0, d0, t0 := multiset(attacker.cards), multiset(defender.cards), field.Table();
      RunAttackUses(field.ranks, attacker.cards, rest);
      var ra, rd;
      ra, rest := field.Attack(attacker, rest);
      ghost var a1, t1 := multiset(attacker.cards), field.Table();
      if field.attackCard.Some? {
        RunDefendUses(trump, field.attackCard.value, defender.cards, rest);
      }
      rd, rest := field.Defend(defender, trump, rest);
      TrickStep(a0, a1, d0, multiset(defender.cards), t0, t1, field.Table());
      result := if ra != Continue then ra else rd;
    }
  }

  /** An attack then a defence move cards between the two hands and the table only. */
  lemma TrickStep(a0: multiset<Card>, a1: multiset<Card>, d0: multiset<Card>, d1: multiset<Card>,
                  t0: multiset<Card>, t1: multiset<Card>, t2: multiset<Card>)
    requires a1 + t1 == a0 + t0
    requires d1 + t2 == d0 + t1
    ensures a1 + d1 + t2 == a0 + d0 + t0
  {
    calc {
      a1 + d1 + t2;
      a1 + (d1 + t2);
      a1 + (d0 + t1);
      (a1 + t1) + d0;
      (a0 + t0) + d0;
    }
  }

  /**
   * A trick moves cards from the attacker's and the defender's hands to the
   * table: every card is still in the deck, a hand, the discard or on the table.
   */
  lemma ToTable(hs: seq<seq<Card>>, a: nat, d: nat, ha: seq<Card>, hd: seq<Card>,
                table: multiset<Card>, deck: multiset<Card>, discard: multiset<Card>, all: multiset<Card>)
    requires a < |hs| && d < |hs| && a != d
    requires deck + discard + Pool(hs) == all
    requires multiset(ha) + multiset(hd) + table == multiset(hs[a]) + multiset(hs[d])
    ensures deck + discard + Pool(hs[a := ha][d := hd]) + table == all
  {
    PoolReplaceTwo(hs, a, d, ha, hd, multiset{}, table);
    calc {
      deck + discard + Pool(hs[a := ha][d := hd]) + table;
      deck + discard + (Pool(hs[a := ha][d := hd]) + table);
      deck + discard + (Pool(hs) + multiset{});
      all;
    }
  }

  /** The defender takes the table into hand `d`: no card is lost. */
  lemma TableToHand(hs: seq<seq<Card>>, d: nat, hd: seq<Card>,
                    table: multiset<Card>, deck: multiset<Card>, discard: multiset<Card>, all: multiset<Card>)
    requires d < |hs|
    requires deck + discard + Pool(hs) + table == all
    requires multiset(hd) == multiset(hs[d]) + table
    ensures deck + discard + Pool(hs[d := hd]) == all
  {
    PoolReplace(hs, d, hd, table, multiset{});
    calc {
      deck + discard + Pool(hs[d := hd]);
      deck + discard + (Pool(hs[d := hd]) + multiset{});
      deck + discard + (Pool(hs) + table);
      all;
    }
  }

  /** The table goes to the discard: no card is lost. */
  lemma TableToDiscard(deck: multiset<Card>, discard: multiset<Card>, pool: multiset<Card>,
                       table: multiset<Card>, all: multiset<Card>)
    requires deck + discard + pool + table == all
    ensures deck + (discard + table) + pool == all
  {
  }

  class Game {
    const deck: Deck
    /** The players' hands; the players themselves are not modelled. */
    const hands: seq<Deck>
    const numPlayers: nat
    /** The hand size refills aim at. */
    const cardsNum: nat := 6
    /** Unset until `Preparations`. */
    var trump: Option<Suit>
    /** Index of the attacker. */
    var turn: nat
    var winner: Winner
    var run: bool
    /** Each player's `attack_flag`. */
    var attackFlags: seq<bool>
    /** Every card the game started with. */
    ghost var allCards: multiset<Card>
    /** Cards of tricks the defender won. */
    ghost var discard: multiset<Card>

    /** The cards `draw_cards` deals: `cardsNum` to each player. */
    function DealSize(): nat
    {
      Times(cardsNum, numPlayers)
    }

    function Hands(): seq<seq<Card>>
      reads hands
    {
      CardsOf(hands)
    }

    /**
     * The shape of the game: one hand and one flag per player, hands
     * distinct from each other and from the deck, the attacker a player.
     */
    ghost predicate Layout()
      reads this`turn, this`attackFlags
    {
      |hands| == numPlayers && |attackFlags| == numPlayers &&
      deck !in hands &&
      (forall i, j :: 0 <= i < j < |hands| ==> hands[i] != hands[j]) &&
      (numPlayers > 0 ==> turn < numPlayers)
    }

    /** The object invariant: the layout holds and every card is in the deck, in a hand or discarded. */
    ghost predicate Valid()
      reads this`turn, this`attackFlags, this`discard, this`allCards, deck, hands
    {
      Layout() && multiset(deck.cards) + discard + Pool(Hands()) == allCards
    }

    /** During a trick: the layout holds and the cards `table` lie on the table, out of every hand. */
    ghost predicate OnTable(table: multiset<Card>)
      reads this`turn, this`attackFlags, this`discard, this`allCards, deck, hands
    {
      Layout() && multiset(deck.cards) + discard + Pool(Hands()) + table == allCards
    }

    /** The round is decided: the one player left without cards wins, several empty hands make a draw. */
    ghost predicate Decided()
      reads this`winner, hands
    {
      (winner == Draw &&
       exists i, j :: 0 <= i < j < |hands| && hands[i].cards == [] && hands[j].cards == []) ||
      (winner.Seat? && winner.index < |hands| && hands[winner.index].cards == [] &&
       forall j :: 0 <= j < |hands| && j != winner.index ==> hands[j].cards != [])
    }

    /**
     * `Game.__init__`: a 36-card deck in the given order (the shuffle's
     * outcome) and `n` players with empty hands. The source's `turn` is
     * None until `preparations`; here it starts at 0 and `Preparations`
     * overwrites it.
     */
    constructor (order: seq<Card>, n: nat)
      requires multiset(order) == multiset(FullDeck(false))
      ensures Valid() && fresh(deck)
      ensures forall i :: 0 <= i < |hands| ==> fresh(hands[i])
      ensures deck.cards == order && numPlayers == n
      ensures forall i :: 0 <= i < |hands| ==> hands[i].cards == []
      ensures trump == None && winner == Undecided && run && turn == 0
      ensures attackFlags == seq(n, _ => false)
      ensures allCards == multiset(FullDeck(false)) && discard == multiset{}
    {
      var d := new Deck(false, false);
      d.cards := order;
      var hs: seq<Deck> := [];
      for i := 0 to n
        invariant |hs| == i && d !in hs && d.cards == order
        invariant forall k :: 0 <= k < i ==> fresh(hs[k]) && hs[k].cards == []
        invariant forall a, b :: 0 <= a < b < i ==> hs[a] != hs[b]
      {
        var h := new Deck(false, true);
        hs := hs + [h];
      }
      PoolEmpty(CardsOf(hs));
      deck := d;
      hands := hs;
      numPlayers := n;
      trump := None;
      turn := 0;
      winner := Undecided;
      run := true;
      attackFlags := seq(n, _ => false);
      allCards := multiset(order);
      discard := multiset{};
      new;
      assert Hands() == CardsOf(hs);
      assert Pool(Hands()) == multiset{};
    }

    /**
     * `Game.draw_cards`: deal `cardsNum` cards to every hand round-robin,
     * replacing the (empty) hands; a deck too short for that raises
     * IndexError (`ok` false).
     */
    method DrawHands() returns (ok: bool)
      requires Valid()
      requires forall i :: 0 <= i < |hands| ==> hands[i].cards == []
      modifies deck, hands
      ensures ok <==> DealSize() <= |old(deck.cards)|
      ensures ok ==> Valid()
      ensures ok ==> Hands() == Dealt(old(deck.cards), numPlayers, cardsNum) &&
                     deck.cards == old(deck.cards)[..|old(deck.cards)| - DealSize()]
    {
      ghost var d0 := deck.cards;
      PoolEmpty(Hands());
      var dealt := deck.DrawCards(numPlayers, cardsNum);
      if dealt == None {
        return false;
      }
      GiveHands(dealt.value, d0);
      ok := true;
    }

    /** The assignment half of `Game.draw_cards`: the dealt cards become the hands. */
    method GiveHands(hs: seq<seq<Card>>, ghost d0: seq<Card>)
      requires Layout() && |hs| == numPlayers
      requires multiset(d0) + discard == allCards
      requires multiset(deck.cards) + Pool(hs) == multiset(d0)
      modifies hands
      ensures Valid() && Hands() == hs
    {
      SetCards(hands, hs);
      assert Hands() == hs;
    }

    /**
     * `Game.preparations`: deal, pop the next card, bury it at the bottom of
     * the deck and take its suit as trump, then pick the first attacker.
     * Fails (`ok` false) where the source raises: a deck too short to deal,
     * no card left to reveal, or no player for `choice_first`.
     */
    method Preparations() returns (ok: bool)
      requires Valid()
      requires forall i :: 0 <= i < |hands| ==> hands[i].cards == []
      modifies this`trump, this`turn, deck, hands
      ensures ok <==> 1 <= numPlayers && DealSize() < |old(deck.cards)|
      ensures ok ==> Valid()
      ensures ok ==>
                var s := old(deck.cards);
                var m := DealSize();
                Hands() == Dealt(s, numPlayers, cardsNum) &&
                deck.cards == [s[|s| - 1 - m]] + s[..|s| - 1 - m] &&
                trump == Some(s[|s| - 1 - m].suit) &&
                turn == FirstAttacker(Hands(), trump.value)
    {
      ghost var s := deck.cards;
      ghost var m := DealSize();
      ok := DrawHands();
      if !ok {
        return;
      }
      ghost var hs1 := Hands();
      ok := RevealTrump();
      if !ok || numPlayers == 0 {
        return false;
      }
      BelowDealt(s, m);
      PickFirst();
    }

    /**
     * The trump step of `Game.preparations`: pop the top card, put it at the
     * bottom and take its suit as trump; an empty deck raises IndexError.
     */
    method RevealTrump() returns (ok: bool)
      requires Valid()
      modifies this`trump, deck
      ensures ok <==> old(deck.cards) != []
      ensures ok ==> Valid()
      ensures Hands() == old(Hands())
      ensures ok ==>
                var s := old(deck.cards);
                deck.cards == [s[|s| - 1]] + s[..|s| - 1] &&
                trump == Some(s[|s| - 1].suit) && trump == Some(deck.cards[0].suit)
    {
      ghost var s := deck.cards;
      ghost var hs := Hands();
      var trumpCard := deck.PopTop();
      if trumpCard == None {
        return false;
      }
      deck.PutInEnd(trumpCard.value);
      BuryTop(s);
      trump := Some(trumpCard.value.suit);
      assert Hands() == hs;
      ok := true;
    }

    /** The last step of `Game.preparations`: `choice_first` names the attacker. */
    method PickFirst()
      requires Valid() && numPlayers >= 1 && trump.Some?
      modifies this`turn
      ensures Valid() && Hands() == old(Hands())
      ensures turn == FirstAttacker(Hands(), trump.value)
    {
      ghost var hs := Hands();
      turn := ChoiceFirst();
      assert Hands() == hs;
    }

    /** `Game.choice_first`, on the current hands. */
    function ChoiceFirst(): (r: nat)
      requires numPlayers >= 1 && |hands| == numPlayers && trump.Some?
      reads this, hands
      ensures r < numPlayers
      ensures forall i :: 0 <= i < numPlayers ==> LeadRank(Hands()[r], trump.value) <= LeadRank(Hands()[i], trump.value)
      ensures forall i :: 0 <= i < r ==> LeadRank(Hands()[i], trump.value) > LeadRank(Hands()[r], trump.value)
    {
      FirstAttacker(Hands(), trump.value)
    }

    /** `Game.next_turn`: the defender becomes the attacker, and the flags follow. */
    method NextTurn()
      requires Valid() && numPlayers > 0
      modifies this`turn, this`attackFlags
      ensures Valid()
      ensures turn == NextSeat(old(turn), numPlayers)
      ensures attackFlags == old(attackFlags)[old(turn) := false][NextSeat(old(turn), numPlayers) := true]
    {
      attackFlags := attackFlags[turn := false];
      attackFlags := attackFlags[NextSeat(turn, numPlayers) := true];
      turn := NextSeat(turn, numPlayers);
    }

    /** `Game.restore_cards`: refill every hand, from the attacker onwards, wrapping around. */
    method RestoreCards()
      requires Valid() && numPlayers > 0
      modifies deck, hands
      ensures Valid()
      ensures (deck.cards, Hands()) == RestoreSpec(old(deck.cards), old(Hands()), VisitOrder(turn, numPlayers), cardsNum)
      ensures deck.cards != [] ==> forall i :: 0 <= i < |hands| ==> |hands[i].cards| >= cardsNum
    {
      var queue := VisitOrder(turn, numPlayers);
      VisitOrderBound(turn, numPlayers);
      ghost var d0 := deck.cards;
      ghost var hs0 := Hands();
      Restore(deck, hands, queue, cardsNum);
      RestoreConserves(d0, hs0, queue, cardsNum);
      Rebalance(multiset(d0), multiset(deck.cards), Pool(hs0), Pool(Hands()), discard, allCards);
      assert deck.cards != [] ==> forall i :: 0 <= i < |hands| ==> |Hands()[i]| >= cardsNum by {
        RestoreFillsAll(d0, hs0, turn, cardsNum);
      }
    }

    /**
     * `Game.finish_check`: the round is over when some hand is empty; then
     * `winner` is 'draw' for several empty hands and the index of the empty
     * hand otherwise.
     */
    method FinishCheck() returns (finished: bool)
      requires Valid()
      modifies this`winner
      ensures Valid()
      ensures finished <==> exists i :: 0 <= i < |hands| && hands[i].cards == []
      ensures finished ==> Decided()
      ensures !finished ==> winner == old(winner)
    {
      var sizes := Hands();
      var empties := CountEmpty(sizes);
      if empties == 0 {
        return false;
      }
      if empties > 1 {
        SeveralEmpty(sizes);
        winner := Draw;
      } else {
        SoleEmpty(sizes);
        winner := Seat(FirstEmpty(sizes));
      }
      finished := true;
    }

    /**
     * The first half of a trick in `GameDuel.play_loop`: attack and defend on
     * the fresh field `f` until the trick ends. Only the attacker's and the
     * defender's hands change, and the cards they lost lie on the table.
     */
    method StartTrick(f: Field, offers: seq<Offer>) returns (result: Outcome, rest: seq<Offer>)
      requires Valid() && numPlayers >= 2 && trump.Some?
      requires f.attackCard == None && f.beaten == [] && f.capacity >= 0
      modifies f, hands[turn], hands[NextSeat(turn, numPlayers)]
      ensures OnTable(f.Table())
      ensures result == AttackWin || result == DefendWin
      ensures |rest| <= |offers|
      ensures result == AttackWin ==> f.attackCard.Some?
      ensures (turn, attackFlags, discard) == old((turn, attackFlags, discard))
      ensures forall i :: 0 <= i < |hands| && i != turn && i != NextSeat(turn, numPlayers) ==>
                hands[i].cards == old(hands[i].cards)
    {
      var a := turn;
      var d := NextSeat(turn, numPlayers);
      var attacker := hands[a];
      var defender := hands[d];
      ghost var hs := Hands();
      result, rest := Trick(f, attacker, defender, trump.value, offers);
      assert Hands() == hs[a := attacker.cards][d := defender.cards];
      ToTable(hs, a, d, attacker.cards, defender.cards, f.Table(), multiset(deck.cards), discard, allCards);
    }

    /** An attacker's win: the beaten cards and then the attack card on `f` join the defender's hand. */
    method TakeTable(f: Field)
      requires OnTable(f.Table()) && numPlayers >= 2 && f.attackCard.Some?
      modifies hands[NextSeat(turn, numPlayers)]
      ensures Valid()
      ensures (turn, attackFlags, discard) == old((turn, attackFlags, discard))
      ensures hands[NextSeat(turn, numPlayers)].cards ==
                old(hands[NextSeat(turn, numPlayers)].cards) + f.beaten + [f.attackCard.value]
      ensures forall i :: 0 <= i < |hands| && i != NextSeat(turn, numPlayers) ==> hands[i].cards == old(hands[i].cards)
    {
      var d := NextSeat(turn, numPlayers);
      var defender := hands[d];
      ghost var hs := Hands();
      ghost var table := f.Table();
      TakeInto(defender, f);
      assert Hands() == hs[d := defender.cards];
      TableToHand(hs, d, defender.cards, table, multiset(deck.cards), discard, allCards);
    }

    /** A defender's win: the table of `f` is cleared, its cards out of the game, and the turn passes. */
    method DiscardTable(f: Field)
      requires OnTable(f.Table()) && numPlayers > 0
      modifies this`discard, this`turn, this`attackFlags
      ensures Valid() && discard == old(discard) + f.Table()
      ensures turn == NextSeat(old(turn), numPlayers)
      ensures attackFlags == old(attackFlags)[old(turn) := false][NextSeat(old(turn), numPlayers) := true]
    {
      TableToDiscard(multiset(deck.cards), discard, Pool(Hands()), f.Table(), allCards);
      discard := discard + f.Table();
      NextTurn();
    }

    /**
     * One trick of `GameDuel.play_loop`, played on a fresh field `f`. When
     * the defender takes, the beaten cards and the attack card join the
     * defender's hand and the turn stays; when the defender wins, the table
     * is discarded and the turn passes. `kept` is the defender's hand as the
     * trick ended.
     */
    method PlayTrick(offers: seq<Offer>) returns (result: Outcome, rest: seq<Offer>, f: Field, ghost kept: seq<Card>)
      requires Valid() && numPlayers >= 2 && trump.Some?
      modifies this`turn, this`attackFlags, this`discard, hands
      ensures Valid() && fresh(f)
      ensures result == AttackWin || result == DefendWin
      ensures |rest| <= |offers|
      ensures result == AttackWin ==>
                (turn, attackFlags, discard) == old((turn, attackFlags, discard)) &&
                f.attackCard.Some? &&
                hands[NextSeat(old(turn), numPlayers)].cards == kept + f.beaten + [f.attackCard.value]
      ensures forall i :: 0 <= i < |hands| && i != old(turn) && i != NextSeat(old(turn), numPlayers) ==>
                hands[i].cards == old(hands[i].cards)
      ensures result == DefendWin ==>
                turn == NextSeat(old(turn), numPlayers) &&
                attackFlags == old(attackFlags)[old(turn) := false][NextSeat(old(turn), numPlayers) := true] &&
                discard == old(discard) + f.Table()
    {
      f := new Field();
      result, rest := StartTrick(f, offers);
      kept := hands[NextSeat(turn, numPlayers)].cards;
      if result == AttackWin {
        TakeTable(f);
      } else {
        DiscardTable(f);
      }
    }

    /**
     * One pass of the outer loop of `GameDuel.play_loop`: a trick, refilling
     * the hands, and the finish check. `outcome` is how the trick ended: the
     * attacker's win keeps the turn, the defender's win passes it on.
     */
    method PlayRound(offers: seq<Offer>) returns (finished: bool, outcome: Outcome, rest: seq<Offer>)
      requires Valid() && numPlayers >= 2 && trump.Some?
      modifies this`turn, this`attackFlags, this`discard, this`winner, deck, hands
      ensures Valid() && trump == old(trump) && |rest| <= |offers|
      ensures finished <==> exists i :: 0 <= i < |hands| && hands[i].cards == []
      ensures finished ==> Decided()
      ensures !finished ==> winner == old(winner)
      ensures outcome == AttackWin || outcome == DefendWin
      ensures outcome == AttackWin ==> turn == old(turn) && attackFlags == old(attackFlags)
      ensures outcome == DefendWin ==>
                turn == NextSeat(old(turn), numPlayers) &&
                attackFlags == old(attackFlags)[old(turn) := false][NextSeat(old(turn), numPlayers) := true]
      ensures deck.cards != [] ==> forall i :: 0 <= i < |hands| ==> |hands[i].cards| >= cardsNum
    {
      ghost var kept;
      ghost var w0 := winner;
      var f;
      outcome, rest, f, kept := PlayTrick(offers);
      assert trump == old(trump) && winner == w0;
      RestoreCards();
      assert trump == old(trump) && winner == w0;
      finished := FinishCheck();
    }

    /** Ends the game loop of `GameDuel.play_loop` (`run` false); nothing else changes. */
    method Stop()
      requires Valid()
      modifies this`run
      ensures Valid() && !run
      ensures Decided() == old(Decided())
    {
      run := false;
    }

    /** The first line of `GameDuel.play_loop`: the attacker's flag is set. */
    method FlagAttacker()
      requires Valid() && numPlayers > 0
      modifies this`attackFlags
      ensures Valid() && attackFlags == old(attackFlags)[turn := true]
    {
      attackFlags := attackFlags[turn := true];
    }

    /**
     * The rounds of `GameDuel.play_loop`: play rounds while the game runs
     * and no round is decided. The source loops until then; here at most
     * `maxRounds` rounds are played.
     */
    method PlayRounds(offers: seq<Offer>, maxRounds: nat) returns (finished: bool, rest: seq<Offer>)
      requires Valid() && numPlayers >= 2 && trump.Some?
      modifies this`turn, this`attackFlags, this`discard, this`winner, deck, hands
      ensures Valid() && |rest| <= |offers|
      ensures finished ==> run && Decided()
      ensures !finished ==> winner == old(winner)
    {
      rest := offers;
      var rounds := 0;
      finished := false;
      while run && !finished && rounds < maxRounds
        invariant Valid() && trump == old(trump) && |rest| <= |offers|
        invariant finished ==> run && Decided()
        invariant !finished ==> winner == old(winner)
      {
        ghost var w0 := winner;
        var outcome;
        finished, outcome, rest := PlayRound(rest);
        assert trump == old(trump) && (!finished ==> winner == w0);
        rounds := rounds + 1;
      }
    }

    /**
     * `GameDuel.play_loop`: flag the attacker, then play rounds while the
     * game runs, and stop it once a round is decided, returning `winner`.
     */
    method PlayLoop(offers: seq<Offer>, maxRounds: nat) returns (w: Winner, rest: seq<Offer>)
      requires Valid() && numPlayers >= 2 && trump.Some?
      modifies this`turn, this`attackFlags, this`discard, this`winner, this`run, deck, hands
      ensures Valid() && w == winner && |rest| <= |offers|
      ensures old(run) && !run ==> Decided()
      ensures run ==> winner == old(winner)
      ensures !old(run) ==> !run && winner == old(winner)
    {
      ghost var r0, w0 := run, winner;
      FlagAttacker();
      assert run == r0 && winner == w0;
      var finished;
      finished, rest := PlayRounds(offers, maxRounds);
      assert run == r0 && (finished ==> Decided()) && (!finished ==> winner == w0);
      if finished {
        Stop();
      }
      w := winner;
    }
  }
}
