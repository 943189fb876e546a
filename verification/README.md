# Durak duel rules engine, modelled in Dafny

This project models the rules engine of `durak.py`, a two-player terminal game of Durak:

- the 36-card deck (52 in French mode) and its top-of-deck operations;
- the player's hand and its filter;
- the `Field` of one trick, with its attack and defend protocol and the throw-in rule;
- the trump-aware card order;
- the `Game`/`GameDuel` driver: dealing, revealing the trump, choosing the first attacker, passing the turn, refilling the hands, the finish check and the play loop.

Modules follow the source's classes:

| file | module | source |
|---|---|---|
| `wrappers.dfy` | `Wrappers` | `Option` and `Result`, standing in for None and raised errors |
| `cards.dfy` | `Cards` | `Card` and `Game.LocalCard` |
| `decks.dfy` | `Decks` | `Deck` and `Hand` |
| `tricks.dfy` | `Tricks` | `Field` and `HumanPlayer.attack`/`defend` |
| `rules.dfy` | `Rules` | the pure rules inside `Game` |
| `game.dfy` | `Durak` | `Game`, `GameDuel` and `HumanPlayer.shortage` |

Objects whose fields the source updates in place are classes with `modifies` frames:

- a deck or hand is `Decks.Deck`;
- a trick is `Tricks.Field`;
- a game is `Durak.Game`.

The methods of these classes that carry out one of the following operations are proved equal to a pure function of their inputs:

- dealing against `Decks.Dealt`;
- the reprompt loops against `Tricks.RunAttack` and `Tricks.RunDefend`;
- refilling against `Rules.RestoreSpec`;
- the first attacker against `Rules.FirstAttacker`.

Lemmas then prove what the rules promise about those functions. No card is created or lost, because the game keeps two ghost multisets:

- `allCards`, the cards it started with;
- `discard`, the cards of tricks the defender won.

Every game method keeps the invariant `Game.Valid()`: deck + discard + hands == allCards. The exceptions are the failure paths of `DrawHands`, `RevealTrump` and `Preparations`, which model a raised IndexError or ValueError; a failed deal, for instance, has already emptied the deck. During a trick the game keeps `Game.OnTable(table)`, the same invariant with the cards on the table added. The trick and round methods (`Trick`, `PlayTrick`, `PlayRound`, `PlayRounds`, `PlayLoop`) are specified by this invariant and by what they promise about the turn, the hands and the winner, not by a single function.

A player is reduced to a hand, an attack flag and a stream of `Offer`s. An offer is a typed hand index or a refusal. The terminal, which the source reads with `input()`, is replaced by that stream.

## Model

| member | source | states |
|---|---|---|
| Cards.PlainGreater | durak.py:15-19 | definition: cards of one suit compare by rank; cards of different suits are unrelated |
| Cards.Beats | durak.py:308-312 | definition: cards of one suit compare by rank; otherwise the card of the trump suit wins |
| Cards.BeatsSameSuit | durak.py:308-310 | within one suit the trump-aware order is exactly the rank order, whatever the trump |
| Cards.TrumpBeatsOffSuit | durak.py:308-312 | a trump beats every card of another suit, and such a card never beats it |
| Cards.OffSuitNeverBeats | durak.py:308-312 | a non-trump never beats a card of a different suit (the method falls through and returns None) |
| Cards.BeatsStrictOrder | durak.py:308-312 | the trump-aware order is irreflexive, asymmetric and transitive |
| Cards.BeatsExtendsPlain | durak.py:15-19 | the trump-aware order is the plain same-suit order of `Card.__gt__` plus the rule "trump beats off-suit" |
| Decks.FullDeck | durak.py:34-37 | a new deck has 4 cards per rank from the minimum rank to the ace |
| Decks.FullDeckContents | durak.py:34-37 | a card is in a new deck exactly when its rank lies between the minimum rank (6, or 2 in French mode) and 14 |
| Decks.FullDeckDistinct | durak.py:32-39 | a new deck has 36 cards (52 in French mode), all different |
| Decks.TopDownReversed | durak.py:58-60 | popping cards one by one and reversing them gives back the top of the deck in deck order |
| Decks.DrawSplit | durak.py:53-61 | cards popped from the top, together with what stays, are the old deck, as a sequence and as a multiset |
| Decks.DrawCount | durak.py:58-60 | `get_upper_cards(num)` takes at most as many cards as the deck holds |
| Decks.PyIndex | durak.py:121 | `list.pop(index)` accepts exactly the indices `-len..len-1`, and the position it names is in the list |
| Decks.Take | durak.py:120-121 | definition: `pop(index)` as a value: the card at the Python index and the hand without it, or None for an IndexError |
| Decks.TakeConserves | durak.py:120-121 | taking at an index succeeds exactly on Python's valid indices, removes one card of the hand and loses none |
| Decks.Deal | durak.py:66-71 | definition: the hands after some full rounds and some seats of the next round, each card popped off the top and appended to its seat's hand |
| Decks.DealtTo | durak.py:66-71 | player `p` receives exactly one card per round |
| Decks.DealtToMeaning | durak.py:66-71 | card `r` of player `p` is the `(r * n + p)`-th card popped off the top |
| Decks.Dealt | durak.py:66-71 | dealing yields one hand per player |
| Decks.DealKeepsCards | durak.py:66-71 | after dealing, the rest of the deck and the hands together are the old deck |
| Decks.DealtMeaning | durak.py:66-71 | every player gets `num_cards` cards, card `r` of player `p` being the `(r * n + p)`-th card popped |
| Decks.Matches | durak.py:102-111 | definition: the test each filter keyword applies to a card; an unknown keyword passes nothing |
| Decks.Keep | durak.py:99-111 | definition: the cards of the hand that pass one filter, in their order |
| Decks.KeepCount | durak.py:99-111 | filtering keeps every matching card as often as it occurs and drops every other card |
| Decks.KeepAppend | durak.py:99-111 | filtering distributes over concatenation, so kept cards keep their order |
| Decks.KeepAll | durak.py:99-111 | a hand whose cards all match is kept unchanged |
| Decks.KeepNone | durak.py:99-111 | a hand with no matching card filters to nothing |
| Decks.Filter | durak.py:92-118 | 'Bad filter' exactly for an unknown key on a non-empty hand; otherwise the result holds exactly the matching cards of the hand, and is `Keep` of the hand, so the order and multiplicity lemmas about `Keep` apply |
| Decks.Deck.constructor | durak.py:32-39 | a deck holds the full deck in construction order, or nothing when `empty` |
| Decks.Deck.Size | durak.py:41-51 | the length is zero exactly for an empty (falsy) deck |
| Decks.Deck.PopTop | durak.py:53-55 | pops the last card; an empty deck gives None (IndexError) and is left empty |
| Decks.Deck.GetUpperCards | durak.py:53-61 | pops `min(num, len)` cards, topmost first, and keeps the rest below |
| Decks.Deck.DrawCards | durak.py:66-71 | deals the hands `Dealt` describes and removes that many cards from the top, losing none; a deck too short is emptied and gives None (IndexError) |
| Decks.Deck.DealRound | durak.py:68-70 | one round gives one card from the top to each hand in turn, or empties the deck and fails |
| Decks.Deck.PutInEnd | durak.py:73-74 | the card goes to the bottom |
| Decks.Deck.Append | durak.py:82-83 | the card goes on top |
| Decks.Deck.Extend | durak.py:79-80 | the cards go on top in order |
| Decks.Deck.GetCard | durak.py:120-121 | removes and returns the card at a Python index, or gives None and leaves the hand alone |
| Tricks.Answer | durak.py:221-233 | definition: a player's answer as the offered card and the hand without it, or None for a refusal or an IndexError |
| Tricks.AnswerConserves | durak.py:221-233 | an answered offer is a card of the hand, and the hand loses exactly that card |
| Tricks.RunAttack | durak.py:264-278 | definition: the attack reprompt loop over a stream of answers: a decline, or the first card with a rank on the table (any card when the table is empty); refused cards go back to the end of the hand |
| Tricks.RunAttackSound | durak.py:264-278 | the attack loop loses no card; an accepted card came from the hand and has a rank already on the table, unless the table is empty |
| Tricks.RunAttackUses | durak.py:264-278 | the attack loop consumes a prefix of the answers, and at least one answer when it accepts a card |
| Tricks.RunAttackNoThrowIn | durak.py:271-273 | with no card of a rank on the table, every card is refused and the attack ends declined |
| Tricks.RunDefend | durak.py:283-296 | definition: the defend reprompt loop over a stream of answers: a decline, or the first card that beats the attack card; refused cards go back to the end of the hand |
| Tricks.RunDefendSound | durak.py:283-296 | the defend loop loses no card; a covering card came from the hand and beats the attack card |
| Tricks.RunDefendUses | durak.py:283-296 | the defend loop consumes a prefix of the answers |
| Tricks.RunDefendNoCover | durak.py:289-296 | a defender with no card beating the attack card can only give up |
| Tricks.Ask | durak.py:221-233 | asking a player pops the offered card, or gives None and leaves the hand alone |
| Tricks.AskAttacker | durak.py:264-278 | the attacker's reprompt loop ends as `RunAttack` says: the same card, hand and unused answers |
| Tricks.AskDefender | durak.py:283-296 | the defender's reprompt loop ends as `RunDefend` says; the hand loses exactly the covering card, or nothing |
| Tricks.Field.constructor | durak.py:250-256 | a new trick has no attack card, no beaten cards, no ranks and capacity 6 |
| Tricks.Field.Attack | durak.py:258-278 | an empty hand or no capacity means 'defend win' with nothing changed; otherwise the accepted card becomes the attack card, its rank is recorded and capacity drops by one, and a decline means 'defend win' with no attack card; never 'attack win'; no card is lost |
| Tricks.Field.Defend | durak.py:280-296 | an empty hand or no attack card means 'defend win' with nothing changed; a covering card goes to the beaten cards with the attack card, its rank is recorded and the attack card cleared; a decline means 'attack win' with the table unchanged; no card is lost (the covering card moves from the hand to the table beside the attack card) and capacity is unchanged |
| Rules.LowestRank | durak.py:330 | the lowest rank is the rank of some card and at most every card's rank |
| Rules.LeadRank | durak.py:329-330 | definition: the rank of the lowest card of the hand filtered to the trump suit, or 15 when that is empty |
| Rules.LeadRankMeaning | durak.py:329-330 | a hand bids 15 without trumps, and otherwise the rank of its lowest trump |
| Rules.FirstLowest | durak.py:331 | `index(min(...))` gives the first position of a least bid |
| Rules.FirstAttacker | durak.py:327-331 | the first attacker holds the lowest lead rank, and every earlier player's lead rank is strictly higher |
| Rules.Refill | durak.py:235-239 | definition: a hand below the target draws up to the shortfall from the top of the deck, each card put in front; a hand above it draws nothing |
| Rules.RefillMeaning | durak.py:235-239 | a hand of at most `cards_num` cards ends with `min(cards_num, hand + deck)` cards; a larger hand is left alone; the drawn cards come off the top and go in front in deck order; no card is lost |
| Rules.VisitOrder | durak.py:334 | definition: the players from `turn` to the last, then from the first up to `turn` |
| Rules.RestoreSpec | durak.py:333-336 | definition: refill the hands the order names, one after another, each from the deck the previous refill left |
| Rules.VisitOrderMeaning | durak.py:334 | the refill order starts at the attacker and names every player exactly once, cyclically |
| Rules.RefillConservesPool | durak.py:235-239 | refilling one of several hands moves cards from the deck to the hands and loses none |
| Rules.RestoreConserves | durak.py:333-336 | refilling all hands moves cards from the deck to the hands and loses none |
| Rules.RestoreGrows | durak.py:333-336 | refilling never shrinks a hand and only takes cards from the top of the deck |
| Rules.RestoreFills | durak.py:333-336 | if the deck is not empty afterwards, every visited player holds at least `cards_num` cards |
| Rules.RestoreFillsAll | durak.py:333-336 | the refill order names only players, and if the deck is not empty afterwards every player holds at least `cards_num` cards |
| Rules.CountEmpty | durak.py:359-361 | the count of empty hands is zero exactly when every hand has cards |
| Rules.FirstEmpty | durak.py:365 | `index(0)` is the first empty hand |
| Rules.SoleEmpty | durak.py:364-366 | with one empty hand, the first empty hand is the only one |
| Rules.SeveralEmpty | durak.py:361-363 | with more than one empty hand, two different hands are empty |
| Durak.NextSeat | durak.py:351 | the next seat is a seat |
| Durak.NextSeatIsMod | durak.py:351-356 | the next seat is `(turn + 1) % players_num`, and differs from the current one when two or more play |
| Durak.SetCards | durak.py:324-325 | every hand receives its dealt cards |
| Durak.Shortage | durak.py:235-239 | a shortage changes the deck and the hand exactly as `Refill` says |
| Durak.TakeInto | durak.py:393-394 | the defender's hand is extended by the beaten cards and then the attack card, gaining exactly the table |
| Durak.Restore | durak.py:333-336 | refilling hand by hand in the given order changes the deck and hands exactly as `RestoreSpec` says |
| Durak.BuryTop | durak.py:341-342 | moving the top card to the bottom keeps the cards |
| Durak.Trick | durak.py:386-397 | a trick ends in 'attack win' (with an attack card on the table) or 'defend win'; cards only move between the two hands and the table |
| Durak.ToTable | durak.py:387-388 | cards the attacker and defender lose to the table are still in the game |
| Durak.TableToHand | durak.py:393-394 | taking the table into the defender's hand loses no card |
| Durak.Game.constructor | durak.py:314-321 | a new game has the shuffled 36-card deck, empty hands, no winner, six cards per hand, the loop running and every card accounted for |
| Durak.Game.DrawHands | durak.py:323-325 | dealing succeeds exactly when the deck holds six cards per player; the hands are then the dealt ones, the deck loses that many cards from the top and no card is lost |
| Durak.Game.GiveHands | durak.py:324-325 | the dealt cards become the hands and the invariant holds |
| Durak.Game.Preparations | durak.py:338-345 | succeeds exactly when there is a player and a card beyond the deal; the hands are dealt, the next card is moved to the bottom and names the trump, and the first attacker is chosen by `FirstAttacker` |
| Durak.Game.RevealTrump | durak.py:341-344 | the top card moves to the bottom and its suit becomes the trump; fails exactly on an empty deck |
| Durak.Game.PickFirst | durak.py:345 | the turn is set to `FirstAttacker` of the current hands; nothing else changes |
| Durak.Game.ChoiceFirst | durak.py:327-331 | the chosen player holds the lowest lead rank, and ties go to the lowest index |
| Durak.Game.NextTurn | durak.py:353-356 | the turn passes to the next seat; the old attacker's flag is cleared and the new attacker's flag set |
| Durak.Game.RestoreCards | durak.py:333-336 | refills every hand from the attacker onward as `RestoreSpec` says; if the deck is not empty afterwards every hand holds at least `cards_num` cards; every card stays accounted for |
| Durak.Game.FinishCheck | durak.py:358-368 | finished exactly when some hand is empty; then the winner is a draw for several empty hands and the index of the empty hand otherwise; else the winner is unchanged |
| Durak.Game.StartTrick | durak.py:382-389 | only the attacker's and defender's hands change, and the cards they lost lie on the table |
| Durak.Game.TakeTable | durak.py:392-394 | the defender's hand gains the beaten cards and then the attack card; the turn stays and every card is accounted for |
| Durak.Game.DiscardTable | durak.py:395-396 | the table leaves the game into the discard, losing no card, and the turn passes with the flags |
| Durak.Game.PlayTrick | durak.py:382-396 | the trick outcomes of the loop: the defender takes the table and keeps the turn, or the table is discarded and the turn passes; the hands of the other players are unchanged |
| Durak.Game.PlayRound | durak.py:380-402 | a trick, a refill and a finish check: the trick ends in 'attack win' or 'defend win'; 'attack win' keeps the turn and the flags, 'defend win' passes the turn to the next seat with the flags; if the deck is not empty afterwards every hand holds at least `cards_num` cards; finished exactly when some hand is empty, the round then decided, the winner otherwise unchanged; every card still accounted for |
| Durak.Game.Stop | durak.py:401 | the loop stops and the outcome is unchanged |
| Durak.Game.FlagAttacker | durak.py:378 | the attacker's flag is set, nothing else changes |
| Durak.Game.PlayRounds | durak.py:380-402 | playing stops only on a decided round, and a round that is not decided leaves the winner alone |
| Durak.Game.PlayLoop | durak.py:377-404 | returns `winner`; a loop that this call stops has a decided winner; a loop still running, or one already stopped on entry, leaves the winner unchanged |

## Left out

- The terminal is not modelled: `HumanPlayer.user_link`, `get_field_view`, the `print` calls and `__repr__` with its `not_nums` tables. A player's typed answers are the `offers` parameter, and a non-numeric answer, which the source asks again for, is not represented.
- `Deck.shuffle` is not modelled, because it calls the random generator. `Durak.Game.constructor` takes the shuffled order as the parameter `order`, required to be a permutation of the 36-card deck.
- The `jokers` argument of `Deck.__init__` is accepted by the source but never used, so it has no counterpart.
- Player names, the `IPlayer`, `AIDuel` and `HumanPlayer` classes and the `human` flag are not modelled. A player is reduced to a hand, an entry of `attackFlags`, and `Game.hands[turn]` / `Game.hands[NextSeat(turn, n)]` in place of `get_attacker_player` and `get_defender_player`.
- `Hand` is the same class as `Deck`. Calling `Hand(cards=...)` is a plain assignment of `cards`.
- `Hand.filter` is modelled for one keyword argument. Several keywords in one call build lazily chained `filter` objects whose lambdas all read the last keyword's value, and that late binding is not modelled. The game itself only calls it with `suit`.
- `LocalCard.trump` is a class attribute in the source. Here it is the explicit `trump` parameter of `Cards.Beats`.
- The expression `min([]) if [] else 123` on line 328 computes nothing and is dropped.
- The module-level loop that plays 100 games (lines 407-410) is not modelled.
- `Field.result`, written on line 286, is never read and is not modelled. The old `Field` object is also not stored in `Game.field`; the trick's field is a local of `PlayTrick`.
- `Decks.Times` replaces `num_players * num_cards` so that dealing needs no nonlinear arithmetic. `Decks.TimesIsProduct` proves the two agree.
- Python's `IndexError` and `ValueError` are modelled as None or `ok == false` results, not as exceptions that unwind the caller.
- Tricks.AskAttacker: the source asks again without bound after a refused card. The model draws answers from a finite stream and treats an exhausted stream as a refusal.
- Tricks.AskDefender: the same finite stream of answers, as for `AskAttacker`.
- Durak.Game.PlayRounds: the source loops until the game is decided. The model plays at most `maxRounds` rounds, so it states nothing about termination of the real loop.
- Durak.Game.PlayLoop: inherits the `maxRounds` bound of `PlayRounds`. Its result is `winner`, which stays as it was when no round was decided within the bound or when the loop had already stopped before the call.
- Durak.Trick: states the outcome, the offer consumption and card conservation, but not the exact hands after the trick. Those are determined step by step by `Field.Attack` and `Field.Defend`.
- Durak.Game.PlayRound: states how the trick ended, the turn and flags that follow from it, the refill bound, the finish check and card conservation, but not the hands after the round as a function of the offers, because the trick itself (`Durak.Trick`) does not give them.
- `Game.turn` is None in the source until `preparations` sets it (line 301). The model has no None for it: `Durak.Game.constructor` sets it to 0 and `Preparations` overwrites it.
- Durak.Game.PlayTrick: the defender's hand at the end of the trick is named by the ghost out-parameter `kept`, not given as a function of the offers.
- The discard pile is ghost state with no source counterpart. Besides the defended cards, it holds an attack card left unanswered because the defender's hand was empty (line 281). The source drops that card together with the field.
