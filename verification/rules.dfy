/**
 * The pure rules behind `Game` in durak.py: who attacks first, how a hand
 * is refilled, in which order hands are refilled, and how a finished round
 * is read.
 */
module Rules {
  import opened Wrappers
  import opened Cards
  import opened Decks

  // ---------------------------------------------------------------------------
  // choice_first

  /** The lowest rank among some cards (what `min` finds among cards of one suit). */
  function LowestRank(cards: seq<Card>): (r: int)
    requires cards != []
    ensures exists i :: 0 <= i < |cards| && cards[i].rank == r
    ensures forall i :: 0 <= i < |cards| ==> r <= cards[i].rank
  {
    if |cards| == 1 then cards[0].rank
    else
      var rest := LowestRank(cards[1..]);
      assert forall i :: 1 <= i < |cards| ==> cards[i] == cards[1..][i - 1];
      if cards[0].rank <= rest then cards[0].rank else rest
  }

  /** The rank a hand bids for the first move: its lowest trump, or 15 without a trump. */
  function LeadRank(hand: seq<Card>, trump: Suit): int
  {
    match Filter(hand, SuitIs(trump))
    case Ok(trumps) => if trumps == [] then 15 else LowestRank(trumps)
    case Err(_) => 15
  }

  /** A hand without trumps bids 15; otherwise it bids the rank of its lowest trump. */
  lemma LeadRankMeaning(hand: seq<Card>, trump: Suit)
    ensures (forall c :: c in hand ==> c.suit != trump) ==> LeadRank(hand, trump) == 15
    ensures (exists c :: c in hand && c.suit == trump) ==>
              (exists c :: c in hand && c.suit == trump && c.rank == LeadRank(hand, trump)) &&
              (forall c :: c in hand && c.suit == trump ==> LeadRank(hand, trump) <= c.rank)
  {
    var f := Filter(hand, SuitIs(trump));
    if forall c :: c in hand ==> c.suit != trump {
      KeepNone(hand, SuitIs(trump));
    } else {
      var c :| c in hand && c.suit == trump;
      assert c in f.value;
      var r := LowestRank(f.value);
      var i :| 0 <= i < |f.value| && f.value[i].rank == r;
      assert f.value[i] in f.value;
      forall d | d in hand && d.suit == trump
        ensures r <= d.rank
      {
        assert d in f.value;
        var j :| 0 <= j < |f.value| && f.value[j] == d;
      }
    }
  }

  /** The first position holding the least of some numbers (how `index(min(...))` picks). */
  function FirstLowest(bids: seq<int>): (r: nat)
    requires bids != []
    ensures r < |bids|
    ensures forall i :: 0 <= i < |bids| ==> bids[r] <= bids[i]
    ensures forall i :: 0 <= i < r ==> bids[i] > bids[r]
  {
    if |bids| == 1 then 0
    else
      var front := bids[..|bids| - 1];
      var best := FirstLowest(front);
      assert forall i :: 0 <= i < |front| ==> front[i] == bids[i];
      if bids[|bids| - 1] < bids[best] then |bids| - 1 else best
  }

  /** Every hand's lead rank, in player order. */
  function Bids(hands: seq<seq<Card>>, trump: Suit): seq<int>
  {
    seq(|hands|, i requires 0 <= i < |hands| => LeadRank(hands[i], trump))
  }

  /**
   * `Game.choice_first`: the first player whose lead rank is the lowest. The
   * lowest trump wins, a player without trumps counts as holding a 15, and
   * ties go to the lowest index.
   */
  function FirstAttacker(hands: seq<seq<Card>>, trump: Suit): (r: nat)
    requires hands != []
    ensures r < |hands|
    ensures forall i :: 0 <= i < |hands| ==> LeadRank(hands[r], trump) <= LeadRank(hands[i], trump)
    ensures forall i :: 0 <= i < r ==> LeadRank(hands[i], trump) > LeadRank(hands[r], trump)
  {
    var b := Bids(hands, trump);
    assert |b| == |hands| && forall i :: 0 <= i < |hands| ==> b[i] == LeadRank(hands[i], trump);
    FirstLowest(b)
  }

  // ---------------------------------------------------------------------------
  // shortage and restore_cards

  /**
   * `HumanPlayer.shortage` as a function of the deck and the hand: a hand
   * below `target` draws `target - |hand|` cards or what is left; each drawn
   * card is put at the front of the hand, so the drawn cards sit in front in
   * their deck order. A hand above `target` draws nothing.
   */
  function Refill(deck: seq<Card>, hand: seq<Card>, target: int): (seq<Card>, seq<Card>)
  {
    var need := target - |hand|;
    if need < 0 then (deck, hand)
    else
      var k := DrawCount(need, |deck|);
      (deck[..|deck| - k], deck[|deck| - k..] + hand)
  }

  /**
   * A hand of at most `target` cards ends with `min(target, |hand| + |deck|)`
   * cards; a larger hand is left alone; the drawn cards come from the top and
   * no card is lost.
   */
  lemma RefillMeaning(deck: seq<Card>, hand: seq<Card>, target: int)
    ensures var (d, h) := Refill(deck, hand, target);
            (|hand| <= target ==> |h| == if target < |hand| + |deck| then target else |hand| + |deck|) &&
            (|hand| > target ==> d == deck && h == hand) &&
            d + h[..|h| - |hand|] == deck && h[|h| - |hand|..] == hand &&
            multiset(d) + multiset(h) == multiset(deck) + multiset(hand)
  {
    var (d, h) := Refill(deck, hand, target);
    if target - |hand| >= 0 {
      var k := DrawCount(target - |hand|, |deck|);
      assert h[..|h| - |hand|] == deck[|deck| - k..];
      assert deck == d + deck[|deck| - k..];
      assert multiset(deck) == multiset(d) + multiset(deck[|deck| - k..]);
    }
  }

  /** Indices `lo`, `lo + 1`, ..., `hi - 1`. */
  function Range(lo: nat, hi: nat): (r: seq<nat>)
    requires lo <= hi
    ensures |r| == hi - lo
  {
    seq(hi - lo, i requires 0 <= i < hi - lo => lo + i)
  }

  /** The order `restore_cards` visits players in: from `turn` to the last, then from the first. */
  function VisitOrder(turn: nat, n: nat): seq<nat>
    requires turn <= n
  {
    Range(turn, n) + Range(0, turn)
  }

  /** Starting at the attacker, the visit order lists every player exactly once, cyclically. */
  lemma VisitOrderMeaning(turn: nat, n: nat)
    requires turn < n
    ensures var o := VisitOrder(turn, n);
            |o| == n && o[0] == turn &&
            (forall k :: 0 <= k < n ==> o[k] == if turn + k < n then turn + k else turn + k - n) &&
            (forall i, j :: 0 <= i < j < n ==> o[i] != o[j]) &&
            (forall p :: 0 <= p < n ==> p in o)
  {
    var o := VisitOrder(turn, n);
    forall p | 0 <= p < n
      ensures p in o
    {
      if p >= turn {
        assert o[p - turn] == p;
      } else {
        assert o[n - turn + p] == p;
      }
    }
  }

  /** `restore_cards` as a function: refill the hands named by `order`, one after another. */
  function RestoreSpec(deck: seq<Card>, hs: seq<seq<Card>>, order: seq<nat>, target: int): (r: (seq<Card>, seq<seq<Card>>))
    requires forall k :: 0 <= k < |order| ==> order[k] < |hs|
    ensures |r.1| == |hs|
    decreases |order|
  {
    if order == [] then (deck, hs)
    else
      var (d0, hs0) := RestoreSpec(deck, hs, order[..|order| - 1], target);
      var p := order[|order| - 1];
      var (d1, h1) := Refill(d0, hs0[p], target);
      (d1, hs0[p := h1])
  }

  /** Visiting one more player refills that player's hand on top of the earlier visits. */
  lemma RestoreStep(deck: seq<Card>, hs: seq<seq<Card>>, order: seq<nat>, p: nat, target: int)
    requires forall k :: 0 <= k < |order| ==> order[k] < |hs|
    requires p < |hs|
    ensures forall k :: 0 <= k < |order + [p]| ==> (order + [p])[k] < |hs|
    ensures var r := RestoreSpec(deck, hs, order, target);
            RestoreSpec(deck, hs, order + [p], target) ==
              (Refill(r.0, r.1[p], target).0, r.1[p := Refill(r.0, r.1[p], target).1])
  {
    assert (order + [p])[..|order|] == order;
  }

  /** Every player the visit order names is a player. */
  lemma VisitOrderBound(turn: nat, n: nat)
    requires turn <= n
    ensures forall k :: 0 <= k < |VisitOrder(turn, n)| ==> VisitOrder(turn, n)[k] < n
  {
  }

  /**
   * After `restore_cards`, if the deck is not empty, every player holds at
   * least `target` cards: the visit order reaches every player.
   */
  lemma RestoreFillsAll(deck: seq<Card>, hs: seq<seq<Card>>, turn: nat, target: int)
    requires turn < |hs|
    ensures forall k :: 0 <= k < |VisitOrder(turn, |hs|)| ==> VisitOrder(turn, |hs|)[k] < |hs|
    ensures var (d, hs') := RestoreSpec(deck, hs, VisitOrder(turn, |hs|), target);
            d != [] ==> forall i :: 0 <= i < |hs| ==> |hs'[i]| >= target
  {
    var o := VisitOrder(turn, |hs|);
    VisitOrderBound(turn, |hs|);
    var (d, hs') := RestoreSpec(deck, hs, o, target);
    if d != [] {
      RestoreFills(deck, hs, o, target);
      VisitOrderMeaning(turn, |hs|);
      forall i | 0 <= i < |hs|
        ensures |hs'[i]| >= target
      {
        assert i in o;
        var k :| 0 <= k < |o| && o[k] == i;
      }
    }
  }

  /** Refilling hand `p` of several moves cards from the deck to the hands and loses none. */
  lemma RefillConservesPool(deck: seq<Card>, hs: seq<seq<Card>>, p: nat, target: int)
    requires p < |hs|
    ensures var (d, h) := Refill(deck, hs[p], target);
            multiset(d) + Pool(hs[p := h]) == multiset(deck) + Pool(hs)
  {
    var (d, h) := Refill(deck, hs[p], target);
    assert |hs[p]| <= |h| by {
      RefillMeaning(deck, hs[p], target);
    }
    var drawn := h[..|h| - |hs[p]|];
    assert h == drawn + hs[p] && deck == d + drawn by {
      RefillMeaning(deck, hs[p], target);
    }
    assert multiset(deck) == multiset(d) + multiset(drawn);
    assert multiset(h) == multiset(hs[p]) + multiset(drawn);
    PoolReplace(hs, p, h, multiset(drawn), multiset{});
    calc {
      multiset(d) + Pool(hs[p := h]);
      multiset(d) + (Pool(hs) + multiset(drawn));
      (multiset(d) + multiset(drawn)) + Pool(hs);
      multiset(deck) + Pool(hs);
    }
  }

  /** Refilling moves cards from the deck to the hands and loses none. */
  lemma {:induction false} RestoreConserves(deck: seq<Card>, hs: seq<seq<Card>>, order: seq<nat>, target: int)
    requires forall k :: 0 <= k < |order| ==> order[k] < |hs|
    ensures var (d, hs') := RestoreSpec(deck, hs, order, target);
            multiset(d) + Pool(hs') == multiset(deck) + Pool(hs)
    decreases |order|
  {
    if order != [] {
      var (d0, hs0) := RestoreSpec(deck, hs, order[..|order| - 1], target);
      RestoreConserves(deck, hs, order[..|order| - 1], target);
      RefillConservesPool(d0, hs0, order[|order| - 1], target);
    }
  }

  /** Refilling never shrinks a hand and only ever takes from the top of the deck. */
  lemma {:induction false} RestoreGrows(deck: seq<Card>, hs: seq<seq<Card>>, order: seq<nat>, target: int)
    requires forall k :: 0 <= k < |order| ==> order[k] < |hs|
    ensures var (d, hs') := RestoreSpec(deck, hs, order, target);
            |d| <= |deck| && d == deck[..|d|] &&
            forall i :: 0 <= i < |hs| ==> |hs'[i]| >= |hs[i]|
    decreases |order|
  {
    if order != [] {
      var (d0, hs0) := RestoreSpec(deck, hs, order[..|order| - 1], target);
      RestoreGrows(deck, hs, order[..|order| - 1], target);
      var p := order[|order| - 1];
      RefillMeaning(d0, hs0[p], target);
    }
  }

  /**
   * If the deck is not empty after the refill, every visited player holds
   * at least `target` cards: a player only falls short when the deck ran out.
   */
  lemma {:induction false} RestoreFills(deck: seq<Card>, hs: seq<seq<Card>>, order: seq<nat>, target: int)
    requires forall k :: 0 <= k < |order| ==> order[k] < |hs|
    ensures var (d, hs') := RestoreSpec(deck, hs, order, target);
            d != [] ==> forall k :: 0 <= k < |order| ==> |hs'[order[k]]| >= target
    decreases |order|
  {
    if order != [] {
      var front := order[..|order| - 1];
      var (d0, hs0) := RestoreSpec(deck, hs, front, target);
      var p := order[|order| - 1];
      var (d1, h1) := Refill(d0, hs0[p], target);
      RefillMeaning(d0, hs0[p], target);
      if d1 != [] {
        RestoreFills(deck, hs, front, target);
        forall k | 0 <= k < |order|
          ensures |hs0[p := h1][order[k]]| >= target
        {
          if order[k] != p {
            assert order[k] == front[k];
          }
        }
      }
    }
  }

  // ---------------------------------------------------------------------------
  // finish_check

  /** `hands_size.count(0)`: how many hands are empty. */
  function CountEmpty(hs: seq<seq<Card>>): (n: nat)
    ensures n <= |hs|
    ensures n == 0 <==> forall i :: 0 <= i < |hs| ==> hs[i] != []
  {
    if hs == [] then 0
    else
      assert forall i :: 1 <= i < |hs| ==> hs[i] == hs[1..][i - 1];
      (if hs[0] == [] then 1 else 0) + CountEmpty(hs[1..])
  }

  /** `hands_size.index(0)`: the first empty hand. */
  function FirstEmpty(hs: seq<seq<Card>>): (r: nat)
    requires CountEmpty(hs) > 0
    ensures r < |hs| && hs[r] == []
    ensures forall j :: 0 <= j < r ==> hs[j] != []
  {
    if hs[0] == [] then 0
    else
      assert forall j :: 1 <= j < |hs| ==> hs[j] == hs[1..][j - 1];
      1 + FirstEmpty(hs[1..])
  }

  /** With exactly one empty hand, the first empty hand is the only one. */
  lemma {:induction false} SoleEmpty(hs: seq<seq<Card>>)
    requires CountEmpty(hs) == 1
    ensures forall j :: 0 <= j < |hs| && hs[j] == [] ==> j == FirstEmpty(hs)
  {
    if hs[0] != [] {
      SoleEmpty(hs[1..]);
      forall j | 0 <= j < |hs| && hs[j] == []
        ensures j == FirstEmpty(hs)
      {
        assert hs[1..][j - 1] == hs[j];
      }
    } else {
      forall j | 1 <= j < |hs|
        ensures hs[j] != []
      {
        assert hs[1..][j - 1] == hs[j];
      }
    }
  }

  /** With more than one empty hand, two different hands are empty. */
  lemma {:induction false} SeveralEmpty(hs: seq<seq<Card>>)
    requires CountEmpty(hs) > 1
    ensures exists i, j :: 0 <= i < j < |hs| && hs[i] == [] && hs[j] == []
  {
    var rest := hs[1..];
    if hs[0] == [] {
      var j := FirstEmpty(rest);
      assert hs[j + 1] == rest[j];
    } else {
      SeveralEmpty(rest);
      var i, j :| 0 <= i < j < |rest| && rest[i] == [] && rest[j] == [];
      assert hs[i + 1] == rest[i] && hs[j + 1] == rest[j];
    }
  }
}
