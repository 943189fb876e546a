/**
 * `Deck` and `Hand` of durak.py: ordered card sequences whose top is the END
 * of the sequence. `Hand` is a subclass of `Deck` in the source; here both are
 * the one class `Deck`, and the hand-only operations are `GetCard` (a method)
 * and `Filter` (a function, since it builds a new hand and leaves the old one
 * alone).
 */
module Decks {
  import opened Wrappers
  import opened Cards

  // ---------------------------------------------------------------------------
  // Building a deck

  /** The lowest rank: 2 in the 52-card French deck, 6 in the 36-card deck. */
  function MinRank(french: bool): int
  {
    if french then 2 else 6
  }

  /** Position of a suit in `Suits`. */
  function SuitIndex(s: Suit): (k: nat)
    ensures k < |Suits| && Suits[k] == s
  {
    match s
    case Spades => 0
    case Hearts => 1
    case Clubs => 2
    case Diamonds => 3
  }

  /**
   * The cards `Deck.__init__` generates, in order: ranks ascending from
   * `MinRank(french)` to 14 on the outside, the four suits on the inside.
   */
  function FullDeck(french: bool): (d: seq<Card>)
    ensures |d| == 4 * (15 - MinRank(french))
  {
    var lo := MinRank(french);
    seq(4 * (15 - lo), i requires 0 <= i < 4 * (15 - lo) => Card(lo + i / 4, Suits[i % 4]))
  }

  /** A deck holds every card of rank `MinRank(french)` to 14 in every suit, and nothing else. */
  lemma FullDeckContents(french: bool, c: Card)
    ensures c in FullDeck(french) <==> MinRank(french) <= c.rank <= 14
  {
    var lo := MinRank(french);
    var d := FullDeck(french);
    if lo <= c.rank <= 14 {
      var i := 4 * (c.rank - lo) + SuitIndex(c.suit);
      assert i / 4 == c.rank - lo && i % 4 == SuitIndex(c.suit);
      assert d[i] == c;
    }
  }

  /** 36 cards, or 52 in French mode, no two of them equal. */
  lemma FullDeckDistinct(french: bool)
    ensures |FullDeck(french)| == if french then 52 else 36
    ensures forall i, j :: 0 <= i < j < |FullDeck(french)| ==> FullDeck(french)[i] != FullDeck(french)[j]
  {
    var d := FullDeck(french);
    forall i, j | 0 <= i < j < |d|
      ensures d[i] != d[j]
    {
      assert i / 4 != j / 4 || i % 4 != j % 4;
      assert SuitIndex(d[i].suit) == i % 4 && SuitIndex(d[j].suit) == j % 4;
    }
  }

  // ---------------------------------------------------------------------------
  // Pure views of the sequence operations

  /** The `k` cards at the top of `s`, topmost first: the order in which they are popped. */
  function TopDown(s: seq<Card>, k: nat): (r: seq<Card>)
    requires k <= |s|
    ensures |r| == k
  {
    seq(k, i requires 0 <= i < k => s[|s| - 1 - i])
  }

  /** `s` back to front. */
  function Reversed(s: seq<Card>): (r: seq<Card>)
    ensures |r| == |s|
  {
    if s == [] then [] else [s[|s| - 1]] + Reversed(s[..|s| - 1])
  }

  lemma {:induction false} ReversedMultiset(s: seq<Card>)
    ensures multiset(Reversed(s)) == multiset(s)
  {
    if s != [] {
      ReversedMultiset(s[..|s| - 1]);
      assert s == s[..|s| - 1] + [s[|s| - 1]];
    }
  }

  /** Popping `k` cards one by one and pushing each onto the front of a list restores their deck order. */
  lemma {:induction false} TopDownReversed(s: seq<Card>, k: nat)
    requires k <= |s|
    ensures Reversed(TopDown(s, k)) == s[|s| - k..]
  {
    if k > 0 {
      var t := TopDown(s, k);
      assert t[..k - 1] == TopDown(s, k - 1);
      TopDownReversed(s, k - 1);
      assert s[|s| - k..] == [s[|s| - k]] + s[|s| - (k - 1)..];
    }
  }

  /** Taking `k` cards from the top splits the deck: what stays plus what was taken is the old deck. */
  lemma DrawSplit(s: seq<Card>, k: nat)
    requires k <= |s|
    ensures s[..|s| - k] + Reversed(TopDown(s, k)) == s
    ensures multiset(s[..|s| - k]) + multiset(TopDown(s, k)) == multiset(s)
  {
    TopDownReversed(s, k);
    assert s == s[..|s| - k] + s[|s| - k..];
    ReversedMultiset(TopDown(s, k));
  }

  /** How many cards `get_upper_cards(num)` takes from a deck of `len` cards. */
  function DrawCount(num: int, len: nat): (k: nat)
    ensures k <= len
  {
    if num <= 0 then 0 else if num < len then num else len
  }

  /**
   * Python's `list.pop(index)`: an index in `-len..len-1` names a card
   * (negative ones count from the end); any other index raises IndexError.
   */
  function PyIndex(index: int, len: nat): (j: Option<nat>)
    ensures j.Some? ==> j.value < len
  {
    if 0 <= index < len then Some(index)
    else if index < 0 && 0 <= index + len then Some(index + len)
    else None
  }

  /** The card at `index` and the hand without it, or None for an IndexError. */
  function Take(hand: seq<Card>, index: int): Option<(Card, seq<Card>)>
  {
    match PyIndex(index, |hand|)
    case None => None
    case Some(j) => Some((hand[j], hand[..j] + hand[j + 1..]))
  }

  /** `Take` succeeds exactly on Python's valid indices; it removes one card and loses none. */
  lemma TakeConserves(hand: seq<Card>, index: int)
    ensures Take(hand, index).Some? <==> -|hand| <= index < |hand|
    ensures Take(hand, index).Some? ==>
              var (c, rest) := Take(hand, index).value;
              c in hand && |rest| == |hand| - 1 && multiset(rest) + multiset{c} == multiset(hand)
  {
    if Take(hand, index).Some? {
      var j := PyIndex(index, |hand|).value;
      assert hand == hand[..j] + [hand[j]] + hand[j + 1..];
    }
  }

  /** All cards of a sequence of hands, counted with multiplicity. */
  function Pool(hs: seq<seq<Card>>): multiset<Card>
  {
    if hs == [] then multiset{} else multiset(hs[0]) + Pool(hs[1..])
  }

  /**
   * Replacing one hand by one that gained the cards `gained` and lost the
   * cards `lost` changes the pool by exactly those cards.
   */
  lemma {:induction false} PoolReplace(hs: seq<seq<Card>>, i: nat, h: seq<Card>, gained: multiset<Card>, lost: multiset<Card>)
    requires i < |hs|
    requires multiset(h) + lost == multiset(hs[i]) + gained
    ensures Pool(hs[i := h]) + lost == Pool(hs) + gained
  {
    if i > 0 {
      assert hs[i := h][1..] == hs[1..][i - 1 := h];
      assert hs[1..][i - 1] == hs[i] && hs[i := h][0] == hs[0];
      PoolReplace(hs[1..], i - 1, h, gained, lost);
      calc {
        Pool(hs[i := h]) + lost;
        multiset(hs[0]) + (Pool(hs[1..][i - 1 := h]) + lost);
        multiset(hs[0]) + (Pool(hs[1..]) + gained);
        Pool(hs) + gained;
      }
    } else {
      assert hs[i := h][1..] == hs[1..];
      calc {
        Pool(hs[i := h]) + lost;
        (multiset(h) + lost) + Pool(hs[1..]);
        (multiset(hs[0]) + gained) + Pool(hs[1..]);
        Pool(hs) + gained;
      }
    }
  }

  /** The same for two different hands replaced at once. */
  lemma PoolReplaceTwo(hs: seq<seq<Card>>, a: nat, d: nat, ha: seq<Card>, hd: seq<Card>,
                       gained: multiset<Card>, lost: multiset<Card>)
    requires a < |hs| && d < |hs| && a != d
    requires multiset(ha) + multiset(hd) + lost == multiset(hs[a]) + multiset(hs[d]) + gained
    ensures Pool(hs[a := ha][d := hd]) + lost == Pool(hs) + gained
  {
    var hs' := hs[a := ha][d := hd];
    var mid := hs[a := []][d := []];
    assert hs'[a := []][d := []] == mid;
    assert hs'[a] == ha && hs'[a := []][d] == hd && hs[a := []][d] == hs[d];
    PoolReplace(hs, a, [], multiset{}, multiset(hs[a]));
    PoolReplace(hs[a := []], d, [], multiset{}, multiset(hs[d]));
    PoolReplace(hs', a, [], multiset{}, multiset(ha));
    PoolReplace(hs'[a := []], d, [], multiset{}, multiset(hd));
    calc {
      Pool(hs);
      Pool(hs) + multiset{};
      Pool(hs[a := []]) + multiset(hs[a]);
      (Pool(hs[a := []]) + multiset{}) + multiset(hs[a]);
      (Pool(mid) + multiset(hs[d])) + multiset(hs[a]);
    }
    calc {
      Pool(hs');
      Pool(hs') + multiset{};
      Pool(hs'[a := []]) + multiset(ha);
      (Pool(hs'[a := []]) + multiset{}) + multiset(ha);
      (Pool(mid) + multiset(hd)) + multiset(ha);
    }
    calc {
      Pool(hs') + lost;
      Pool(mid) + (multiset(ha) + multiset(hd) + lost);
      Pool(mid) + (multiset(hs[a]) + multiset(hs[d]) + gained);
      Pool(hs) + gained;
    }
  }

  /** Hands that are all empty hold no card. */
  lemma {:induction false} PoolEmpty(hs: seq<seq<Card>>)
    requires forall i :: 0 <= i < |hs| ==> hs[i] == []
    ensures Pool(hs) == multiset{}
  {
    if hs != [] {
      PoolEmpty(hs[1..]);
    }
  }

  /**
   * `k * n`, unfolded one factor at a time: dealing then needs no nonlinear
   * arithmetic. `TimesIsProduct` shows it is the product.
   */
  function Times(k: nat, n: nat): nat
  {
    if k == 0 then 0 else Times(k - 1, n) + n
  }

  lemma {:induction false} TimesIsProduct(k: nat, n: nat)
    ensures Times(k, n) == k * n
  {
    if k > 0 {
      TimesIsProduct(k - 1, n);
    }
  }

  lemma {:induction false} TimesMono(a: nat, b: nat, n: nat)
    requires a <= b
    ensures Times(a, n) <= Times(b, n)
  {
    if a < b {
      TimesMono(a, b - 1, n);
    }
  }

  /** Round `r` of a deal of `m` rounds to `n` seats ends before the deal does. */
  lemma DealBound(n: nat, m: nat, p: nat, r: nat)
    requires p < n && r < m
    ensures Times(r, n) + p <= Times(m - 1, n) + p < Times(m, n)
  {
    TimesMono(r, m - 1, n);
  }

  lemma LastDealBound(n: nat, m: nat, p: nat)
    requires p < n
    ensures m == 0 || Times(m - 1, n) + p < Times(m, n)
  {
  }

  /**
   * The first `m` cards `Deck.draw_cards` deals to player `p` of `n`: in
   * round `r` it is the card `Times(r, n) + p` places below the top of `s`.
   */
  function DealtTo(s: seq<Card>, n: nat, p: nat, m: nat): (h: seq<Card>)
    requires p < n && (m == 0 || Times(m - 1, n) + p < |s|)
    ensures |h| == m
  {
    if m == 0 then [] else DealtTo(s, n, p, m - 1) + [s[|s| - 1 - (Times(m - 1, n) + p)]]
  }

  /** Card `r` of player `p`'s hand is the `(r * n + p)`-th card popped off the top. */
  lemma {:induction false} DealtToMeaning(s: seq<Card>, n: nat, p: nat, m: nat, r: nat)
    requires p < n && r < m && Times(m - 1, n) + p < |s|
    ensures r * n + p < |s|
    ensures DealtTo(s, n, p, m)[r] == s[|s| - 1 - (r * n + p)]
  {
    DealBound(n, m, p, r);
    TimesIsProduct(r, n);
    if r < m - 1 {
      DealBound(n, m - 1, p, r);
      DealtToMeaning(s, n, p, m - 1, r);
    }
  }

  /** Moving the card at index `m`, the top of `s[..m + 1]`, to the end of hand `q` loses no card. */
  lemma DealConserves(s: seq<Card>, m: nat, hs: seq<seq<Card>>, q: nat)
    requires m < |s| && q < |hs|
    requires multiset(s[..m + 1]) + Pool(hs) == multiset(s)
    ensures multiset(s[..m]) + Pool(hs[q := hs[q] + [s[m]]]) == multiset(s)
  {
    var c := s[m];
    assert s[..m + 1] == s[..m] + [c];
    PoolReplace(hs, q, hs[q] + [c], multiset{c}, multiset{});
    calc {
      multiset(s[..m]) + Pool(hs[q := hs[q] + [c]]);
      multiset(s[..m]) + (Pool(hs) + multiset{c});
      (multiset(s[..m]) + multiset{c}) + Pool(hs);
      multiset(s[..m + 1]) + Pool(hs);
    }
  }

  /**
   * The hands after `k` full rounds of `Deck.draw_cards` to `n` seats and
   * `p` seats of the next one: each card comes off the top of `s` and goes
   * to the end of its seat's hand.
   */
  function Deal(s: seq<Card>, n: nat, k: nat, p: nat): (hs: seq<seq<Card>>)
    requires p <= n && Times(k, n) + p <= |s|
    ensures |hs| == n
    decreases k, p
  {
    if p == 0 then
      if k == 0 then seq(n, _ => []) else Deal(s, n, k - 1, n)
    else
      var hs := Deal(s, n, k, p - 1);
      hs[p - 1 := hs[p - 1] + [s[|s| - (Times(k, n) + p)]]]
  }

  /** The hands `Deck.draw_cards(n, k)` deals from `s`. */
  function Dealt(s: seq<Card>, n: nat, k: nat): (hs: seq<seq<Card>>)
    requires Times(k, n) <= |s|
    ensures |hs| == n
  {
    Deal(s, n, k, 0)
  }

  /** After dealing up to round `k`, seat `p`, the rest of the deck and the hands hold the cards of `s`. */
  ghost predicate DealKeeps(s: seq<Card>, n: nat, k: nat, p: nat)
    requires p <= n && Times(k, n) + p <= |s|
  {
    multiset(s[..|s| - (Times(k, n) + p)]) + Pool(Deal(s, n, k, p)) == multiset(s)
  }

  /** Dealing one more card moves it from the top of the deck to the end of its seat's hand. */
  lemma DealKeepsStep(s: seq<Card>, n: nat, k: nat, p: nat)
    requires 0 < p <= n && Times(k, n) + p <= |s|
    requires DealKeeps(s, n, k, p - 1)
    ensures DealKeeps(s, n, k, p)
  {
    var m := |s| - (Times(k, n) + p);
    assert |s| - (Times(k, n) + (p - 1)) == m + 1;
    DealConserves(s, m, Deal(s, n, k, p - 1), p - 1);
  }

  /** Dealing part of a round loses no card, given that the rounds before lost none. */
  lemma {:induction false} DealKeepsSeats(s: seq<Card>, n: nat, k: nat, p: nat)
    requires p <= n && Times(k, n) + p <= |s|
    requires DealKeeps(s, n, k, 0)
    ensures DealKeeps(s, n, k, p)
    decreases p
  {
    if p > 0 {
      DealKeepsSeats(s, n, k, p - 1);
      DealKeepsStep(s, n, k, p);
    }
  }

  /** Dealing loses no card: what is left of the deck and the hands together are the deck before. */
  lemma {:induction false} DealKeepsCards(s: seq<Card>, n: nat, k: nat)
    requires Times(k, n) <= |s|
    ensures DealKeeps(s, n, k, 0)
    decreases k
  {
    if k == 0 {
      PoolEmpty(Deal(s, n, 0, 0));
      assert s[..|s| - (Times(k, n) + 0)] == s;
    } else {
      DealKeepsCards(s, n, k - 1);
      DealKeepsSeats(s, n, k - 1, n);
    }
  }

  /** Mid-deal, the seats before `p` hold one card more than the others, as `DealtTo` says. */
  lemma {:induction false} DealSeats(s: seq<Card>, n: nat, k: nat, p: nat, q: nat)
    requires p <= n && Times(k, n) + p <= |s| && q < n
    ensures k == 0 || Times(k - 1, n) + q < |s|
    ensures q < p ==> Times(k, n) + q < |s|
    ensures Deal(s, n, k, p)[q] == if q < p then DealtTo(s, n, q, k + 1) else DealtTo(s, n, q, k)
    decreases k, p
  {
    LastDealBound(n, k, q);
    if p == 0 {
      if k > 0 {
        DealSeats(s, n, k - 1, n, q);
      }
    } else {
      DealSeats(s, n, k, p - 1, q);
    }
  }

  /**
   * `draw_cards(n, k)` gives every player `k` cards, and card `r` of player
   * `p` is the `(r * n + p)`-th card popped off the top of the deck.
   */
  lemma DealtMeaning(s: seq<Card>, n: nat, k: nat, p: nat)
    requires Times(k, n) <= |s| && p < n
    ensures |Dealt(s, n, k)[p]| == k
    ensures forall r :: 0 <= r < k ==> r * n + p < |s| && Dealt(s, n, k)[p][r] == s[|s| - 1 - (r * n + p)]
  {
    DealSeats(s, n, k, 0, p);
    assert Dealt(s, n, k)[p] == DealtTo(s, n, p, k);
    forall r | 0 <= r < k
      ensures r * n + p < |s| && Dealt(s, n, k)[p][r] == s[|s| - 1 - (r * n + p)]
    {
      DealtToMeaning(s, n, p, k, r);
    }
  }

  // ---------------------------------------------------------------------------
  // Hand.filter

  /** The keyword arguments `Hand.filter` understands, and any other name. */
  datatype FilterKey =
    | SuitIs(suit: Suit)
    | RankGt(bound: int)
    | RankGte(bound: int)
    | RankLt(bound: int)
    | RankLte(bound: int)
    | OtherKey(name: string)

  /** Whether a card passes a filter; an unknown key passes nothing. */
  predicate Matches(c: Card, key: FilterKey)
  {
    match key
    case SuitIs(s) => c.suit == s
    case RankGt(n) => c.rank > n
    case RankGte(n) => c.rank >= n
    case RankLt(n) => c.rank < n
    case RankLte(n) => c.rank <= n
    case OtherKey(_) => false
  }

  /** The matching cards of `s`, in their order. */
  function Keep(s: seq<Card>, key: FilterKey): (r: seq<Card>)
    ensures |r| <= |s|
  {
    if s == [] then []
    else if Matches(s[0], key) then [s[0]] + Keep(s[1..], key)
    else Keep(s[1..], key)
  }

  /** Every card is kept exactly as often as it occurs, if it matches, and otherwise dropped. */
  lemma {:induction false} KeepCount(s: seq<Card>, key: FilterKey, c: Card)
    ensures multiset(Keep(s, key))[c] == if Matches(c, key) then multiset(s)[c] else 0
  {
    if s != [] {
      KeepCount(s[1..], key, c);
      assert s == [s[0]] + s[1..];
    }
  }

  /** Filtering distributes over concatenation, so the kept cards keep their relative order. */
  lemma {:induction false} KeepAppend(s: seq<Card>, t: seq<Card>, key: FilterKey)
    ensures Keep(s + t, key) == Keep(s, key) + Keep(t, key)
  {
    if s != [] {
      assert (s + t)[1..] == s[1..] + t;
      KeepAppend(s[1..], t, key);
    } else {
      assert s + t == t;
    }
  }

  /** A hand whose cards all match is returned unchanged. */
  lemma {:induction false} KeepAll(s: seq<Card>, key: FilterKey)
    requires forall i :: 0 <= i < |s| ==> Matches(s[i], key)
    ensures Keep(s, key) == s
  {
    if s != [] {
      KeepAll(s[1..], key);
    }
  }

  /** A hand with no matching card filters down to nothing. */
  lemma {:induction false} KeepNone(s: seq<Card>, key: FilterKey)
    requires forall c :: c in s ==> !Matches(c, key)
    ensures Keep(s, key) == []
  {
    if s != [] {
      assert s[0] in s;
      assert forall c :: c in s[1..] ==> c in s;
      KeepNone(s[1..], key);
    }
  }

  /**
   * `Hand.filter` with one keyword argument: the matching cards in their
   * order, or the 'Bad filter' error for an unknown key on a non-empty hand
   * (an empty hand skips the key test and yields an empty hand).
   */
  function Filter(cards: seq<Card>, key: FilterKey): (r: Result<seq<Card>, string>)
    ensures r.Err? <==> key.OtherKey? && cards != []
    ensures r.Ok? ==> forall c :: c in r.value <==> c in cards && Matches(c, key)
    ensures r.Ok? ==> r.value == Keep(cards, key)
  {
    if cards == [] then Ok([])
    else if key.OtherKey? then Err("Bad filter")
    else
      var kept := Keep(cards, key);
      assert forall c :: c in kept <==> c in cards && Matches(c, key) by {
        forall c ensures c in kept <==> c in cards && Matches(c, key) {
          KeepCount(cards, key, c);
        }
      }
      Ok(kept)
  }

  // ---------------------------------------------------------------------------
  // The mutable deck

  class Deck {
    /** The cards, bottom first; the top card is the last one. */
    var cards: seq<Card>

    /** `Deck(french=..., empty=...)`; `Hand` is the empty variant. */
    constructor (french: bool, empty: bool)
      ensures cards == if empty then [] else FullDeck(french)
    {
      cards := if empty then [] else FullDeck(french);
    }

    /** `__len__`. */
    function Size(): (n: nat)
      reads this
      ensures n == 0 <==> cards == []
    {
      |cards|
    }

    /** `get_upper_cards()` without an argument: pop the top card; an empty deck raises IndexError (None). */
    method PopTop() returns (c: Option<Card>)
      modifies this
      ensures old(cards) == [] ==> c == None && cards == []
      ensures old(cards) != [] ==>
                c == Some(old(cards)[|old(cards)| - 1]) && cards == old(cards)[..|old(cards)| - 1]
    {
      if cards == [] {
        c := None;
      } else {
        c := Some(cards[|cards| - 1]);
        cards := cards[..|cards| - 1];
      }
    }

    /** `get_upper_cards(num)`: pop up to `num` cards, stopping quietly when the deck runs out. */
    method GetUpperCards(num: int) returns (drawn: seq<Card>)
      modifies this
      ensures var k := DrawCount(num, |old(cards)|);
              drawn == TopDown(old(cards), k) && cards == old(cards)[..|old(cards)| - k]
    {
      ghost var s := cards;
      drawn := [];
      var i := 0;
      while i < num
        invariant num <= 0 ==> i == 0
        invariant num > 0 ==> 0 <= i <= num
        invariant |drawn| == DrawCount(i, |s|)
        invariant drawn == TopDown(s, |drawn|) && cards == s[..|s| - |drawn|]
      {
        if cards != [] {
          var c := PopTop();
          drawn := drawn + [c.value];
        }
        i := i + 1;
      }
    }

    /**
     * `draw_cards(num_players, num_cards)`: deal round-robin from the top.
     * Every card is taken with the argument-less pop, so a deck that runs out
     * mid-deal raises IndexError (None) after emptying the deck.
     */
    method DrawCards(numPlayers: nat, numCards: nat) returns (r: Option<seq<seq<Card>>>)
      modifies this
      ensures Times(numCards, numPlayers) <= |old(cards)| ==>
                r == Some(Dealt(old(cards), numPlayers, numCards)) &&
                cards == old(cards)[..|old(cards)| - Times(numCards, numPlayers)]
      ensures Times(numCards, numPlayers) > |old(cards)| ==> r == None && cards == []
      ensures r.Some? ==> multiset(cards) + Pool(r.value) == multiset(old(cards))
    {
      ghost var s := cards;
      var result := seq(numPlayers, _ => []);
      for k := 0 to numCards
        invariant Times(k, numPlayers) <= |s|
        invariant cards == s[..|s| - Times(k, numPlayers)]
        invariant result == Deal(s, numPlayers, k, 0)
      {
        var ok;
        ok, result := DealRound(result, s, k);
        if !ok {
          TimesMono(k + 1, numCards, numPlayers);
          return None;
        }
      }
      DealKeepsCards(s, numPlayers, numCards);
      r := Some(result);
    }

    /**
     * One pass of the inner loop of `draw_cards`: a card from the top to each
     * hand in turn; `ok` is false when the deck ran out (the IndexError).
     */
    method DealRound(hands: seq<seq<Card>>, ghost s: seq<Card>, ghost k: nat) returns (ok: bool, result: seq<seq<Card>>)
      requires Times(k, |hands|) <= |s| && cards == s[..|s| - Times(k, |hands|)]
      requires hands == Deal(s, |hands|, k, 0)
      modifies this
      ensures ok <==> Times(k + 1, |hands|) <= |s|
      ensures !ok ==> cards == []
      ensures ok ==> cards == s[..|s| - Times(k + 1, |hands|)]
      ensures ok ==> result == Deal(s, |hands|, k + 1, 0)
    {
      var n := |hands|;
      result := hands;
      ghost var t: nat := Times(k, n);
      for p := 0 to n
        invariant t == Times(k, n) + p && t <= |s|
        invariant cards == s[..|s| - t]
        invariant result == Deal(s, n, k, p)
      {
        var c := PopTop();
        if c == None {
          DealBound(n, k + 1, p, k);
          return false, result;
        }
        result := result[p := result[p] + [c.value]];
        t := t + 1;
      }
      ok := true;
    }

    /** `put_in_end(card)`: insert at index 0, the bottom of the deck. */
    method PutInEnd(c: Card)
      modifies this
      ensures cards == [c] + old(cards)
    {
      cards := [c] + cards;
    }

    /** `append(card)`: put a card on top (the end of the list). */
    method Append(c: Card)
      modifies this
      ensures cards == old(cards) + [c]
    {
      cards := cards + [c];
    }

    /** `extend(cards)`. */
    method Extend(more: seq<Card>)
      modifies this
      ensures cards == old(cards) + more
    {
      cards := cards + more;
    }

    /** `Hand.get_card(index)`, with the IndexError it may raise returned as None. */
    method GetCard(index: int) returns (c: Option<Card>)
      modifies this
      ensures Take(old(cards), index).None? ==> c == None && cards == old(cards)
      ensures Take(old(cards), index).Some? ==>
                c == Some(Take(old(cards), index).value.0) && cards == Take(old(cards), index).value.1
    {
      var j := PyIndex(index, |cards|);
      if j.Some? && j.value < |cards| {
        c := Some(cards[j.value]);
        cards := cards[..j.value] + cards[j.value + 1..];
      } else {
        c := None;
      }
    }
  }
}
