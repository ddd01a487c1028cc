/** The memory-pairs game: a shuffled deck of paired cards, at most two face
    up at a time, a pair resolved after a short delay. */
module MemoryCards {
  import opened Common

  datatype Card = Card(id: int, symbol: int, isFlipped: bool, isMatched: bool)

  /** Number of distinct symbol icons. */
  const SymbolCount := 6

  /** Number of cards chosen by the difficulty setting (the source's `gridSize`). */
  function DeckSize(difficulty: string): (n: nat)
    ensures n == 8 || n == 12 || n == 16
    ensures n == 8 <==> difficulty == "easy"
    ensures n == 12 <==> difficulty == "medium"
  {
    if difficulty == "easy" then 8 else if difficulty == "medium" then 12 else 16
  }

  /** A card of the unshuffled deck: id k, symbol of its pair k / 2, face down. */
  function DealtCard(k: int): Card {
    Card(k, (k / 2) % SymbolCount, false, false)
  }

  /** The first card with the given id (`cards.find`). */
  function FindCard(cards: seq<Card>, id: int): (r: Option<nat>)
    ensures r.Some? ==> r.value < |cards| && cards[r.value].id == id
    ensures r.Some? ==> forall k :: 0 <= k < r.value ==> cards[k].id != id
    ensures r.None? ==> forall k :: 0 <= k < |cards| ==> cards[k].id != id
  {
    if cards == [] then None
    else if cards[0].id == id then Some(0)
    else match FindCard(cards[1..], id)
      case None => None
      case Some(k) => Some(k + 1)
  }

  predicate DistinctIds(cards: seq<Card>) {
    forall i, j :: 0 <= i < j < |cards| ==> cards[i].id != cards[j].id
  }

  /** Number of matched cards. */
  function MatchedCount(cards: seq<Card>): (n: nat)
    ensures n <= |cards|
  {
    if cards == [] then 0
    else MatchedCount(cards[..|cards| - 1]) + (if cards[|cards| - 1].isMatched then 1 else 0)
  }

  /** Replacing one card changes the count by that card's contribution only. */
  lemma {:induction false} MatchedCountUpdate(cards: seq<Card>, i: int, c: Card)
    requires 0 <= i < |cards|
    ensures MatchedCount(cards[i := c]) ==
      MatchedCount(cards) - (if cards[i].isMatched then 1 else 0) + (if c.isMatched then 1 else 0)
  {
    var n := |cards|;
    if i < n - 1 {
      assert cards[i := c][..n - 1] == cards[..n - 1][i := c];
      MatchedCountUpdate(cards[..n - 1], i, c);
    } else {
      assert cards[i := c][..n - 1] == cards[..n - 1];
    }
  }

  /** Every card is matched exactly when the count reaches the deck size. */
  lemma {:induction false} AllMatchedIffCount(cards: seq<Card>)
    ensures MatchedCount(cards) == |cards| <==> forall k :: 0 <= k < |cards| ==> cards[k].isMatched
  {
    if cards != [] {
      var init := cards[..|cards| - 1];
      AllMatchedIffCount(init);
      assert forall k :: 0 <= k < |init| ==> init[k] == cards[k];
    }
  }

  /** `initializeGame`'s push loop: pair i is cards 2i and 2i+1, both showing
      symbol i mod 6, face down and unmatched. */
  method BuildDeck(pairs: nat) returns (deck: seq<Card>)
    ensures |deck| == 2 * pairs
    ensures forall i :: 0 <= i < pairs ==>
      deck[2 * i] == Card(2 * i, i % SymbolCount, false, false) &&
      deck[2 * i + 1] == Card(2 * i + 1, i % SymbolCount, false, false)
  {
    deck := [];
    var i := 0;
    while i < pairs
      invariant 0 <= i <= pairs
      invariant |deck| == 2 * i
      invariant forall j :: 0 <= j < i ==>
        deck[2 * j] == Card(2 * j, j % SymbolCount, false, false) &&
        deck[2 * j + 1] == Card(2 * j + 1, j % SymbolCount, false, false)
    {
      var symbol := i % SymbolCount;
      deck := deck + [Card(i * 2, symbol, false, false), Card(i * 2 + 1, symbol, false, false)];
      i := i + 1;
    }
  }

  /** Read card by card, the built deck is the dealt deck: the ids are 0 .. n-1
      (so they are distinct) and each symbol is the one of its pair. */
  lemma DeckIsDealt(deck: seq<Card>, pairs: nat)
    requires |deck| == 2 * pairs
    requires forall i :: 0 <= i < pairs ==>
      deck[2 * i] == Card(2 * i, i % SymbolCount, false, false) &&
      deck[2 * i + 1] == Card(2 * i + 1, i % SymbolCount, false, false)
    ensures deck == Dealt(2 * pairs)
  {
    forall k | 0 <= k < |deck| ensures deck[k] == DealtCard(k) {
      var i := k / 2;
      assert k == 2 * i || k == 2 * i + 1;
    }
  }

  /** The shuffled deck keeps distinct ids, each card dealt as one of the n. */
  lemma ShuffledDeckWellFormed(cards: seq<Card>, deck: seq<Card>)
    requires forall k :: 0 <= k < |deck| ==> deck[k] == DealtCard(k)
    requires NoDuplicates(deck)
    requires multiset(cards) == multiset(deck)
    ensures DistinctIds(cards)
    ensures forall k :: 0 <= k < |cards| ==> 0 <= cards[k].id < |deck| && cards[k] == DealtCard(cards[k].id)
  {
    forall k | 0 <= k < |cards| ensures 0 <= cards[k].id < |deck| && cards[k] == DealtCard(cards[k].id) {
      assert cards[k] in multiset(deck);
      var j :| 0 <= j < |deck| && deck[j] == cards[k];
    }
    forall i, j | 0 <= i < j < |cards| ensures cards[i].id != cards[j].id {
      if cards[i].id == cards[j].id {
        assert cards[i] == cards[j];
        TwoOccurrences(cards, i, j);
        DistinctMultiplicity(deck, cards[i]);
      }
    }
  }

  /** The unshuffled deck of n cards. */
  function Dealt(n: nat): (deck: seq<Card>)
    ensures |deck| == n && forall k :: 0 <= k < n ==> deck[k] == DealtCard(k)
  {
    seq(n, k => DealtCard(k))
  }

  /** The deck built pair by pair and shuffled in place with the picks. */
  method Deal(n: nat, picks: seq<int>) returns (cards: seq<Card>)
    requires n % 2 == 0 && |picks| == n
    requires forall i :: 0 < i < |picks| ==> 0 <= picks[i] <= i
    ensures cards == Shuffled(Dealt(n), picks, n - 1)
  {
    var pairs := n / 2;
    assert 2 * pairs == n;
    var deck := BuildDeck(pairs);
    DeckIsDealt(deck, pairs);
    cards := ShuffleDeck(deck, picks);
  }

  /** The in-place shuffle of `initializeGame`, on an array copy of the deck. */
  method ShuffleDeck(deck: seq<Card>, picks: seq<int>) returns (cards: seq<Card>)
    requires |picks| == |deck|
    requires forall i :: 0 < i < |picks| ==> 0 <= picks[i] <= i
    ensures cards == Shuffled(deck, picks, |deck| - 1)
  {
    var gameCards := new Card[|deck|](k requires 0 <= k < |deck| => deck[k]);
    assert gameCards[..] == deck;
    Shuffle(gameCards, picks);
    cards := gameCards[..];
  }

  /** A shuffle of the dealt deck is a permutation of it with distinct ids,
      each card keeping its id in range and its pair's symbol, and it satisfies
      the game invariant with nothing face up. */
  lemma DealtDeckFacts(cards: seq<Card>, n: nat, picks: seq<int>)
    requires |picks| == n
    requires forall i :: 0 < i < |picks| ==> 0 <= picks[i] <= i
    requires cards == Shuffled(Dealt(n), picks, n - 1)
    ensures multiset(cards) == multiset(Dealt(n)) && |cards| == n
    ensures n >= 2 ==> Consistent(cards, [], 0, false, 0)
  {
    var deck := Dealt(n);
    ShuffledIsPermutation(deck, picks, n - 1);
    assert NoDuplicates(deck) by {
      forall i, j | 0 <= i < j < n ensures deck[i] != deck[j] {
        assert deck[i].id == i && deck[j].id == j;
      }
    }
    ShuffledDeckWellFormed(cards, deck);
    if n >= 2 {
      FreshConsistent(cards);
    }
  }

  /** The score reported on winning, from the move count the click handler
      read: never below 10. */
  function WinScore(movesBefore: int): (score: int)
    ensures score >= 10
    ensures movesBefore <= 90 ==> score == 100 - movesBefore
  {
    if 100 - movesBefore < 10 then 10 else 100 - movesBefore
  }

  /** Ids are distinct; matched cards stay face up; the face-up unmatched cards
      are exactly the listed ones, at most two; matchedPairs counts the matched
      cards two by two; the game is won exactly when every pair is matched. */
  ghost predicate Consistent(cards: seq<Card>, flipped: seq<int>, matchedPairs: nat, gameWon: bool, moves: nat) {
    DistinctIds(cards) &&
    (forall k :: 0 <= k < |cards| ==> cards[k].isMatched ==> cards[k].isFlipped) &&
    (forall k :: 0 <= k < |cards| ==> (cards[k].isFlipped && !cards[k].isMatched <==> cards[k].id in flipped)) &&
    (forall i :: 0 <= i < |flipped| ==> FindCard(cards, flipped[i]).Some?) &&
    |flipped| <= 2 && NoDuplicates(flipped) &&
    2 * matchedPairs == MatchedCount(cards) &&
    (gameWon <==> matchedPairs == |cards| / 2) &&
    (gameWon ==> flipped == []) &&
    (|flipped| == 2 ==> moves >= 1)
  }

  /** A freshly dealt deck: nothing face up, nothing matched, not won. */
  lemma FreshConsistent(cards: seq<Card>)
    requires DistinctIds(cards) && |cards| >= 2
    requires forall k :: 0 <= k < |cards| ==> !cards[k].isFlipped && !cards[k].isMatched
    ensures Consistent(cards, [], 0, false, 0)
  {
    NoneMatched(cards);
  }

  /** Turning one face-down unmatched card face up and listing its id keeps
      the invariant (with the move counted on the second card). */
  lemma FlipConsistent(cards: seq<Card>, flipped: seq<int>, matchedPairs: nat, gameWon: bool, moves: nat, k: nat)
    requires Consistent(cards, flipped, matchedPairs, gameWon, moves)
    requires k < |cards| && !cards[k].isFlipped && !cards[k].isMatched && |flipped| < 2 && !gameWon
    ensures var after := flipped + [cards[k].id];
      Consistent(cards[k := cards[k].(isFlipped := true)], after, matchedPairs, gameWon,
                 if |after| == 2 then moves + 1 else moves)
  {
    var c := cards[k].(isFlipped := true);
    var id := cards[k].id;
    assert id !in flipped;
    MatchedCountUpdate(cards, k, c);
    FindCardAfterUpdate(cards, k, c);
    var t := cards[k := c];
    var after := flipped + [id];
    assert NoDuplicates(after);
    assert forall i :: 0 <= i < |after| ==> FindCard(t, after[i]).Some? by {
      assert FindCard(cards, id) == Some(k) || FindCard(cards, id).Some? by {
        FindCardExists(cards, k);
      }
    }
    assert forall j :: 0 <= j < |t| ==> t[j].id == cards[j].id;
  }

  /** An id that some card carries is found. */
  lemma FindCardExists(cards: seq<Card>, k: int)
    requires 0 <= k < |cards|
    ensures FindCard(cards, cards[k].id).Some?
  {
  }

  /** The two face-up cards, found by their ids. */
  lemma PairPositions(cards: seq<Card>, flipped: seq<int>, matchedPairs: nat, gameWon: bool, moves: nat)
    requires Consistent(cards, flipped, matchedPairs, gameWon, moves) && |flipped| == 2
    ensures FindCard(cards, flipped[0]).Some? && FindCard(cards, flipped[1]).Some?
    ensures var a := FindCard(cards, flipped[0]).value; var b := FindCard(cards, flipped[1]).value;
      a != b && a < |cards| && b < |cards| &&
      cards[a].isFlipped && !cards[a].isMatched && cards[b].isFlipped && !cards[b].isMatched
  {
    assert FindCard(cards, flipped[0]).Some? && FindCard(cards, flipped[1]).Some?;
    var a, b := FindCard(cards, flipped[0]).value, FindCard(cards, flipped[1]).value;
    assert cards[a].id in flipped && cards[b].id in flipped;
  }

  /** The deck after a pair is resolved: both cards marked matched, or both
      turned face down. */
  function ResolvedCards(cards: seq<Card>, a: nat, b: nat, matched: bool): seq<Card>
    requires a < |cards| && b < |cards|
  {
    if matched then cards[a := cards[a].(isMatched := true)][b := cards[b].(isMatched := true)]
    else cards[a := cards[a].(isFlipped := false)][b := cards[b].(isFlipped := false)]
  }

  /** Setting both face-up cards matched (symbols equal) or face down (symbols
      differ) and emptying the list keeps the invariant, counting one more pair
      in the first case. */
  lemma ResolvedConsistent(cards: seq<Card>, flipped: seq<int>, matchedPairs: nat, gameWon: bool, moves: nat,
                           a: nat, b: nat, matched: bool)
    requires Consistent(cards, flipped, matchedPairs, gameWon, moves) && |flipped| == 2
    requires a == FindCard(cards, flipped[0]).value && b == FindCard(cards, flipped[1]).value
    requires a != b && a < |cards| && b < |cards|
    requires cards[a].isFlipped && !cards[a].isMatched && cards[b].isFlipped && !cards[b].isMatched
    ensures var after := ResolvedCards(cards, a, b, matched);
      var pairs := if matched then matchedPairs + 1 else matchedPairs;
      Consistent(after, [], pairs, pairs == |cards| / 2, moves)
  {
    var mid := if matched then cards[a := cards[a].(isMatched := true)] else cards[a := cards[a].(isFlipped := false)];
    var after := if matched then mid[b := cards[b].(isMatched := true)] else mid[b := cards[b].(isFlipped := false)];
    MatchedCountUpdate(cards, a, mid[a]);
    MatchedCountUpdate(mid, b, after[b]);
    ResolvedFlags(cards, flipped, after, a, b);
    if !matched {
      assert !gameWon;
    }
  }

  /** The cards after resolution: only the two face-up cards changed, neither
      is left face up and unmatched, so no card is, ids are untouched, and a
      matched card is still face up. */
  lemma ResolvedFlags(cards: seq<Card>, flipped: seq<int>, after: seq<Card>, a: nat, b: nat)
    requires DistinctIds(cards) && |after| == |cards| && a < |cards| && b < |cards|
    requires forall k :: 0 <= k < |cards| ==> cards[k].isMatched ==> cards[k].isFlipped
    requires forall k :: 0 <= k < |cards| ==> (cards[k].isFlipped && !cards[k].isMatched <==> cards[k].id in flipped)
    requires |flipped| == 2 && flipped[0] == cards[a].id && flipped[1] == cards[b].id
    requires forall k :: 0 <= k < |cards| && k != a && k != b ==> after[k] == cards[k]
    requires after[a].id == cards[a].id && after[b].id == cards[b].id
    requires after[a].isFlipped == after[a].isMatched && after[b].isFlipped == after[b].isMatched
    ensures DistinctIds(after)
    ensures forall k :: 0 <= k < |after| ==> after[k].isMatched ==> after[k].isFlipped
    ensures forall k :: 0 <= k < |after| ==> !(after[k].isFlipped && !after[k].isMatched)
  {
    assert forall k :: 0 <= k < |cards| ==> after[k].id == cards[k].id;
    forall k | 0 <= k < |cards| && k != a && k != b ensures !(after[k].isFlipped && !after[k].isMatched) {
      assert cards[k].id != flipped[0] && cards[k].id != flipped[1];
    }
  }

  class MemoryCardsGame {
    const deckSize: nat
    var cards: seq<Card>
    /** Ids of the face-up cards awaiting resolution. */
    var flippedCards: seq<int>
    var matchedPairs: nat
    var moves: nat
    var gameStarted: bool
    var gameWon: bool

    /** The invariant of the game state, see `Consistent`. */
    ghost predicate Valid()
      reads this
    {
      deckSize % 2 == 0 && deckSize >= 2 && |cards| == deckSize &&
      Consistent(cards, flippedCards, matchedPairs, gameWon, moves)
    }

    constructor (difficulty: string, picks: seq<int>)
      requires |picks| == DeckSize(difficulty)
      requires forall i :: 0 < i < |picks| ==> 0 <= picks[i] <= i
      ensures Valid() && !gameStarted && deckSize == DeckSize(difficulty)
      ensures cards == Shuffled(Dealt(deckSize), picks, deckSize - 1)
      ensures flippedCards == [] && matchedPairs == 0 && moves == 0 && !gameWon
    {
      deckSize := DeckSize(difficulty);
      cards := [];
      flippedCards := [];
      matchedPairs, moves := 0, 0;
      gameStarted, gameWon := false, false;
      new;
      InitializeGame(picks);
    }

    /** `initializeGame`: the paired deck, shuffled with the random picks; no
        card face up, no pair matched, no move made, not won. */
    method InitializeGame(picks: seq<int>)
      requires deckSize % 2 == 0 && deckSize >= 2
      requires |picks| == deckSize
      requires forall i :: 0 < i < |picks| ==> 0 <= picks[i] <= i
      modifies this
      ensures Valid() && gameStarted == old(gameStarted)
      ensures cards == Shuffled(Dealt(deckSize), picks, deckSize - 1)
      ensures flippedCards == [] && matchedPairs == 0 && moves == 0 && !gameWon
    {
      var dealt := Deal(deckSize, picks);
      DealtDeckFacts(dealt, deckSize, picks);
      cards, flippedCards, matchedPairs, moves, gameWon := dealt, [], 0, 0, false;
    }

    /** `handleCardClick`. Nothing happens before start, after winning, on an
        unknown id, on a face-up or matched card, or while two cards are face
        up. Otherwise the clicked card alone turns face up, its id joins the
        face-up list, and turning the second card counts one move. */
    method HandleCardClick(cardId: int)
      requires Valid()
      modifies this
      ensures Valid() && gameStarted == old(gameStarted) && gameWon == old(gameWon)
      ensures matchedPairs == old(matchedPairs)
      ensures var found := FindCard(old(cards), cardId);
        !old(gameStarted) || old(gameWon) || found.None? ||
        old(cards[found.value].isFlipped) || old(cards[found.value].isMatched) || |old(flippedCards)| >= 2 ==>
        cards == old(cards) && flippedCards == old(flippedCards) && moves == old(moves)
      ensures var found := FindCard(old(cards), cardId);
        old(gameStarted) && !old(gameWon) && found.Some? &&
        !old(cards[found.value].isFlipped) && !old(cards[found.value].isMatched) && |old(flippedCards)| < 2 ==>
        cards == old(cards)[found.value := old(cards[found.value]).(isFlipped := true)] &&
        flippedCards == old(flippedCards) + [cardId] &&
        moves == old(moves) + (if |flippedCards| == 2 then 1 else 0)
    {
      if !gameStarted || gameWon {
        return;
      }
      var found := FindCard(cards, cardId);
      if found.None? {
        return;
      }
      var k := found.value;
      if cards[k].isFlipped || cards[k].isMatched || |flippedCards| >= 2 {
        return;
      }
      FlipConsistent(cards, flippedCards, matchedPairs, gameWon, moves, k);
      cards, flippedCards := cards[k := cards[k].(isFlipped := true)], flippedCards + [cardId];
      if |flippedCards| == 2 {
        moves := moves + 1;
      }
    }

    /** The delayed resolution of two face-up cards (the 500 ms and 1000 ms
        timers). Equal symbols: both cards become matched, one more pair is
        counted, and completing the last pair wins the game and reports the
        score. Different symbols: both turn face down. Either way the face-up list
        empties. With fewer than two cards face up nothing is scheduled and
        nothing changes. */
    method ResolvePair() returns (reported: Option<int>)
      requires Valid()
      modifies this
      ensures Valid() && gameStarted == old(gameStarted) && moves == old(moves)
      ensures |old(flippedCards)| < 2 ==>
        cards == old(cards) && flippedCards == old(flippedCards) && matchedPairs == old(matchedPairs) &&
        gameWon == old(gameWon) && reported == None
      ensures |old(flippedCards)| == 2 ==>
        var a := FindCard(old(cards), old(flippedCards[0])).value;
        var b := FindCard(old(cards), old(flippedCards[1])).value;
        flippedCards == [] && a != b &&
        (old(cards[a].symbol) == old(cards[b].symbol) ==>
          cards == old(cards)[a := old(cards[a]).(isMatched := true)][b := old(cards[b]).(isMatched := true)] &&
          matchedPairs == old(matchedPairs) + 1 &&
          (gameWon <==> matchedPairs == deckSize / 2) &&
          reported == (if gameWon then Some(WinScore(moves - 1)) else None)) &&
        (old(cards[a].symbol) != old(cards[b].symbol) ==>
          cards == old(cards)[a := old(cards[a]).(isFlipped := false)][b := old(cards[b]).(isFlipped := false)] &&
          matchedPairs == old(matchedPairs) && !gameWon && reported == None)
    {
      reported := None;
      if |flippedCards| < 2 {
        return;
      }
      PairPositions(cards, flippedCards, matchedPairs, gameWon, moves);
      var a := FindCard(cards, flippedCards[0]).value;
      var b := FindCard(cards, flippedCards[1]).value;
      var matched := cards[a].symbol == cards[b].symbol;
      ResolvedConsistent(cards, flippedCards, matchedPairs, gameWon, moves, a, b, matched);
      var pairs := if matched then matchedPairs + 1 else matchedPairs;
      cards := ResolvedCards(cards, a, b, matched);
      matchedPairs := pairs;
      flippedCards := [];
      if matched && pairs == deckSize / 2 {
        gameWon := true;
        reported := Some(WinScore(moves - 1));
      }
    }

    /** `startGame`. */
    method StartGame(picks: seq<int>)
      requires Valid() && |picks| == deckSize
      requires forall i :: 0 < i < |picks| ==> 0 <= picks[i] <= i
      modifies this
      ensures Valid() && gameStarted
      ensures cards == Shuffled(Dealt(deckSize), picks, deckSize - 1)
      ensures flippedCards == [] && matchedPairs == 0 && moves == 0 && !gameWon
    {
      gameStarted := true;
      InitializeGame(picks);
    }

    /** `resetGame`. */
    method ResetGame(picks: seq<int>)
      requires Valid() && |picks| == deckSize
      requires forall i :: 0 < i < |picks| ==> 0 <= picks[i] <= i
      modifies this
      ensures Valid() && !gameStarted
      ensures cards == Shuffled(Dealt(deckSize), picks, deckSize - 1)
      ensures flippedCards == [] && matchedPairs == 0 && moves == 0 && !gameWon
    {
      gameStarted := false;
      InitializeGame(picks);
    }
  }

  /** A freshly dealt deck has no matched card. */
  lemma {:induction false} NoneMatched(cards: seq<Card>)
    requires forall k :: 0 <= k < |cards| ==> !cards[k].isMatched
    ensures MatchedCount(cards) == 0
  {
    if cards != [] {
      NoneMatched(cards[..|cards| - 1]);
    }
  }

  /** Changing the flags of one card keeps every id where it was. */
  lemma FindCardAfterUpdate(cards: seq<Card>, k: int, c: Card)
    requires 0 <= k < |cards| && c.id == cards[k].id
    ensures forall id :: FindCard(cards[k := c], id) == FindCard(cards, id)
  {
    forall id ensures FindCard(cards[k := c], id) == FindCard(cards, id) {
      FindCardSameIds(cards, cards[k := c], id);
    }
  }

  lemma {:induction false} FindCardSameIds(s: seq<Card>, t: seq<Card>, id: int)
    requires |s| == |t| && forall k :: 0 <= k < |s| ==> s[k].id == t[k].id
    ensures FindCard(s, id) == FindCard(t, id)
  {
    if s != [] {
      FindCardSameIds(s[1..], t[1..], id);
    }
  }

  /** Won means every card of the deck is matched. */
  lemma WonIffAllMatched(g: MemoryCardsGame)
    requires g.Valid()
    ensures g.gameWon <==> forall k :: 0 <= k < |g.cards| ==> g.cards[k].isMatched
  {
    AllMatchedIffCount(g.cards);
  }
}
