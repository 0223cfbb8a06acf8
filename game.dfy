/** Class MemoryGame of script.js: fields updated in place by the click
    handler, by the deferred `setTimeout` bodies and by `reset` /
    `initialize`. Every method is proved to move the state exactly as the
    rules of module Memory say. */
module Game {
  import opened Memory
  import Utils

  /** A callback waiting in the timer queue, with the card array it closes
      over: a callback created before `initialize()` rebuilt the deck still
      acts on the old cards. */
  datatype Deferred = Deferred(deck: array<Card>, timer: Timer)

  function Bind(deck: array<Card>, timers: seq<Timer>): (r: seq<Deferred>)
    ensures |r| == |timers|
    ensures forall k :: 0 <= k < |r| ==> r[k] == Deferred(deck, timers[k])
  {
    seq(|timers|, k requires 0 <= k < |timers| => Deferred(deck, timers[k]))
  }

  /** The cards a callback names exist in the array it closes over. */
  predicate InBounds(d: Deferred) {
    match d.timer
    case MarkLater(a, b) => a < d.deck.Length && b < d.deck.Length
    case UnflipLater(a, b) => a < d.deck.Length && b < d.deck.Length
    case CompleteLater => true
  }

  /** Removing one entry keeps every other one. */
  lemma RemoveKeeps(s: seq<Deferred>, k: nat, x: Deferred)
    requires k < |s| && x in s && x != s[k]
    ensures x in s[..k] + s[k + 1..]
  {
    var j :| 0 <= j < |s| && s[j] == x;
    if j < k {
      assert (s[..k] + s[k + 1..])[j] == x;
    } else {
      assert (s[..k] + s[k + 1..])[j - 1] == x;
    }
  }

  class MemoryGame {
    /** The card elements rendered in the `.memory-cards` container. */
    var cards: array<Card>
    var flippedCards: seq<nat>
    var matchedPairs: nat
    var moves: nat
    var isLocked: bool
    /** Callbacks handed to `setTimeout` that have not run yet, oldest first. */
    var pending: seq<Deferred>

    ghost function State(): Turn
      reads this, cards
    {
      Turn(cards[..], flippedCards, matchedPairs, moves, isLocked)
    }

    /** The rule invariant, every pending callback within its deck, and a
        locked engine always has its un-flip callback queued, so the lock
        is released when that callback runs. */
    ghost predicate Valid()
      reads this, cards
    {
      && Inv(State())
      && (forall d :: d in pending ==> InBounds(d))
      && (isLocked ==> |flippedCards| == 2 && Deferred(cards, UnflipLater(flippedCards[0], flippedCards[1])) in pending)
    }

    constructor ()
      ensures Valid() && State() == Turn([], [], 0, 0, false) && pending == []
    {
      cards := new Card[0];
      flippedCards := [];
      matchedPairs := 0;
      moves := 0;
      isLocked := false;
      pending := [];
    }

    /** `reset()`: counters, buffer and lock are cleared; the rendered cards
        and the queued callbacks stay. */
    method Reset()
      requires Valid()
      modifies this
      ensures Valid() && cards == old(cards) && pending == old(pending)
      ensures State() == Memory.Reset(old(State()))
    {
      flippedCards := [];
      matchedPairs := 0;
      moves := 0;
      isLocked := false;
    }

    /** `createCards()`: duplicate the three ids, shuffle, render one hidden
        card per id. */
    method CreateCards()
      requires Valid() && flippedCards == []
      modifies this
      ensures Valid() && fresh(cards) && pending == old(pending)
      ensures flippedCards == [] && matchedPairs == old(matchedPairs) && moves == old(moves)
      ensures multiset(Ids(cards[..])) == multiset(Deck()) && cards[..] == Hidden(Ids(cards[..]))
    {
      var ids := new int[2 * PairCount](k => CardIds[k % 3]);
      assert ids[..] == Deck();
      Utils.Shuffle(ids);
      var deck := Hidden(ids[..]);
      cards := new Card[|deck|](k requires 0 <= k < |deck| => deck[k]);
      assert cards[..] == deck;
      assert Ids(cards[..]) == ids[..];
    }

    /** `initialize()`: `reset()` then a freshly shuffled deck. */
    method Initialize()
      requires Valid()
      modifies this
      ensures Valid() && fresh(cards) && pending == old(pending)
      ensures State() == Restart(Ids(cards[..]))
      ensures multiset(Ids(cards[..])) == multiset(Deck())
      ensures Sound(State()) && NewTurn(State())
    {
      Reset();
      CreateCards();
      RestartSound(Ids(cards[..]));
    }

    /** `handleCardClick(card)` as written. */
    method HandleCardClick(i: nat)
      requires Valid() && i < cards.Length
      modifies this, cards
      ensures Valid() && cards == old(cards)
      ensures var c := Click(old(State()), i);
        State() == c.next && pending == old(pending) + Bind(cards, c.timers)
    {
      Press(i, false);
    }

    /** The click handler with the `matched` marks applied as soon as the
        match is found; it keeps the pair tally exact. */
    method HandleCardClickFixed(i: nat)
      requires Valid() && i < cards.Length
      modifies this, cards
      ensures Valid() && cards == old(cards)
      ensures var c := ClickFixed(old(State()), i);
        State() == c.next && pending == old(pending) + Bind(cards, c.timers)
      ensures old(Sound(State())) ==> Sound(State())
    {
      ghost var before := State();
      Press(i, true);
      if Sound(before) {
        ClickFixedKeepsSound(before, i);
      }
    }

    method Press(i: nat, markAtOnce: bool)
      requires Valid() && i < cards.Length
      modifies this, cards
      ensures Valid() && cards == old(cards)
      ensures var c := Memory.Press(old(State()), i, markAtOnce);
        State() == c.next && pending == old(pending) + Bind(cards, c.timers)
    {
      ghost var before := State();
      if isLocked || i in flippedCards || cards[i].matched {
        assert Blocked(before, i);
        return;
      }
      cards[i] := cards[i].(flipped := true);
      flippedCards := flippedCards + [i];
      assert cards[..] == before.cards[i := before.cards[i].(flipped := true)];
      if |flippedCards| == 2 {
        moves := moves + 1;
        CheckMatch(markAtOnce);
      }
      assert State() == Memory.Press(before, i, markAtOnce).next;
      PressKeepsInv(before, i, markAtOnce);
    }

    /** `checkMatch()`: lock, compare the two `cardId`s, dispatch. */
    method CheckMatch(markAtOnce: bool)
      requires |flippedCards| == 2 && flippedCards[0] < cards.Length && flippedCards[1] < cards.Length
      requires flippedCards[0] != flippedCards[1]
      modifies this, cards
      ensures cards == old(cards)
      ensures var c := Evaluate(old(State()), markAtOnce);
        State() == c.next && pending == old(pending) + Bind(cards, c.timers)
      ensures forall d :: d in pending ==> d in old(pending) || InBounds(d)
      ensures isLocked ==> |flippedCards| == 2 && Deferred(cards, UnflipLater(flippedCards[0], flippedCards[1])) in pending
    {
      isLocked := true;
      var card1, card2 := flippedCards[0], flippedCards[1];
      if cards[card1].id == cards[card2].id {
        HandleMatch(card1, card2, markAtOnce);
      } else {
        HandleMismatch(card1, card2);
      }
    }

    /** `handleMatch(card1, card2)`: count the pair, queue the `matched`
        marks (or apply them at once), queue the completion at three pairs,
        and end the turn. */
    method HandleMatch(card1: nat, card2: nat, markAtOnce: bool)
      requires card1 < cards.Length && card2 < cards.Length
      modifies this, cards
      ensures cards == old(cards) && moves == old(moves)
      ensures matchedPairs == old(matchedPairs) + 1 && flippedCards == [] && !isLocked
      ensures markAtOnce ==> cards[..] == MarkPair(old(cards[..]), card1, card2)
      ensures !markAtOnce ==> cards[..] == old(cards[..])
      ensures var done := if matchedPairs == PairCount then [Deferred(cards, CompleteLater)] else [];
        pending == old(pending) + (if markAtOnce then [] else [Deferred(cards, MarkLater(card1, card2))]) + done
    {
      matchedPairs := matchedPairs + 1;
      if markAtOnce {
        cards[card1] := cards[card1].(matched := true);
        cards[card2] := cards[card2].(matched := true);
      } else {
        pending := pending + [Deferred(cards, MarkLater(card1, card2))];
      }
      if matchedPairs == PairCount {
        pending := pending + [Deferred(cards, CompleteLater)];
      }
      ResetTurn();
    }

    /** `handleMismatch(card1, card2)`: queue the un-flip; the lock stays on. */
    method HandleMismatch(card1: nat, card2: nat)
      modifies this
      ensures cards == old(cards) && flippedCards == old(flippedCards) && isLocked == old(isLocked)
      ensures matchedPairs == old(matchedPairs) && moves == old(moves)
      ensures pending == old(pending) + [Deferred(cards, UnflipLater(card1, card2))]
    {
      pending := pending + [Deferred(cards, UnflipLater(card1, card2))];
    }

    /** `resetTurn()`. */
    method ResetTurn()
      modifies this
      ensures flippedCards == [] && !isLocked
      ensures cards == old(cards) && matchedPairs == old(matchedPairs) && moves == old(moves) && pending == old(pending)
    {
      flippedCards := [];
      isLocked := false;
    }

    /** The 200 ms callback of `handleMatch`: add `matched` to both cards of
        the array it closes over. */
    method ApplyMatchMarks(k: nat)
      requires Valid() && k < |pending| && pending[k].timer.MarkLater? && InBounds(pending[k])
      modifies this, pending[k].deck
      ensures Valid()
      ensures pending == old(pending[..k] + pending[k + 1..])
      ensures var d := old(pending[k]);
        d.deck[..] == MarkPair(old(d.deck[..]), d.timer.first, d.timer.second)
      ensures cards == old(cards) && flippedCards == old(flippedCards) && isLocked == old(isLocked)
      ensures matchedPairs == old(matchedPairs) && moves == old(moves)
    {
      var d := pending[k];
      assert InBounds(d);
      ghost var before := State();
      ghost var old_deck := d.deck[..];
      var a, b := d.timer.first, d.timer.second;
      d.deck[a] := d.deck[a].(matched := true);
      d.deck[b] := d.deck[b].(matched := true);
      assert d.deck[..] == MarkPair(old_deck, a, b);
      if isLocked {
        RemoveKeeps(pending, k, Deferred(cards, UnflipLater(flippedCards[0], flippedCards[1])));
      }
      forall x | x in pending[..k] + pending[k + 1..] ensures x in pending {
      }
      pending := pending[..k] + pending[k + 1..];
      if d.deck == cards {
        MarkKeepsInv(before, a, b);
        assert State() == before.(cards := MarkPair(before.cards, a, b));
      } else {
        assert State() == before;
      }
    }

    /** The 1000 ms callback of `handleMismatch`: take `flipped` off both
        cards of the array it closes over, then `resetTurn()`. */
    method ResolveMismatch(k: nat)
      requires Valid() && k < |pending| && pending[k].timer.UnflipLater? && InBounds(pending[k])
      modifies this, pending[k].deck
      ensures Valid()
      ensures pending == old(pending[..k] + pending[k + 1..])
      ensures var d := old(pending[k]);
        d.deck[..] == UnflipPair(old(d.deck[..]), d.timer.first, d.timer.second)
      ensures cards == old(cards) && flippedCards == [] && !isLocked
      ensures matchedPairs == old(matchedPairs) && moves == old(moves)
    {
      var d := pending[k];
      assert InBounds(d);
      ghost var old_deck := d.deck[..];
      var a, b := d.timer.first, d.timer.second;
      d.deck[a] := d.deck[a].(flipped := false);
      d.deck[b] := d.deck[b].(flipped := false);
      assert d.deck[..] == UnflipPair(old_deck, a, b);
      forall x | x in pending[..k] + pending[k + 1..] ensures x in pending {
      }
      pending := pending[..k] + pending[k + 1..];
      ResetTurn();
    }

    /** The completion callback: the dialog reports the move count; the
        dialog itself is left out. */
    method HandleGameComplete(k: nat) returns (shownMoves: nat)
      requires Valid() && k < |pending| && pending[k].timer.CompleteLater?
      modifies this
      ensures Valid() && shownMoves == moves
      ensures pending == old(pending[..k] + pending[k + 1..])
      ensures State() == old(State()) && cards == old(cards)
    {
      if isLocked {
        RemoveKeeps(pending, k, Deferred(cards, UnflipLater(flippedCards[0], flippedCards[1])));
      }
      forall x | x in pending[..k] + pending[k + 1..] ensures x in pending {
      }
      pending := pending[..k] + pending[k + 1..];
      shownMoves := moves;
    }
  }
}
