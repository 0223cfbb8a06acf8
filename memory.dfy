/** The rules of the memory-matching game (class MemoryGame in script.js),
    stated on a value that holds the game's whole rule state. The class in
    game.dfy updates its fields in place and is proved to follow these
    functions step for step. */
module Memory {

  /** Number of distinct card ids; `handleMatch` compares against the literal 3. */
  const PairCount := 3

  /** The ids of the three entries of `cardData` in `createCards`. */
  const CardIds: seq<int> := [1, 2, 3]

  /** A rendered card: its `dataset.cardId` and whether it carries the
      `flipped` and `matched` classes. */
  datatype Card = Card(id: int, flipped: bool, matched: bool)

  /** The rule state of MemoryGame: the rendered deck, the flip buffer
      `flippedCards` (as indices into the deck), `matchedPairs`, `moves`
      and `isLocked`. */
  datatype Turn = Turn(cards: seq<Card>, flipped: seq<nat>, pairs: nat, moves: nat, locked: bool)

  /** A callback handed to `setTimeout`, named by the cards it closes over:
      the 200 ms `matched` marking of `handleMatch`, the 1000 ms un-flip of
      `handleMismatch`, and the 1000 ms call of `handleGameComplete`. */
  datatype Timer = MarkLater(first: nat, second: nat) | UnflipLater(first: nat, second: nat) | CompleteLater

  /** What a click leaves behind: the new state and the callbacks it scheduled, in order. */
  datatype Clicked = Clicked(next: Turn, timers: seq<Timer>)

  /** `[...cardData, ...cardData]` before shuffling. */
  function Deck(): seq<int> {
    CardIds + CardIds
  }

  /** Fresh card elements for a list of ids: neither flipped nor matched. */
  function Hidden(ids: seq<int>): seq<Card> {
    seq(|ids|, k requires 0 <= k < |ids| => Card(ids[k], false, false))
  }

  function Ids(cards: seq<Card>): seq<int> {
    seq(|cards|, k requires 0 <= k < |cards| => cards[k].id)
  }

  /** Number of cards carrying the `matched` class. */
  function CountMatched(cards: seq<Card>): (n: nat)
    ensures n <= |cards|
  {
    if cards == [] then 0 else (if cards[0].matched then 1 else 0) + CountMatched(cards[1..])
  }

  /** The buffer only ever holds rendered cards. */
  predicate WellFormed(t: Turn) {
    forall k :: 0 <= k < |t.flipped| ==> t.flipped[k] < |t.cards|
  }

  /** The three reasons `handleCardClick` ignores a click. */
  predicate Blocked(t: Turn, i: nat)
    requires i < |t.cards|
  {
    t.locked || i in t.flipped || t.cards[i].matched
  }

  /** What holds between events: at most two cards in the buffer, locked
      exactly while two wait (which only happens for a mismatch), every
      buffered card face up, and no more pairs than moves. */
  predicate Inv(t: Turn) {
    && |t.flipped| <= 2
    && (t.locked <==> |t.flipped| == 2)
    && (forall k :: 0 <= k < |t.flipped| ==> t.flipped[k] < |t.cards| && t.cards[t.flipped[k]].flipped)
    && (|t.flipped| == 2 ==> t.flipped[0] != t.flipped[1] && t.cards[t.flipped[0]].id != t.cards[t.flipped[1]].id)
    && t.pairs <= t.moves
  }

  /** `resetTurn`: empty the buffer and unlock. */
  function ResetTurn(t: Turn): Turn {
    t.(flipped := [], locked := false)
  }

  function MarkPair(cards: seq<Card>, a: nat, b: nat): seq<Card>
    requires a < |cards| && b < |cards|
  {
    cards[a := cards[a].(matched := true)][b := cards[b].(matched := true)]
  }

  function UnflipPair(cards: seq<Card>, a: nat, b: nat): seq<Card>
    requires a < |cards| && b < |cards|
  {
    cards[a := cards[a].(flipped := false)][b := cards[b].(flipped := false)]
  }

  /** `checkMatch` with `handleMatch` / `handleMismatch`, for a full buffer.
      With `markAtOnce` false this is the code as written: the `matched`
      marks are left to a 200 ms callback. With `markAtOnce` true the marks
      are applied at once (the corrected behaviour, see ClickFixed). */
  function Evaluate(t: Turn, markAtOnce: bool): (c: Clicked)
    requires |t.flipped| == 2 && t.flipped[0] < |t.cards| && t.flipped[1] < |t.cards|
    ensures |c.next.cards| == |t.cards|
  {
    var a, b := t.flipped[0], t.flipped[1];
    if t.cards[a].id == t.cards[b].id then
      var pairs := t.pairs + 1;
      var done := if pairs == PairCount then [CompleteLater] else [];
      if markAtOnce then Clicked(ResetTurn(t.(cards := MarkPair(t.cards, a, b), pairs := pairs)), done)
      else Clicked(ResetTurn(t.(pairs := pairs)), [MarkLater(a, b)] + done)
    else
      Clicked(t.(locked := true), [UnflipLater(a, b)])
  }

  /** `handleCardClick` on card `i`, followed through `checkMatch` when the
      buffer fills up. */
  function Press(t: Turn, i: nat, markAtOnce: bool): (c: Clicked)
    requires WellFormed(t) && i < |t.cards|
    ensures WellFormed(c.next) && |c.next.cards| == |t.cards|
  {
    if Blocked(t, i) then Clicked(t, [])
    else
      var u := t.(cards := t.cards[i := t.cards[i].(flipped := true)], flipped := t.flipped + [i]);
      if |u.flipped| == 2 then Evaluate(u.(moves := u.moves + 1), markAtOnce) else Clicked(u, [])
  }

  /** A click as script.js handles it. */
  function Click(t: Turn, i: nat): Clicked
    requires WellFormed(t) && i < |t.cards|
  {
    Press(t, i, false)
  }

  /** A click with the `matched` marks applied when the match is found. */
  function ClickFixed(t: Turn, i: nat): Clicked
    requires WellFormed(t) && i < |t.cards|
  {
    Press(t, i, true)
  }

  /** Two clicks in a row with no callback firing in between. */
  function TwoClicks(t: Turn, i: nat, j: nat): (c: Clicked)
    requires WellFormed(t) && i < |t.cards| && j < |t.cards|
  {
    var first := Click(t, i);
    var second := Click(first.next, j);
    Clicked(second.next, first.timers + second.timers)
  }

  /** The un-flip callback of `handleMismatch`, run on the deck it was made for. */
  function AfterMismatch(t: Turn, a: nat, b: nat): Turn
    requires a < |t.cards| && b < |t.cards|
  {
    ResetTurn(t.(cards := UnflipPair(t.cards, a, b)))
  }

  /** `reset()`: counters and buffer cleared, the rendered deck left as it is. */
  function Reset(t: Turn): Turn {
    t.(flipped := [], pairs := 0, moves := 0, locked := false)
  }

  /** `initialize()`: `reset()` followed by a freshly built deck. */
  function Restart(ids: seq<int>): Turn {
    Turn(Hidden(ids), [], 0, 0, false)
  }

  // ---------------------------------------------------------------------
  // The click rules

  /** Every event keeps the invariant: a click, the un-flip callback and the
      `matched` marking callback. */
  lemma PressKeepsInv(t: Turn, i: nat, markAtOnce: bool)
    requires Inv(t) && i < |t.cards|
    ensures Inv(Press(t, i, markAtOnce).next)
  {
    if !Blocked(t, i) && |t.flipped| == 1 {
      assert t.flipped[0] != i;
    }
  }

  lemma MismatchKeepsInv(t: Turn, a: nat, b: nat)
    requires Inv(t) && a < |t.cards| && b < |t.cards|
    ensures Inv(AfterMismatch(t, a, b))
  {
  }

  lemma MarkKeepsInv(t: Turn, a: nat, b: nat)
    requires Inv(t) && a < |t.cards| && b < |t.cards|
    ensures Inv(t.(cards := MarkPair(t.cards, a, b)))
  {
    var u := t.(cards := MarkPair(t.cards, a, b));
    forall k | 0 <= k < |u.flipped|
      ensures u.cards[u.flipped[k]].flipped
    {
      assert t.cards[t.flipped[k]].flipped;
    }
  }

  /** A click changes nothing exactly when the engine is locked, the card is
      already in the buffer, or the card is matched. */
  lemma ClickNoOpIff(t: Turn, i: nat)
    requires Inv(t) && i < |t.cards|
    ensures Click(t, i) == Clicked(t, []) <==> Blocked(t, i)
  {
    if !Blocked(t, i) {
      var c := Click(t, i);
      assert |c.next.flipped| != |t.flipped| || c.next.locked != t.locked;
    }
  }

  /** An accepted click turns the card face up; the first card of a turn
      just waits in the buffer. */
  lemma ClickFirstCard(t: Turn, i: nat)
    requires Inv(t) && i < |t.cards| && !Blocked(t, i) && t.flipped == []
    ensures var c := Click(t, i);
      && c.next.flipped == [i] && c.next.cards[i].flipped && !c.next.locked
      && c.next.moves == t.moves && c.next.pairs == t.pairs && c.timers == []
      && (forall k :: 0 <= k < |t.cards| && k != i ==> c.next.cards[k] == t.cards[k])
  {
  }

  /** The second card of a turn costs exactly one move. The pair matches
      exactly when the two ids are equal: a match adds one pair, empties the
      buffer, unlocks at once, schedules the `matched` marks, and schedules
      the completion exactly when the count reaches three. A mismatch keeps
      both cards buffered and the engine locked until the un-flip callback. */
  lemma ClickSecondCard(t: Turn, i: nat)
    requires Inv(t) && i < |t.cards| && !Blocked(t, i) && |t.flipped| == 1
    ensures var c := Click(t, i);
      var a := t.flipped[0];
      && c.next.moves == t.moves + 1
      && c.next.cards[i].flipped
      && (t.cards[a].id == t.cards[i].id ==>
            && c.next.pairs == t.pairs + 1 && c.next.flipped == [] && !c.next.locked
            && c.timers[0] == MarkLater(a, i)
            && c.timers == [MarkLater(a, i)] + (if t.pairs + 1 == PairCount then [CompleteLater] else [])
            && (CompleteLater in c.timers <==> c.next.pairs == PairCount))
      && (t.cards[a].id != t.cards[i].id ==>
            && c.next.pairs == t.pairs && c.next.flipped == [a, i] && c.next.locked
            && c.timers == [UnflipLater(a, i)])
      && (forall k :: 0 <= k < |t.cards| && k != i ==> c.next.cards[k] == t.cards[k])
  {
    assert t.flipped[0] != i;
  }

  /** A click never removes a `matched` mark and never adds one: in the code
      as written, marks only come from the delayed callback. */
  lemma ClickLeavesMarks(t: Turn, i: nat)
    requires WellFormed(t) && i < |t.cards|
    ensures forall k :: 0 <= k < |t.cards| ==> Click(t, i).next.cards[k].matched == t.cards[k].matched
  {
  }

  /** The mismatch round as a whole: after the un-flip callback both cards
      are face down, the buffer is empty, the lock is off, one move was
      spent and no pair was gained. */
  lemma MismatchRound(t: Turn, i: nat)
    requires Inv(t) && i < |t.cards| && !Blocked(t, i) && |t.flipped| == 1
    requires t.cards[t.flipped[0]].id != t.cards[i].id
    ensures var a := t.flipped[0];
      var c := Click(t, i);
      var u := AfterMismatch(c.next, a, i);
      && !u.cards[a].flipped && !u.cards[i].flipped
      && u.flipped == [] && !u.locked
      && u.moves == t.moves + 1 && u.pairs == t.pairs
      && (forall k :: 0 <= k < |t.cards| && k != a && k != i ==> u.cards[k] == t.cards[k])
  {
    ClickSecondCard(t, i);
  }

  // ---------------------------------------------------------------------
  // Deck construction

  /** A shuffle of `[...cardData, ...cardData]` has six cards and each id
      1, 2, 3 exactly twice. */
  lemma ShuffledDeckPairs(ids: seq<int>)
    requires multiset(ids) == multiset(Deck())
    ensures |ids| == 2 * PairCount
    ensures forall id :: multiset(ids)[id] == (if id in CardIds then 2 else 0)
  {
    assert |ids| == |multiset(ids)| == |multiset(Deck())| == |Deck()|;
    assert multiset(Deck()) == multiset{1, 1, 2, 2, 3, 3};
  }

  /** Every card of a shuffled deck has a partner with the same id elsewhere. */
  lemma PartnerExists(ids: seq<int>, i: nat)
    requires multiset(ids) == multiset(Deck()) && i < |ids|
    ensures exists j :: 0 <= j < |ids| && j != i && ids[j] == ids[i]
  {
    ShuffledDeckPairs(ids);
    assert ids[i] in CardIds by {
      assert ids[i] in multiset(ids);
    }
    assert ids == ids[..i] + [ids[i]] + ids[i + 1..];
    assert multiset(ids) == multiset(ids[..i]) + multiset{ids[i]} + multiset(ids[i + 1..]);
    var other := ids[..i] + ids[i + 1..];
    assert multiset(other)[ids[i]] == 1;
    assert ids[i] in other;
    var j :| 0 <= j < |other| && other[j] == ids[i];
    if j < i {
      assert ids[j] == ids[i];
    } else {
      assert ids[j + 1] == ids[i];
    }
  }

  // ---------------------------------------------------------------------
  // Counting marks

  lemma {:induction false} CountMatchedUpdate(cards: seq<Card>, i: nat, c: Card)
    requires i < |cards|
    ensures CountMatched(cards[i := c])
         == CountMatched(cards) - (if cards[i].matched then 1 else 0) + (if c.matched then 1 else 0)
  {
    if i == 0 {
      assert cards[i := c][1..] == cards[1..];
    } else {
      CountMatchedUpdate(cards[1..], i - 1, c);
      assert cards[i := c][1..] == cards[1..][i - 1 := c];
    }
  }

  /** All cards are matched exactly when the count reaches the deck size. */
  lemma {:induction false} CountMatchedAll(cards: seq<Card>)
    ensures CountMatched(cards) == |cards| <==> forall k :: 0 <= k < |cards| ==> cards[k].matched
  {
    if cards != [] {
      CountMatchedAll(cards[1..]);
      if CountMatched(cards) == |cards| {
        forall k | 0 <= k < |cards| ensures cards[k].matched {
          if k > 0 { assert cards[1..][k - 1] == cards[k]; }
        }
      }
      if forall k :: 0 <= k < |cards| ==> cards[k].matched {
        assert forall k :: 0 <= k < |cards[1..]| ==> cards[1..][k].matched by {
          forall k | 0 <= k < |cards[1..]| ensures cards[1..][k].matched {
            assert cards[1..][k] == cards[k + 1];
          }
        }
      }
    }
  }

  /** Only the `matched` flags decide the count. */
  lemma {:induction false} CountMatchedSameMarks(s: seq<Card>, r: seq<Card>)
    requires |s| == |r| && forall k :: 0 <= k < |s| ==> s[k].matched == r[k].matched
    ensures CountMatched(s) == CountMatched(r)
  {
    if s != [] {
      CountMatchedSameMarks(s[1..], r[1..]);
    }
  }

  // ---------------------------------------------------------------------
  // Findings

  /** A game that has just been (re)built: no card face up or matched, empty
      buffer, counters at zero, unlocked. */
  predicate NewTurn(t: Turn) {
    && t.flipped == [] && !t.locked && t.pairs == 0 && t.moves == 0
    && forall k :: 0 <= k < |t.cards| ==> !t.cards[k].flipped && !t.cards[k].matched
  }

  /** The code as written: during the 200 ms before the `matched` marks land,
      the two cards of a just-found pair are neither buffered nor matched, so
      clicking them again counts the same pair a second time. With one more
      genuine pair the count reaches three and the completion is scheduled
      at a moment when only four of the six cards are, or are about to be,
      matched. */
  lemma MatchWindowDoubleCount(t: Turn, a: nat, b: nat, c: nat, d: nat)
    requires NewTurn(t) && |t.cards| == 2 * PairCount
    requires a < |t.cards| && b < |t.cards| && c < |t.cards| && d < |t.cards|
    requires a != b && c != d && a != c && a != d && b != c && b != d
    requires t.cards[a].id == t.cards[b].id && t.cards[c].id == t.cards[d].id
    ensures var s1 := TwoClicks(t, a, b);
      var s2 := TwoClicks(s1.next, a, b);
      var m := s2.next.(cards := MarkPair(s2.next.cards, a, b));
      var e := TwoClicks(m, c, d);
      && s1.timers == [MarkLater(a, b)] && s2.timers == [MarkLater(a, b)]
      && e.next.pairs == PairCount
      && CompleteLater in e.timers
      && CountMatched(MarkPair(e.next.cards, c, d)) == 4
  {
    DoubleCountSteps(t, a, b, c, d);
    ScenarioMarks(t.cards, a, b, c, d);
  }

  /** The marks once both callbacks of the scenario have run. */
  lemma ScenarioMarks(cards: seq<Card>, a: nat, b: nat, c: nat, d: nat)
    requires a < |cards| && b < |cards| && c < |cards| && d < |cards|
    requires a != b && c != d && a != c && a != d && b != c && b != d
    requires forall k :: 0 <= k < |cards| ==> !cards[k].matched
    ensures var up := cards[a := cards[a].(flipped := true)][b := cards[b].(flipped := true)];
      var marked := MarkPair(up, a, b);
      CountMatched(MarkPair(marked[c := marked[c].(flipped := true)][d := marked[d].(flipped := true)], c, d)) == 4
  {
    var up := cards[a := cards[a].(flipped := true)][b := cards[b].(flipped := true)];
    var marked := MarkPair(up, a, b);
    var final := MarkPair(marked[c := marked[c].(flipped := true)][d := marked[d].(flipped := true)], c, d);
    CountMatchedSameMarks(final, MarkPair(MarkPair(cards, a, b), c, d));
    CountMarkedFour(cards, a, b, c, d);
  }

  /** The clicks and the one callback of MatchWindowDoubleCount, step by step. */
  lemma DoubleCountSteps(t: Turn, a: nat, b: nat, c: nat, d: nat)
    requires t.flipped == [] && !t.locked && t.pairs == 0 && t.moves == 0
    requires a < |t.cards| && b < |t.cards| && c < |t.cards| && d < |t.cards|
    requires a != b && c != d && a != c && a != d && b != c && b != d
    requires t.cards[a].id == t.cards[b].id && t.cards[c].id == t.cards[d].id
    requires !t.cards[a].matched && !t.cards[b].matched && !t.cards[c].matched && !t.cards[d].matched
    ensures var up := t.cards[a := t.cards[a].(flipped := true)][b := t.cards[b].(flipped := true)];
      var marked := MarkPair(up, a, b);
      var s1 := TwoClicks(t, a, b);
      var s2 := TwoClicks(s1.next, a, b);
      var m := s2.next.(cards := MarkPair(s2.next.cards, a, b));
      && s1.timers == [MarkLater(a, b)] && s2.timers == [MarkLater(a, b)]
      && m == t.(cards := marked, pairs := 2, moves := 2)
      && TwoClicks(m, c, d)
         == Clicked(m.(cards := marked[c := marked[c].(flipped := true)][d := marked[d].(flipped := true)],
                       pairs := 3, moves := 3), [MarkLater(c, d), CompleteLater])
  {
    SamePairTwice(t, a, b);
    var up := t.cards[a := t.cards[a].(flipped := true)][b := t.cards[b].(flipped := true)];
    PairOfClicks(t.(cards := MarkPair(up, a, b), pairs := 2, moves := 2), c, d);
  }

  /** The first four clicks of MatchWindowDoubleCount: one pair, counted twice. */
  lemma SamePairTwice(t: Turn, a: nat, b: nat)
    requires t.flipped == [] && !t.locked && t.pairs == 0 && t.moves == 0
    requires a < |t.cards| && b < |t.cards| && a != b && t.cards[a].id == t.cards[b].id
    requires !t.cards[a].matched && !t.cards[b].matched
    ensures var up := t.cards[a := t.cards[a].(flipped := true)][b := t.cards[b].(flipped := true)];
      var s1 := TwoClicks(t, a, b);
      && s1 == Clicked(t.(cards := up, pairs := 1, moves := 1), [MarkLater(a, b)])
      && TwoClicks(s1.next, a, b) == Clicked(t.(cards := up, pairs := 2, moves := 2), [MarkLater(a, b)])
  {
    var up := t.cards[a := t.cards[a].(flipped := true)][b := t.cards[b].(flipped := true)];
    PairOfClicks(t, a, b);
    var s1 := TwoClicks(t, a, b);
    PairOfClicks(s1.next, a, b);
    assert up[a := up[a].(flipped := true)][b := up[b].(flipped := true)] == up;
  }

  /** Two clicks on the two cards of a pair, from an empty buffer. */
  lemma PairOfClicks(t: Turn, a: nat, b: nat)
    requires t.flipped == [] && !t.locked
    requires a < |t.cards| && b < |t.cards| && a != b
    requires !t.cards[a].matched && !t.cards[b].matched && t.cards[a].id == t.cards[b].id
    ensures TwoClicks(t, a, b)
         == Clicked(t.(cards := t.cards[a := t.cards[a].(flipped := true)][b := t.cards[b].(flipped := true)],
                       pairs := t.pairs + 1, moves := t.moves + 1),
                    [MarkLater(a, b)] + (if t.pairs + 1 == PairCount then [CompleteLater] else []))
  {
    var t1 := t.(cards := t.cards[a := t.cards[a].(flipped := true)], flipped := [a]);
    assert Click(t, a) == Clicked(t1, []) by {
      assert !Blocked(t, a);
      assert t.flipped + [a] == [a];
    }
    var c2 := SecondOfPair(t1, a, b);
  }

  /** The second click of a matching pair. */
  lemma SecondOfPair(t: Turn, a: nat, b: nat) returns (c: Clicked)
    requires t.flipped == [a] && !t.locked
    requires a < |t.cards| && b < |t.cards| && a != b
    requires !t.cards[b].matched && t.cards[a].id == t.cards[b].id
    ensures c == Click(t, b)
    ensures c == Clicked(t.(cards := t.cards[b := t.cards[b].(flipped := true)], flipped := [], pairs := t.pairs + 1, moves := t.moves + 1),
                         [MarkLater(a, b)] + (if t.pairs + 1 == PairCount then [CompleteLater] else []))
  {
    assert !Blocked(t, b);
    var u := t.(cards := t.cards[b := t.cards[b].(flipped := true)], flipped := [a, b], moves := t.moves + 1);
    assert t.flipped + [b] == [a, b];
    assert Press(t, b, false) == Evaluate(u, false);
    c := Click(t, b);
  }

  /** Marking four distinct unmatched cards raises the count by four. */
  lemma CountMarkedFour(cards: seq<Card>, a: nat, b: nat, c: nat, d: nat)
    requires a < |cards| && b < |cards| && c < |cards| && d < |cards|
    requires a != b && c != d && a != c && a != d && b != c && b != d
    requires forall k :: 0 <= k < |cards| ==> !cards[k].matched
    ensures CountMatched(MarkPair(MarkPair(cards, a, b), c, d)) == 4
  {
    CountMatchedNone(cards);
    var s1 := cards[a := cards[a].(matched := true)];
    CountMatchedUpdate(cards, a, cards[a].(matched := true));
    var s2 := s1[b := s1[b].(matched := true)];
    CountMatchedUpdate(s1, b, s1[b].(matched := true));
    var s3 := s2[c := s2[c].(matched := true)];
    CountMatchedUpdate(s2, c, s2[c].(matched := true));
    CountMatchedUpdate(s3, d, s3[d].(matched := true));
  }

  lemma {:induction false} CountMatchedNone(cards: seq<Card>)
    requires forall k :: 0 <= k < |cards| ==> !cards[k].matched
    ensures CountMatched(cards) == 0
  {
    if cards != [] {
      assert forall k :: 0 <= k < |cards[1..]| ==> cards[1..][k] == cards[k + 1];
      CountMatchedNone(cards[1..]);
    }
  }

  /** The evidently intended invariant: two `matched` cards per counted pair,
      and no buffered card already matched. */
  predicate Sound(t: Turn) {
    && Inv(t)
    && 2 * t.pairs == CountMatched(t.cards)
    && forall k :: 0 <= k < |t.flipped| ==> !t.cards[t.flipped[k]].matched
  }

  /** With the marks applied at once, every click keeps the tally. */
  lemma ClickFixedKeepsSound(t: Turn, i: nat)
    requires Sound(t) && i < |t.cards|
    ensures Sound(ClickFixed(t, i).next)
  {
    if !Blocked(t, i) && |t.flipped| == 1 {
      var a := t.flipped[0];
      assert a != i;
      var u := t.cards[i := t.cards[i].(flipped := true)];
      CountMatchedUpdate(t.cards, i, t.cards[i].(flipped := true));
      if t.cards[a].id == t.cards[i].id {
        var u1 := u[a := u[a].(matched := true)];
        CountMatchedUpdate(u, a, u[a].(matched := true));
        CountMatchedUpdate(u1, i, u1[i].(matched := true));
        assert MarkPair(u, a, i) == u1[i := u1[i].(matched := true)];
      }
    } else if !Blocked(t, i) {
      CountMatchedUpdate(t.cards, i, t.cards[i].(flipped := true));
    }
  }

  /** The un-flip callback keeps the tally. */
  lemma MismatchKeepsSound(t: Turn, a: nat, b: nat)
    requires Sound(t) && a < |t.cards| && b < |t.cards|
    ensures Sound(AfterMismatch(t, a, b))
  {
    CountMatchedSameMarks(t.cards, UnflipPair(t.cards, a, b));
  }

  /** A rebuilt deck starts sound. */
  lemma RestartSound(ids: seq<int>)
    ensures Sound(Restart(ids)) && NewTurn(Restart(ids))
  {
    CountMatchedNone(Hidden(ids));
  }

  /** Under the tally, three pairs on a six-card deck means every card is
      matched, and the count can never pass three. */
  lemma SoundWonIff(t: Turn)
    requires Sound(t) && |t.cards| == 2 * PairCount
    ensures t.pairs <= PairCount
    ensures t.pairs == PairCount <==> forall k :: 0 <= k < |t.cards| ==> t.cards[k].matched
  {
    CountMatchedAll(t.cards);
  }

  /** The code as written: `reset()` zeroes the pair count but leaves the
      rendered cards, and their `matched` class, in place. */
  lemma ResetKeepsMarks(t: Turn)
    requires Sound(t) && t.pairs > 0
    ensures Reset(t).pairs == 0 && CountMatched(Reset(t).cards) == 2 * t.pairs
    ensures !Sound(Reset(t))
  {
  }
}
