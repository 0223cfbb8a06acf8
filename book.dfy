/** The page book of class ValentineApp in script.js: the previous / next
    navigation, its guarded page transition, the `n/total` label and arrow
    visibility, the hand-off to the memory game on its page, and the phrase
    counter of the escaping "No" button. */
module Book {
  import opened Utils
  import Memory
  import Game

  /** `this.totalPages` in the constructor. */
  const TotalPages := 8

  /** The page index on which `showPage` starts the memory game. */
  const GamePage := 5

  /** Length of the `phrases` list of `setupEscapingButton`. */
  const PhraseCount := 10

  datatype Direction = Next | Prev

  /** What `updateNavigation` writes: the page-number text and whether the
      previous / next arrows are hidden. */
  datatype NavView = NavView(pageText: string, prevHidden: bool, nextHidden: bool)

  /** Where a transition is: idle, waiting out the fade before entering a
      page, or waiting out the final 300 ms with the page already shown. */
  datatype Phase = Idle | Entering(target: nat) | Settling

  // ---------------------------------------------------------------------
  // Navigation as a function of the page index

  /** `nextIndex` of `navigatePage`. */
  function Target(current: int, d: Direction): int {
    if d == Next then current + 1 else current - 1
  }

  /** The page a whole navigation lands on when no transition is running:
      the neighbouring page when it is within the book and rendered, the
      current page otherwise. */
  function Landing(current: int, d: Direction, total: int, rendered: nat): (r: int)
    ensures r == current || r == Target(current, d)
    ensures 0 <= current < total ==> 0 <= r < total
    ensures 0 <= current < rendered ==> r < rendered
  {
    var n := Target(current, d);
    if 0 <= n < total && n < rendered then n else current
  }

  /** A navigation moves exactly when the neighbouring page exists. */
  lemma LandingMovesIff(current: int, d: Direction, total: int, rendered: nat)
    ensures Landing(current, d, total, rendered) != current
      <==> 0 <= Target(current, d) < total && Target(current, d) < rendered
  {
  }

  /** Forward then back (and back then forward) returns to the same page
      whenever the first step moved. */
  lemma NextPrevRoundTrip(current: int, total: int, rendered: nat)
    requires 0 <= current && current + 1 < total && current + 1 < rendered
    ensures Landing(Landing(current, Next, total, rendered), Prev, total, rendered) == current
  {
  }

  lemma PrevNextRoundTrip(current: int, total: int, rendered: nat)
    requires 0 < current < total && current < rendered
    ensures Landing(Landing(current, Prev, total, rendered), Next, total, rendered) == current
  {
  }

  /** `k` navigations in one direction, each run to completion. */
  function Walk(current: int, d: Direction, k: nat, total: int, rendered: nat): int
  {
    if k == 0 then current else Landing(Walk(current, d, k - 1, total, rendered), d, total, rendered)
  }

  /** Pressing "next" `k` times from page `c` ends on page `c + k`, stopping
      at the last page. */
  lemma {:induction false} WalkForward(c: int, k: nat, total: int, rendered: nat)
    requires 0 <= c < total <= rendered
    ensures Walk(c, Next, k, total, rendered) == if c + k < total then c + k else total - 1
  {
    if k > 0 {
      WalkForward(c, k - 1, total, rendered);
    }
  }

  /** Pressing "previous" `k` times from page `c` ends on page `c - k`,
      stopping at the first page. */
  lemma {:induction false} WalkBackward(c: int, k: nat, total: int, rendered: nat)
    requires 0 <= c < total <= rendered
    ensures Walk(c, Prev, k, total, rendered) == if c - k >= 0 then c - k else 0
  {
    if k > 0 {
      WalkBackward(c, k - 1, total, rendered);
    }
  }

  // ---------------------------------------------------------------------
  // The navigation view

  /** `${currentPage + 1}/${totalPages}`. */
  function Label(current: nat, total: nat): string {
    NatToString(current + 1) + "/" + NatToString(total)
  }

  /** `updateNavigation`: the label, and each arrow hidden exactly on the
      page it cannot leave from. */
  function Navigation(current: nat, total: nat): (v: NavView)
    ensures v.pageText == Label(current, total)
    ensures v.prevHidden <==> current == 0
    ensures v.nextHidden <==> current + 1 == total
  {
    NavView(Label(current, total), current == 0, current == total - 1)
  }

  /** Position of the first '/' in a string. */
  function SlashAt(s: string): (k: Option<nat>)
    ensures k.Some? ==> k.value < |s| && s[k.value] == '/'
  {
    if s == [] then None
    else if s[0] == '/' then Some(0)
    else match SlashAt(s[1..])
      case Some(j) => Some(j + 1)
      case None => None
  }

  /** Reads a page-number label back to (page number, page count). */
  function ParseLabel(s: string): Option<(nat, nat)> {
    match SlashAt(s)
    case None => None
    case Some(k) =>
      match (ParseNat(s[..k]), ParseNat(s[k + 1..]))
      case (Some(x), Some(y)) => Some((x, y))
      case _ => None
  }

  lemma {:induction false} SlashAfterDigits(a: string, b: string)
    requires AllDigits(a)
    ensures SlashAt(a + "/" + b) == Some(|a|)
  {
    if a != [] {
      assert (a + "/" + b)[1..] == a[1..] + "/" + b;
      SlashAfterDigits(a[1..], b);
    }
  }

  /** The label shows the one-based page number and the page count, and
      both can be read back from it. */
  lemma NavigationLabelRoundTrip(current: nat, total: nat)
    ensures ParseLabel(Navigation(current, total).pageText) == Some((current + 1, total))
  {
    var a, b := NatToString(current + 1), NatToString(total);
    var s := a + "/" + b;
    SlashAfterDigits(a, b);
    assert s[..|a|] == a;
    assert s[|a| + 1..] == b;
    NatToStringRoundTrip(current + 1);
    NatToStringRoundTrip(total);
    assert ParseNat(s[..|a|]) == Some(current + 1);
    assert ParseNat(s[|a| + 1..]) == Some(total);
  }

  // ---------------------------------------------------------------------
  // The phrase counter of the escaping button

  /** `count = (count + 1) % phrases.length` on each hover. */
  function Hover(count: nat): (r: nat)
    ensures r < PhraseCount
    ensures count < PhraseCount - 1 ==> r == count + 1
    ensures count == PhraseCount - 1 ==> r == 0
  {
    (count + 1) % PhraseCount
  }

  /** The counter after `k` hovers, starting from 0. */
  function Hovers(k: nat): nat {
    if k == 0 then 0 else Hover(Hovers(k - 1))
  }

  /** After `k` hovers the button shows phrase `k mod 10`: the phrases cycle
      in order, and the index never leaves the list. */
  lemma {:induction false} HoversCycle(k: nat)
    ensures Hovers(k) == k % PhraseCount
  {
    if k > 0 {
      HoversCycle(k - 1);
    }
  }

  // ---------------------------------------------------------------------
  // The application object

  class ValentineApp {
    const totalPages: nat
    /** Number of `.page` elements found in the document. */
    const rendered: nat
    const game: Game.MemoryGame
    var currentPage: int
    var isTransitioning: bool
    var phase: Phase
    /** What the navigation controls show; None until the first `updateNavigation`. */
    var view: Option<NavView>

    ghost predicate Valid()
      reads this, game, game.cards
    {
      && totalPages == TotalPages
      && 0 <= currentPage < totalPages
      && (isTransitioning <==> !phase.Idle?)
      && (phase.Entering? ==> phase.target < totalPages && phase.target < rendered)
      && game.Valid()
    }

    constructor (pages: nat)
      ensures Valid() && fresh(game)
      ensures rendered == pages && currentPage == 0 && !isTransitioning && phase == Idle && view == None
      ensures game.State() == Memory.Turn([], [], 0, 0, false)
    {
      totalPages := TotalPages;
      rendered := pages;
      game := new Game.MemoryGame();
      currentPage := 0;
      isTransitioning := false;
      phase := Idle;
      view := None;
    }

    /** `updateNavigation()`. */
    method UpdateNavigation()
      requires 0 <= currentPage
      modifies this
      ensures currentPage == old(currentPage) && isTransitioning == old(isTransitioning) && phase == old(phase)
      ensures view == Some(Navigation(currentPage, totalPages))
    {
      view := Some(Navigation(currentPage, totalPages));
    }

    /** `navigatePage(direction)` up to its first `await`: ignored while a
        transition runs, otherwise hands the neighbouring index to `showPage`
        when it lies within the book. */
    method NavigatePage(d: Direction)
      requires Valid()
      modifies this
      ensures Valid() && currentPage == old(currentPage) && view == old(view)
      ensures old(isTransitioning) ==> isTransitioning && phase == old(phase)
      ensures !old(isTransitioning) ==>
        var n := Target(old(currentPage), d);
        if 0 <= n < totalPages && n < rendered then isTransitioning && phase == Entering(n)
        else !isTransitioning && phase == Idle
    {
      if isTransitioning {
        return;
      }
      var nextIndex := if d == Next then currentPage + 1 else currentPage - 1;
      if nextIndex >= 0 && nextIndex < totalPages {
        ShowPage(nextIndex);
      }
    }

    /** `showPage(index)` up to its first `await`: the guard, the lock, and
        the early return (through `finally`) when no page element has that
        index. */
    method ShowPage(index: int)
      requires Valid()
      modifies this
      ensures Valid() && currentPage == old(currentPage) && view == old(view)
      ensures old(isTransitioning) || index < 0 || index >= totalPages ==>
        isTransitioning == old(isTransitioning) && phase == old(phase)
      ensures !old(isTransitioning) && 0 <= index < totalPages ==>
        if index < rendered then isTransitioning && phase == Entering(index)
        else !isTransitioning && phase == Idle
    {
      if isTransitioning || index < 0 || index >= totalPages {
        return;
      }
      isTransitioning := true;
      if index >= rendered {
        isTransitioning := false;
        return;
      }
      phase := Entering(index);
    }

    /** `showPage` after the old page has faded out and the new one slid in:
        record the page, refresh the controls, and start the memory game on
        its page. */
    method EnterPage()
      requires Valid() && phase.Entering?
      modifies this, game
      ensures Valid() && isTransitioning && phase == Settling
      ensures currentPage == old(phase.target)
      ensures view == Some(Navigation(currentPage, totalPages))
      ensures currentPage == GamePage ==>
        fresh(game.cards) && game.State() == Memory.Restart(Memory.Ids(game.cards[..]))
        && multiset(Memory.Ids(game.cards[..])) == multiset(Memory.Deck())
        && Memory.Sound(game.State()) && Memory.NewTurn(game.State())
      ensures currentPage != GamePage ==> unchanged(game)
    {
      currentPage := phase.target;
      UpdateNavigation();
      if currentPage == GamePage {
        game.Initialize();
      }
      phase := Settling;
    }

    /** The `finally` after the last 300 ms wait: the lock is released. */
    method Settle()
      requires Valid() && phase == Settling
      modifies this
      ensures Valid() && !isTransitioning && phase == Idle
      ensures currentPage == old(currentPage) && view == old(view)
    {
      isTransitioning := false;
      phase := Idle;
    }

    /** One navigation run to completion with no other event in between. */
    method Navigate(d: Direction)
      requires Valid() && !isTransitioning
      modifies this, game
      ensures Valid() && !isTransitioning
      ensures currentPage == Landing(old(currentPage), d, totalPages, rendered)
      ensures currentPage != old(currentPage) ==> view == Some(Navigation(currentPage, totalPages))
      ensures currentPage == old(currentPage) ==> view == old(view) && unchanged(game)
      ensures currentPage != old(currentPage) && currentPage == GamePage ==>
        Memory.Sound(game.State()) && Memory.NewTurn(game.State())
      ensures currentPage != old(currentPage) && currentPage == GamePage ==>
        fresh(game.cards) && multiset(Memory.Ids(game.cards[..])) == multiset(Memory.Deck())
      ensures currentPage != GamePage ==> unchanged(game)
    {
      NavigatePage(d);
      if phase.Entering? {
        EnterPage();
        Settle();
      }
    }
  }
}
