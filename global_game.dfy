/** work.js: the first version, written with module-level variables (`deck`,
    `activePlayer`, `remainingMoves`, `gameAreaCounter`, `lastPlay`) and the page's
    two player areas. Here those variables are the fields of one `Session`; each
    player area is a record of the cards in its container and its button and drag
    state. There are no rounds, no turn check, no counters and no win test, and
    `placeCards` throws before it finishes. */
module GlobalGame {
  import opened Cards
  import opened Decks
  import opened Reveal

  /** `playerLeft` and `playerRight`. */
  datatype Side = Left | Right

  function Opposite(s: Side): (t: Side)
    ensures t != s
  {
    if s == Left then Right else Left
  }

  /** One player area: the cards in its container (in container order), whether its
      Place button is enabled and its Call Bluff button disabled, and whether its cards
      carry the drag listeners. */
  datatype Area = Area(cards: seq<Card>, placeEnabled: bool, callBluffDisabled: bool, dragging: bool)

  class Session {
    var deck: seq<Card>
    var left: Area
    var right: Area
    var activePlayer: Option<Side>
    var remainingMoves: int
    var gameAreaCounter: int
    var lastPlay: LastPlay<Side>
    /** The cards in the game area, in the order they were dropped. */
    var pile: seq<Card>

    function AreaOf(s: Side): Area
      reads this
    {
      if s == Left then left else right
    }

    ghost predicate Valid()
      reads this
    {
      LastPlayWellFormed(lastPlay)
    }

    /** All cards in the two containers and the game area. */
    ghost function InPlay(): multiset<Card>
      reads this
    {
      multiset(left.cards) + multiset(right.cards) + multiset(pile)
    }

    /** The module-level initial values, after `createDeck`. Before the first deal the
        page has no card containers; the areas start empty, with the buttons as
        `DistributeCards` sets them. */
    constructor ()
      ensures Valid()
      ensures deck == FullDeck() && activePlayer.None? && remainingMoves == 0 && gameAreaCounter == 0
      ensures lastPlay == LastPlay(None, None, 0) && pile == []
      ensures left == right == Area([], true, true, false)
    {
      deck := [];
      left := Area([], true, true, false);
      right := Area([], true, true, false);
      activePlayer := None;
      remainingMoves := 0;
      gameAreaCounter := 0;
      lastPlay := LastPlay(None, None, 0);
      pile := [];
      new;
      CreateDeckInPlace();
    }

    /** `createDeck`: the deck becomes 56 new card elements in suit-major order. Its
        `displayDeck` moves only those new elements, which lie in no container, so the
        areas and the game area keep their cards. */
    method CreateDeckInPlace()
      modifies this
      ensures deck == FullDeck()
      ensures left == old(left) && right == old(right) && pile == old(pile)
      ensures activePlayer == old(activePlayer) && remainingMoves == old(remainingMoves)
      ensures gameAreaCounter == old(gameAreaCounter) && lastPlay == old(lastPlay)
    {
      deck := CreateDeck();
    }

    /** `shuffleDeck`: the deck becomes a permutation of itself; then `displayDeck`
        appends every deck element to the card grid, which takes each dealt card out of
        its container or the game area. */
    method ShuffleDeck()
      modifies this
      ensures |deck| == |old(deck)| && multiset(deck) == multiset(old(deck))
      ensures left == old(left).(cards := Without(old(left.cards), deck))
      ensures right == old(right).(cards := Without(old(right.cards), deck))
      ensures pile == Without(old(pile), deck)
      ensures multiset(old(deck)) == multiset(FullDeck()) ==> left.cards == [] && right.cards == [] && pile == []
      ensures activePlayer == old(activePlayer) && remainingMoves == old(remainingMoves)
      ensures gameAreaCounter == old(gameAreaCounter) && lastPlay == old(lastPlay)
    {
      deck := Shuffle(deck);
      left := left.(cards := Without(left.cards, deck));
      right := right.(cards := Without(right.cards, deck));
      pile := Without(pile, deck);
      if multiset(old(deck)) == multiset(FullDeck()) {
        WithoutFullDeck(old(left.cards), deck);
        WithoutFullDeck(old(right.cards), deck);
        WithoutFullDeck(old(pile), deck);
      }
    }

    /** `distributeCards()` with the slider value n: both player areas are rebuilt with
        new, empty containers, a disabled Call Bluff button and (once the deal is over) an
        enabled Place button; deck cards [0, n) are then moved into the left container and
        [n, 2n) into the right one (cut at the deck's end). A dealt card that lay in the
        game area leaves it. The deck list itself is only read. */
    method DistributeCards(n: nat)
      modifies this
      ensures var d := deck;
        var k1 := Min(n, |d|);
        var k2 := Min(2 * n, |d|);
        && left == Area(d[..k1], true, true, false)
        && right == Area(d[k1..k2], true, true, false)
        && pile == Without(old(pile), d[..k2])
      ensures deck == old(deck) && lastPlay == old(lastPlay) && gameAreaCounter == old(gameAreaCounter)
      ensures activePlayer == old(activePlayer) && remainingMoves == old(remainingMoves)
    {
      var k1 := Min(n, |deck|);
      var k2 := Min(2 * n, |deck|);
      left := Area(deck[..k1], true, true, false);
      right := Area(deck[k1..k2], true, true, false);
      pile := Without(pile, deck[..k2]);
    }

    /** `sortPlayerCards(container)`: the container's cards are re-appended in
        comparator order. */
    method SortPlayerCards(side: Side)
      modifies this
      ensures AreaOf(side).cards == SortedCards(old(AreaOf(side).cards))
      ensures ComparatorSorted(AreaOf(side).cards)
      ensures AreaOf(side) == old(AreaOf(side)).(cards := AreaOf(side).cards)
      ensures AreaOf(Opposite(side)) == old(AreaOf(Opposite(side)))
      ensures deck == old(deck) && pile == old(pile) && lastPlay == old(lastPlay)
      ensures activePlayer == old(activePlayer) && remainingMoves == old(remainingMoves)
      ensures gameAreaCounter == old(gameAreaCounter)
      ensures InPlay() == old(InPlay())
    {
      if side == Left {
        left := left.(cards := SortedCards(left.cards));
      } else {
        right := right.(cards := SortedCards(right.cards));
      }
    }

    /** `placeCards(player)`. With a positive count the player becomes active with count
        moves, `lastPlay` records the claim, the player's cards become draggable and its
        Place button is disabled; then the reference to the undeclared `opponent` throws,
        so the opponent's buttons are left as they were. */
    method PlaceCards(side: Side, rank: Rank, count: ParsedInt) returns (outcome: Outcome)
      requires Valid()
      modifies this
      ensures Valid()
      ensures count.Num? && count.n > 0 ==>
        && outcome == Threw(ReferenceError)
        && activePlayer == Some(side) && remainingMoves == count.n
        && lastPlay == LastPlay(Some(side), Some(rank), count.n)
        && AreaOf(side) == old(AreaOf(side)).(dragging := true, placeEnabled := false)
      ensures !(count.Num? && count.n > 0) ==>
        && outcome == Rejected(InvalidInput)
        && activePlayer == old(activePlayer) && remainingMoves == old(remainingMoves)
        && lastPlay == old(lastPlay) && AreaOf(side) == old(AreaOf(side))
      ensures AreaOf(Opposite(side)) == old(AreaOf(Opposite(side)))
      ensures deck == old(deck) && pile == old(pile) && gameAreaCounter == old(gameAreaCounter)
    {
      if count.Num? && count.n > 0 {
        activePlayer := Some(side);
        remainingMoves := count.n;
        lastPlay := LastPlay(Some(side), Some(rank), count.n);
        if side == Left {
          left := left.(dragging := true, placeEnabled := false);
        } else {
          right := right.(dragging := true, placeEnabled := false);
        }
        outcome := Threw(ReferenceError);
      } else {
        outcome := Rejected(InvalidInput);
      }
    }

    /** `callBluff(player)` up to its return. A caller that made the last placement is
        refused. The revealed cards are checked against the claim; then reading the
        placer's id throws when `lastPlay` has been reset. Otherwise the recipient is the
        placer after a bluff and the caller after an honest play, both Call Bluff buttons
        are disabled, both Place buttons enabled, and `lastPlay` is reset. No round starts
        and no counter changes; the pile moves later, in `ApplyPileTransfer`. */
    method CallBluff(side: Side) returns (outcome: Outcome, bluffCalled: bool, recipient: Option<Side>)
      requires Valid()
      modifies this
      ensures Valid()
      ensures var lp := old(lastPlay);
        && (lp.player == Some(side) ==> outcome == Rejected(OwnPlay))
        && (lp.player.None? ==> outcome == Threw(TypeError))
        && (lp.player.Some? && lp.player != Some(side) ==> outcome == Completed)
      ensures outcome != Completed ==>
        && lastPlay == old(lastPlay) && left == old(left) && right == old(right)
      ensures outcome == Completed ==>
        && (bluffCalled <==> IsBluff(old(pile), old(lastPlay.count), old(lastPlay.rank)))
        && recipient == Some(if bluffCalled then old(lastPlay.player).value else side)
        && lastPlay == LastPlay(None, None, 0)
        && left == old(left).(placeEnabled := true, callBluffDisabled := true)
        && right == old(right).(placeEnabled := true, callBluffDisabled := true)
      ensures deck == old(deck) && pile == old(pile) && gameAreaCounter == old(gameAreaCounter)
      ensures activePlayer == old(activePlayer) && remainingMoves == old(remainingMoves)
    {
      if lastPlay.player == Some(side) {
        return Rejected(OwnPlay), false, None;
      }
      var revealed := Revealed(pile, lastPlay.count);
      bluffCalled := CheckClaim(revealed, lastPlay.rank);
      if lastPlay.player.None? {
        return Threw(TypeError), bluffCalled, None;
      }
      recipient := Some(if bluffCalled then lastPlay.player.value else side);
      left := left.(placeEnabled := true, callBluffDisabled := true);
      right := right.(placeEnabled := true, callBluffDisabled := true);
      lastPlay := LastPlay(None, None, 0);
      outcome := Completed;
    }

    /** The deferred body of `callBluff`: every game-area card joins the end of the
        recipient's container, in game-area order, and both Place buttons are enabled. */
    method ApplyPileTransfer(target: Side)
      modifies this
      ensures pile == []
      ensures AreaOf(target) == old(AreaOf(target)).(cards := old(AreaOf(target).cards) + old(pile), placeEnabled := true)
      ensures AreaOf(Opposite(target)) == old(AreaOf(Opposite(target))).(placeEnabled := true)
      ensures InPlay() == old(InPlay())
      ensures deck == old(deck) && lastPlay == old(lastPlay) && gameAreaCounter == old(gameAreaCounter)
      ensures activePlayer == old(activePlayer) && remainingMoves == old(remainingMoves)
    {
      if target == Left {
        left := left.(cards := left.cards + pile);
      } else {
        right := right.(cards := right.cards + pile);
      }
      pile := [];
      left := left.(placeEnabled := true);
      right := right.(placeEnabled := true);
    }

    /** `finishTurn()`: the active player's cards stop being draggable and its Place
        button is enabled, the opponent may call bluff, and nobody is active. */
    method FinishTurn()
      requires activePlayer.Some?
      modifies this
      ensures activePlayer.None?
      ensures var a := old(activePlayer).value;
        && AreaOf(a) == old(AreaOf(a)).(dragging := false, placeEnabled := true)
        && AreaOf(Opposite(a)) == old(AreaOf(Opposite(a))).(callBluffDisabled := false)
      ensures deck == old(deck) && pile == old(pile) && lastPlay == old(lastPlay)
      ensures remainingMoves == old(remainingMoves) && gameAreaCounter == old(gameAreaCounter)
    {
      if activePlayer.value == Left {
        left := left.(dragging := false, placeEnabled := true);
        right := right.(callBluffDisabled := false);
      } else {
        right := right.(dragging := false, placeEnabled := true);
        left := left.(callBluffDisabled := false);
      }
      activePlayer := None;
    }

    /** `dropInGameArea` of the card at position idx of the active player's container
        (where `dragStart` took it from); flipped is whether it shows its face. With a
        player active, moves left and the card face down, the card moves from the
        container to the end of the game area and one move fewer remains; the last move
        finishes the turn. Otherwise nothing changes. */
    method DropInGameArea(idx: nat, flipped: bool)
      requires activePlayer.Some? && remainingMoves > 0 && !flipped ==>
        idx < |AreaOf(activePlayer.value).cards|
      modifies this
      ensures InPlay() == old(InPlay())
      ensures var allowed := old(activePlayer).Some? && old(remainingMoves) > 0 && !flipped;
        && (allowed ==>
              var a := old(activePlayer).value;
              var h := old(AreaOf(a).cards);
              var moved := old(AreaOf(a)).(cards := h[..idx] + h[idx + 1..]);
              && pile == old(pile) + [h[idx]]
              && remainingMoves == old(remainingMoves) - 1
              && gameAreaCounter == old(gameAreaCounter) + 1
              && activePlayer == (if remainingMoves == 0 then None else old(activePlayer))
              && (remainingMoves > 0 ==>
                    && AreaOf(a) == moved
                    && AreaOf(Opposite(a)) == old(AreaOf(Opposite(a))))
              && (remainingMoves == 0 ==>
                    && AreaOf(a) == moved.(dragging := false, placeEnabled := true)
                    && AreaOf(Opposite(a)) == old(AreaOf(Opposite(a))).(callBluffDisabled := false)))
        && (!allowed ==>
              && pile == old(pile) && left == old(left) && right == old(right)
              && remainingMoves == old(remainingMoves) && activePlayer == old(activePlayer)
              && gameAreaCounter == old(gameAreaCounter))
      ensures deck == old(deck) && lastPlay == old(lastPlay)
    {
      if activePlayer.Some? && remainingMoves > 0 && !flipped {
        MoveToGameArea(idx);
        if remainingMoves == 0 {
          FinishTurn();
        }
      }
    }

    /** The card move of `dropInGameArea`: the card at idx leaves the active player's
        container for the end of the game area, the game-area counter grows and one move
        fewer remains. */
    method MoveToGameArea(idx: nat)
      requires activePlayer.Some? && idx < |AreaOf(activePlayer.value).cards|
      modifies this
      ensures var a := old(activePlayer).value;
        var h := old(AreaOf(a).cards);
        && pile == old(pile) + [h[idx]]
        && AreaOf(a) == old(AreaOf(a)).(cards := h[..idx] + h[idx + 1..])
        && AreaOf(Opposite(a)) == old(AreaOf(Opposite(a)))
      ensures InPlay() == old(InPlay())
      ensures remainingMoves == old(remainingMoves) - 1 && gameAreaCounter == old(gameAreaCounter) + 1
      ensures activePlayer == old(activePlayer) && deck == old(deck) && lastPlay == old(lastPlay)
    {
      var h := AreaOf(activePlayer.value).cards;
      if activePlayer.value == Left {
        MoveKeepsCards(h, right.cards, idx, pile);
        left := left.(cards := h[..idx] + h[idx + 1..]);
      } else {
        MoveKeepsCards(h, left.cards, idx, pile);
        right := right.(cards := h[..idx] + h[idx + 1..]);
      }
      pile := pile + [h[idx]];
      gameAreaCounter := gameAreaCounter + 1;
      remainingMoves := remainingMoves - 1;
    }
  }

  /** Moving the card at idx from a container to the end of the game area keeps the
      cards of both containers and the game area together. */
  lemma MoveKeepsCards(h: seq<Card>, other: seq<Card>, idx: nat, pile: seq<Card>)
    requires idx < |h|
    ensures var rest := h[..idx] + h[idx + 1..];
      && multiset(rest) + multiset(other) + multiset(pile + [h[idx]]) ==
         multiset(h) + multiset(other) + multiset(pile)
      && multiset(other) + multiset(rest) + multiset(pile + [h[idx]]) ==
         multiset(other) + multiset(h) + multiset(pile)
  {
    assert h == h[..idx] + [h[idx]] + h[idx + 1..];
  }
}
