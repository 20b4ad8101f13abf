/** workalt.js: the earlier `Player` and `Game` classes. A player keeps an array
    `hand` of its card objects, filled by `addCards` and sorted in place by
    `sortCards`; the game deals from its deck by splicing, and has no rounds, no
    turn check, no card counters and no win test. The cards in the game area are
    `pile`. A drop and the transfer after a bluff call move card elements between
    the page's containers but never touch a `hand` array. */
module AltGame {
  import opened Cards
  import opened Decks
  import opened Reveal

  class Player {
    /** `this.hand`, in array order. */
    var hand: seq<Card>
    var placeEnabled: bool
    var callBluffDisabled: bool
    /** Whether the drag listeners are attached to the player's cards. */
    var dragging: bool

    /** A new player: no cards, both buttons created enabled, no drag listeners. */
    constructor ()
      ensures hand == [] && placeEnabled && !callBluffDisabled && !dragging
    {
      hand := [];
      placeEnabled := true;
      callBluffDisabled := false;
      dragging := false;
    }

    /** `addCards(cards)`: the cards are concatenated to the end of the hand, in order. */
    method AddCards(cs: seq<Card>)
      modifies this
      ensures hand == old(hand) + cs
      ensures placeEnabled == old(placeEnabled) && callBluffDisabled == old(callBluffDisabled)
      ensures dragging == old(dragging)
    {
      hand := hand + cs;
    }

    /** `sortCards`: the hand is sorted in place by suit index, then rank index. Any sort
        that does this yields `SortedCards` of the old hand (`SortedPermutationUnique`). */
    method SortCards()
      modifies this
      ensures hand == SortedCards(old(hand))
      ensures multiset(hand) == multiset(old(hand)) && ComparatorSorted(hand)
      ensures placeEnabled == old(placeEnabled) && callBluffDisabled == old(callBluffDisabled)
      ensures dragging == old(dragging)
    {
      hand := SortedCards(hand);
    }
  }

  class Game {
    const deck: Deck
    const player1: Player
    const player2: Player
    var activePlayer: Player?
    var remainingMoves: int
    var gameAreaCounter: int
    var lastPlay: LastPlay<Player>
    /** The cards in the game area, in the order they were dropped. */
    var pile: seq<Card>

    predicate IsPlayer(p: Player?) {
      p == player1 || p == player2
    }

    function Opponent(p: Player): (q: Player)
      ensures p == player1 ==> q == player2
      ensures p != player1 ==> q == player1
    {
      if p == player1 then player2 else player1
    }

    ghost predicate Valid()
      reads this
    {
      && player1 != player2
      && (activePlayer == null || IsPlayer(activePlayer))
      && (lastPlay.player.Some? ==> IsPlayer(lastPlay.player.value))
      && LastPlayWellFormed(lastPlay)
    }

    /** The `Game` constructor with `init`: a fresh deck (built twice), nobody active. */
    constructor ()
      ensures Valid()
      ensures deck.cards == FullDeck() && activePlayer == null && remainingMoves == 0
      ensures gameAreaCounter == 0 && lastPlay == LastPlay(None, None, 0) && pile == []
      ensures player1.hand == [] && player2.hand == []
      ensures fresh(deck) && fresh(player1) && fresh(player2)
    {
      deck := new Deck();
      player1 := new Player();
      player2 := new Player();
      activePlayer := null;
      remainingMoves := 0;
      gameAreaCounter := 0;
      lastPlay := LastPlay(None, None, 0);
      pile := [];
      new;
      deck.Create();
    }

    /** `shuffleDeck`: the deck list becomes a permutation of itself. */
    method ShuffleDeck()
      modifies deck
      ensures multiset(deck.cards) == multiset(old(deck.cards)) && |deck.cards| == |old(deck.cards)|
    {
      deck.ShuffleCards();
    }

    /** `distributeCards` with the slider value n: player 1 is dealt the first n cards and
        player 2 the next n (both cut at the deck's end); the deck keeps the rest, and both
        Place buttons are enabled. */
    method DistributeCards(n: int)
      requires Valid()
      modifies deck, player1, player2
      ensures Valid()
      ensures var d := old(deck.cards);
        var k1 := if n <= 0 then 0 else Min(n, |d|);
        var k2 := if n <= 0 then 0 else Min(2 * n, |d|);
        && player1.hand == old(player1.hand) + d[..k1]
        && player2.hand == old(player2.hand) + d[k1..k2]
        && deck.cards == d[k2..]
      ensures player1.placeEnabled && player2.placeEnabled
      ensures player1.callBluffDisabled == old(player1.callBluffDisabled)
      ensures player2.callBluffDisabled == old(player2.callBluffDisabled)
      ensures player1.dragging == old(player1.dragging) && player2.dragging == old(player2.dragging)
    {
      DealTwice(deck.cards, n);
      var dealt1 := deck.Deal(n);
      player1.AddCards(dealt1);
      var dealt2 := deck.Deal(n);
      player2.AddCards(dealt2);
      player1.placeEnabled := true;
      player2.placeEnabled := true;
    }

    /** `placeCards(player)`: a positive count is accepted from either player at any time;
        the player becomes active with count moves, `lastPlay` records the claim, the
        player may drag but not place, and the opponent may place and call bluff. */
    method PlaceCards(player: Player, rank: Rank, count: ParsedInt) returns (outcome: Outcome)
      requires Valid() && IsPlayer(player)
      modifies this, player1, player2
      ensures Valid()
      ensures outcome == Completed <==> count.Num? && count.n > 0
      ensures outcome != Completed ==>
        && outcome == Rejected(InvalidInput)
        && activePlayer == old(activePlayer) && remainingMoves == old(remainingMoves)
        && lastPlay == old(lastPlay)
        && player.placeEnabled == old(player.placeEnabled) && player.dragging == old(player.dragging)
        && Opponent(player).placeEnabled == old(Opponent(player).placeEnabled)
        && Opponent(player).callBluffDisabled == old(Opponent(player).callBluffDisabled)
      ensures outcome == Completed ==>
        && activePlayer == player && remainingMoves == count.n
        && lastPlay == LastPlay(Some(player), Some(rank), count.n)
        && player.dragging && !player.placeEnabled
        && Opponent(player).placeEnabled && !Opponent(player).callBluffDisabled
      ensures player.callBluffDisabled == old(player.callBluffDisabled)
      ensures Opponent(player).dragging == old(Opponent(player).dragging)
      ensures player1.hand == old(player1.hand) && player2.hand == old(player2.hand)
      ensures pile == old(pile) && gameAreaCounter == old(gameAreaCounter)
    {
      if count.Num? && count.n > 0 {
        activePlayer := player;
        remainingMoves := count.n;
        lastPlay := LastPlay(Some(player), Some(rank), count.n);
        player.dragging := true;
        player.placeEnabled := false;
        var opponent := Opponent(player);
        opponent.placeEnabled := true;
        opponent.callBluffDisabled := false;
        outcome := Completed;
      } else {
        outcome := Rejected(InvalidInput);
      }
    }

    /** `callBluff(player)` up to its return. A caller that made the last placement is
        refused. Otherwise the revealed cards are checked against the claim, the recipient
        is the placer after a bluff and the caller after an honest play, both Call Bluff
        buttons are disabled, both Place buttons enabled, and `lastPlay` is reset. The
        pile stays in the game area until `ApplyPileTransfer`. */
    method CallBluff(player: Player) returns (outcome: Outcome, bluffCalled: bool, recipient: Player?)
      requires Valid() && IsPlayer(player)
      modifies this, player1, player2
      ensures Valid()
      ensures old(lastPlay.player) == Some(player) ==>
        && outcome == Rejected(OwnPlay) && lastPlay == old(lastPlay)
        && player1.placeEnabled == old(player1.placeEnabled)
        && player2.placeEnabled == old(player2.placeEnabled)
        && player1.callBluffDisabled == old(player1.callBluffDisabled)
        && player2.callBluffDisabled == old(player2.callBluffDisabled)
      ensures old(lastPlay.player) != Some(player) ==>
        && outcome == Completed
        && (bluffCalled <==> IsBluff(old(pile), old(lastPlay.count), old(lastPlay.rank)))
        && recipient == (if bluffCalled then old(lastPlay.player).value else player)
        && lastPlay == LastPlay(None, None, 0)
        && player1.placeEnabled && player2.placeEnabled
        && player1.callBluffDisabled && player2.callBluffDisabled
      ensures recipient == null || IsPlayer(recipient)
      ensures activePlayer == old(activePlayer) && remainingMoves == old(remainingMoves)
      ensures pile == old(pile) && gameAreaCounter == old(gameAreaCounter)
      ensures player1.hand == old(player1.hand) && player2.hand == old(player2.hand)
      ensures player1.dragging == old(player1.dragging) && player2.dragging == old(player2.dragging)
    {
      if lastPlay.player == Some(player) {
        return Rejected(OwnPlay), false, null;
      }
      var revealed := Revealed(pile, lastPlay.count);
      bluffCalled := CheckClaim(revealed, lastPlay.rank);
      BluffNeedsPlacer(pile, lastPlay);
      recipient := if bluffCalled then lastPlay.player.value else player;
      player1.callBluffDisabled, player1.placeEnabled := true, true;
      player2.callBluffDisabled, player2.placeEnabled := true, true;
      lastPlay := LastPlay(None, None, 0);
      outcome := Completed;
    }

    /** The deferred body of `callBluff`: every card leaves the game area for the
        recipient's container (returned as `moved`), and both Place buttons are enabled. */
    method ApplyPileTransfer() returns (moved: seq<Card>)
      requires Valid()
      modifies this, player1, player2
      ensures Valid()
      ensures moved == old(pile) && pile == []
      ensures player1.placeEnabled && player2.placeEnabled
      ensures player1.callBluffDisabled == old(player1.callBluffDisabled)
      ensures player2.callBluffDisabled == old(player2.callBluffDisabled)
      ensures player1.hand == old(player1.hand) && player2.hand == old(player2.hand)
      ensures player1.dragging == old(player1.dragging) && player2.dragging == old(player2.dragging)
      ensures activePlayer == old(activePlayer) && remainingMoves == old(remainingMoves)
      ensures lastPlay == old(lastPlay) && gameAreaCounter == old(gameAreaCounter)
    {
      moved := pile;
      pile := [];
      player1.placeEnabled := true;
      player2.placeEnabled := true;
    }

    /** `finishTurn()`: the active player stops dragging and may place again, the opponent
        may call bluff, and nobody is active. */
    method FinishTurn()
      requires Valid() && activePlayer != null
      modifies this, player1, player2
      ensures Valid() && activePlayer == null
      ensures var a := old(activePlayer);
        && !a.dragging && a.placeEnabled && a.callBluffDisabled == old(a.callBluffDisabled)
        && !Opponent(a).callBluffDisabled
        && Opponent(a).placeEnabled == old(Opponent(a).placeEnabled)
        && Opponent(a).dragging == old(Opponent(a).dragging)
      ensures remainingMoves == old(remainingMoves) && lastPlay == old(lastPlay)
      ensures pile == old(pile) && gameAreaCounter == old(gameAreaCounter)
      ensures player1.hand == old(player1.hand) && player2.hand == old(player2.hand)
    {
      var current := activePlayer;
      current.dragging := false;
      current.placeEnabled := true;
      var opponent := Opponent(current);
      opponent.callBluffDisabled := false;
      activePlayer := null;
    }

    /** `dropInGameArea` of the dragged card; flipped is whether it shows its face. With a
        player active, moves left and the card face down, the card joins the end of the
        game area and one move fewer remains; the last move finishes the turn. Otherwise
        nothing changes. */
    method DropInGameArea(card: Card, flipped: bool)
      requires Valid()
      modifies this, player1, player2
      ensures Valid()
      ensures var allowed := old(activePlayer) != null && old(remainingMoves) > 0 && !flipped;
        && (allowed ==>
              && pile == old(pile) + [card] && remainingMoves == old(remainingMoves) - 1
              && gameAreaCounter == old(gameAreaCounter) + 1
              && activePlayer == (if remainingMoves == 0 then null else old(activePlayer)))
        && (!allowed ==>
              && pile == old(pile) && remainingMoves == old(remainingMoves)
              && gameAreaCounter == old(gameAreaCounter) && activePlayer == old(activePlayer))
      ensures old(activePlayer) != null && old(remainingMoves) == 1 && !flipped ==>
        var a := old(activePlayer);
        && !a.dragging && a.placeEnabled && a.callBluffDisabled == old(a.callBluffDisabled)
        && !Opponent(a).callBluffDisabled
        && Opponent(a).placeEnabled == old(Opponent(a).placeEnabled)
        && Opponent(a).dragging == old(Opponent(a).dragging)
      ensures !(old(activePlayer) != null && old(remainingMoves) == 1 && !flipped) ==>
        && player1.placeEnabled == old(player1.placeEnabled) && player2.placeEnabled == old(player2.placeEnabled)
        && player1.dragging == old(player1.dragging) && player2.dragging == old(player2.dragging)
        && player1.callBluffDisabled == old(player1.callBluffDisabled)
        && player2.callBluffDisabled == old(player2.callBluffDisabled)
      ensures lastPlay == old(lastPlay)
      ensures player1.hand == old(player1.hand) && player2.hand == old(player2.hand)
    {
      if activePlayer != null && remainingMoves > 0 && !flipped {
        pile := pile + [card];
        gameAreaCounter := gameAreaCounter + 1;
        remainingMoves := remainingMoves - 1;
        if remainingMoves == 0 {
          FinishTurn();
        }
      }
    }
  }
}
