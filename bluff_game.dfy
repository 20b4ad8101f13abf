/** workwork.js: the `Player` and `Game` classes. A `Game` holds a deck, two
    players, the turn fields (`activePlayer`, `remainingMoves`, `cardsPLaced`),
    `lastPlay`, `currentRound` and the cards in the game area; each method
    updates those fields and the players' counters, containers and buttons in
    place. Every method is proved to leave the session in the state that the
    corresponding function of module BluffRules gives for the state before the
    call, so the properties proved there hold of the class. */
module BluffGame {
  import opened Cards
  import opened Decks
  import opened Reveal
  import opened BluffRules

  class Player {
    var cardCount: int
    /** The cards in the player's container, in container order. */
    var hand: seq<Card>
    var controls: Controls

    /** A new player: counter 0 and an empty container; the Place and Pass buttons are
        created enabled, Call Bluff disabled, and no card is draggable. */
    constructor ()
      ensures cardCount == 0 && hand == [] && controls == Controls(true, true, true, false)
    {
      cardCount := 0;
      hand := [];
      controls := Controls(true, true, true, false);
    }

    function AsSeat(): Seat
      reads this
    {
      Seat(cardCount, hand, controls)
    }

    /** `sortCards`: the container's cards are re-appended in comparator order. */
    method SortCards()
      modifies this
      ensures hand == SortedCards(old(hand))
      ensures multiset(hand) == multiset(old(hand)) && ComparatorSorted(hand)
      ensures cardCount == old(cardCount) && controls == old(controls)
    {
      hand := SortedCards(hand);
    }
  }

  datatype SessionRound = SessionRound(startingPlayer: Player?, rank: RoundRank)

  class GameSession {
    const deck: Deck
    const player1: Player
    const player2: Player
    /** `Game.cardsPerPlayer`, overwritten by `distributeCards`. */
    var cardsPerPlayer: int
    var activePlayer: Player?
    var remainingMoves: int
    var cardsPlaced: int
    var lastPlay: LastPlay<Player>
    var currentRound: SessionRound
    /** The cards in the game area, in the order they were dropped. */
    var pile: seq<Card>

    predicate IsPlayer(p: Player?) {
      p == player1 || p == player2
    }

    /** The rules' name of a player of this session (any other object maps to P2). */
    function Id(p: Player): PlayerId {
      if p == player1 then P1 else P2
    }

    function IdOf(p: Player?): Option<PlayerId> {
      if p == null then None else Some(Id(p))
    }

    function PlayerOf(id: PlayerId): (p: Player)
      ensures IsPlayer(p)
    {
      if id == P1 then player1 else player2
    }

    function LastPlayIds(lp: LastPlay<Player>): LastPlay<PlayerId> {
      LastPlay(if lp.player.None? then None else Some(Id(lp.player.value)), lp.rank, lp.count)
    }

    ghost predicate Valid()
      reads this
    {
      && player1 != player2
      && (activePlayer == null || IsPlayer(activePlayer))
      && (currentRound.startingPlayer == null || IsPlayer(currentRound.startingPlayer))
      && (lastPlay.player.Some? ==> IsPlayer(lastPlay.player.value))
      && LastPlayWellFormed(LastPlayIds(lastPlay))
    }

    /** The session as a value of the rules. */
    ghost function Snapshot(): State
      reads this, player1, player2, deck
    {
      State(deck.cards, cardsPerPlayer, player1.AsSeat(), player2.AsSeat(),
            IdOf(activePlayer), remainingMoves, cardsPlaced, LastPlayIds(lastPlay),
            Round(IdOf(currentRound.startingPlayer), currentRound.rank), pile)
    }

    /** The `Game` constructor, including `initializeGame`. */
    constructor ()
      ensures Valid() && Snapshot() == Initial()
      ensures fresh(deck) && fresh(player1) && fresh(player2)
    {
      deck := new Deck();
      player1 := new Player();
      player2 := new Player();
      cardsPerPlayer := 26;
      activePlayer := null;
      remainingMoves := 0;
      cardsPlaced := 0;
      lastPlay := LastPlay(None, None, 0);
      currentRound := SessionRound(null, Null);
      pile := [];
      new;
      InitializeGame();
      DisplayDeck();
    }

    /** `displayDeck`: every deck card element is appended to the card grid, which takes
        it out of a container or the game area it lies in. */
    method DisplayDeck()
      requires player1 != player2
      modifies this, player1, player2
      ensures Snapshot() == BluffRules.DisplayDeck(old(Snapshot()))
      ensures currentRound == old(currentRound) && activePlayer == old(activePlayer) && lastPlay == old(lastPlay)
    {
      player1.hand := Without(player1.hand, deck.cards);
      player2.hand := Without(player2.hand, deck.cards);
      pile := Without(pile, deck.cards);
    }

    /** `initializeGame`: `displayDeck`, then Place and Pass off, Call Bluff disabled and
        dragging off, for both players. */
    method InitializeGame()
      requires player1 != player2
      modifies this, player1, player2
      ensures var d := BluffRules.DisplayDeck(old(Snapshot()));
        Snapshot() == d.(p1 := d.p1.(controls := Idle), p2 := d.p2.(controls := Idle))
      ensures currentRound == old(currentRound) && activePlayer == old(activePlayer) && lastPlay == old(lastPlay)
    {
      DisplayDeck();
      player1.controls := player1.controls.(placeEnabled := false);
      player2.controls := player2.controls.(placeEnabled := false);
      player1.controls := player1.controls.(callBluffDisabled := true);
      player2.controls := player2.controls.(callBluffDisabled := true);
      player1.controls := player1.controls.(passEnabled := false);
      player2.controls := player2.controls.(passEnabled := false);
      player1.controls := player1.controls.(dragging := false);
      player2.controls := player2.controls.(dragging := false);
    }

    /** `shuffleDeck`: the deck list becomes a permutation of itself, then `displayDeck`
        takes every dealt card back into the card grid. */
    method ShuffleDeck()
      requires Valid()
      modifies deck, this, player1, player2
      ensures Valid()
      ensures multiset(deck.cards) == multiset(old(deck.cards)) && |deck.cards| == |old(deck.cards)|
      ensures Snapshot() == BluffRules.DisplayDeck(old(Snapshot()).(deck := deck.cards))
      ensures multiset(old(deck.cards)) == multiset(FullDeck()) ==>
        player1.hand == [] && player2.hand == [] && pile == []
    {
      deck.ShuffleCards();
      DisplayDeck();
      if multiset(old(deck.cards)) == multiset(FullDeck()) {
        DisplayDeckGathersAll(old(Snapshot()).(deck := deck.cards));
      }
    }

    /** `distributeCards` with the slider value n. */
    method DistributeCards(n: nat)
      requires Valid()
      modifies this, player1, player2
      ensures Valid() && Snapshot() == BluffRules.DistributeCards(old(Snapshot()), n)
    {
      cardsPerPlayer := n;
      player1.cardCount := n;
      player2.cardCount := n;
      var d := deck.cards;
      var dealt := Dealt(d, n);
      // each dealt card element leaves wherever it is and joins the end of a container
      player1.hand := Without(player1.hand, dealt) + d[..Min(n, |d|)];
      player2.hand := Without(player2.hand, dealt) + d[Min(n, |d|)..Min(2 * n, |d|)];
      pile := Without(pile, dealt);
      player1.controls := player1.controls.(placeEnabled := true);
      player2.controls := player2.controls.(placeEnabled := false);
      player1.controls := player1.controls.(passEnabled := false);
      player2.controls := player2.controls.(passEnabled := false);
    }

    /** `setActivePlayer(player)`. */
    method SetActivePlayer(player: Player)
      requires Valid() && IsPlayer(player)
      modifies this, player1, player2
      ensures Valid() && Snapshot() == SetActive(old(Snapshot()), Id(player))
    {
      activePlayer := player;
      player1.controls := player1.controls.(placeEnabled := player == player1, passEnabled := player == player1,
        callBluffDisabled := player != player1 && currentRound.rank != Null, dragging := false);
      player2.controls := player2.controls.(placeEnabled := player == player2, passEnabled := player == player2,
        callBluffDisabled := player != player2 && currentRound.rank != Null, dragging := false);
      if player == player1 {
        player1.controls := player1.controls.(dragging := true);
      } else {
        player2.controls := player2.controls.(dragging := true);
      }
    }

    /** `startNewRound(startingPlayer, setRank)`, the later of the two definitions. */
    method StartNewRound(startingPlayer: Player, setRank: RoundRank)
      requires Valid() && IsPlayer(startingPlayer)
      modifies this, player1, player2
      ensures Valid() && Snapshot() == BluffRules.StartNewRound(old(Snapshot()), Id(startingPlayer), setRank)
    {
      currentRound := SessionRound(startingPlayer, setRank);
      SetActivePlayer(startingPlayer);
    }

    /** `placeCards(player)`; rank is the dropdown value, count the `parseInt` of the
        count field. */
    method PlaceCards(player: Player, rank: Rank, count: ParsedInt) returns (outcome: Outcome)
      requires Valid() && IsPlayer(player)
      modifies this, player1, player2
      ensures Valid()
      ensures var r := BluffRules.PlaceCards(old(Snapshot()), Id(player), rank, count);
        Snapshot() == r.state && outcome == r.outcome
    {
      ghost var st := Snapshot();
      if activePlayer != null && activePlayer != player {
        return Rejected(NotYourTurn);
      }
      if count.Num? && count.n > 0 {
        if currentRound.rank == Null {
          StartNewRound(player, Claimed(rank));
        } else if Claimed(rank) != currentRound.rank {
          return Rejected(WrongRank);
        }
        RecordPlacement(player, rank, count.n);
        outcome := Completed;
      } else {
        outcome := Rejected(InvalidInput);
      }
    }

    /** The accepted branch of `placeCards`: the turn fields and `lastPlay` record the
        placement, the player may drag, and neither player may place or pass. */
    method RecordPlacement(player: Player, rank: Rank, n: nat)
      requires Valid() && IsPlayer(player) && n > 0
      modifies this, player1, player2
      ensures Valid()
      ensures Snapshot() == PlaceControls(old(Snapshot()).(activePlayer := Some(Id(player)), remainingMoves := n,
        cardsPlaced := 0, lastPlay := LastPlay(Some(Id(player)), Some(rank), n)), Id(player))
    {
      ghost var st := Snapshot();
      activePlayer := player;
      remainingMoves := n;
      cardsPlaced := 0;
      lastPlay := LastPlay(Some(player), Some(rank), n);
      ghost var st2 := st.(activePlayer := Some(Id(player)), remainingMoves := n, cardsPlaced := 0,
                           lastPlay := LastPlay(Some(Id(player)), Some(rank), n));
      assert Snapshot() == st2;
      // enableDragging, then the Place and Pass buttons of the player and the opponent
      player.controls := player.controls.(dragging := true, placeEnabled := false, passEnabled := false);
      var opponent := if player == player1 then player2 else player1;
      opponent.controls := opponent.controls.(placeEnabled := false, callBluffDisabled := true, passEnabled := false);
    }

    /** `pass(player)`. */
    method Pass(player: Player) returns (outcome: Outcome)
      requires Valid() && IsPlayer(player)
      modifies this, player1, player2
      ensures Valid()
      ensures var r := BluffRules.Pass(old(Snapshot()), Id(player));
        Snapshot() == r.state && outcome == r.outcome
    {
      if player != activePlayer {
        return Rejected(NotYourTurn);
      }
      var nextPlayer := if player == player1 then player2 else player1;
      if player == currentRound.startingPlayer {
        StartNewRound(nextPlayer, Null);
      } else {
        SetActivePlayer(nextPlayer);
      }
      outcome := Completed;
    }

    /** `endGame(winner)`. */
    method EndGame(winner: Player)
      requires Valid() && IsPlayer(winner)
      modifies player1, player2
      ensures Valid() && Snapshot() == BluffRules.EndGame(old(Snapshot()))
    {
      player1.controls := player1.controls.(placeEnabled := false, callBluffDisabled := true, passEnabled := false);
      player2.controls := player2.controls.(placeEnabled := false, callBluffDisabled := true, passEnabled := false);
    }

    /** `finishTurn()`; returns the player `endGame` announced, if any. */
    method FinishTurn() returns (winner: Player?)
      requires Valid() && activePlayer != null
      modifies this, player1, player2
      ensures Valid() && (winner == null || IsPlayer(winner))
      ensures var r := BluffRules.FinishTurn(old(Snapshot()));
        Snapshot() == r.0 && IdOf(winner) == r.1
    {
      ghost var st := Snapshot();
      var current := activePlayer;
      current.controls := current.controls.(dragging := false, placeEnabled := false, passEnabled := true);
      ghost var a := Id(current);
      ghost var s := SeatOf(st, a);
      ghost var st1 := WithSeat(st, a, s.(controls := s.controls.(dragging := false, placeEnabled := false, passEnabled := true)));
      assert Snapshot() == st1;
      var nextPlayer := if current == player1 then player2 else player1;
      SetActivePlayer(nextPlayer);
      ghost var st2 := Snapshot();
      nextPlayer.controls := nextPlayer.controls.(placeEnabled := true, passEnabled := true, callBluffDisabled := false);
      ghost var n := SeatOf(st2, Other(a));
      assert Snapshot() == WithSeat(st2, Other(a), n.(controls := n.controls.(placeEnabled := true, passEnabled := true, callBluffDisabled := false)));
      if activePlayer.cardCount == 0 {
        EndGame(activePlayer);
        winner := nextPlayer;
      } else {
        winner := null;
      }
    }

    /** `dropInGameArea` of the card at position idx of the dragged-from container;
        flipped is whether that card shows its face. */
    method DropInGameArea(idx: nat, flipped: bool) returns (winner: Player?)
      requires Valid() && DraggedCardInHand(Snapshot(), idx, flipped)
      modifies this, player1, player2
      ensures Valid() && (winner == null || IsPlayer(winner))
      ensures var r := BluffRules.DropInGameArea(old(Snapshot()), idx, flipped);
        Snapshot() == r.0 && IdOf(winner) == r.1
    {
      winner := null;
      if activePlayer != null && remainingMoves > 0 && !flipped {
        MoveToGameArea(idx);
        if remainingMoves == 0 {
          winner := FinishTurn();
        }
      }
    }

    /** The card move of `dropInGameArea`: the card joins the game area and leaves the
        active player's container, and the counters are updated. */
    method MoveToGameArea(idx: nat)
      requires Valid() && activePlayer != null && idx < |activePlayer.hand|
      modifies this, player1, player2
      ensures Valid() && activePlayer != null
      ensures Snapshot() == MoveToPile(old(Snapshot()), idx)
    {
      if activePlayer == player1 {
        pile := pile + [player1.hand[idx]];
        player1.cardCount, player1.hand := player1.cardCount - 1, RemoveAt(player1.hand, idx);
      } else {
        pile := pile + [player2.hand[idx]];
        player2.cardCount, player2.hand := player2.cardCount - 1, RemoveAt(player2.hand, idx);
      }
      cardsPlaced, remainingMoves := cardsPlaced + 1, remainingMoves - 1;
    }

    /** `callBluff(player)` up to its return. The pile stays in the game area; the
        deferred transfer to `recipient` is `ApplyPileTransfer`. */
    method CallBluff(player: Player) returns (outcome: Outcome, bluffCalled: bool, recipient: Player?, winner: Player?)
      requires Valid() && IsPlayer(player)
      modifies this, player1, player2
      ensures Valid()
      ensures recipient == null || IsPlayer(recipient)
      ensures winner == null || IsPlayer(winner)
      ensures var r := BluffRules.CallBluff(old(Snapshot()), Id(player));
        && Snapshot() == r.state && outcome == r.outcome
        && (outcome != Rejected(OwnPlay) ==> bluffCalled == r.bluffCalled && IdOf(recipient) == r.recipient)
        && IdOf(winner) == r.winner
    {
      if lastPlay.player == Some(player) {
        return Rejected(OwnPlay), false, null, null;
      }
      ghost var st := Snapshot();
      var revealed := Revealed(pile, lastPlay.count);
      bluffCalled := CheckClaim(revealed, lastPlay.rank);
      assert bluffCalled == IsBluff(st.pile, st.lastPlay.count, st.lastPlay.rank);
      if !bluffCalled && lastPlay.player.None? {
        return Threw(TypeError), bluffCalled, player, null;
      }
      assert bluffCalled ==> lastPlay.count > 0;
      var starter: Player := if bluffCalled then player else lastPlay.player.value;
      recipient := if bluffCalled then lastPlay.player.value else player;
      OtherIsTheOnlyOther(Id(player), Id(lastPlay.player.value));
      assert Id(recipient) == Other(Id(starter));
      StartNewRound(starter, Undefined);
      CloseBluffCall();
      winner := null;
      if recipient.cardCount == 0 {
        EndGame(recipient);
        winner := recipient;
      }
      outcome := Completed;
    }

    /** The part of `callBluff` after the new round has started: both Call Bluff buttons
        disabled, both Place buttons enabled, `lastPlay` reset. */
    method CloseBluffCall()
      requires Valid()
      modifies this, player1, player2
      ensures Valid() && Snapshot() == BluffControls(old(Snapshot())).(lastPlay := NoPlay)
    {
      player1.controls := player1.controls.(callBluffDisabled := true, placeEnabled := true);
      player2.controls := player2.controls.(callBluffDisabled := true, placeEnabled := true);
      lastPlay := LastPlay(None, None, 0);
    }

    /** The deferred body of `callBluff`, run after it with the recipient it chose. */
    method ApplyPileTransfer(target: Player)
      requires Valid() && IsPlayer(target)
      modifies this, player1, player2
      ensures Valid() && Snapshot() == PileTransfer(old(Snapshot()), Id(target))
    {
      var cardsToAdd := |pile|;
      if target == player1 {
        player1.cardCount := player1.cardCount + cardsToAdd;
        player2.cardCount := player2.cardCount - lastPlay.count;
      } else {
        player2.cardCount := player2.cardCount + cardsToAdd;
        player1.cardCount := player1.cardCount - lastPlay.count;
      }
      target.hand := target.hand + pile;
      pile := [];
      player1.controls := player1.controls.(placeEnabled := true);
      player2.controls := player2.controls.(placeEnabled := true);
    }
  }
}
