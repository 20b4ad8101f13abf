/** The rules of the workwork.js game as functions on a value: the whole state
    of a `Game` (its fields, both players' counters, the cards in each player's
    container and in the game area, and the enable flags of each player's
    buttons) and one transition function per `Game` method. The `GameSession`
    class of module BluffGame is proved to change its fields exactly as these
    functions say; the lemmas here state what the rules promise. */
module BluffRules {
  import opened Cards
  import opened Decks
  import opened Reveal

  datatype PlayerId = P1 | P2

  function Other(p: PlayerId): (q: PlayerId)
    ensures q != p
  {
    if p == P1 then P2 else P1
  }

  /** There are two players, so a player other than p is `Other(p)`. */
  lemma OtherIsTheOnlyOther(p: PlayerId, q: PlayerId)
    requires q != p
    ensures q == Other(p) && p == Other(q)
  {
  }

  /** `currentRound.rank`: `null`, `undefined` (what the one-argument calls of the
      two-parameter `startNewRound` store) or a rank. */
  datatype RoundRank = Null | Undefined | Claimed(rank: Rank)

  datatype Round = Round(startingPlayer: Option<PlayerId>, rank: RoundRank)

  /** The buttons of one player: Place enabled, Pass enabled, Call Bluff disabled, and
      whether the cards in the player's container are draggable. */
  datatype Controls = Controls(placeEnabled: bool, passEnabled: bool, callBluffDisabled: bool, dragging: bool)

  /** One player: the `cardCount` counter, the cards in the player's container, the controls. */
  datatype Seat = Seat(cardCount: int, hand: seq<Card>, controls: Controls)

  datatype State = State(
    deck: seq<Card>,
    cardsPerPlayer: int,
    p1: Seat,
    p2: Seat,
    activePlayer: Option<PlayerId>,
    remainingMoves: int,
    cardsPlaced: int,
    lastPlay: LastPlay<PlayerId>,
    round: Round,
    pile: seq<Card>)

  datatype Step = Step(state: State, outcome: Outcome)

  /** The result of `callBluff`: the new state, whether a bluff was found, who is to
      receive the pile, and who `endGame` announced (if anyone). */
  datatype BluffStep = BluffStep(state: State, outcome: Outcome, bluffCalled: bool,
                                 recipient: Option<PlayerId>, winner: Option<PlayerId>)

  const NoPlay: LastPlay<PlayerId> := LastPlay(None, None, 0)

  /** Both players' controls after `initializeGame`. */
  const Idle: Controls := Controls(false, false, true, false)

  function SeatOf(st: State, p: PlayerId): Seat {
    if p == P1 then st.p1 else st.p2
  }

  function WithSeat(st: State, p: PlayerId, s: Seat): (r: State)
    ensures SeatOf(r, p) == s && SeatOf(r, Other(p)) == SeatOf(st, Other(p))
    ensures r == st.(p1 := r.p1, p2 := r.p2)
  {
    if p == P1 then st.(p1 := s) else st.(p2 := s)
  }

  /** The state after the constructor: a fresh deck, 26 cards per player, nobody active. */
  function Initial(): (st: State)
    ensures st.deck == FullDeck() && st.pile == [] && st.activePlayer.None?
    ensures SeatOf(st, P1) == SeatOf(st, P2) == Seat(0, [], Idle)
    ensures st.lastPlay == NoPlay && st.round == Round(None, Null)
  {
    State(FullDeck(), 26, Seat(0, [], Idle), Seat(0, [], Idle), None, 0, 0, NoPlay, Round(None, Null), [])
  }

  /** The controls `setActivePlayer` gives a player: everything of a turn to the active one;
      Call Bluff disabled for the other one exactly while the round has a non-null rank. */
  function TurnControls(isActive: bool, rank: RoundRank): Controls {
    Controls(isActive, isActive, !isActive && rank != Null, isActive)
  }

  /** `setActivePlayer(p)`. */
  function SetActive(st: State, p: PlayerId): (r: State)
    ensures r.activePlayer == Some(p)
    ensures forall q: PlayerId ::
      && SeatOf(r, q).controls.placeEnabled == (q == p)
      && SeatOf(r, q).controls.passEnabled == (q == p)
      && SeatOf(r, q).controls.dragging == (q == p)
      && SeatOf(r, q).controls.callBluffDisabled == (q != p && st.round.rank != Null)
    ensures forall q: PlayerId ::
      SeatOf(r, q).cardCount == SeatOf(st, q).cardCount && SeatOf(r, q).hand == SeatOf(st, q).hand
    ensures r.(activePlayer := st.activePlayer, p1 := st.p1, p2 := st.p2) == st
  {
    st.(activePlayer := Some(p),
        p1 := st.p1.(controls := TurnControls(p == P1, st.round.rank)),
        p2 := st.p2.(controls := TurnControls(p == P2, st.round.rank)))
  }

  /** The two-parameter `startNewRound(startingPlayer, setRank)`, the definition in force. */
  function StartNewRound(st: State, startingPlayer: PlayerId, setRank: RoundRank): (r: State)
    ensures r.round == Round(Some(startingPlayer), setRank)
    ensures r.activePlayer == Some(startingPlayer)
    ensures r == SetActive(st.(round := r.round), startingPlayer)
  {
    SetActive(st.(round := Round(Some(startingPlayer), setRank)), startingPlayer)
  }

  /** The button updates at the end of a successful `placeCards`. */
  function PlaceControls(st: State, who: PlayerId): State {
    var me := SeatOf(st, who);
    var st1 := WithSeat(st, who, me.(controls := me.controls.(dragging := true, placeEnabled := false, passEnabled := false)));
    var op := SeatOf(st1, Other(who));
    WithSeat(st1, Other(who), op.(controls := op.controls.(placeEnabled := false, callBluffDisabled := true, passEnabled := false)))
  }

  /** `placeCards(player)` with the dropdown's rank and the `parseInt` of the count field.
      The dropdown always holds one of the fourteen ranks, so the `rank &&` test never
      fails. */
  function PlaceCards(st: State, who: PlayerId, rank: Rank, count: ParsedInt): (r: Step)
    ensures st.activePlayer.Some? && st.activePlayer != Some(who) ==>
      r == Step(st, Rejected(NotYourTurn))
    ensures !(count.Num? && count.n > 0) ==> r.state == st && r.outcome.Rejected?
    ensures st.round.rank != Null && st.round.rank != Claimed(rank) ==>
      r.state == st && r.outcome.Rejected?
    ensures r.outcome == Completed <==>
      (st.activePlayer.None? || st.activePlayer == Some(who)) && count.Num? && count.n > 0 &&
      (st.round.rank == Null || st.round.rank == Claimed(rank))
    ensures r.outcome != Completed ==> r.state == st
    ensures r.outcome == Completed ==>
      && r.state.activePlayer == Some(who)
      && r.state.remainingMoves == count.n && r.state.cardsPlaced == 0
      && r.state.lastPlay == LastPlay(Some(who), Some(rank), count.n)
      && r.state.round == (if st.round.rank == Null then Round(Some(who), Claimed(rank)) else st.round)
      && r.state.pile == st.pile
      && SeatOf(r.state, who).controls.dragging
      && !SeatOf(r.state, who).controls.placeEnabled && !SeatOf(r.state, who).controls.passEnabled
      && SeatOf(r.state, Other(who)).controls.callBluffDisabled
      && !SeatOf(r.state, Other(who)).controls.placeEnabled
      && !SeatOf(r.state, Other(who)).controls.passEnabled
    ensures forall q: PlayerId ::
      SeatOf(r.state, q).cardCount == SeatOf(st, q).cardCount && SeatOf(r.state, q).hand == SeatOf(st, q).hand
    ensures r.state.deck == st.deck && r.state.cardsPerPlayer == st.cardsPerPlayer
  {
    if st.activePlayer.Some? && st.activePlayer.value != who then
      Step(st, Rejected(NotYourTurn))
    else if !(count.Num? && count.n > 0) then
      Step(st, Rejected(InvalidInput))
    else if st.round.rank != Null && st.round.rank != Claimed(rank) then
      Step(st, Rejected(WrongRank))
    else
      var st1 := if st.round.rank == Null then StartNewRound(st, who, Claimed(rank)) else st;
      var st2 := st1.(activePlayer := Some(who), remainingMoves := count.n, cardsPlaced := 0,
                      lastPlay := LastPlay(Some(who), Some(rank), count.n));
      Step(PlaceControls(st2, who), Completed)
  }

  /** `pass(player)`. */
  function Pass(st: State, who: PlayerId): (r: Step)
    ensures st.activePlayer != Some(who) <==> r == Step(st, Rejected(NotYourTurn))
    ensures st.activePlayer == Some(who) && st.round.startingPlayer == Some(who) ==>
      r.outcome == Completed && r.state == SetActive(st.(round := Round(Some(Other(who)), Null)), Other(who))
    ensures st.activePlayer == Some(who) && st.round.startingPlayer != Some(who) ==>
      r.outcome == Completed && r.state == SetActive(st, Other(who)) && r.state.round == st.round
  {
    if st.activePlayer != Some(who) then Step(st, Rejected(NotYourTurn))
    else if st.round.startingPlayer == Some(who) then Step(StartNewRound(st, Other(who), Null), Completed)
    else Step(SetActive(st, Other(who)), Completed)
  }

  /** `endGame(winner)`: no player can place, pass or call bluff any more. */
  function EndGame(st: State): (r: State)
    ensures forall q: PlayerId ::
      && !SeatOf(r, q).controls.placeEnabled && !SeatOf(r, q).controls.passEnabled
      && SeatOf(r, q).controls.callBluffDisabled
      && SeatOf(r, q).controls.dragging == SeatOf(st, q).controls.dragging
      && SeatOf(r, q).cardCount == SeatOf(st, q).cardCount && SeatOf(r, q).hand == SeatOf(st, q).hand
    ensures r.(p1 := st.p1, p2 := st.p2) == st
  {
    st.(p1 := st.p1.(controls := st.p1.controls.(placeEnabled := false, callBluffDisabled := true, passEnabled := false)),
        p2 := st.p2.(controls := st.p2.controls.(placeEnabled := false, callBluffDisabled := true, passEnabled := false)))
  }

  /** `finishTurn()`: the turn goes to the other player, who may place, pass and call
      bluff; if that player has no cards left, `endGame` announces them. */
  function FinishTurn(st: State): (r: (State, Option<PlayerId>))
    requires st.activePlayer.Some?
    ensures var next := Other(st.activePlayer.value);
      && r.0.activePlayer == Some(next)
      && r.1 == (if SeatOf(st, next).cardCount == 0 then Some(next) else None)
      && (r.1.None? ==>
            (SeatOf(r.0, next).controls == Controls(true, true, false, true) &&
             SeatOf(r.0, Other(next)).controls == TurnControls(false, st.round.rank)))
      && (r.1.Some? ==> forall q: PlayerId ::
            !SeatOf(r.0, q).controls.placeEnabled && SeatOf(r.0, q).controls.callBluffDisabled)
    ensures forall q: PlayerId ::
      SeatOf(r.0, q).cardCount == SeatOf(st, q).cardCount && SeatOf(r.0, q).hand == SeatOf(st, q).hand
    ensures r.0.pile == st.pile && r.0.round == st.round && r.0.lastPlay == st.lastPlay
    ensures r.0.remainingMoves == st.remainingMoves && r.0.cardsPlaced == st.cardsPlaced
    ensures r.0.deck == st.deck && r.0.cardsPerPlayer == st.cardsPerPlayer
  {
    var a := st.activePlayer.value;
    var s := SeatOf(st, a);
    var st1 := WithSeat(st, a, s.(controls := s.controls.(dragging := false, placeEnabled := false, passEnabled := true)));
    var next := Other(a);
    var st2 := SetActive(st1, next);
    var n := SeatOf(st2, next);
    var st3 := WithSeat(st2, next, n.(controls := n.controls.(placeEnabled := true, passEnabled := true, callBluffDisabled := false)));
    if SeatOf(st3, next).cardCount == 0 then (EndGame(st3), Some(next)) else (st3, None)
  }

  /** The guard of `dropInGameArea` (the dragged card is face down, i.e. not flipped). */
  predicate DropAllowed(st: State, flipped: bool) {
    st.activePlayer.Some? && st.remainingMoves > 0 && !flipped
  }

  /** What `dragStart` guarantees about the dragged card: it is in the active player's
      container. */
  predicate DraggedCardInHand(st: State, idx: nat, flipped: bool) {
    DropAllowed(st, flipped) ==> idx < |SeatOf(st, st.activePlayer.value).hand|
  }

  /** The container after the card at idx has been dragged out of it. */
  function RemoveAt(s: seq<Card>, idx: nat): (r: seq<Card>)
    requires idx < |s|
    ensures |r| == |s| - 1
    ensures forall k :: 0 <= k < idx ==> r[k] == s[k]
    ensures forall k :: idx <= k < |r| ==> r[k] == s[k + 1]
  {
    s[..idx] + s[idx + 1..]
  }

  /** Removing the card at idx takes exactly that card out of the container's multiset. */
  lemma RemoveAtMultiset(s: seq<Card>, idx: nat)
    requires idx < |s|
    ensures multiset(RemoveAt(s, idx)) + multiset{s[idx]} == multiset(s)
  {
    assert s == s[..idx] + [s[idx]] + s[idx + 1..];
  }

  /** The first half of an allowed `dropInGameArea`: the card leaves the active player's
      container for the end of the game area, that player's counter drops by one, one more
      card is placed and one move fewer remains. */
  function MoveToPile(st: State, idx: nat): (r: State)
    requires st.activePlayer.Some? && idx < |SeatOf(st, st.activePlayer.value).hand|
    ensures var a := st.activePlayer.value;
      && r.pile == st.pile + [SeatOf(st, a).hand[idx]]
      && SeatOf(r, a) == SeatOf(st, a).(cardCount := SeatOf(st, a).cardCount - 1,
                                         hand := RemoveAt(SeatOf(st, a).hand, idx))
      && SeatOf(r, Other(a)) == SeatOf(st, Other(a))
      && r.remainingMoves == st.remainingMoves - 1 && r.cardsPlaced == st.cardsPlaced + 1
      && r.(p1 := st.p1, p2 := st.p2, pile := st.pile, remainingMoves := st.remainingMoves,
            cardsPlaced := st.cardsPlaced) == st
  {
    var a := st.activePlayer.value;
    var s := SeatOf(st, a);
    var st1 := WithSeat(st, a, s.(cardCount := s.cardCount - 1, hand := RemoveAt(s.hand, idx)));
    st1.(pile := st.pile + [s.hand[idx]], cardsPlaced := st.cardsPlaced + 1, remainingMoves := st.remainingMoves - 1)
  }

  /** `dropInGameArea` of the card at position idx of the active player's container. */
  function DropInGameArea(st: State, idx: nat, flipped: bool): (r: (State, Option<PlayerId>))
    requires DraggedCardInHand(st, idx, flipped)
    ensures !DropAllowed(st, flipped) ==> r == (st, None)
    ensures DropAllowed(st, flipped) ==>
      var a := st.activePlayer.value;
      && r.0.pile == st.pile + [SeatOf(st, a).hand[idx]]
      && SeatOf(r.0, a).cardCount == SeatOf(st, a).cardCount - 1
      && SeatOf(r.0, a).hand == RemoveAt(SeatOf(st, a).hand, idx)
      && SeatOf(r.0, Other(a)).cardCount == SeatOf(st, Other(a)).cardCount
      && SeatOf(r.0, Other(a)).hand == SeatOf(st, Other(a)).hand
      && r.0.remainingMoves == st.remainingMoves - 1 && r.0.cardsPlaced == st.cardsPlaced + 1
      && r.0.lastPlay == st.lastPlay && r.0.round == st.round
      && r.0.deck == st.deck && r.0.cardsPerPlayer == st.cardsPerPlayer
      && (st.remainingMoves > 1 ==>
            && r.0.activePlayer == st.activePlayer && r.1.None?
            && SeatOf(r.0, a).controls == SeatOf(st, a).controls
            && SeatOf(r.0, Other(a)).controls == SeatOf(st, Other(a)).controls)
      && (st.remainingMoves == 1 ==> r.0.activePlayer == Some(Other(a)))
  {
    if DropAllowed(st, flipped) then
      var st2 := MoveToPile(st, idx);
      if st2.remainingMoves == 0 then FinishTurn(st2) else (st2, None)
    else
      (st, None)
  }

  /** The button updates `callBluff` makes after starting the new round. */
  function BluffControls(st: State): State {
    st.(p1 := st.p1.(controls := st.p1.controls.(callBluffDisabled := true, placeEnabled := true)),
        p2 := st.p2.(controls := st.p2.controls.(callBluffDisabled := true, placeEnabled := true)))
  }

  /** `callBluff(player)` up to its return; the deferred pile transfer is `PileTransfer`.
      A caller that made the last placement is refused. Otherwise the revealed cards are
      checked against the claim; the placer receives the pile after a bluff and the caller
      after an honest play, and the other one starts a round with rank `undefined`. When
      `lastPlay` is the reset value there is no placer to start that round, and
      `startNewRound(null)` throws. */
  function CallBluff(st: State, who: PlayerId): (r: BluffStep)
    requires LastPlayWellFormed(st.lastPlay)
    ensures st.lastPlay.player == Some(who) ==>
      r.state == st && r.outcome == Rejected(OwnPlay)
    ensures st.lastPlay.player != Some(who) ==>
      && r.bluffCalled == IsBluff(st.pile, st.lastPlay.count, st.lastPlay.rank)
      && r.recipient == (if r.bluffCalled then st.lastPlay.player else Some(who))
    ensures st.lastPlay.player.None? ==> r.outcome == Threw(TypeError) && r.state == st
    ensures r.outcome == Completed <==> st.lastPlay.player.Some? && st.lastPlay.player != Some(who)
    ensures r.outcome == Completed ==>
      var starter := if r.bluffCalled then who else st.lastPlay.player.value;
      && r.recipient == Some(Other(starter))
      && r.state.round == Round(Some(starter), Undefined)
      && r.state.activePlayer == Some(starter)
      && r.state.lastPlay == NoPlay
      && r.state.pile == st.pile
      && r.winner == (if SeatOf(st, Other(starter)).cardCount == 0 then Some(Other(starter)) else None)
      && (forall q: PlayerId ::
            && SeatOf(r.state, q).controls.callBluffDisabled
            && SeatOf(r.state, q).cardCount == SeatOf(st, q).cardCount
            && SeatOf(r.state, q).hand == SeatOf(st, q).hand
            && SeatOf(r.state, q).controls.placeEnabled == r.winner.None?)
      && SeatOf(r.state, starter).controls.dragging
      && SeatOf(r.state, starter).controls.passEnabled == r.winner.None?
      && !SeatOf(r.state, Other(starter)).controls.dragging
      && !SeatOf(r.state, Other(starter)).controls.passEnabled
      // the moves left of the interrupted placement stay with the new starter
      && r.state.remainingMoves == st.remainingMoves && r.state.cardsPlaced == st.cardsPlaced
      && r.state.deck == st.deck && r.state.cardsPerPlayer == st.cardsPerPlayer
  {
    if st.lastPlay.player == Some(who) then
      BluffStep(st, Rejected(OwnPlay), false, None, None)
    else
      var bluff := IsBluff(st.pile, st.lastPlay.count, st.lastPlay.rank);
      var recipient := if bluff then st.lastPlay.player else Some(who);
      var starter := if bluff then Some(who) else st.lastPlay.player;
      if starter.None? then
        BluffStep(st, Threw(TypeError), bluff, recipient, None)
      else
        var st1 := StartNewRound(st, starter.value, Undefined);
        var st2 := BluffControls(st1).(lastPlay := NoPlay);
        assert bluff ==> st.lastPlay.count > 0;
        OtherIsTheOnlyOther(who, st.lastPlay.player.value);
        var target := Other(starter.value);
        assert recipient == Some(target);
        if SeatOf(st2, target).cardCount == 0 then
          BluffStep(EndGame(st2), Completed, bluff, recipient, Some(target))
        else
          BluffStep(st2, Completed, bluff, recipient, None)
  }

  /** The deferred body of `callBluff`: the recipient's counter grows by the number of
      game-area cards and those cards join the end of the recipient's container, the other
      player's counter shrinks by `lastPlay.count` (as it is when the body runs), and both
      Place buttons are enabled again. */
  function PileTransfer(st: State, target: PlayerId): (r: State)
    ensures SeatOf(r, target).cardCount == SeatOf(st, target).cardCount + |st.pile|
    ensures SeatOf(r, target).hand == SeatOf(st, target).hand + st.pile
    ensures SeatOf(r, Other(target)).cardCount == SeatOf(st, Other(target)).cardCount - st.lastPlay.count
    ensures SeatOf(r, Other(target)).hand == SeatOf(st, Other(target)).hand
    ensures r.pile == []
    ensures forall q: PlayerId :: SeatOf(r, q).controls == SeatOf(st, q).controls.(placeEnabled := true)
    ensures r.(p1 := st.p1, p2 := st.p2, pile := st.pile) == st
  {
    var t := SeatOf(st, target);
    var st1 := WithSeat(st, target, t.(cardCount := t.cardCount + |st.pile|, hand := t.hand + st.pile));
    var o := SeatOf(st1, Other(target));
    var st2 := WithSeat(st1, Other(target), o.(cardCount := o.cardCount - st.lastPlay.count));
    st2.(pile := [],
         p1 := st2.p1.(controls := st2.p1.controls.(placeEnabled := true)),
         p2 := st2.p2.(controls := st2.p2.controls.(placeEnabled := true)))
  }

  /** `displayDeck()`: the card grid is emptied and every deck card element is appended to
      it. `appendChild` moves an element, so a deck card that lies in a container or in
      the game area leaves it; the counters are not touched. */
  function DisplayDeck(st: State): (r: State)
    ensures forall q: PlayerId ::
      SeatOf(r, q) == SeatOf(st, q).(hand := Without(SeatOf(st, q).hand, st.deck))
    ensures r.pile == Without(st.pile, st.deck)
    ensures r.(p1 := st.p1, p2 := st.p2, pile := st.pile) == st
  {
    st.(p1 := st.p1.(hand := Without(st.p1.hand, st.deck)),
        p2 := st.p2.(hand := Without(st.p2.hand, st.deck)),
        pile := Without(st.pile, st.deck))
  }

  /** The deck cards `distributeCards(n)` hands out: [0, min(2n, |deck|)). */
  function Dealt(deck: seq<Card>, n: nat): seq<Card> {
    deck[..Min(2 * n, |deck|)]
  }

  /** `distributeCards()` with the slider value n: both counters become n; deck cards
      [0, n) are appended to player 1's container and [n, 2n) to player 2's (cut at the
      deck's end), and player 1 is to place first. Each card element is moved by
      `appendChild`, so a dealt card that is already in a container or in the game area
      leaves it first. The deck list itself is only read. */
  function DistributeCards(st: State, n: nat): (r: State)
    ensures r.cardsPerPlayer == n && r.deck == st.deck
    ensures SeatOf(r, P1).cardCount == n && SeatOf(r, P2).cardCount == n
    ensures var d := st.deck;
      && SeatOf(r, P1).hand == Without(st.p1.hand, Dealt(d, n)) + d[..Min(n, |d|)]
      && SeatOf(r, P2).hand == Without(st.p2.hand, Dealt(d, n)) + d[Min(n, |d|)..Min(2 * n, |d|)]
      && r.pile == Without(st.pile, Dealt(d, n))
    ensures SeatOf(r, P1).controls.placeEnabled && !SeatOf(r, P2).controls.placeEnabled
    ensures !SeatOf(r, P1).controls.passEnabled && !SeatOf(r, P2).controls.passEnabled
    ensures forall q: PlayerId ::
      && SeatOf(r, q).controls.callBluffDisabled == SeatOf(st, q).controls.callBluffDisabled
      && SeatOf(r, q).controls.dragging == SeatOf(st, q).controls.dragging
    ensures r.(cardsPerPlayer := st.cardsPerPlayer, p1 := st.p1, p2 := st.p2, pile := st.pile) == st
  {
    var d := st.deck;
    var dealt := Dealt(d, n);
    st.(cardsPerPlayer := n,
        p1 := Seat(n, Without(st.p1.hand, dealt) + d[..Min(n, |d|)], st.p1.controls.(placeEnabled := true, passEnabled := false)),
        p2 := Seat(n, Without(st.p2.hand, dealt) + d[Min(n, |d|)..Min(2 * n, |d|)], st.p2.controls.(placeEnabled := false, passEnabled := false)),
        pile := Without(st.pile, dealt))
  }

  /** A container that received dealt cards s after the dealt cards were taken out of it
      is the same after the same deal again. */
  lemma DealAgainKeeps(h: seq<Card>, s: seq<Card>, dealt: seq<Card>)
    requires forall c :: c in s ==> c in dealt
    ensures Without(Without(h, dealt) + s, dealt) + s == Without(h, dealt) + s
  {
    WithoutAll(s, dealt);
    WithoutAppend(Without(h, dealt), s, dealt);
    WithoutTwice(h, dealt);
  }

  /** The cards of a slice of a list are among the cards of any longer prefix of it. */
  lemma SliceInPrefix(d: seq<Card>, i: nat, j: nat, k: nat)
    requires i <= j <= k <= |d|
    ensures forall c :: c in d[i..j] ==> c in d[..k]
  {
  }

  /** Dealing again with the same slider value moves the same card elements to the same
      places, so it changes nothing. */
  lemma {:induction false} DistributeIdempotent(st: State, n: nat)
    ensures DistributeCards(DistributeCards(st, n), n) == DistributeCards(st, n)
  {
    var r := DistributeCards(st, n);
    var d := st.deck;
    var dealt := Dealt(d, n);
    var k1, k2 := Min(n, |d|), Min(2 * n, |d|);
    SliceInPrefix(d, 0, k1, k2);
    SliceInPrefix(d, k1, k2, k2);
    assert d[0..k1] == d[..k1];
    DealAgainKeeps(st.p1.hand, d[..k1], dealt);
    DealAgainKeeps(st.p2.hand, d[k1..k2], dealt);
    WithoutTwice(st.pile, dealt);
    var r2 := DistributeCards(r, n);
    assert r2.p1 == r.p1;
    assert r2.p2 == r.p2;
  }

  /** The deck always holds every card once (it starts as the fresh deck and is only
      permuted), so `displayDeck` takes back every card on the table: both containers
      and the game area end up empty, while the counters keep their values. */
  lemma {:induction false} DisplayDeckGathersAll(st: State)
    requires multiset(st.deck) == multiset(FullDeck())
    ensures var r := DisplayDeck(st);
      && r.p1.hand == [] && r.p2.hand == [] && r.pile == [] && CardsInPlay(r) == multiset{}
      && r.p1.cardCount == st.p1.cardCount && r.p2.cardCount == st.p2.cardCount
  {
    WithoutFullDeck(st.p1.hand, st.deck);
    WithoutFullDeck(st.p2.hand, st.deck);
    WithoutFullDeck(st.pile, st.deck);
  }

  /** A shuffle after a deal of n > 0 cards (the Shuffle button stays until the deal's
      last timeout) leaves both counters at n with empty containers, so the counters no
      longer match the containers. */
  lemma {:induction false} ShuffleAfterDeal(n: nat, shuffled: seq<Card>)
    requires n > 0 && multiset(shuffled) == multiset(FullDeck())
    ensures var r := DisplayDeck(DistributeCards(Initial(), n).(deck := shuffled));
      && r.p1.cardCount == n && r.p2.cardCount == n && r.p1.hand == [] && r.p2.hand == []
      && !CountersMatchHands(r)
  {
    DisplayDeckGathersAll(DistributeCards(Initial(), n).(deck := shuffled));
  }

  // ---------------------------------------------------------------------------
  // Properties of runs of the rules

  /** Cards held by the counters plus cards in the game area. */
  function CardTotal(st: State): int {
    st.p1.cardCount + st.p2.cardCount + |st.pile|
  }

  /** All cards on the table: both containers and the game area. */
  function CardsInPlay(st: State): multiset<Card> {
    multiset(st.p1.hand) + multiset(st.p2.hand) + multiset(st.pile)
  }

  /** Each counter equals the number of cards in its player's container. */
  predicate CountersMatchHands(st: State) {
    st.p1.cardCount == |st.p1.hand| && st.p2.cardCount == |st.p2.hand|
  }

  lemma SeatSum(st: State, p: PlayerId)
    ensures st.p1.cardCount + st.p2.cardCount == SeatOf(st, p).cardCount + SeatOf(st, Other(p)).cardCount
    ensures multiset(st.p1.hand) + multiset(st.p2.hand) == multiset(SeatOf(st, p).hand) + multiset(SeatOf(st, Other(p)).hand)
  {
  }

  /** A drop moves one card from the active player's container to the game area: the card
      total and the cards in play are unchanged, and counters that matched the containers
      still do. */
  lemma {:induction false} DropConserves(st: State, idx: nat, flipped: bool)
    requires DraggedCardInHand(st, idx, flipped)
    ensures CardTotal(DropInGameArea(st, idx, flipped).0) == CardTotal(st)
    ensures CardsInPlay(DropInGameArea(st, idx, flipped).0) == CardsInPlay(st)
    ensures CountersMatchHands(st) ==> CountersMatchHands(DropInGameArea(st, idx, flipped).0)
  {
    var r := DropInGameArea(st, idx, flipped).0;
    if DropAllowed(st, flipped) {
      var a := st.activePlayer.value;
      var h := SeatOf(st, a).hand;
      SeatSum(st, a);
      SeatSum(r, a);
      RemoveAtMultiset(h, idx);
      assert multiset(r.pile) == multiset(st.pile) + multiset{h[idx]};
    }
  }

  /** A placement only records the claim and sets buttons: the cards in play, the card
      total and matching counters are all kept, whatever its outcome. */
  lemma PlaceConserves(st: State, who: PlayerId, rank: Rank, count: ParsedInt)
    ensures var r := PlaceCards(st, who, rank, count).state;
      && CardsInPlay(r) == CardsInPlay(st) && CardTotal(r) == CardTotal(st)
      && (CountersMatchHands(st) ==> CountersMatchHands(r))
  {
  }

  /** The transfer moves the whole game area into the recipient's container. It keeps the
      cards in play, and it keeps the card total and matching counters exactly when it
      subtracts nothing, i.e. when `lastPlay` has been reset before it runs. */
  lemma TransferConserves(st: State, target: PlayerId)
    ensures CardsInPlay(PileTransfer(st, target)) == CardsInPlay(st)
    ensures CardTotal(PileTransfer(st, target)) == CardTotal(st) - st.lastPlay.count
    ensures st.lastPlay.count == 0 && CountersMatchHands(st) ==> CountersMatchHands(PileTransfer(st, target))
  {
  }

  /** The deferred body runs after `lastPlay` has been reset, so the call followed by the
      transfer to the announced recipient keeps the card total, the cards in play and
      matching counters. */
  lemma BluffThenTransferConserves(st: State, who: PlayerId)
    requires LastPlayWellFormed(st.lastPlay)
    requires CallBluff(st, who).outcome == Completed
    ensures var b := CallBluff(st, who);
      && b.recipient.Some?
      && CardTotal(PileTransfer(b.state, b.recipient.value)) == CardTotal(st)
      && CardsInPlay(PileTransfer(b.state, b.recipient.value)) == CardsInPlay(st)
      && (CountersMatchHands(st) ==> CountersMatchHands(PileTransfer(b.state, b.recipient.value)))
  {
    var b := CallBluff(st, who);
    var t := b.recipient.value;
    SeatSum(st, t);
    SeatSum(b.state, t);
    TransferConserves(b.state, t);
  }

  /** After a completed `callBluff` the round rank is `undefined`, so every placement is
      refused, before and after the transfer, until the round is restarted by a pass. */
  lemma NoPlacementAfterBluffCall(st: State, caller: PlayerId, who: PlayerId, rank: Rank, count: ParsedInt)
    requires LastPlayWellFormed(st.lastPlay)
    requires CallBluff(st, caller).outcome == Completed
    ensures var b := CallBluff(st, caller);
      && PlaceCards(b.state, who, rank, count).outcome.Rejected?
      && PlaceCards(PileTransfer(b.state, b.recipient.value), who, rank, count).outcome.Rejected?
  {
  }

  /** After a completed `callBluff`, the new round's starter may pass; that starts a
      round with rank `null` led by the other player, who may then place; but a bluff call
      placed before that player's placement meets the reset `lastPlay` and throws. */
  lemma PassAfterBluffCall(st: State, caller: PlayerId, rank: Rank, n: nat)
    requires LastPlayWellFormed(st.lastPlay)
    requires CallBluff(st, caller).outcome == Completed
    requires n > 0
    ensures var b := CallBluff(st, caller);
      var starter := b.state.activePlayer.value;
      var p := Pass(b.state, starter);
      && p.outcome == Completed
      && p.state.round == Round(Some(Other(starter)), Null)
      && p.state.activePlayer == Some(Other(starter))
      && PlaceCards(p.state, Other(starter), rank, Num(n)).outcome == Completed
      && CallBluff(p.state, starter).outcome == Threw(TypeError)
      && CallBluff(p.state, Other(starter)).outcome == Threw(TypeError)
  {
  }

  /** Running out of moves hands the turn over: the placing player loses every control of
      a turn and the other player gains them, including Call Bluff. */
  lemma LastDropHandsOver(st: State, idx: nat)
    requires DraggedCardInHand(st, idx, false)
    requires st.activePlayer.Some? && st.remainingMoves == 1
    ensures var r := DropInGameArea(st, idx, false);
      var a := st.activePlayer.value;
      && r.0.activePlayer == Some(Other(a))
      && r.0.remainingMoves == 0
      && !SeatOf(r.0, a).controls.placeEnabled && !SeatOf(r.0, a).controls.passEnabled
      && !SeatOf(r.0, a).controls.dragging
      && (r.1.None? ==> SeatOf(r.0, Other(a)).controls == Controls(true, true, false, true))
      && (r.1 == Some(Other(a)) <==> SeatOf(st, Other(a)).cardCount == 0)
  {
  }

  /** The cards of a prefix of a fresh deck occur once each. */
  lemma {:induction false} FreshPrefixOnce(k: nat, c: Card)
    requires k <= |FullDeck()|
    requires c in multiset(FullDeck()[..k])
    ensures multiset(FullDeck()[..k])[c] == 1
  {
    var d := FullDeck();
    FullDeckExactlyOnce(c);
    assert d == d[..k] + d[k..];
    assert multiset(d)[c] == multiset(d[..k])[c] + multiset(d[k..])[c];
  }

  /** Dealing n <= 28 cards each from the initial state puts deck cards [0, n) and [n, 2n)
      into the two empty containers and leaves the game area empty. */
  lemma FreshDealSlices(n: nat)
    requires n <= 28
    ensures var r := DistributeCards(Initial(), n);
      && r.p1 == Seat(n, FullDeck()[..n], r.p1.controls)
      && r.p2 == Seat(n, FullDeck()[n..2 * n], r.p2.controls)
      && r.pile == []
  {
  }

  /** The cards of the slices [0, n) and [n, 2n) of a fresh deck are its first 2n cards,
      each once. */
  lemma {:induction false} FreshSlicesOnce(n: nat)
    requires n <= 28
    ensures var d := FullDeck();
      && multiset(d[..n]) + multiset(d[n..2 * n]) == multiset(d[..2 * n])
      && forall c :: c in multiset(d[..2 * n]) ==> multiset(d[..2 * n])[c] == 1
  {
    var d := FullDeck();
    assert d[..2 * n] == d[..n] + d[n..2 * n];
    forall c | c in multiset(d[..2 * n]) ensures multiset(d[..2 * n])[c] == 1 {
      FreshPrefixOnce(2 * n, c);
    }
  }

  /** Distributing from a full deck with empty containers deals disjoint halves: the
      counters match the containers and the cards in play are the first 2n cards of the
      deck, each once. */
  lemma {:induction false} DistributeFromFreshDeck(n: nat)
    requires n <= 28
    ensures var r := DistributeCards(Initial(), n);
      && CountersMatchHands(r)
      && CardsInPlay(r) == multiset(FullDeck()[..2 * n])
      && CardTotal(r) == 2 * n
      && forall c :: c in CardsInPlay(r) ==> CardsInPlay(r)[c] == 1
  {
    FreshDealSlices(n);
    FreshSlicesOnce(n);
  }
}
