# Bluff: a verified model of the card game engine

The repository is a two-player browser game of Bluff, in three versions, plus one
unrelated C++ exercise. In the game, players take turns placing cards face down in a
shared game area and claiming a rank for them. The opponent may call bluff. The cards
just placed are then turned over, and the whole game area goes to the placer if any
card does not show the claimed rank, and to the caller otherwise. A player with no
cards left wins.

- `workwork.js` is the main version. A `Deck`, two `Player`s and a `Game` class keep
  turns, rounds, card counters, enable flags for the buttons, and the game-area pile.
- `workalt.js` is an earlier version with real hands (`Player.hand`), a splicing
  `Deck.deal`, and no rounds, turn checks or counters.
- `work.js` is the first version, written with module-level variables.
- `test.cpp` counts greedy disjoint windows of an array whose sums lie in `[l, r]`.

Modules:

- `Cards` (cards.dfy): cards as (suit, rank) positions in the fixed suit and rank lists.
  It holds the sort comparator, a proof that the comparator is a total order, and the
  sorted permutation of a hand, which is unique.
- `Decks` (decks.dfy): `createDeck`, the Fisher-Yates `shuffle`, `deal` as `splice`,
  and the `Deck` class shared by `workwork.js` and `workalt.js`.
- `Reveal` (reveal.dfy): `lastPlay`, the cards a bluff call turns over, and the claim
  check. The three versions share this code. Also the outcomes an operation can have:
  completed, refused by one of its guards, or aborted by a JavaScript exception.
- `BluffRules` (bluff_rules.dfy): the `workwork.js` game as functions on a state value,
  one per `Game` method. Lemmas about runs sit beside them: conservation of cards,
  hand-over of the turn, and what may happen after a bluff call.
- `BluffGame` (bluff_game.dfy): the `Player` and `Game` classes of `workwork.js` as
  Dafny classes (`Game` is `GameSession`). Every method is proved to move the session
  to the state the matching `BluffRules` function gives.
- `AltGame` (alt_game.dfy): the `Player` and `Game` classes of `workalt.js`.
- `GlobalGame` (global_game.dfy): `work.js`. Its module-level variables become the
  fields of one `Session` object.
- `Segments` (segments.dfy): `solve` of `test.cpp`.

Where the code does something other than its description, the model follows the code:

- The rank list has fourteen entries (`A` down to `2`, then `1`), so a deck has 56 cards.
- In `workwork.js`, a successful `placeCards` disables the opponent's Call Bluff button
  (workwork.js:541). `finishTurn` enables it again.
- `startNewRound` is defined twice in `workwork.js`, and the later two-parameter
  definition is the one in force. The one-argument calls in `callBluff` therefore set
  the round rank to `undefined`. After a bluff call, every `placeCards` is refused
  (`BluffRules.NoPlacementAfterBluffCall`) until a pass starts a round with rank `null`.
- After such a pass, `lastPlay` is still the reset value. A `callBluff` then reaches a
  property of `null` and throws a `TypeError` (workwork.js:583-584 via `startNewRound(null)`,
  work.js:421). This is modelled as the outcome `Threw(TypeError)` with the state
  unchanged: everything the call did before the throw was DOM text.
- `endGame` only changes buttons. It does not stop later commands.
- The deferred body of `callBluff` runs after `lastPlay` has been reset. So it subtracts
  0 from the other player's counter, and the card total is kept
  (`BluffRules.BluffThenTransferConserves`).

## Model

| member | source | states |
|---|---|---|
| Cards.CompareIsKeyOrder | workwork.js:183-194 | The sort comparator is negative exactly when the first card comes earlier in (suit index, rank index) order, zero exactly on equal cards, and antisymmetric. |
| Cards.CompareTransitive | work.js:598-609 | The `sortPlayerCards` comparator is transitive, so it is a consistent total order for `sort`. |
| Cards.KeySortedIsComparatorSorted | workalt.js:150-161 | A hand is ordered by the comparator exactly when it is ordered by suit index and then rank index. |
| Cards.Insert | workwork.js:183-194 | Inserting a card into a sorted hand gives a sorted hand with exactly that one card more. |
| Cards.SortedCards | workalt.js:146-161 | The sorted hand is a permutation of the hand, of the same length, ordered by suit index and then rank index. |
| Cards.SortedPermutationUnique | workwork.js:178-215 | Two comparator-sorted permutations of one hand are equal, so the sorted order does not depend on the engine's sort algorithm. |
| Decks.FullDeckKeys | workwork.js:58-65 | A fresh deck has 56 cards and its card at position i has suit i div 14 and rank i mod 14 (suit-major order). |
| Decks.FullDeckExactlyOnce | workwork.js:52-65 | Every (suit, rank) pair occurs exactly once in a fresh deck, at the position given by its sort key. |
| Decks.CreateDeck | workwork.js:58-65 | The nested push loops build exactly the fresh 56-card deck. |
| Decks.Shuffle | workwork.js:67-72 | The downward swap loop, with any index j in [0, i], leaves a permutation of the deck of the same length. |
| Decks.Splice | workalt.js:74-76 | `splice(0, n)` splits the list into the dealt prefix and the rest, which concatenate back to it; the prefix has min(n, length) cards, or none for n not positive. |
| Decks.DealTwice | workalt.js:330-332 | Two successive deals of n cut the deck into slices [0, k1), [k1, k2) and the remainder, with k1 = min(n, length) and k2 = min(2n, length). |
| Decks.Without | workwork.js:466-475 | The cards left of a list once the dealt cards are moved out: no longer than the list, and a card is in it exactly when it is in the list and was not dealt. |
| Decks.WithoutAppend | workwork.js:466-475 | Moving the dealt cards out of two lists one after the other is moving them out of the concatenation. |
| Decks.WithoutTwice | workwork.js:466-475 | Moving the dealt cards out a second time changes nothing, and the dealt cards themselves leave nothing behind. |
| Decks.WithoutFullDeck | work.js:80-84 | Appending a deck that holds every card to the grid moves every card out of any container. |
| Decks.Deck.constructor | workwork.js:50-56 | A new deck holds the fresh 56-card deck. |
| Decks.Deck.Create | workalt.js:58-65 | `createDeck` replaces the card list by the fresh deck. |
| Decks.Deck.ShuffleCards | workalt.js:67-72 | `shuffle` permutes the card list in place, keeping its length. |
| Decks.Deck.Deal | workalt.js:74-76 | `deal(n)` returns the first min(n, length) cards and the deck keeps exactly the rest. |
| Reveal.Reversed | workwork.js:623-624 | `reverse` on a copy of the game-area list: the same length, position k holds the card from position length-1-k. |
| Reveal.Revealed | workwork.js:623-624 | The revealed cards are min(count, \|pile\|) cards, newest first. |
| Reveal.RevealedIsNewestSuffix | work.js:370-371 | Reversed back, the revealed cards are exactly the last min(count, \|pile\|) cards of the game area. |
| Reveal.CheckClaim | workwork.js:642-671 | The `forEach` sets `bluffCalled` exactly when some revealed card does not show the claimed rank. |
| Reveal.IsBluffIffRecentMismatch | workalt.js:424-483 | A bluff is found exactly when one of the last min(count, \|pile\|) game-area cards has a rank other than the claimed one (both directions). |
| Reveal.HonestClaimIsNoBluff | workwork.js:642-671 | A claim that matches the last count cards is never a bluff; a claim with no rank is a bluff as soon as one card is revealed. |
| Reveal.BluffNeedsPlacer | work.js:370-432 | Against a reset `lastPlay` nothing is revealed, so a bluff is only found against a real placement, which has a placer to receive the pile. |
| BluffRules.Other | workwork.js:556-559 | The other player of a two-player game differs from the given one. |
| BluffRules.OtherIsTheOnlyOther | workwork.js:676-684 | With two players, a player other than p is the other player of p, and the other way round. |
| BluffRules.Initial | workwork.js:295-361 | After construction: a fresh deck, empty containers and counters of 0, nobody active, `lastPlay` reset, round (null, null), and every button of both players off. |
| BluffRules.SetActive | workwork.js:596-615 | After `setActivePlayer(p)`, for each player q: Place, Pass and dragging are on exactly when q is p, and Call Bluff is disabled exactly when q is not p and the round rank is not null. Counters, containers and the other fields are unchanged. |
| BluffRules.StartNewRound | workwork.js:583-594 | The round becomes (startingPlayer, setRank) and the starting player is made active, as `setActivePlayer` does. |
| BluffRules.PlaceCards | workwork.js:487-546 | A placement out of turn, with a count that is not a positive number, or with a rank other than a non-null round rank (so any rank under `undefined`) changes nothing and is refused. It is completed exactly otherwise. Then the player is active with count moves, 0 cards placed and `lastPlay` = (player, rank, count); a null round becomes (player, rank); the player may drag but not place or pass; the opponent may not place, pass or call bluff; counters, containers, deck and game area are unchanged. |
| BluffRules.PlaceConserves | workwork.js:517-542 | Whatever its outcome, a placement keeps the cards in play, the card total and counters that match the containers. |
| BluffRules.Pass | workwork.js:548-568 | A pass by a player who is not active is refused with no change. By the round's starter it starts a null-rank round led by the other player. Otherwise it only makes the other player active and keeps the round. |
| BluffRules.EndGame | workwork.js:766-774 | No player may place, pass or call bluff any more; counters, containers and the other fields are unchanged. |
| BluffRules.FinishTurn | workwork.js:822-838 | The other player becomes active and is announced as winner exactly when their counter is 0. Without a winner that player gets all turn controls, Call Bluff included; with a winner nobody may place or call bluff. Counters, containers, pile, deck, round and `lastPlay` are unchanged. |
| BluffRules.RemoveAt | workwork.js:790-791 | Dragging the card at idx out of a container keeps every other card in order, with one card fewer. |
| BluffRules.RemoveAtMultiset | workwork.js:790-791 | The container loses exactly the dragged card. |
| BluffRules.MoveToPile | workwork.js:790-813 | The dragged card joins the end of the game area and leaves the active player's container; that player's counter and the remaining moves drop by 1, cards placed grows by 1, and nothing else changes. |
| BluffRules.DropInGameArea | workwork.js:788-820 | A drop without an active player, without moves left or of a flipped card changes nothing. Otherwise the card moves from the active container to the game area with the counter and moves updated; while moves remain the active player and both players' buttons are kept, and on the last move the turn passes to the other player; the deck is never touched. |
| BluffRules.CallBluff | workwork.js:617-764 | A call by the last placer is refused with no change. Otherwise `bluffCalled` is the bluff test and the recipient is the placer after a bluff and the caller otherwise. With a reset `lastPlay` the call throws with no change. A completed call starts an `undefined`-rank round led by the other party, resets `lastPlay`, disables Call Bluff for both, enables Place unless the game ended, and announces the recipient as winner exactly when their counter is 0. The new starter keeps the moves left of the interrupted placement and may drag, and may pass unless the game ended; the other player may neither; cards placed, counters, containers, deck and game area are unchanged. |
| BluffRules.PileTransfer | workwork.js:697-751 | The recipient's counter grows by the game-area size and the game-area cards join the end of their container; the other counter drops by `lastPlay.count`; the game area empties; both Place buttons are enabled; nothing else changes. |
| BluffRules.DistributeCards | workwork.js:409-475 | Both counters become n; player 1's container ends with deck cards [0, n) and player 2's with [n, 2n), cut at the deck's end; because `appendChild` moves elements, every dealt card first leaves the container or game area it was in, and the other cards stay in order; player 1 may place first and nobody may pass; Call Bluff, dragging, the deck and the other fields are unchanged. |
| BluffRules.DistributeIdempotent | workwork.js:409-475 | Dealing a second time with the same slider value leaves the state as the first deal left it: no card is duplicated. |
| BluffRules.DisplayDeck | workwork.js:363-367 | Every deck card leaves the containers and the game area, and the other cards keep their order. The counters and all other fields are unchanged. |
| BluffRules.DisplayDeckGathersAll | workwork.js:363-367 | When the deck holds every card once, as it always does, `displayDeck` leaves both containers and the game area empty, and the counters keep their values. |
| BluffRules.ShuffleAfterDeal | workwork.js:391-441 | A shuffle after a deal of n > 0 cards, while the Shuffle button is still shown, leaves both counters at n with empty containers, so the counters no longer match the containers. |
| BluffRules.DropConserves | workwork.js:788-820 | A drop keeps the card total (counters plus game area) and the multiset of cards in play, and keeps counters equal to container sizes. |
| BluffRules.TransferConserves | workwork.js:697-751 | The transfer keeps the cards in play and lowers the card total by `lastPlay.count`, so it keeps the total exactly when `lastPlay` is reset. |
| BluffRules.BluffThenTransferConserves | workwork.js:697-758 | A completed bluff call followed by its deferred transfer to the announced recipient keeps the card total, the cards in play and matching counters. |
| BluffRules.NoPlacementAfterBluffCall | workwork.js:676-684 | After a completed bluff call every placement is refused, before and after the transfer. |
| BluffRules.PassAfterBluffCall | workwork.js:548-568 | After a completed bluff call the new round's starter may pass. That starts a null-rank round led by the other player, who may then place, but a bluff call by either player before that placement throws. |
| BluffRules.LastDropHandsOver | workwork.js:814-838 | The last drop of a turn takes every turn control from the placer and hands them all to the other player, who wins exactly when their counter is 0. |
| BluffRules.FreshPrefixOnce | workwork.js:58-65 | Each card in a prefix of a fresh deck occurs there exactly once. |
| BluffRules.FreshSlicesOnce | workwork.js:414-424 | The two slices dealt from a fresh deck together are its first 2n cards, each exactly once. |
| BluffRules.FreshDealSlices | workwork.js:414-424 | Dealing from the initial state puts exactly deck cards [0, n) and [n, 2n) into the two empty containers, with counters n, and leaves the game area empty. |
| BluffRules.DistributeFromFreshDeck | workwork.js:409-424 | Dealing n <= 28 from a fresh deck to empty containers gives counters that match the containers: the cards in play are the first 2n deck cards, each once, and the card total is 2n. |
| BluffGame.Player.constructor | workwork.js:76-82 | A new player has counter 0, an empty container, Place and Pass enabled, Call Bluff disabled, and no dragging. |
| BluffGame.Player.SortCards | workwork.js:178-215 | The container becomes the sorted permutation of itself; counter and buttons are unchanged. |
| BluffGame.GameSession.constructor | workwork.js:295-332 | A new game is in the rules' initial state, with fresh deck and player objects, after `initializeGame` and `displayDeck`. |
| BluffGame.GameSession.InitializeGame | workwork.js:350-361 | `displayDeck` runs, as `BluffRules.DisplayDeck` says; then both players get Place and Pass off, Call Bluff disabled and dragging off; the counters and the other fields are unchanged. |
| BluffGame.GameSession.DisplayDeck | workwork.js:363-367 | The session moves to `BluffRules.DisplayDeck` of its old state. |
| BluffGame.GameSession.ShuffleDeck | workwork.js:391-395 | The deck becomes a permutation of itself of the same length, and then `displayDeck` takes every dealt card back, as `BluffRules.DisplayDeck` says. With a deck that holds every card once, the containers and the game area end up empty; the counters keep their values. |
| BluffGame.GameSession.DistributeCards | workwork.js:409-475 | The session moves to `BluffRules.DistributeCards` of its old state: the dealt card elements are moved, not copied. |
| BluffGame.GameSession.SetActivePlayer | workwork.js:596-615 | The session moves to `BluffRules.SetActive` of its old state. |
| BluffGame.GameSession.StartNewRound | workwork.js:583-594 | The session moves to `BluffRules.StartNewRound` of its old state. |
| BluffGame.GameSession.PlaceCards | workwork.js:487-546 | The session moves to the state of `BluffRules.PlaceCards` and returns its outcome. |
| BluffGame.GameSession.RecordPlacement | workwork.js:517-542 | The turn fields and `lastPlay` record the placement, and the buttons are set as `BluffRules.PlaceCards` sets them. |
| BluffGame.GameSession.Pass | workwork.js:548-568 | The session moves to the state of `BluffRules.Pass` and returns its outcome. |
| BluffGame.GameSession.EndGame | workwork.js:766-774 | The session moves to `BluffRules.EndGame` of its old state. |
| BluffGame.GameSession.FinishTurn | workwork.js:822-838 | The session moves to the state of `BluffRules.FinishTurn` and returns the player it announces. |
| BluffGame.GameSession.DropInGameArea | workwork.js:788-820 | The session moves to the state of `BluffRules.DropInGameArea` and returns the winner it announces. |
| BluffGame.GameSession.MoveToGameArea | workwork.js:790-813 | The session moves to `BluffRules.MoveToPile` of its old state. |
| BluffGame.GameSession.CallBluff | workwork.js:617-764 | The session moves to the state of `BluffRules.CallBluff` and returns its outcome, bluff verdict, recipient and winner. |
| BluffGame.GameSession.CloseBluffCall | workwork.js:689-694 | Both Call Bluff buttons disabled, both Place buttons enabled, and `lastPlay` reset (workwork.js:753-758). |
| BluffGame.GameSession.ApplyPileTransfer | workwork.js:697-751 | The session moves to `BluffRules.PileTransfer` of its old state. |
| AltGame.Player.constructor | workalt.js:80-85 | A new player has an empty hand, both buttons enabled and no drag listeners. |
| AltGame.Player.AddCards | workalt.js:141-144 | The given cards are appended to the hand in order; the flags are unchanged. |
| AltGame.Player.SortCards | workalt.js:146-176 | The hand becomes its sorted permutation in comparator order; the flags are unchanged. |
| AltGame.Game.constructor | workalt.js:221-268 | A new game holds a fresh deck and empty hands, with nobody active, no moves, an empty game area and `lastPlay` reset. |
| AltGame.Game.ShuffleDeck | workalt.js:284-288 | The deck becomes a permutation of itself of the same length. |
| AltGame.Game.DistributeCards | workalt.js:329-366 | Player 1 receives the old deck's slice [0, k1) and player 2 the slice [k1, k2), with k1 = min(n, length) and k2 = min(2n, length); the deck keeps the rest; both Place buttons are enabled. |
| AltGame.Game.PlaceCards | workalt.js:393-422 | It is completed exactly when the count is a positive number, with no turn or rank check. Then the player is active with count moves, `lastPlay` = (player, rank, count), the player may drag but not place, and the opponent may place and call bluff. Otherwise it is refused and nothing changes. Hands and game area are never touched. |
| AltGame.Game.CallBluff | workalt.js:424-536 | A call by the last placer is refused with no change. Otherwise `bluffCalled` is the bluff test on the game area, the recipient is the placer after a bluff and the caller otherwise, both Call Bluff buttons are disabled, both Place buttons enabled, and `lastPlay` is reset; turn fields, hands and game area are unchanged. |
| AltGame.Game.ApplyPileTransfer | workalt.js:493-529 | The game area empties and its cards are returned as `moved`, in order; both Place buttons are enabled; the `hand` arrays, the Call Bluff and drag flags and the turn fields are unchanged. |
| AltGame.Game.FinishTurn | workalt.js:550-560 | The active player stops dragging and may place, the opponent may call bluff, and nobody is active; nothing else changes. |
| AltGame.Game.DropInGameArea | workalt.js:578-605 | An allowed drop (someone active, moves left, card face down) appends the card to the game area, counts it and uses one move; the last move finishes the turn, which takes dragging from the placer and lets the opponent call bluff. Refused drops and drops with moves left keep every button and drag flag of both players. Otherwise nothing changes. |
| GlobalGame.Opposite | work.js:684 | The opponent of a side is the other side. |
| GlobalGame.Session.constructor | work.js:13-27 | The module-level variables start empty, with `lastPlay` reset and the fresh deck built. |
| GlobalGame.Session.CreateDeckInPlace | work.js:70-78 | The deck becomes the 56 cards in suit-major order, as new elements in no container, so the areas, the game area and the other variables are unchanged. |
| GlobalGame.Session.ShuffleDeck | work.js:171-178 | The deck becomes a permutation of itself of the same length. `displayDeck` (work.js:80-84) then takes every deck card out of the containers and the game area, keeping the other cards in order. With a deck that holds every card once, both containers and the game area end up empty. The turn variables and the buttons are unchanged. |
| GlobalGame.Session.DistributeCards | work.js:183-274 | The left container holds exactly deck cards [0, n) and the right one [n, 2n), cut at the deck's end; both areas have Place enabled, Call Bluff disabled and no dragging; a dealt card leaves the game area; the deck and the turn variables are unchanged. |
| GlobalGame.Session.SortPlayerCards | work.js:593-631 | The container becomes its sorted permutation in comparator order; the other area, the game area and the cards in play are unchanged. |
| GlobalGame.Session.PlaceCards | work.js:322-357 | A valid placement sets the active player, count moves and `lastPlay`, makes the player's cards draggable and disables its Place button, then throws a `ReferenceError` with the opponent untouched. An invalid one is refused with no change. |
| GlobalGame.Session.CallBluff | work.js:364-495 | A call by the last placer is refused, and one against a reset `lastPlay` throws, both with no change. Otherwise `bluffCalled` is the bluff test, the recipient is the placer after a bluff and the caller otherwise, both areas get Place enabled and Call Bluff disabled, and `lastPlay` is reset; there is no new round and no counter. |
| GlobalGame.Session.ApplyPileTransfer | work.js:445-488 | The game-area cards join the end of the recipient's container in order, the game area empties, both Place buttons are enabled, and the cards in play are kept. |
| GlobalGame.Session.FinishTurn | work.js:678-688 | The active area stops dragging and may place, the other area may call bluff, and nobody is active. |
| GlobalGame.Session.DropInGameArea | work.js:649-676 | An allowed drop moves the card from the active container to the end of the game area, counts it and uses one move. While moves remain, every button and drag flag of both areas is kept; the last move finishes the turn, which changes exactly the placer's dragging and Place and the opponent's Call Bluff. Otherwise nothing changes. The cards in play are always kept. |
| GlobalGame.Session.MoveToGameArea | work.js:651-670 | The card at idx leaves the active container for the end of the game area, the counter grows and one move fewer remains; the cards in play are kept. |
| GlobalGame.MoveKeepsCards | work.js:651-670 | Moving one card from a container to the game area keeps the multiset of cards in both containers and the game area. |
| Segments.SumDropFirst | test.cpp:17-20 | Dropping the first element of a window subtracts it from the window's sum, which is what the shrink step relies on. |
| Segments.Solve | test.cpp:9-28 | `win` is the number of counted windows and at most n. Every counted window has a sum in [l, r], the windows are disjoint and in left-to-right order, and for l > 0 none is empty. |

## Left out

- DOM construction, CSS, animation and timers are not modelled. Each button and the
  draggable state of the cards are boolean flags; the text of `updateGameArea` and all
  debug logging are dropped.
- `setTimeout` is modelled only by its order: the deferred body of `callBluff` is a
  separate `ApplyPileTransfer` method that the caller runs after `CallBluff`. The
  deferred appends of `distributeCards` and `sortCards` are applied at once, so a drop
  between the deal and its timeout is not modelled.
- BluffGame.GameSession.ShuffleDeck, GlobalGame.Session.ShuffleDeck: a shuffle during
  the deal animation takes back every dealt card, because the deal is applied at once.
  The deal's pending timeouts that append the remaining cards after such a shuffle are
  not modelled.
- `parseInt` of the count field becomes the parameter `ParsedInt` (NaN or a number).
  The slider value of `distributeCards` becomes a natural number in `workwork.js` and an
  integer in `workalt.js`.
- The rank dropdown always holds one of the fourteen ranks, so the empty-rank refusal
  of `placeCards` never applies and is not modelled.
- `flipped` (the face-up class of the dragged card) and the position of the dragged
  card in its container are parameters of the drop methods. The precondition
  `DraggedCardInHand` says what `dragStart` guarantees, that the card is in the active
  player's container.
- Drag and drop event handlers, including dropping a card back into a player area,
  are not modelled.
- The un-flipping of cards in `placeCards` is not modelled.
- `Math.random` in `shuffle` is a nondeterministic index j in [0, i].
- Decks.Shuffle: works on a `seq` that the `Deck` methods reassign, not on the array in
  place.
- `gameAreaCounter` of `workwork.js` is not modelled: it only positions cards on the grid.
- `workalt.js`: the page containers are not modelled, only the `hand` arrays. So a drop
  and the pile transfer leave the hands as the code does, and `sortCards` pulling cards
  into a container again is not modelled.
- `workalt.js`: the `Player` constructor reads `game.deck` before `game` exists
  (workalt.js:124) and would throw at load; the model starts from a constructed game.
- `work.js`: before the first `distributeCards` the page has no card containers; the
  `Session` constructor models them as empty areas. Buttons looked up before the deal
  (`null` in the page) and the startup `initializeGame` call are not modelled.
- GlobalGame.Session.DistributeCards: the drag listeners a second deal leaves on old
  card elements are not modelled; every area starts the deal without dragging.
- `test.cpp`: the 64-bit `sum` is an unbounded integer, and the `main` input/output
  loop is not modelled.
- Segments.Solve: states that the counted windows are valid, disjoint and ordered, not
  that their number is the largest possible.
