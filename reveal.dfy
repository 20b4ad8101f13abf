/** What the three versions of `callBluff` share: the record of the last
    placement, the cards it turns over (the game-area cards in reverse order,
    cut to the claimed count) and the test of those cards against the claimed
    rank. Also the outcomes an operation can have: done, refused by one of its
    own guards (it logs and returns), or aborted by a JavaScript exception. */
module Reveal {
  import opened Cards

  /** `lastPlay = { player, rank, count }`; `(null, null, 0)` is `LastPlay(None, None, 0)`. */
  datatype LastPlay<P> = LastPlay(player: Option<P>, rank: Option<Rank>, count: nat)

  /** `lastPlay` is either the reset value or a real placement of at least one card. */
  predicate LastPlayWellFormed<P>(lp: LastPlay<P>) {
    && (lp.player.None? ==> lp.rank.None? && lp.count == 0)
    && (lp.player.Some? ==> lp.count > 0 && lp.rank.Some?)
  }

  datatype Reason = NotYourTurn | InvalidInput | WrongRank | OwnPlay

  datatype JsError = TypeError | ReferenceError

  datatype Outcome = Completed | Rejected(reason: Reason) | Threw(error: JsError)

  /** `Array.prototype.reverse` on a copy of the list. */
  function Reversed(s: seq<Card>): (r: seq<Card>)
    ensures |r| == |s|
    ensures forall k :: 0 <= k < |s| ==> r[k] == s[|s| - 1 - k]
  {
    if s == [] then [] else Reversed(s[1..]) + [s[0]]
  }

  /** How many cards `slice(0, count)` keeps of a list of n cards. */
  function RevealCount(n: nat, count: nat): nat {
    Min(count, n)
  }

  /** `gameAreaCards.reverse().slice(0, count)`: the most recently placed card first. */
  function Revealed(pile: seq<Card>, count: nat): (r: seq<Card>)
    ensures |r| == RevealCount(|pile|, count)
    ensures forall k :: 0 <= k < |r| ==> r[k] == pile[|pile| - 1 - k]
  {
    Reversed(pile)[..RevealCount(|pile|, count)]
  }

  /** The revealed cards are exactly the last min(count, |pile|) cards placed, newest first. */
  lemma RevealedIsNewestSuffix(pile: seq<Card>, count: nat)
    ensures Reversed(Revealed(pile, count)) == pile[|pile| - RevealCount(|pile|, count)..]
  {
  }

  /** A card that does not show the claimed rank (`card.dataset.rank !== lastPlay.rank`). */
  predicate Mismatch(c: Card, claim: Option<Rank>) {
    claim != Some(c.rank)
  }

  /** The `forEach` over the revealed cards that sets `bluffCalled` on a mismatch. */
  method CheckClaim(revealed: seq<Card>, claim: Option<Rank>) returns (bluffCalled: bool)
    ensures bluffCalled <==> exists k :: 0 <= k < |revealed| && Mismatch(revealed[k], claim)
  {
    bluffCalled := false;
    var i := 0;
    while i < |revealed|
      invariant 0 <= i <= |revealed|
      invariant bluffCalled <==> exists k :: 0 <= k < i && Mismatch(revealed[k], claim)
    {
      if Mismatch(revealed[i], claim) {
        bluffCalled := true;
      }
      i := i + 1;
    }
  }

  /** The specification of the claim check, stated on the pile. */
  predicate IsBluff(pile: seq<Card>, count: nat, claim: Option<Rank>) {
    exists k :: 0 <= k < |Revealed(pile, count)| && Mismatch(Revealed(pile, count)[k], claim)
  }

  /** A bluff is found exactly when one of the last min(count, |pile|) pile cards does not
      show the claimed rank. */
  lemma IsBluffIffRecentMismatch(pile: seq<Card>, count: nat, claim: Option<Rank>)
    ensures IsBluff(pile, count, claim) <==>
      exists j :: |pile| - RevealCount(|pile|, count) <= j < |pile| && Mismatch(pile[j], claim)
  {
    var r := Revealed(pile, count);
    var m := |r|;
    if IsBluff(pile, count, claim) {
      var k :| 0 <= k < m && Mismatch(r[k], claim);
      var j := |pile| - 1 - k;
      assert pile[j] == r[k];
    }
    if exists j :: |pile| - m <= j < |pile| && Mismatch(pile[j], claim) {
      var j :| |pile| - m <= j < |pile| && Mismatch(pile[j], claim);
      var k := |pile| - 1 - j;
      assert r[k] == pile[j];
    }
  }

  /** An honest claim of count cards of rank x on a pile whose last count cards are x, with
      at least count cards on the pile, is never a bluff; a claim with no rank (after a
      reset) is a bluff as soon as one card is revealed. */
  lemma HonestClaimIsNoBluff(pile: seq<Card>, count: nat, x: Rank)
    requires count <= |pile|
    requires forall j :: |pile| - count <= j < |pile| ==> pile[j].rank == x
    ensures !IsBluff(pile, count, Some(x))
    ensures count > 0 ==> IsBluff(pile, count, None)
  {
    IsBluffIffRecentMismatch(pile, count, Some(x));
    if count > 0 {
      assert Mismatch(Revealed(pile, count)[0], None);
    }
  }

  /** Nothing is revealed from a reset `lastPlay`, so a bluff is only ever found against a
      real placement, and then there is a placer to receive the pile. */
  lemma BluffNeedsPlacer<P>(pile: seq<Card>, lp: LastPlay<P>)
    requires LastPlayWellFormed(lp)
    ensures IsBluff(pile, lp.count, lp.rank) ==> lp.player.Some? && lp.count > 0
  {
  }
}
