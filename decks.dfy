/** The deck: built suit by suit in the order of the suit and rank lists,
    shuffled by a downward Fisher-Yates loop, and dealt from the top by a
    splice. The `Deck` class is the one of workwork.js and workalt.js (the two
    copies of `createDeck` and `shuffle` are identical; `deal` exists only in
    workalt.js); work.js runs the same two loops on its global `deck`. */
module Decks {
  import opened Cards

  const DeckSize: nat := SuitCount * RankCount

  /** The deck in creation order: suit-major, ranks in list order within a suit. */
  function FullDeck(): seq<Card> {
    seq(DeckSize, i requires 0 <= i < DeckSize => Card(i / RankCount, i % RankCount))
  }

  /** The card at position i of a fresh deck is the one whose sort key is i, so the fresh
      deck has 56 cards and is strictly increasing for the comparator. */
  lemma FullDeckKeys()
    ensures |FullDeck()| == 56
    ensures forall i :: 0 <= i < |FullDeck()| ==> Key(FullDeck()[i]) == i
  {
  }

  /** Every (suit, rank) pair occurs at exactly one position of a fresh deck. */
  lemma {:induction false} FullDeckExactlyOnce(c: Card)
    ensures Key(c) < |FullDeck()| && FullDeck()[Key(c)] == c
    ensures forall i :: 0 <= i < |FullDeck()| && FullDeck()[i] == c ==> i == Key(c)
    ensures multiset(FullDeck())[c] == 1
  {
    FullDeckKeys();
    var d := FullDeck();
    KeyInjective(d[Key(c)], c);
    CountOnce(d, c, Key(c));
  }

  lemma {:induction false} CountOnce(s: seq<Card>, c: Card, k: nat)
    requires k < |s| && s[k] == c
    requires forall i :: 0 <= i < |s| && s[i] == c ==> i == k
    ensures multiset(s)[c] == 1
  {
    if k == |s| - 1 {
      assert s == s[..k] + [c];
      assert c !in s[..k];
      assert c !in multiset(s[..k]);
    } else {
      assert s == s[..|s| - 1] + [s[|s| - 1]];
      CountOnce(s[..|s| - 1], c, k);
    }
  }

  /** `createDeck`: nested loops pushing one card per (suit, rank), suits outermost. */
  method CreateDeck() returns (cards: seq<Card>)
    ensures cards == FullDeck()
  {
    cards := [];
    var s := 0;
    while s < SuitCount
      invariant 0 <= s <= SuitCount
      invariant cards == FullDeck()[..s * RankCount]
    {
      var r := 0;
      while r < RankCount
        invariant 0 <= r <= RankCount
        invariant cards == FullDeck()[..s * RankCount + r]
      {
        cards := cards + [Card(s, r)];
        r := r + 1;
      }
      s := s + 1;
    }
  }

  /** `shuffle`: for i from the last index down to 1, swap cell i with a cell j in
      [0, i]. The random choice of j is left to the verifier: any such j is allowed. */
  method Shuffle(cards: seq<Card>) returns (shuffled: seq<Card>)
    ensures |shuffled| == |cards|
    ensures multiset(shuffled) == multiset(cards)
  {
    shuffled := cards;
    var i := |shuffled| - 1;
    while i > 0
      invariant i < |shuffled|
      invariant |shuffled| == |cards|
      invariant multiset(shuffled) == multiset(cards)
    {
      var j :| 0 <= j <= i;
      shuffled := shuffled[i := shuffled[j]][j := shuffled[i]];
      i := i - 1;
    }
  }

  /** The effect of `splice(0, n)` with a non-negative n on a list: the dealt prefix and
      the list that stays behind. */
  function Splice(cards: seq<Card>, n: int): (r: (seq<Card>, seq<Card>))
    ensures r.0 + r.1 == cards
    ensures |r.0| == if n <= 0 then 0 else Min(n, |cards|)
  {
    var k := if n <= 0 then 0 else Min(n, |cards|);
    (cards[..k], cards[k..])
  }

  /** Two successive `deal(n)` calls on one list hand out its slices [0, k1) and [k1, k2),
      with k1 = min(n, |cards|) and k2 = min(2n, |cards|) for positive n, and leave [k2, |cards|). */
  lemma DealTwice(cards: seq<Card>, n: int)
    ensures var k1 := if n <= 0 then 0 else Min(n, |cards|);
      var k2 := if n <= 0 then 0 else Min(2 * n, |cards|);
      var first := Splice(cards, n);
      var second := Splice(first.1, n);
      && first.0 == cards[..k1]
      && second.0 == cards[k1..k2]
      && second.1 == cards[k2..]
  {
  }

  /** The cards of s that are not among dealt, in order: what stays in a container or in
      the game area once `appendChild` has moved the dealt card elements elsewhere. */
  function Without(s: seq<Card>, dealt: seq<Card>): (r: seq<Card>)
    ensures |r| <= |s|
    ensures forall c :: c in r <==> c in s && c !in dealt
  {
    if s == [] then []
    else (if s[0] in dealt then [] else [s[0]]) + Without(s[1..], dealt)
  }

  lemma {:induction false} WithoutAppend(a: seq<Card>, b: seq<Card>, dealt: seq<Card>)
    ensures Without(a + b, dealt) == Without(a, dealt) + Without(b, dealt)
    decreases |a|
  {
    if a != [] {
      var head := if a[0] in dealt then [] else [a[0]];
      assert (a + b)[0] == a[0] && (a + b)[1..] == a[1..] + b;
      WithoutAppend(a[1..], b, dealt);
      assert Without(a + b, dealt) == head + Without(a[1..] + b, dealt);
      assert Without(a, dealt) == head + Without(a[1..], dealt);
    } else {
      assert a + b == b;
    }
  }

  /** Nothing is taken from a sequence none of whose cards was dealt. */
  lemma {:induction false} WithoutNone(s: seq<Card>, dealt: seq<Card>)
    requires forall c :: c in s ==> c !in dealt
    ensures Without(s, dealt) == s
    decreases |s|
  {
    if s != [] {
      assert s[0] in s;
      WithoutNone(s[1..], dealt);
    }
  }

  /** Nothing is left of a sequence all of whose cards were dealt. */
  lemma {:induction false} WithoutAll(s: seq<Card>, dealt: seq<Card>)
    requires forall c :: c in s ==> c in dealt
    ensures Without(s, dealt) == []
    decreases |s|
  {
    if s != [] {
      assert s[0] in s;
      WithoutAll(s[1..], dealt);
    }
  }

  /** Taking the dealt cards out twice is taking them out once, and the dealt cards
      themselves leave nothing behind. */
  lemma WithoutTwice(s: seq<Card>, dealt: seq<Card>)
    ensures Without(Without(s, dealt), dealt) == Without(s, dealt)
    ensures Without(dealt, dealt) == []
  {
    WithoutNone(Without(s, dealt), dealt);
    WithoutAll(dealt, dealt);
  }

  /** A deck that holds every card moves every card out of any sequence: what
      `displayDeck` does to the containers and the game area when it appends the whole
      deck to the card grid. */
  lemma WithoutFullDeck(s: seq<Card>, deck: seq<Card>)
    requires multiset(deck) == multiset(FullDeck())
    ensures Without(s, deck) == []
  {
    forall c | c in s ensures c in deck {
      FullDeckExactlyOnce(c);
      assert c in multiset(FullDeck());
    }
    WithoutAll(s, deck);
  }

  class Deck {
    var cards: seq<Card>

    constructor ()
      ensures cards == FullDeck()
    {
      cards := FullDeck();
    }

    /** `createDeck`: the list is replaced by a fresh 56-card deck. */
    method Create()
      modifies this
      ensures cards == FullDeck()
    {
      cards := CreateDeck();
    }

    /** `shuffle`: the list is permuted in place. */
    method ShuffleCards()
      modifies this
      ensures |cards| == |old(cards)| && multiset(cards) == multiset(old(cards))
    {
      cards := Shuffle(cards);
    }

    /** `deal(n)` of workalt.js: removes and returns the first min(n, |cards|) cards
        (none when n is not positive). */
    method Deal(n: int) returns (dealt: seq<Card>)
      modifies this
      ensures dealt + cards == old(cards)
      ensures |dealt| == if n <= 0 then 0 else Min(n, |old(cards)|)
    {
      var r := Splice(cards, n);
      dealt := r.0;
      cards := r.1;
    }
  }
}
