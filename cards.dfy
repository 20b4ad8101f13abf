/** Cards: the value objects of the bluff game.
    A card is a (suit, rank) pair. Every card the game creates takes its suit
    and its rank from two fixed lists, and the comparator of the "Sort Cards"
    buttons orders cards by the `indexOf` of the suit in the first list and
    then by the `indexOf` of the rank in the second. So a suit is modelled by
    its position in the suit list and a rank by its position in the rank list. */
module Cards {

  datatype Option<T> = None | Some(value: T)

  /** The result of `parseInt` on an input field: a number, or NaN. */
  datatype ParsedInt = NaN | Num(n: int)

  /** Position in the suit list: spades, hearts, clubs, diamonds. */
  type Suit = i: nat | i < 4

  /** Position in the rank list "A", "K", "Q", "J", "10", "9", ..., "2", "1":
      fourteen ranks, so a deck holds 4 * 14 = 56 cards. */
  type Rank = i: nat | i < 14

  const SuitCount: nat := 4
  const RankCount: nat := 14

  datatype Card = Card(suit: Suit, rank: Rank)

  function Min(a: int, b: int): int { if a <= b then a else b }

  /** The comparator passed to `sort`: suit positions first, rank positions on a tie of suits. */
  function Compare(a: Card, b: Card): int {
    if a.suit != b.suit then a.suit - b.suit else a.rank - b.rank
  }

  /** Position of a card in the total order the comparator induces. */
  function Key(c: Card): nat {
    c.suit * RankCount + c.rank
  }

  /** Two cards with the same key are the same card. */
  lemma KeyInjective(a: Card, b: Card)
    ensures Key(a) == Key(b) <==> a == b
  {
  }

  /** The comparator is the total order of the keys: negative exactly when the first key is
      smaller, zero exactly on equal cards, and antisymmetric. */
  lemma CompareIsKeyOrder(a: Card, b: Card)
    ensures Compare(a, b) < 0 <==> Key(a) < Key(b)
    ensures Compare(a, b) == 0 <==> a == b
    ensures Compare(a, b) == -Compare(b, a)
  {
  }

  /** Transitivity of the comparator, so `sort` is given a consistent order. */
  lemma CompareTransitive(a: Card, b: Card, c: Card)
    requires Compare(a, b) <= 0 && Compare(b, c) <= 0
    ensures Compare(a, c) <= 0
  {
  }

  predicate KeySorted(s: seq<Card>) {
    forall i, j :: 0 <= i < j < |s| ==> Key(s[i]) <= Key(s[j])
  }

  /** Every pair in order is in order for the comparator. */
  predicate ComparatorSorted(s: seq<Card>) {
    forall i, j :: 0 <= i < j < |s| ==> Compare(s[i], s[j]) <= 0
  }

  lemma KeySortedIsComparatorSorted(s: seq<Card>)
    ensures KeySorted(s) <==> ComparatorSorted(s)
  {
  }

  /** Every card of `s` has a key of at least `Key(x)`. */
  predicate KeyBelowAll(x: Card, s: seq<Card>) {
    forall k :: 0 <= k < |s| ==> Key(x) <= Key(s[k])
  }

  lemma KeyBelowAllMultiset(x: Card, s: seq<Card>, t: seq<Card>, c: Card)
    requires KeyBelowAll(x, s) && Key(x) <= Key(c)
    requires multiset(t) == multiset(s) + multiset{c}
    ensures KeyBelowAll(x, t)
  {
    forall k | 0 <= k < |t| ensures Key(x) <= Key(t[k]) {
      assert t[k] in multiset(t);
      if t[k] != c {
        assert t[k] in multiset(s);
        var m :| 0 <= m < |s| && s[m] == t[k];
      }
    }
  }

  /** Prepending a card whose key is below all of a sorted sequence keeps it sorted. */
  lemma ConsSorted(x: Card, s: seq<Card>)
    requires KeySorted(s) && KeyBelowAll(x, s)
    ensures KeySorted([x] + s)
  {
  }

  function Insert(c: Card, s: seq<Card>): (r: seq<Card>)
    requires KeySorted(s)
    ensures multiset(r) == multiset(s) + multiset{c}
    ensures KeySorted(r)
  {
    if s == [] then [c]
    else if Key(c) <= Key(s[0]) then
      assert KeyBelowAll(c, s);
      ConsSorted(c, s);
      [c] + s
    else
      var t := Insert(c, s[1..]);
      assert s == [s[0]] + s[1..];
      assert KeyBelowAll(s[0], s[1..]);
      KeyBelowAllMultiset(s[0], s[1..], t, c);
      ConsSorted(s[0], t);
      [s[0]] + t
  }

  /** The hand after `hand.sort(comparator)`: a permutation of it, in comparator order. */
  function SortedCards(hand: seq<Card>): (r: seq<Card>)
    ensures multiset(r) == multiset(hand) && |r| == |hand|
    ensures KeySorted(r) && ComparatorSorted(r)
  {
    if hand == [] then []
    else
      assert hand == [hand[0]] + hand[1..];
      var r := Insert(hand[0], SortedCards(hand[1..]));
      assert |r| == |multiset(r)| == |hand|;
      KeySortedIsComparatorSorted(r);
      r
  }

  lemma MultisetHeadTail(s: seq<Card>)
    requires s != []
    ensures multiset(s) == multiset{s[0]} + multiset(s[1..])
    ensures multiset(s[1..]) == multiset(s) - multiset{s[0]}
    ensures KeySorted(s) ==> KeySorted(s[1..])
    ensures s == [s[0]] + s[1..]
  {
    assert s == [s[0]] + s[1..];
  }

  /** The head of a key-sorted sequence has the least key of all its cards. */
  lemma SortedHeadLeast(s: seq<Card>, x: Card)
    requires KeySorted(s) && x in multiset(s)
    ensures Key(s[0]) <= Key(x)
  {
  }

  lemma {:induction false} KeySortedUnique(s: seq<Card>, t: seq<Card>)
    requires KeySorted(s) && KeySorted(t)
    requires multiset(s) == multiset(t)
    ensures s == t
    decreases |s|
  {
    assert |t| == |multiset(t)| == |multiset(s)| == |s|;
    if s != [] {
      SortedHeadLeast(s, t[0]);
      SortedHeadLeast(t, s[0]);
      KeyInjective(s[0], t[0]);
      assert s[0] == t[0];
      MultisetHeadTail(s);
      MultisetHeadTail(t);
      var s', t' := s[1..], t[1..];
      assert multiset(s') == multiset(t');
      KeySortedUnique(s', t');
    }
  }

  /** A comparator-sorted permutation of a hand is unique, so the sorted hand does not depend
      on the sorting algorithm the JavaScript engine uses. */
  lemma SortedPermutationUnique(s: seq<Card>, t: seq<Card>)
    requires ComparatorSorted(s) && ComparatorSorted(t)
    requires multiset(s) == multiset(t)
    ensures s == t
  {
    KeySortedIsComparatorSorted(s);
    KeySortedIsComparatorSorted(t);
    KeySortedUnique(s, t);
  }
}
