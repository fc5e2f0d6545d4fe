/** The deck: construction of one card per (suit, rank), random removal of a
    card, and the `Int.arc4random` helper that picks the index. */
module PlayingCardDeck {
  import opened Wrappers
  import opened PlayingCard

  /** `UInt32(_:)` traps beyond this magnitude, so `Int.arc4random` accepts no larger one. */
  const MaxUInt32: int := 0xFFFF_FFFF

  function Abs(n: int): nat {
    if n < 0 then -n else n
  }

  /** `n.arc4random`, where `u` is the value `arc4random_uniform` returned for the bound |n|. */
  function IntArc4Random(n: int, u: nat): (r: int)
    requires -MaxUInt32 <= n <= MaxUInt32
    requires n != 0 ==> u < Abs(n)
    ensures n > 0 ==> 0 <= r < n
    ensures n == 0 ==> r == 0
    ensures n < 0 ==> n < r <= 0
    ensures Abs(r) == (if n == 0 then 0 else u)
  {
    if n > 0 then u else if n < 0 then -(u as int) else 0
  }

  /** Every value of the promised range is the result of some draw. */
  lemma IntArc4RandomCoversRange(n: int, v: int)
    requires -MaxUInt32 <= n <= MaxUInt32
    requires (n > 0 && 0 <= v < n) || (n < 0 && n < v <= 0) || (n == 0 && v == 0)
    ensures n != 0 ==> Abs(v) < Abs(n)
    ensures IntArc4Random(n, Abs(v)) == v
  {
  }

  ghost predicate Distinct<T>(s: seq<T>) {
    forall i, j :: 0 <= i < j < |s| ==> s[i] != s[j]
  }

  /** In a sequence without repetitions every member occurs exactly once. */
  lemma {:induction false} DistinctMultiplicity<T>(s: seq<T>, x: T)
    requires Distinct(s)
    ensures multiset(s)[x] == if x in s then 1 else 0
  {
    if |s| > 0 {
      var t := s[..|s| - 1];
      assert s == t + [s[|s| - 1]];
      assert Distinct(t);
      DistinctMultiplicity(t, x);
      assert s[|s| - 1] !in t;
    }
  }

  /** A sequence has no repetitions exactly when no element has multiplicity above one. */
  lemma DistinctIffNoRepeats<T>(s: seq<T>)
    ensures Distinct(s) <==> forall x :: multiset(s)[x] <= 1
  {
    if Distinct(s) {
      forall x
        ensures multiset(s)[x] <= 1
      {
        DistinctMultiplicity(s, x);
      }
    }
    if !Distinct(s) {
      var i, j :| 0 <= i < j < |s| && s[i] == s[j];
      assert s == s[..j] + s[j..];
      assert s[i] in s[..j];
      assert s[j] in s[j..];
      assert multiset(s)[s[i]] == multiset(s[..j])[s[i]] + multiset(s[j..])[s[i]];
    }
  }

  /** `Array.remove(at: i)`: the element at `i` and the array without it. */
  function RemoveAt<T>(s: seq<T>, i: nat): (r: (T, seq<T>))
    requires i < |s|
    ensures r.0 == s[i]
    ensures |r.1| == |s| - 1
    ensures forall k :: 0 <= k < i ==> r.1[k] == s[k]
    ensures forall k :: i <= k < |r.1| ==> r.1[k] == s[k + 1]
    ensures multiset(r.1) + multiset{r.0} == multiset(s)
  {
    assert s == s[..i] + [s[i]] + s[i + 1..];
    (s[i], s[..i] + s[i + 1..])
  }

  /** Draws are valid for a collection of `size` elements when the k-th draw is below the size left after k removals. */
  predicate ValidDraws(size: nat, us: seq<nat>) {
    && size <= MaxUInt32
    && |us| <= size
    && forall k :: 0 <= k < |us| ==> us[k] < size - k
  }

  /** Repeated `remove(at: count.arc4random)`: the removed elements in order, and what is left. */
  function RemoveRandomly<T>(s: seq<T>, us: seq<nat>): (r: (seq<T>, seq<T>))
    requires ValidDraws(|s|, us)
    ensures |r.0| == |us| && |r.1| == |s| - |us|
    ensures multiset(r.0) + multiset(r.1) == multiset(s)
    decreases |us|
  {
    if |us| == 0 then ([], s)
    else
      var first := RemoveAt(s, IntArc4Random(|s|, us[0]));
      var more := RemoveRandomly(first.1, us[1..]);
      ([first.0] + more.0, more.1)
  }

  datatype Deck = Deck(cards: seq<Card>)

  /** The card at position `i` of a fresh deck: suit-major, ranks in canonical order within a suit. */
  function FreshCard(i: nat): Card
    requires i < 52
  {
    Card(AllSuits()[i / 13], AllRanks()[i % 13])
  }

  /** The deck `init` builds, as a sequence definition. */
  function FreshDeck(): (d: Deck)
    ensures |d.cards| == 52
    ensures forall i :: 0 <= i < 52 ==> d.cards[i] == FreshCard(i)
  {
    Deck(seq(52, i requires 0 <= i < 52 => FreshCard(i)))
  }

  /** `init`: for each suit, for each rank, append the card. */
  method NewDeck() returns (d: Deck)
    ensures d == FreshDeck()
  {
    var suits := AllSuits();
    var ranks := AllRanks();
    var cards: seq<Card> := [];
    var s := 0;
    while s < |suits|
      invariant 0 <= s <= 4
      invariant cards == FreshDeck().cards[..13 * s]
    {
      var r := 0;
      while r < |ranks|
        invariant 0 <= r <= 13
        invariant cards == FreshDeck().cards[..13 * s + r]
      {
        FreshDeckPrefixStep(s, r);
        cards := cards + [Card(suits[s], ranks[r])];
        r := r + 1;
      }
      s := s + 1;
    }
    d := Deck(cards);
  }

  /** The fresh deck is suit-major: position 13*s + r holds the s-th suit with the r-th rank. */
  lemma FreshDeckAt(s: nat, r: nat)
    requires s < 4 && r < 13
    ensures FreshDeck().cards[13 * s + r] == Card(AllSuits()[s], AllRanks()[r])
  {
    assert FreshCard(13 * s + r) == Card(AllSuits()[s], AllRanks()[r]);
  }

  /** Each step of the nested loops appends the next card of the fresh deck. */
  lemma FreshDeckPrefixStep(s: nat, r: nat)
    requires s < 4 && r < 13
    ensures FreshDeck().cards[..13 * s + r + 1] == FreshDeck().cards[..13 * s + r] + [Card(AllSuits()[s], AllRanks()[r])]
  {
    FreshDeckAt(s, r);
  }

  /** No card occurs twice in a fresh deck. */
  lemma FreshDeckDistinct()
    ensures Distinct(FreshDeck().cards)
  {
    var cards := FreshDeck().cards;
    AllRanksStrictlyIncreasing();
    forall i, j | 0 <= i < j < 52
      ensures cards[i] != cards[j]
    {
    }
  }

  /** A fresh deck holds exactly the cards with a canonical rank (every suit is canonical). */
  lemma FreshDeckMembership(c: Card)
    ensures c in FreshDeck().cards <==> c.rank in AllRanks()
  {
    if c.rank in AllRanks() {
      AllSuitsComplete(c.suit);
      var s :| 0 <= s < 4 && AllSuits()[s] == c.suit;
      var r :| 0 <= r < 13 && AllRanks()[r] == c.rank;
      FreshDeckAt(s, r);
    }
  }

  /** Every (suit, rank) of the canonical lists appears exactly once in a fresh deck, and nothing else appears. */
  lemma FreshDeckExactlyOnce(c: Card)
    ensures multiset(FreshDeck().cards)[c] == if c.rank in AllRanks() then 1 else 0
  {
    FreshDeckDistinct();
    FreshDeckMembership(c);
    DistinctMultiplicity(FreshDeck().cards, c);
  }

  /** The result of `draw()`: the card, or `None` for `nil`, and the deck afterwards. */
  datatype Drawn = Drawn(card: Option<Card>, deck: Deck)

  /** `draw()`, where `u` is the draw behind `cards.count.arc4random`. */
  function Draw(d: Deck, u: nat): (r: Drawn)
    requires |d.cards| <= MaxUInt32
    requires |d.cards| > 0 ==> u < |d.cards|
    ensures |d.cards| == 0 ==> r == Drawn(None, d)
    ensures |d.cards| > 0 ==> r.card == Some(d.cards[u])
    ensures |d.cards| > 0 ==> r.deck.cards == d.cards[..u] + d.cards[u + 1..]
    ensures |d.cards| > 0 ==> |r.deck.cards| == |d.cards| - 1
    ensures |d.cards| > 0 ==> multiset(r.deck.cards) + multiset{r.card.value} == multiset(d.cards)
  {
    if |d.cards| > 0 then
      var removed := RemoveAt(d.cards, IntArc4Random(|d.cards|, u));
      assert removed.1 == d.cards[..u] + d.cards[u + 1..];
      Drawn(Some(removed.0), Deck(removed.1))
    else
      Drawn(None, d)
  }

  /** `draw()` called once per element of `us`: the cards returned, in order, and the deck left. */
  function DrawMany(d: Deck, us: seq<nat>): (r: (seq<Card>, Deck))
    requires ValidDraws(|d.cards|, us)
    ensures |r.0| == |us| && |r.1.cards| == |d.cards| - |us|
    ensures multiset(r.0) + multiset(r.1.cards) == multiset(d.cards)
    decreases |us|
  {
    if |us| == 0 then ([], d)
    else
      var first := Draw(d, us[0]);
      var more := DrawMany(first.deck, us[1..]);
      ([first.card.value] + more.0, more.1)
  }

  /** Successive draws from a repetition-free deck return pairwise distinct cards, none of them left in the deck. */
  lemma DrawManyDistinct(d: Deck, us: seq<nat>)
    requires ValidDraws(|d.cards|, us)
    requires Distinct(d.cards)
    ensures Distinct(DrawMany(d, us).0 + DrawMany(d, us).1.cards)
  {
    var r := DrawMany(d, us);
    DistinctIffNoRepeats(d.cards);
    assert multiset(r.0 + r.1.cards) == multiset(d.cards);
    DistinctIffNoRepeats(r.0 + r.1.cards);
  }

  /** Fifty-two draws empty a fresh deck, return each of its cards exactly once, and the next draw yields `nil`. */
  lemma DrawWholeFreshDeck(us: seq<nat>, next: nat)
    requires |us| == 52 && ValidDraws(52, us)
    ensures DrawMany(FreshDeck(), us).1.cards == []
    ensures Distinct(DrawMany(FreshDeck(), us).0)
    ensures multiset(DrawMany(FreshDeck(), us).0) == multiset(FreshDeck().cards)
    ensures Draw(DrawMany(FreshDeck(), us).1, next).card == None
  {
    var r := DrawMany(FreshDeck(), us);
    FreshDeckDistinct();
    DrawManyDistinct(FreshDeck(), us);
    assert r.0 + r.1.cards == r.0;
  }
}
