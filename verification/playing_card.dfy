/** Card identity: the closed set of suits, the rank variant with its numeric
    order and its label, and the canonical suit and rank lists. */
module PlayingCard {
  import opened Wrappers
  import Decimal

  datatype Suit = Spades | Hearts | Diamonds | Clubs

  /** The emoji-presentation variation selector that follows every suit symbol. */
  const EmojiSelector: char := '\U{FE0F}'

  /** The suit's raw value: its symbol followed by the emoji selector. */
  function RawValue(s: Suit): (r: string)
    ensures |r| == 2 && r[1] == EmojiSelector
    ensures r[0] in {'\U{2660}', '\U{2665}', '\U{2666}', '\U{2663}'}
  {
    match s
    case Spades => "\U{2660}\U{FE0F}"
    case Hearts => "\U{2665}\U{FE0F}"
    case Diamonds => "\U{2666}\U{FE0F}"
    case Clubs => "\U{2663}\U{FE0F}"
  }

  /** Two suits have the same raw value exactly when they are the same suit. */
  lemma RawValueInjective(a: Suit, b: Suit)
    ensures RawValue(a) == RawValue(b) <==> a == b
  {
    if RawValue(a) == RawValue(b) {
      assert RawValue(a)[0] == RawValue(b)[0];
    }
  }

  /** The canonical suit list, in declaration order. */
  function AllSuits(): (all: seq<Suit>)
    ensures |all| == 4
    ensures forall i, j :: 0 <= i < j < |all| ==> all[i] != all[j]
  {
    [Spades, Hearts, Diamonds, Clubs]
  }

  /** The suit set is closed: every suit is in the canonical list. */
  lemma AllSuitsComplete(s: Suit)
    ensures s in AllSuits()
  {
    match s
    case Spades => assert AllSuits()[0] == s;
    case Hearts => assert AllSuits()[1] == s;
    case Diamonds => assert AllSuits()[2] == s;
    case Clubs => assert AllSuits()[3] == s;
  }

  /** A rank: the ace, a face card named by a string, or a numbered card. */
  datatype Rank = Ace | Face(kind: string) | Numeric(pips: int)

  /** The rank's order key: the pip count of a numbered rank, 1 to 13 for the ace and J, Q, K, and 0
      for a face of any other kind. */
  function Order(r: Rank): (k: int)
    ensures r.Numeric? ==> k == r.pips
    ensures !r.Numeric? ==> 0 <= k <= 13
    ensures !r.Numeric? ==> (k == 0 <==> r.Face? && r.kind != "J" && r.kind != "Q" && r.kind != "K")
  {
    match r
    case Ace => 1
    case Numeric(pips) => pips
    case Face(kind) =>
      if kind == "J" then 11
      else if kind == "Q" then 12
      else if kind == "K" then 13
      else 0
  }

  /** The rank's label: "A", the decimal pip count, or the face's kind. */
  function Description(r: Rank): (s: string)
    ensures r.Ace? ==> s == "A"
    ensures r.Face? ==> s == r.kind
    ensures r.Numeric? ==> Decimal.IsCanonicalDecimal(s) && Decimal.ParseInt(s) == r.pips
  {
    match r
    case Ace => "A"
    case Numeric(pips) =>
      Decimal.IntToDecimalRoundTrip(pips);
      Decimal.IntToDecimal(pips)
    case Face(kind) => kind
  }

  /** The canonical rank list: ace, the numbered ranks 2 to 10, then J, Q and K. */
  function AllRanks(): (all: seq<Rank>)
    ensures |all| == 13
    ensures forall i :: 0 <= i < |all| ==> Order(all[i]) == i + 1
  {
    [Ace] + seq(9, i requires 0 <= i < 9 => Numeric(i + 2)) + [Face("J"), Face("Q"), Face("K")]
  }

  /** The order key is 0 exactly for the numbered rank 0 and for faces other than J, Q and K. */
  lemma OrderZeroCases(r: Rank)
    ensures Order(r) == 0 <==> r == Numeric(0) || (r.Face? && r.kind != "J" && r.kind != "Q" && r.kind != "K")
  {
  }

  /** The canonical ranks are in strictly increasing order and pairwise distinct. */
  lemma AllRanksStrictlyIncreasing()
    ensures forall i, j :: 0 <= i < j < 13 ==> Order(AllRanks()[i]) < Order(AllRanks()[j])
    ensures forall i, j :: 0 <= i < j < 13 ==> AllRanks()[i] != AllRanks()[j]
  {
  }

  /** On the canonical ranks, equal order keys mean equal ranks. */
  lemma OrderInjectiveOnAllRanks(a: Rank, b: Rank)
    requires a in AllRanks() && b in AllRanks()
    ensures Order(a) == Order(b) <==> a == b
  {
  }

  /** The canonical rank whose order key is `n`, if there is one. */
  function RankOfOrder(n: int): (r: Option<Rank>)
    ensures r.Some? <==> 1 <= n <= 13
    ensures r.Some? ==> r.value in AllRanks() && Order(r.value) == n
  {
    if 1 <= n <= 13 then Some(AllRanks()[n - 1]) else None
  }

  /** `RankOfOrder` inverts `Order` on the canonical ranks. */
  lemma RankOfOrderInvertsOrder(r: Rank)
    requires r in AllRanks()
    ensures RankOfOrder(Order(r)) == Some(r)
  {
    var i :| 0 <= i < 13 && AllRanks()[i] == r;
    assert Order(r) == i + 1;
  }

  /** The label of a numbered rank reads back as its pip count. */
  lemma NumericDescriptionRoundTrip(n: int)
    ensures Decimal.IsDecimal(Description(Numeric(n)))
    ensures Decimal.ParseInt(Description(Numeric(n))) == n
  {
    Decimal.IntToDecimalRoundTrip(n);
  }

  /** The labels of the canonical ranks: "A", "2" to "10", "J", "Q", "K". */
  lemma AllRanksDescriptions()
    ensures Description(AllRanks()[0]) == "A"
    ensures forall i :: 1 <= i < 9 ==> Description(AllRanks()[i]) == [Decimal.DigitChar(i + 1)]
    ensures Description(AllRanks()[9]) == "10"
    ensures Description(AllRanks()[10]) == "J"
    ensures Description(AllRanks()[11]) == "Q"
    ensures Description(AllRanks()[12]) == "K"
  {
    assert Decimal.NatToDecimal(10) == Decimal.NatToDecimal(1) + [Decimal.DigitChar(0)];
  }

  /** On the canonical ranks, equal labels mean equal ranks. */
  lemma DescriptionInjectiveOnAllRanks(i: nat, j: nat)
    requires i < 13 && j < 13
    ensures Description(AllRanks()[i]) == Description(AllRanks()[j]) <==> i == j
  {
    AllRanksDescriptions();
    if Description(AllRanks()[i]) == Description(AllRanks()[j]) {
      var d := Description(AllRanks()[i]);
      assert d[0] == Description(AllRanks()[j])[0];
      if 1 <= i < 9 && 1 <= j < 9 {
        assert Decimal.DigitChar(i + 1) == Decimal.DigitChar(j + 1);
      }
    }
  }

  /** A card: a suit and a rank; equality is equality of both. */
  datatype Card = Card(suit: Suit, rank: Rank)

  /** The card's label: it splits after two characters into the suit's raw value and the rank's label. */
  function CardDescription(c: Card): (s: string)
    ensures |s| >= 2
    ensures s[..2] == RawValue(c.suit) && s[2..] == Description(c.rank)
  {
    RawValue(c.suit) + Description(c.rank)
  }

  /** Cards with canonical ranks have distinct labels. */
  lemma CardDescriptionInjective(a: Card, b: Card)
    requires a.rank in AllRanks() && b.rank in AllRanks()
    ensures CardDescription(a) == CardDescription(b) <==> a == b
  {
    if CardDescription(a) == CardDescription(b) {
      var da, db := CardDescription(a), CardDescription(b);
      assert RawValue(a.suit) == da[..2] == db[..2] == RawValue(b.suit);
      assert Description(a.rank) == da[2..] == db[2..] == Description(b.rank);
      RawValueInjective(a.suit, b.suit);
      var i :| 0 <= i < 13 && AllRanks()[i] == a.rank;
      var j :| 0 <= j < 13 && AllRanks()[j] == b.rank;
      DescriptionInjectiveOnAllRanks(i, j);
    }
  }
}
