// Playing cards: ranks, suits and the card value type (card.go).
module Cards {

  /** The four suits, in declaration (iota) order. */
  datatype Suit = Clubs | Diamonds | Hearts | Spades

  /** The integer behind each suit constant: Clubs = 0 ... Spades = 3. */
  function SuitCode(s: Suit): (n: int)
    ensures 0 <= n <= 3
  {
    match s
    case Clubs => 0
    case Diamonds => 1
    case Hearts => 2
    case Spades => 3
  }

  /** Distinct suits have distinct codes. */
  lemma SuitCodeInjective(s: Suit, t: Suit)
    requires SuitCode(s) == SuitCode(t)
    ensures s == t
  {
  }

  /** A rank is one of the named constants Two = 2 ... Ace = 14. */
  type Rank = r: int | 2 <= r <= 14 witness 2

  const Two: Rank := 2
  const Three: Rank := 3
  const Four: Rank := 4
  const Five: Rank := 5
  const Six: Rank := 6
  const Seven: Rank := 7
  const Eight: Rank := 8
  const Nine: Rank := 9
  const Ten: Rank := 10
  const Jack: Rank := 11
  const Queen: Rank := 12
  const King: Rank := 13
  const Ace: Rank := 14

  /** The one-character name of a rank: a digit for 2-9, a letter from Ten up. */
  function RankString(r: Rank): (s: string)
    ensures |s| == 1
    ensures r <= 9 ==> s[0] == ('0' as int + r) as char
    ensures r == Ten ==> s == "T"
    ensures r == Jack ==> s == "J"
    ensures r == Queen ==> s == "Q"
    ensures r == King ==> s == "K"
    ensures r == Ace ==> s == "A"
  {
    if r == Ten then "T"
    else if r == Jack then "J"
    else if r == Queen then "Q"
    else if r == King then "K"
    else if r == Ace then "A"
    else [('0' as int + r) as char]
  }

  /** Different ranks have different names, so the name is a faithful key. */
  lemma RankStringInjective(a: Rank, b: Rank)
    requires RankString(a) == RankString(b)
    ensures a == b
  {
    assert RankString(a)[0] == RankString(b)[0];
  }

  /** A card: a rank and a suit. */
  datatype Card = Card(rank: Rank, suit: Suit)

  function NewCard(rank: Rank, suit: Suit): (c: Card)
    ensures c.rank == rank && c.suit == suit
  {
    Card(rank, suit)
  }

  /** The numeric value of a card, which is its rank. */
  function Value(c: Card): (v: int)
    ensures 2 <= v <= 14
    ensures v == c.rank
  {
    c.rank
  }

  /** Equality by rank only; suits are ignored. */
  predicate Equal(a: Card, b: Card) {
    a.rank == b.rank
  }

  /** Strict order by rank. */
  predicate Less(a: Card, b: Card) {
    a.rank < b.rank
  }

  /** Changing the suits never changes Equal or Less. */
  lemma SuitIgnored(a: Card, b: Card, s: Suit, t: Suit)
    ensures Equal(a, b) == Equal(a.(suit := s), b.(suit := t))
    ensures Less(a, b) == Less(a.(suit := s), b.(suit := t))
    ensures Equal(NewCard(a.rank, s), a)
  {
  }

  /** Exactly one of Less(a, b), Less(b, a) and Equal(a, b) holds. */
  lemma Trichotomy(a: Card, b: Card)
    ensures Less(a, b) || Less(b, a) || Equal(a, b)
    ensures !(Less(a, b) && Less(b, a))
    ensures !(Less(a, b) && Equal(a, b)) && !(Less(b, a) && Equal(a, b))
  {
  }

  /** The four suits, each exactly once. */
  function AllSuits(): (s: seq<Suit>)
    ensures |s| == 4
    ensures forall i, j :: 0 <= i < j < |s| ==> s[i] != s[j]
    ensures forall i :: 0 <= i < |s| ==> SuitCode(s[i]) == i
    ensures forall t: Suit :: s[SuitCode(t)] == t
  {
    [Clubs, Diamonds, Hearts, Spades]
  }

  /** The thirteen ranks in ascending order. */
  function AllRanks(): (s: seq<Rank>)
    ensures |s| == 13
    ensures forall i :: 0 <= i < |s| ==> s[i] == i + 2
    ensures forall i, j :: 0 <= i < j < |s| ==> s[i] < s[j]
  {
    [Two, Three, Four, Five, Six, Seven, Eight, Nine, Ten, Jack, Queen, King, Ace]
  }
}
