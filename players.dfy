// A seat at the table: a name and the two private cards (player.go).
module Players {
  import opened Cards
  import opened Errors

  class Player {
    var name: string
    var holeCards: seq<Card>

    /** A new player holds no cards yet. */
    constructor (name: string)
      ensures this.name == name && holeCards == []
    {
      this.name := name;
      holeCards := [];
    }

    /**
     * Exactly two cards replace the hole cards (as a copy of the argument);
     * any other count is refused and nothing changes.
     */
    method SetHoleCards(cards: seq<Card>) returns (err: Option<Error>)
      modifies this
      ensures err == HoleCardsError(cards)
      ensures err == None ==> holeCards == cards
      ensures err != None ==> holeCards == old(holeCards)
      ensures name == old(name)
    {
      if |cards| != 2 {
        return Some(InvalidHoleCards);
      }
      holeCards := cards;
      return None;
    }
  }

  /** The error SetHoleCards reports: none exactly when two cards are given. */
  function HoleCardsError(cards: seq<Card>): (err: Option<Error>)
    ensures err == None <==> |cards| == 2
    ensures err != None ==> err == Some(InvalidHoleCards)
  {
    if |cards| != 2 then Some(InvalidHoleCards) else None
  }
}
