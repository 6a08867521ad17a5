/** The older deck: it stores the cards and counts their types; it has no
    faction classification yet. */
module LegacyDeck {
  import opened Wrappers
  import Card
  import Current = Deck

  /** The faction query is not implemented (NotImplementedError). */
  datatype FactionError = NotImplemented

  class Deck {
    const mainCards: seq<Card.CardInfo>
    /** None when the deck has no market. */
    const marketCards: Option<seq<Card.CardInfo>>

    /** Stores the main cards and the market as given. */
    constructor (main: seq<Card.CardInfo>, market: Option<seq<Card.CardInfo>>)
      ensures mainCards == main && marketCards == market
    {
      mainCards := main;
      marketCards := market;
    }

    /** Always fails, whatever the cards. */
    function Faction(powerOnlySplash: bool): (r: Result<(string, string), FactionError>)
      ensures r.Err? && r.error == NotImplemented
    {
      Err(NotImplemented)
    }

    /** Card counts by type; they add up to the number of main cards. */
    function Types(): (r: Result<map<string, nat>, Current.DeckError>)
      ensures r.Err? <==> |mainCards| == 0
      ensures r.Ok? ==> forall t :: t in r.value <==> exists i | 0 <= i < |mainCards| :: mainCards[i].data.cardType == t
      ensures r.Ok? ==> forall t | t in r.value :: r.value[t] == Current.CountType(mainCards, t)
      ensures r.Ok? ==> Current.SumOver(r.value, Current.TypesOf(mainCards)) == |mainCards|
    {
      if |mainCards| == 0 then Err(Current.NoCardData)
      else
        Current.TypeCountsTotal(mainCards);
        Ok(Current.TypeCounts(mainCards))
    }
  }

  /** The older and the current deck count types alike. */
  lemma TypesAgree(d: Deck, e: Current.Deck)
    requires d.mainCards == e.mainCards
    ensures d.Types() == e.Types()
  {
  }
}
