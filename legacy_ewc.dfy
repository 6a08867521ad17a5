/** The older link decoder: it knows only the v1 format (`<id>:<count>;`
    tokens) and builds the older deck. */
module LegacyEwc {
  import opened Wrappers
  import opened Ewc
  import LegacyDeck

  /** Builds the older deck from a link's query: the text after the first
      `main=`, its optional `&market=` part decoded first, then the main part,
      each with the v1 token loop. It reads a link exactly as the current v1
      decoder does. */
  method ParseDeckbuilderUrl(catalog: Catalog, query: string) returns (r: Result<LegacyDeck.Deck, DecodeError>)
    ensures r.Ok? <==> DecodeUrlV1(catalog, query).Ok?
    ensures r.Err? ==> r.error == DecodeUrlV1(catalog, query).error
    ensures r.Ok? ==> (fresh(r.value)
      && r.value.mainCards == DecodeUrlV1(catalog, query).value.0
      && r.value.marketCards == DecodeUrlV1(catalog, query).value.1)
  {
    var payload := MainPayload(query);
    if payload.Err? {
      return Err(payload.error);
    }
    var split := SplitMarket(payload.value);
    if split.Err? {
      return Err(split.error);
    }
    var (mainDeck, market) := split.value;
    var marketCards: Option<seq<Card.CardInfo>> := None;
    if market.Some? {
      var decoded := ParseV1Cards(catalog, V1Tokens(market.value));
      if decoded.Err? {
        return Err(decoded.error);
      }
      marketCards := Some(decoded.value);
    }
    var mainCards := ParseV1Cards(catalog, V1Tokens(mainDeck));
    if mainCards.Err? {
      return Err(mainCards.error);
    }
    var deck := new LegacyDeck.Deck(mainCards.value, marketCards);
    return Ok(deck);
  }
}
