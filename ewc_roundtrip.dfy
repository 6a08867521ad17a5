/** Encoders for both link formats, and the proofs that the decoders read an
    encoding back as the entries it was made from. */
module EwcRoundTrip {
  import opened Wrappers
  import opened Strings
  import Card
  import opened Ewc

  // ---------------------------------------------------------------------
  // v2 encoding
  // ---------------------------------------------------------------------

  /** A card and its count as one v2 token carries them. */
  datatype V2Item = V2Item(setNumber: nat, eternalId: nat, count: nat)

  /** What a token can spell: count 1..25, set 0..15, and an id that is
      either a one-character id or a repeating letter with a multiplier
      between 'B' and 'Z' (so at most 31 + 32 * 25 = 831). */
  predicate Encodable(it: V2Item) {
    1 <= it.count <= 25 && it.setNumber <= 15 && 1 <= it.eternalId <= 831
  }

  predicate AllEncodable(items: seq<V2Item>) {
    forall i | 0 <= i < |items| :: Encodable(items[i])
  }

  function ItemEntry(it: V2Item): Entry {
    Entry(Card.CardId(it.setNumber, it.eternalId), it.count)
  }

  function ItemEntries(items: seq<V2Item>): (es: seq<Entry>)
    ensures |es| == |items| && forall i | 0 <= i < |items| :: es[i] == ItemEntry(items[i])
  {
    if |items| == 0 then [] else [ItemEntry(items[0])] + ItemEntries(items[1..])
  }

  /** The token of one item: count letter, set letter, then the id. */
  function EncodeToken(it: V2Item): (tok: string)
    requires Encodable(it)
    ensures |tok| == if it.eternalId <= 31 then 3 else 4
  {
    CountChars();
    SetChars();
    IdChars();
    RepeatChars();
    var head := [CountLetters[it.count - 1], SetLetters[it.setNumber]];
    if it.eternalId <= 31 then head + [IdLetters[it.eternalId - 1]]
    else
      var k := it.eternalId - 32;
      head + [RepeatingIdLetters[k % 32], (('B' as int) + k / 32) as char]
  }

  function EncodeV2(items: seq<V2Item>): string
    requires AllEncodable(items)
  {
    if |items| == 0 then "" else EncodeToken(items[0]) + EncodeV2(items[1..])
  }

  /** An encoded token reads back as its item, whatever surrounds it. */
  lemma TokenDecodes(p: string, it: V2Item, rest: string)
    requires Encodable(it)
    ensures ParseV2Token(p + EncodeToken(it) + rest, |p|)
            == Ok(V2Token(it.count, it.setNumber, it.eternalId, |EncodeToken(it)|))
  {
    var tok := EncodeToken(it);
    var s := p + tok + rest;
    assert s[|p|] == tok[0] && s[|p| + 1] == tok[1] && s[|p| + 2] == tok[2];
    CountChars();
    SetChars();
    if it.eternalId <= 31 {
      IdChars();
      OneCharToken(s, |p|, it.count - 1, it.setNumber, it.eternalId - 1);
    } else {
      RepeatChars();
      var k := it.eternalId - 32;
      assert s[|p| + 3] == tok[3];
      TwoCharToken(s, |p|, it.count - 1, it.setNumber, k % 32);
    }
  }

  /** A token that reads as an item contributes that item's entry. */
  lemma EncodeV2Step(s: string, ix: nat, it: V2Item, width: nat)
    requires ix + 3 <= |s|
    requires ParseV2Token(s, ix) == Ok(V2Token(it.count, it.setNumber, it.eternalId, width))
    ensures var r := V2Entries(s, ix + width);
      V2Entries(s, ix) == if r.Ok? then Ok([ItemEntry(it)] + r.value) else Err(r.error)
  {
    V2EntriesStep(s, ix);
  }

  /** The tokens of an encoding (after any prefix, followed by at most two
      stray characters) are its items' entries. */
  lemma {:induction false} EncodeV2Entries(p: string, items: seq<V2Item>, tail: string)
    requires AllEncodable(items) && |tail| < 3
    ensures V2Entries(p + EncodeV2(items) + tail, |p|) == Ok(ItemEntries(items))
    decreases |items|
  {
    if |items| > 0 {
      var tok := EncodeToken(items[0]);
      var rest := EncodeV2(items[1..]);
      assert p + EncodeV2(items) + tail == p + tok + (rest + tail) == (p + tok) + rest + tail;
      TokenDecodes(p, items[0], rest + tail);
      EncodeV2Step(p + EncodeV2(items) + tail, |p|, items[0], |tok|);
      EncodeV2Entries(p + tok, items[1..], tail);
    }
  }

  /** Decoding a v2 encoding gives the cards of its entries, in order; one or
      two stray characters after it change nothing. */
  lemma V2RoundTrip(catalog: Catalog, items: seq<V2Item>, tail: string)
    requires AllEncodable(items) && |tail| < 3
    ensures DecodeV2(catalog, EncodeV2(items) + tail) == Expand(catalog, ItemEntries(items))
  {
    EncodeV2Entries("", items, tail);
    EmptyPrefix(EncodeV2(items), tail);
    DecodeV2Entries(catalog, EncodeV2(items) + tail, 0);
  }

  /** Different item lists have different encodings. */
  lemma EncodeV2Injective(a: seq<V2Item>, b: seq<V2Item>)
    requires AllEncodable(a) && AllEncodable(b)
    requires EncodeV2(a) == EncodeV2(b)
    ensures a == b
  {
    EncodeV2Entries("", a, "");
    EncodeV2Entries("", b, "");
    EmptyPrefix(EncodeV2(a), "");
    EmptyPrefix(EncodeV2(b), "");
    assert EncodeV2(a) + "" == EncodeV2(a) && EncodeV2(b) + "" == EncodeV2(b);
    forall i | 0 <= i < |a|
      ensures a[i] == b[i]
    {
      assert ItemEntry(a[i]) == ItemEntry(b[i]);
      Card.CardIdInjective(a[i].setNumber, a[i].eternalId, b[i].setNumber, b[i].eternalId);
    }
  }

  // ---------------------------------------------------------------------
  // v1 encoding
  // ---------------------------------------------------------------------

  /** The v1 token of an entry: `<id>:<count>`. */
  function V1Token(e: Entry): string {
    e.cid + ":" + IntToString(e.count)
  }

  /** Every token followed by ';'. */
  function EncodeV1(entries: seq<Entry>): string {
    if |entries| == 0 then "" else V1Token(entries[0]) + ";" + EncodeV1(entries[1..])
  }

  function V1TokensOf(entries: seq<Entry>): (tokens: seq<string>)
    ensures |tokens| == |entries| && forall i | 0 <= i < |entries| :: tokens[i] == V1Token(entries[i])
  {
    if |entries| == 0 then [] else [V1Token(entries[0])] + V1TokensOf(entries[1..])
  }

  /** Ids that cannot be confused with the separators. */
  predicate V1Safe(entries: seq<Entry>) {
    forall i | 0 <= i < |entries| :: ':' !in entries[i].cid && ';' !in entries[i].cid
  }

  lemma V1TokenChars(e: Entry)
    ensures forall c | c in V1Token(e) :: c in e.cid || c == ':' || IsDigit(c) || c == '-'
  {
    IntToStringChars(e.count);
    assert forall c | c in V1Token(e) :: c in e.cid || c == ':' || c in IntToString(e.count);
  }

  /** Splitting an encoding, followed by text without ';', on ';' gives the
      tokens and that text as the last piece. */
  lemma {:induction false} SplitEncodeV1(entries: seq<Entry>, tail: string)
    requires V1Safe(entries) && ';' !in tail
    ensures Split(EncodeV1(entries) + tail, ";") == V1TokensOf(entries) + [tail]
    decreases |entries|
  {
    if |entries| == 0 {
      NotContainsByFirstChar(tail, ";");
      SplitWithoutSeparator(tail, ";");
      assert EncodeV1(entries) + tail == tail;
    } else {
      SplitEncodeV1(entries[1..], tail);
      SplitEncodeV1Step(entries, tail);
    }
  }

  lemma SplitEncodeV1Step(entries: seq<Entry>, tail: string)
    requires |entries| > 0 && ':' !in entries[0].cid && ';' !in entries[0].cid
    requires Split(EncodeV1(entries[1..]) + tail, ";") == V1TokensOf(entries[1..]) + [tail]
    ensures Split(EncodeV1(entries) + tail, ";") == V1TokensOf(entries) + [tail]
  {
    V1TokenChars(entries[0]);
    SplitTokens(V1Token(entries[0]), EncodeV1(entries[1..]), tail, V1TokensOf(entries[1..]));
  }

  /** One more ';'-terminated token in front adds one more piece. */
  lemma SplitTokens(tok: string, encoded: string, tail: string, tokens: seq<string>)
    requires ';' !in tok
    requires Split(encoded + tail, ";") == tokens + [tail]
    ensures Split(tok + ";" + encoded + tail, ";") == [tok] + tokens + [tail]
  {
    SplitFreeHead(tok, encoded + tail, ";");
    assert tok + ";" + encoded + tail == tok + ";" + (encoded + tail);
  }

  /** The tokens `[:-1]` keeps are exactly the encoded ones: text after the
      last ';' is dropped. */
  lemma V1TokensOfEncoding(entries: seq<Entry>, tail: string)
    requires V1Safe(entries) && ';' !in tail
    ensures V1Tokens(EncodeV1(entries) + tail) == V1TokensOf(entries)
  {
    SplitEncodeV1(entries, tail);
    var parts := V1TokensOf(entries) + [tail];
    assert parts[..|parts| - 1] == V1TokensOf(entries);
  }

  lemma SplitV1TokenOf(e: Entry)
    requires ':' !in e.cid
    ensures SplitV1Token(V1Token(e)) == Ok((e.cid, IntToString(e.count)))
  {
    IntToStringChars(e.count);
    NotContainsByFirstChar(IntToString(e.count), ":");
    SplitTwo(e.cid, IntToString(e.count), ":");
  }

  /** The tokens of entries read back as the entries. */
  lemma {:induction false} V1EntriesOfTokens(entries: seq<Entry>)
    requires V1Safe(entries)
    ensures V1Entries(V1TokensOf(entries)) == Ok(entries)
    decreases |entries|
  {
    if |entries| > 0 {
      var tokens := V1TokensOf(entries);
      assert tokens[1..] == V1TokensOf(entries[1..]);
      SplitV1TokenOf(entries[0]);
      IntToStringRoundTrip(entries[0].count);
      V1EntriesOfTokens(entries[1..]);
      assert [entries[0]] + entries[1..] == entries;
    }
  }

  /** Decoding a v1 encoding gives the cards of its entries, in order; a
      last token without its ';' (or any text without ';') is ignored. */
  lemma V1RoundTrip(catalog: Catalog, entries: seq<Entry>, tail: string)
    requires V1Safe(entries) && ';' !in tail
    ensures DecodeV1(catalog, EncodeV1(entries) + tail) == Expand(catalog, entries)
  {
    V1TokensOfEncoding(entries, tail);
    V1EntriesOfTokens(entries);
    DecodeV1Entries(catalog, V1TokensOf(entries));
  }

  /** Card ids are made of digits and '-'. */
  predicate IdText(cid: string) {
    forall c | c in cid :: IsDigit(c) || c == '-'
  }

  lemma CardIdText(setNumber: int, eternalId: int)
    ensures IdText(Card.CardId(setNumber, eternalId))
  {
    IntToStringChars(setNumber);
    IntToStringChars(eternalId);
    var cid := Card.CardId(setNumber, eternalId);
    assert forall c | c in cid :: c in IntToString(setNumber) || c == '-' || c in IntToString(eternalId);
  }

  /** The same items in either format decode to the same cards. */
  lemma FormatsAgree(catalog: Catalog, items: seq<V2Item>)
    requires AllEncodable(items)
    ensures DecodeV1(catalog, EncodeV1(ItemEntries(items))) == DecodeV2(catalog, EncodeV2(items))
  {
    var entries := ItemEntries(items);
    assert DecodeV1(catalog, EncodeV1(entries)) == Expand(catalog, entries) by {
      forall i | 0 <= i < |entries|
        ensures ':' !in entries[i].cid && ';' !in entries[i].cid
      {
        CardIdText(items[i].setNumber, items[i].eternalId);
      }
      V1RoundTrip(catalog, entries, "");
      assert EncodeV1(entries) + "" == EncodeV1(entries);
    }
    assert DecodeV2(catalog, EncodeV2(items)) == Expand(catalog, entries) by {
      V2RoundTrip(catalog, items, "");
      assert EncodeV2(items) + "" == EncodeV2(items);
    }
  }

  // ---------------------------------------------------------------------
  // Whole links
  // ---------------------------------------------------------------------

  /** A v2 encoding only uses letters, digits, '-' and '_', and no two
      lowercase letters are adjacent (a lowercase id letter is always followed
      by a multiplier or the next token's count, both uppercase). */
  predicate LowerIsolated(s: string) {
    forall i | 0 <= i < |s| - 1 :: !(IsLower(s[i]) && IsLower(s[i + 1]))
  }

  predicate V2Char(c: char) {
    IsUpper(c) || IsLower(c) || IsDigit(c) || c == '-' || c == '_'
  }

  lemma TokenShape(it: V2Item)
    requires Encodable(it)
    ensures var tok := EncodeToken(it);
      IsUpper(tok[0]) && LowerIsolated(tok) && forall c | c in tok :: V2Char(c)
  {
    CountChars();
    SetChars();
    IdChars();
    RepeatChars();
  }

  lemma LowerIsolatedAppend(a: string, b: string)
    requires LowerIsolated(a) && LowerIsolated(b)
    requires |b| == 0 || IsUpper(b[0])
    ensures LowerIsolated(a + b)
  {
    var s := a + b;
    forall i | 0 <= i < |s| - 1
      ensures !(IsLower(s[i]) && IsLower(s[i + 1]))
    {
      if i + 1 < |a| {
        assert s[i] == a[i] && s[i + 1] == a[i + 1];
      } else if i + 1 == |a| {
        assert s[i + 1] == b[0];
      } else {
        assert s[i] == b[i - |a|] && s[i + 1] == b[i + 1 - |a|];
      }
    }
  }

  lemma {:induction false} EncodeV2Shape(items: seq<V2Item>)
    requires AllEncodable(items)
    ensures var s := EncodeV2(items);
      LowerIsolated(s) && (|s| > 0 ==> IsUpper(s[0])) && forall c | c in s :: V2Char(c)
    decreases |items|
  {
    if |items| > 0 {
      TokenShape(items[0]);
      EncodeV2Shape(items[1..]);
      var tok, rest := EncodeToken(items[0]), EncodeV2(items[1..]);
      LowerIsolatedAppend(tok, rest);
      assert forall c | c in tok + rest :: c in tok || c in rest;
      assert (tok + rest)[0] == tok[0];
    }
  }

  /** A v2 encoding never contains "market" (its first two letters are
      lowercase and adjacent), so a link without a market part is never
      mistaken for one with a market. */
  lemma NoMarketInV2(s: string)
    requires LowerIsolated(s)
    ensures !Contains(s, "market")
  {
    assert IsLower("market"[0]) && IsLower("market"[1]);
    NoLowerPair(s, "market");
  }

  /** A string without two adjacent lowercase letters contains no text that
      starts with two. */
  lemma NoLowerPair(s: string, sub: string)
    requires LowerIsolated(s)
    requires |sub| >= 2 && IsLower(sub[0]) && IsLower(sub[1])
    ensures !Contains(s, sub)
  {
    forall i: nat | i <= |s|
      ensures !OccursAt(s, sub, i)
    {
      if i + |sub| <= |s| {
        assert s[i..i + |sub|][0] == s[i] && s[i..i + |sub|][1] == s[i + 1];
      }
    }
  }

  /** Decoding a result's cards into a deck without market. */
  function MainOnly(r: Result<seq<Card.CardInfo>, DecodeError>): Result<DeckCards, DecodeError> {
    match r
    case Ok(cards) => Ok((cards, None))
    case Err(e) => Err(e)
  }

  /** A v2 link made of an encoding decodes to its cards, without market. */
  lemma V2LinkRoundTrip(catalog: Catalog, items: seq<V2Item>)
    requires AllEncodable(items)
    ensures DecodeUrl(catalog, "main=" + EncodeV2(items)) == MainOnly(Expand(catalog, ItemEntries(items)))
  {
    var s := EncodeV2(items);
    assert ':' !in s && MainPayload("main=" + s) == Ok(s) && SplitMarket(s) == Ok((s, None)) by {
      EncodeV2Shape(items);
      assert '=' !in s && ':' !in s;
      NotContainsByChar(s, "main=", 4);
      MainPayloadAfterPrefix("", s);
      EmptyPrefix("main=", s);
      NoMarketInV2(s);
    }
    assert DecodeV2(catalog, s) == Expand(catalog, ItemEntries(items)) by {
      V2RoundTrip(catalog, items, "");
      assert s + "" == s;
    }
    assert DecodeUrl(catalog, "main=" + s) == DecodeParts(catalog, s, false);
  }

  /** The `&market=` part of a link, if any. */
  function MarketSuffix(market: Option<seq<Entry>>): string {
    match market
    case None => ""
    case Some(m) => "&market=" + EncodeV1(m)
  }

  /** What a v1 link of these entries decodes to: the market is decoded
      first, so its missing card is reported before one of the main part. */
  function ExpectedV1(catalog: Catalog, main: seq<Entry>, market: Option<seq<Entry>>): Result<DeckCards, DecodeError> {
    match market
    case None => MainOnly(Expand(catalog, main))
    case Some(m) =>
      match Expand(catalog, m)
      case Err(e) => Err(e)
      case Ok(marketCards) =>
        match Expand(catalog, main)
        case Err(e) => Err(e)
        case Ok(mainCards) => Ok((mainCards, Some(marketCards)))
  }

  predicate AllIdText(entries: seq<Entry>) {
    forall i | 0 <= i < |entries| :: IdText(entries[i].cid)
  }

  lemma EncodeV1Chars(entries: seq<Entry>)
    requires AllIdText(entries)
    ensures forall c | c in EncodeV1(entries) :: IsDigit(c) || c == '-' || c == ':' || c == ';'
  {
    if |entries| > 0 {
      V1TokenChars(entries[0]);
      EncodeV1Chars(entries[1..]);
      var tok, rest := V1Token(entries[0]), EncodeV1(entries[1..]);
      assert forall c | c in tok + ";" + rest :: c in tok || c == ';' || c in rest;
    }
  }

  /** The payload of a v1 link: the main encoding, then the market part. */
  function V1Payload(main: seq<Entry>, market: Option<seq<Entry>>): string {
    EncodeV1(main) + MarketSuffix(market)
  }

  /** A non-empty v1 encoding holds ':' (after the first id). */
  lemma EncodeV1Colon(entries: seq<Entry>)
    requires |entries| > 0
    ensures ':' in EncodeV1(entries)
  {
    var e := entries[0];
    var head, rest := e.cid + ":", IntToString(e.count) + ";" + EncodeV1(entries[1..]);
    assert EncodeV1(entries) == head + rest;
    assert head[|e.cid|] == ':';
    assert (head + rest)[|e.cid|] == ':';
  }

  /** A v1 payload has no 'i', so no `main=` of its own. */
  lemma V1PayloadNoI(main: seq<Entry>, market: Option<seq<Entry>>)
    requires AllIdText(main)
    requires market.Some? ==> AllIdText(market.value)
    ensures 'i' !in V1Payload(main, market)
  {
    EncodeV1Chars(main);
    if market.Some? {
      EncodeV1Chars(market.value);
      var b := EncodeV1(market.value);
      assert forall c | c in V1Payload(main, market) :: c in EncodeV1(main) || c in "&market=" || c in b;
    }
  }

  /** The only `main=` of a v1 link is its own, and its payload holds ':'. */
  lemma V1LinkPayload(main: seq<Entry>, market: Option<seq<Entry>>)
    requires |main| > 0 && AllIdText(main)
    requires market.Some? ==> AllIdText(market.value)
    ensures MainPayload("main=" + V1Payload(main, market)) == Ok(V1Payload(main, market))
    ensures ':' in V1Payload(main, market)
  {
    var payload := V1Payload(main, market);
    EncodeV1Colon(main);
    assert forall c | c in EncodeV1(main) :: c in payload;
    V1PayloadNoI(main, market);
    NotContainsByChar(payload, "main=", 2);
    MainPayloadAfterPrefix("", payload);
    EmptyPrefix("main=", payload);
  }

  /** The payload of a v1 link splits into the two encodings. */
  lemma V1LinkSplit(main: seq<Entry>, market: Option<seq<Entry>>)
    requires AllIdText(main)
    requires market.Some? ==> AllIdText(market.value)
    ensures SplitMarket(V1Payload(main, market))
            == Ok((EncodeV1(main), if market.Some? then Some(EncodeV1(market.value)) else None))
  {
    var a := EncodeV1(main);
    EncodeV1Chars(main);
    if market.None? {
      assert V1Payload(main, market) == a;
      NotContainsByFirstChar(a, "market");
    } else {
      var b := EncodeV1(market.value);
      EncodeV1Chars(market.value);
      NotContainsByFirstChar(b, "&market=");
      SplitMarketParts(a, b);
      assert V1Payload(main, market) == a + "&market=" + b;
    }
  }

  /** A v1 link made of encodings decodes to the entries' cards, main part
      and market alike. */
  lemma V1LinkRoundTrip(catalog: Catalog, main: seq<Entry>, market: Option<seq<Entry>>)
    requires |main| > 0 && AllIdText(main)
    requires market.Some? ==> AllIdText(market.value)
    ensures DecodeUrl(catalog, "main=" + V1Payload(main, market)) == ExpectedV1(catalog, main, market)
  {
    V1LinkPayload(main, market);
    V1LinkSplit(main, market);
    EncodeV1Chars(main);
    V1RoundTrip(catalog, main, "");
    assert EncodeV1(main) + "" == EncodeV1(main);
    if market.Some? {
      EncodeV1Chars(market.value);
      V1RoundTrip(catalog, market.value, "");
      assert EncodeV1(market.value) + "" == EncodeV1(market.value);
    }
  }
}
