# Eternal deck tools in Dafny

This project models the core of a small Python toolkit for the card game
Eternal. It proves properties of that model.

The core is the decoder for Eternal Warcry deck-builder links. A link's
`main=` payload lists the cards of a deck in one of two encodings:

- **v1**: `<set>-<id>:<count>;` tokens.
- **v2**: a packed positional alphabet. Each token is 3 characters: a count
  letter, a set letter and an id letter. An id outside the one-letter table
  takes 4 characters, from a 32-letter repeating alphabet plus a multiplier
  letter.

An optional `&market=` part is decoded with the same grammar as the main part.
The decoder expands each entry into `count` copies of the catalog's card. It
then builds a deck.

Around the decoder sit:

- **Card model**: the faction label of an influence string, record
  validation, the composite id `"{SetNumber}-{EternalID}"`, loading a card
  collection (the last valid record wins), and two rule-ordered power counts.
- **Deck model**: per-faction counts of non-Power cards, the main/splash split
  at 6 cards, the faction string, the splashed cards, and the per-type counts.
- **Helpers**:
  - `text2int`, a number-word parser with a scale accumulator.
  - The integer scoring that matches a deck to a draft-format version.
  - `get_faction_colors`, which assigns chart colours with a cycling fallback
    palette.

The older variants of the decoder, card and deck (a v1-only decoder among them)
are modelled as well, next to the current ones.

Modules, one file each:

- `Wrappers`: `Option` and `Result`.
- `Strings`: the string functions the Python code relies on, namely `split`
  with a separator, `join`, whitespace `split()`, `str(int)`, `int(str)`, `in`
  on strings and `lower()`.
- `Card`, `Deck`, `Ewc`: the current card, deck and decoder modules.
- `EwcRoundTrip`: encoders for both formats and the round-trip theorems.
- `LegacyCard`, `LegacyDeck`, `LegacyEwc`: the older module versions.
- `Format`: `text2int` and format matching.
- `Plot`: faction colours.

**How the Python constructs are modelled:**

- **Card catalog.** The global catalog `eternal.card.ALL` is a parameter: a
  map from id text to card. A missing id is a decode error, `UnknownCard`.
- **Query string.** The decoder starts from the link's query string.
- **Imperative code.** Loops become Dafny methods proved equal to
  specification functions. The collections become classes whose methods update
  their fields. These are the v2 cursor loop, the v1 token loops, the
  collection's load loop, the faction-count fill, the number-word table fill
  and the accumulator loop, the format scoring loop and the colour loop.
- **Behaviour kept from the code:**
  - A non-Unit record with extra fields passes validation, because only a Unit
    has its extra fields checked (eternal/card.py:81-83).
  - The market is decoded before the main part, so the market's errors are
    reported first (eternal/ewc.py:72-76 for v2, eternal/ewc.py:97-109 for v1).
  - The `main=` payload is the text between the first `main=` and the next one,
    as `split('main=')[1]` gives it (eternal/ewc.py:70).
- **Python semantics kept.** `split` cuts at the leftmost non-overlapping
  occurrences of the separator. `[card] * n` gives no copies when `n` is not
  positive. The v2 multiplier letter is not checked, so ids at or below zero
  can come out, as they do in the source.
- **Empty main deck.** When `main_data` comes from an empty card list, it has
  no `Type` column. So the deck queries fail on an empty main deck
  (`NoCardData`).
- **Faction order.** `FACTIONS` is a Python set, so its iteration order is not
  fixed. The deck functions take any ordering of `FJTPS` as a parameter.
  `CardsSplashOrderFree` shows that the splashed cards do not depend on it.

## Model

| member | source | states |
|---|---|---|
| Ewc.TableValue | eternal/ewc.py:50-53 | a table look-up succeeds exactly for the table's letters and names the letter's position plus the table's offset |
| Ewc.IndexOf | eternal/ewc.py:40 | `str.index`: a position found holds the letter |
| Ewc.IndexOfFirst | eternal/ewc.py:40 | `str.index` fails exactly for an absent letter and otherwise finds the first occurrence |
| Ewc.IndexOfDistinct | eternal/ewc.py:50-53 | in a table without repeats each letter's look-up is its own position |
| Ewc.CountChars | eternal/ewc.py:50 | the count table is the 25 letters B..Z |
| Ewc.SetChars | eternal/ewc.py:51 | the set table is the 16 letters A..P |
| Ewc.IdChars | eternal/ewc.py:52 | the one-letter id table is B..Z then a..f, 31 letters |
| Ewc.RepeatChars | eternal/ewc.py:53 | the repeating alphabet is g..z, 0..9, '-', '_', 32 letters |
| Ewc.TablesDistinct | eternal/ewc.py:50-53 | no table repeats a letter, and the repeating alphabet shares no letter with the one-letter ids, so the 3/4-character choice is unambiguous |
| Ewc.CountValue | eternal/ewc.py:50 | counts decode to 1..25 |
| Ewc.SetValue | eternal/ewc.py:51 | set numbers decode to 0..15 |
| Ewc.IdValue | eternal/ewc.py:52 | one-letter ids decode to 1..31 |
| Ewc.RepeatIndex | eternal/ewc.py:53 | repeating-alphabet positions are below 32 |
| Ewc.TableAgrees | eternal/ewc.py:50-53 | any candidate that names a letter's position (or None for an absent letter) is the table's look-up |
| Ewc.CountAgrees | eternal/ewc.py:50 | the code-point count look-up equals the dictionary built from 'BCD…Z' |
| Ewc.SetAgrees | eternal/ewc.py:51 | the code-point set look-up equals the dictionary built from 'ABC…P' |
| Ewc.IdAgrees | eternal/ewc.py:52 | the code-point id look-up equals the dictionary built from 'B…Za…f' |
| Ewc.RepeatAgrees | eternal/ewc.py:53 | the code-point index equals `ETERNAIL_ID_2CHAR_REPEATING.index` |
| Ewc.LookupsAgree | eternal/ewc.py:50-53 | all four code-point look-ups equal the source's tables |
| Ewc.LookupsFind | eternal/ewc.py:31-40 | each look-up succeeds exactly when the letter is a key of its table |
| Ewc.TableLookup | eternal/ewc.py:50-53 | looking up a table's i-th letter finds i |
| Ewc.TwoCharId | eternal/ewc.py:40-42 | the two-character id is index + 32 * (ord(w) - ord('B')) + 31 + 1 |
| Ewc.ParseV2Token | eternal/ewc.py:30-43 | a token read at the cursor has count 1..25, set 0..15, width 3 or 4, and fits in the string |
| Ewc.ParseV2TokenCases | eternal/ewc.py:30-43 | the token's outcome in every case: unknown count letter, unknown set letter, a one-letter id with width 3 and id 1..31, a missing multiplier, an unknown id letter, or width 4 with the two-character id |
| Ewc.OneCharToken | eternal/ewc.py:30-36 | a token of table letters reads as their positions with width 3 |
| Ewc.TwoCharToken | eternal/ewc.py:37-43 | a token whose third letter is in the repeating alphabet reads with width 4 and the two-character id |
| Ewc.Repeat | eternal/ewc.py:45 | `[card] * n` is n copies of the card, none when n is not positive |
| Ewc.Expand | eternal/ewc.py:44-45 | the entries expand to exactly the sum of their counts in cards, every one from the catalog; expansion fails exactly when some id is not in the catalog, and names that id |
| Ewc.PrependEmpty | eternal/ewc.py:45 | prepending no cards changes nothing |
| Ewc.PrependPrepend | eternal/ewc.py:45 | two prepends are one prepend of both |
| Ewc.ExpandAppend | eternal/ewc.py:45 | expanding a concatenation concatenates the expansions, so output order is entry order |
| Ewc.ExpandSingle | eternal/ewc.py:45 | one entry expands to `count` adjacent copies of its card |
| Ewc.V2Entries | eternal/ewc.py:26-43 | the token walk from a cursor: every entry's count is 1..25, and each entry takes at least 3 characters |
| Ewc.DecodeV2From | eternal/ewc.py:24-46 | every decoded card is a catalog card |
| Ewc.DecodeV2Step | eternal/ewc.py:26-45 | one loop step adds the token's copies and continues at the cursor plus the token's width, or stops at a missing card |
| Ewc.V2EntriesStep | eternal/ewc.py:26-44 | one tokenizer step advances by the token's width |
| Ewc.DecodeV2Fails | eternal/ewc.py:31-40 | a malformed token stops decoding with its own error |
| Ewc.ExpandStep | eternal/ewc.py:45 | the expansion of a first entry and the rest |
| Ewc.DecodeV2Entries | eternal/ewc.py:24-46 | with well-formed tokens, v2 decoding is the expansion of the token entries, so its length is the sum of the counts |
| Ewc.DecodeV2Malformed | eternal/ewc.py:24-46 | a malformed token anywhere makes decoding fail |
| Ewc.DecodeV2ShortTail | eternal/ewc.py:26 | fewer than 3 remaining characters are ignored, so an empty payload gives no cards |
| Ewc.ReadV2Token | eternal/ewc.py:30-43 | the loop body's look-ups compute the token the specification reads |
| Ewc.DecodeV2 | eternal/ewc.py:8-46 | v2 decoding from the start: only catalog cards, and no cards for a payload shorter than one token |
| Ewc.ParseV2Cards | eternal/ewc.py:8-46 | the cursor loop computes the v2 decoding |
| Ewc.V1Tokens | eternal/ewc.py:105 | `split(';')[:-1]` keeps one token fewer than the pieces |
| Ewc.SplitV1Token | eternal/ewc.py:108 | a token unpacks exactly when it splits on ':' into two parts, which rejoin to the token |
| Ewc.V1Entries | eternal/ewc.py:101-109 | well-formed tokens give one entry each |
| Ewc.DecodeV1Tokens | eternal/ewc.py:101-109 | every decoded card is a catalog card |
| Ewc.DecodeV1Entries | eternal/ewc.py:101-109 | with well-formed tokens v1 decoding is the expansion of the entries; a malformed token makes it fail |
| Ewc.DecodeV1 | eternal/ewc.py:99-109 | v1 decoding of the `;`-terminated tokens: only catalog cards |
| Ewc.ParseV1Cards | eternal/ewc.py:101-109 | the token loop computes the v1 decoding |
| Ewc.MainPayload | eternal/ewc.py:70 | `split('main=')[1]` fails exactly when the query has no `main=` and otherwise holds no `main=` |
| Ewc.MainPayloadAfterPrefix | eternal/ewc.py:70 | a query with a single `main=` gives the text after it |
| Ewc.SplitMarket | eternal/ewc.py:72-73 | no "market" means no market part; otherwise the payload must split on `&market=` into exactly two parts, which rejoin to the payload |
| Ewc.SplitMarketParts | eternal/ewc.py:72-73 | a main part and a market part joined by `&market=` split back into those parts |
| Ewc.DecodeParts | eternal/ewc.py:71-76 | a bad market split is an error, and the decoded market is present exactly when the payload has one |
| Ewc.DecodeUrlV1 | eternal/ewc.py:80-111 | a v1 link without `main=` fails; otherwise it decodes its payload with the v1 grammar |
| Ewc.DecodeUrlV2 | eternal/ewc.py:56-77 | a v2 link without `main=` fails; otherwise it decodes its payload with the v2 grammar |
| Ewc.DecodeUrl | eternal/ewc.py:114-127 | a payload containing ':' is decoded as v1, any other as v2 |
| Ewc.ParseParts | eternal/ewc.py:71-76 | the market and main loops compute the decoding of both parts |
| Ewc.ParseDeckbuilderUrlV2 | eternal/ewc.py:56-77 | the new deck holds the decoded main cards and market, and an error is the decoder's |
| Ewc.ParseDeckbuilderUrlV1 | eternal/ewc.py:80-111 | the new deck holds the decoded main cards and market, and an error is the decoder's |
| Ewc.ParseDeckbuilderUrl | eternal/ewc.py:114-127 | the new deck holds the cards of the dispatched decoder |
| Ewc.SiegeSupplierTokens | tests/test_ewc.py:6-13 | "BKqLCBB" is one 10-362 and two 1-1 |
| Ewc.SiegeSupplierCards | tests/test_ewc.py:32-34 | its cards, in link order |
| Ewc.SiegeSupplierPayload | tests/test_ewc.py:12 | the example's payload and its absent market |
| Ewc.SiegeSupplierDeck | tests/test_ewc.py:32-34 | the example link decodes to 10-362, 1-1, 1-1 with no market |
| EwcRoundTrip.ItemEntries | eternal/ewc.py:44 | each encodable item gives the entry of its id |
| EwcRoundTrip.EncodeToken | eternal/ewc.py:17-22 | ids up to 31 take 3 characters, larger ones 4 |
| EwcRoundTrip.TokenDecodes | eternal/ewc.py:30-43 | an encoded token reads back as its item wherever it stands |
| EwcRoundTrip.EncodeV2Step | eternal/ewc.py:26-44 | a token that reads as an item contributes that item's entry |
| EwcRoundTrip.EncodeV2Entries | eternal/ewc.py:24-46 | the tokens of an encoding are its items' entries, whatever prefix and short tail surround it |
| EwcRoundTrip.V2RoundTrip | eternal/ewc.py:24-46 | decoding a v2 encoding gives its items' cards in order; one or two trailing characters change nothing |
| EwcRoundTrip.EncodeV2Injective | eternal/ewc.py:24-46 | different item lists have different v2 encodings |
| EwcRoundTrip.V1TokensOf | eternal/ewc.py:105 | one token per entry |
| EwcRoundTrip.V1TokenChars | eternal/ewc.py:102 | a v1 token holds only its id's characters, ':', digits and '-' |
| EwcRoundTrip.SplitEncodeV1 | eternal/ewc.py:105 | splitting a v1 encoding on ';' gives its tokens and the trailing text |
| EwcRoundTrip.SplitEncodeV1Step | eternal/ewc.py:105 | one more entry in front adds one more piece |
| EwcRoundTrip.SplitTokens | eternal/ewc.py:105 | one more ';'-terminated token in front adds one more piece |
| EwcRoundTrip.V1TokensOfEncoding | eternal/ewc.py:105 | `[:-1]` keeps exactly the encoded tokens, so a final unterminated token is lost |
| EwcRoundTrip.SplitV1TokenOf | eternal/ewc.py:108 | a token unpacks into its id and count text |
| EwcRoundTrip.V1EntriesOfTokens | eternal/ewc.py:107-109 | the tokens of entries read back as those entries |
| EwcRoundTrip.V1RoundTrip | eternal/ewc.py:105-109 | decoding a v1 encoding gives its entries' cards in order |
| EwcRoundTrip.CardIdText | eternal/card.py:65 | card ids are made of digits and '-' |
| EwcRoundTrip.FormatsAgree | tests/test_ewc.py:36-42 | the same items in either format decode to the same cards |
| EwcRoundTrip.TokenShape | eternal/ewc.py:17-22 | a token starts upper-case and has no two adjacent lower-case letters |
| EwcRoundTrip.LowerIsolatedAppend | eternal/ewc.py:17-22 | that shape is kept by concatenation before an upper-case start |
| EwcRoundTrip.EncodeV2Shape | eternal/ewc.py:17-22 | a whole v2 encoding has that shape and only v2 letters |
| EwcRoundTrip.NoMarketInV2 | eternal/ewc.py:72 | a v2 encoding never contains "market", so it is not taken for a link with a market |
| EwcRoundTrip.NoLowerPair | eternal/ewc.py:72 | text without two adjacent lower-case letters contains no text that starts with two |
| EwcRoundTrip.V2LinkRoundTrip | eternal/ewc.py:114-127 | a v2 link of an encoding decodes to its items' cards, without market |
| EwcRoundTrip.EncodeV1Chars | eternal/ewc.py:105 | a v1 encoding holds only digits, '-', ':' and ';' |
| EwcRoundTrip.EncodeV1Colon | eternal/ewc.py:124 | a non-empty v1 encoding contains ':', so it is dispatched to v1 |
| EwcRoundTrip.V1PayloadNoI | eternal/ewc.py:123 | a v1 payload has no `main=` of its own |
| EwcRoundTrip.V1LinkPayload | eternal/ewc.py:123-125 | a v1 link's payload is its encoding and goes to v1 |
| EwcRoundTrip.V1LinkSplit | eternal/ewc.py:97-98 | a v1 payload splits into its main and market encodings |
| EwcRoundTrip.V1LinkRoundTrip | eternal/ewc.py:80-127 | a v1 link decodes to its main and market entries' cards, the market checked first |
| LegacyEwc.ParseDeckbuilderUrl | src/eternal/ewc.py:6-36 | the older decoder reads every link as v1 and builds the older deck from the decoded cards and market |
| Card.LettersIn | eternal/card.py:19 | the faction letters found are exactly those in both, in order |
| Card.InfluenceToFaction | eternal/card.py:7-23 | "None" exactly when no faction letter occurs; otherwise the strictly increasing string of exactly the letters that occur |
| Card.IncreasingUnique | eternal/card.py:19 | that contract determines the label |
| Card.InfluenceToFactionIdempotent | eternal/card.py:19-23 | classifying a label again gives the same label, "None" included |
| Card.NoneIsFactionless | eternal/card.py:22-23 | "None" classifies as itself |
| Card.InfluenceToFactionExamples | tests/test_card.py:45-48 | "" gives "None" and "{J}{F}" gives "FJ" |
| Card.InfluenceToFactionRepeated | tests/test_card.py:49 | "{T}{T}{T}" gives "T" |
| Card.LabelOf | eternal/card.py:19-21 | a strictly increasing set of the letters present is the label |
| Card.ValidateDict | eternal/card.py:76-83 | fails for a missing base field, and otherwise only for a Unit with a field outside the base and unit fields |
| Card.IsValidDict | eternal/card.py:68-74 | true exactly when validation does not fail |
| Card.MissingFieldRejected | eternal/card.py:79 | a record missing a base field is rejected |
| Card.NonUnitExtrasAccepted | eternal/card.py:80-83 | a non-Unit with any extra fields is accepted |
| Card.UnitExtraFieldRejected | eternal/card.py:82-83 | a Unit with a field outside the base and unit fields is rejected |
| Card.CardId | eternal/card.py:65 | the id is the set number, a '-' right after it, then the card number |
| Card.CardIdInjective | eternal/card.py:65 | different (set, id) pairs give different ids |
| Card.CardIdExample | tests/test_card.py:30 | set 3, id 2 gives "3-2" |
| Card.ToCardInfo | eternal/card.py:63-66 | a card built from a record keeps the record |
| Card.NewCardInfo | eternal/card.py:59-66 | construction succeeds exactly for a valid record, with the composite id, and fails with the validation error |
| Card.ValuesInOrder | eternal/card.py:200 | `list(cards_dict.values())` in key order |
| Card.Insert | eternal/card.py:199 | `dict[id] = card`: a new key goes last, an existing key keeps its place |
| Card.InsertKeepsOrder | eternal/card.py:199 | an insertion keeps the key order a list of the dict's keys |
| Card.LastValid | eternal/card.py:196-199 | a valid record with the id that no later record with the id follows, or none when no record has it |
| Card.LoadInto | eternal/card.py:196-199 | the loading loop over the records; its contents and key order are stated by the two lemmas below |
| Card.LoadIntoContents | eternal/card.py:196-199 | loading keeps exactly the valid records, keyed by id; the last valid one wins; other keys keep their earlier card |
| Card.LoadIntoKeepsOrder | eternal/card.py:196-199 | the key order stays a list of the dict's keys |
| Card.CardCollection.constructor | eternal/card.py:179-186 | a new collection is empty |
| Card.CardCollection.Load | eternal/card.py:188-201 | the dict and its key order become the loading of the records, and the card list is its values in order |
| Card.CardCollection.GetItem | eternal/card.py:203-204 | the card with that id, or a KeyError exactly when it is absent |
| Card.MaxPowerAt | eternal/card.py:132 | `\+. Maximum Power` matches at a position: a '+', any character but a newline, then " Maximum Power" |
| Card.DrawSigilMatch | eternal/card.py:162-163 | `(?i)draw a .*sigil` has a match in the text, with ASCII case folding |
| Card.FirstMaxPower | eternal/card.py:132-133 | the leftmost "+. Maximum Power" match at or after a position, or none |
| Card.PowerCount | eternal/card.py:90-113 | 0 or 1; 1 for Power; otherwise 1 exactly for a draw-a-sigil text at cost at most 2 outside the zero entries of the exception table |
| Card.EpcPowerCount | eternal/card.py:115-173 | 0..9; 1 for Power and the two draw-power ids; an error exactly when the first "+X Maximum Power" has no digit X |
| Card.EpcTableWins | eternal/card.py:152-161 | without a Maximum Power text, a card of the hand-set table counts its table value, at every cost and whatever its text |
| Card.EpcDrawSigil | eternal/card.py:161-166 | without a Maximum Power text and outside the tables, the count is 1 exactly for a draw-a-sigil text and 0 otherwise, at every cost |
| Card.EpcTableExamples | eternal/card.py:152-159 | Brilliant Discovery counts 2, Reliable Troops 1 and Spire Chaplain 0 |
| Card.EpcMaxPowerDigit | eternal/card.py:130-144 | with a "+X Maximum Power" text the count is the digit after the first match's '+' |
| Card.PowerCountsAgree | eternal/card.py:95-166 | both counts agree on a cheap card outside every table and without a Maximum Power text |
| Card.EpcIgnoresCost | eternal/card.py:101-166 | an expensive draw-a-sigil card counts in the total-power count only |
| LegacyCard.ValidateDict | src/eternal/card.py:58-65 | the older check fails exactly for a missing base field |
| LegacyCard.IsValidDict | src/eternal/card.py:50-56 | true exactly when the base fields are present |
| LegacyCard.MissingFieldRejected | src/eternal/card.py:61 | a record missing a base field is rejected |
| LegacyCard.AcceptsMoreThanCurrent | src/eternal/card.py:61-65 | every record the current check accepts, the older one does too |
| LegacyCard.UnitWithExtraFieldAccepted | src/eternal/card.py:62-65 | a Unit with an extra field passes the older check and fails the current one |
| LegacyCard.NewCardInfo | src/eternal/card.py:44-48 | construction succeeds exactly for a record with the base fields, with the composite id |
| LegacyCard.CardCollection.constructor | src/eternal/card.py:71-78 | a new collection is empty |
| LegacyCard.CardCollection.Load | src/eternal/card.py:80-93 | the dict becomes the loading of the records under the older check, and the cards are its values |
| LegacyCard.CardCollection.GetItem | src/eternal/card.py:95-96 | the card with that id, or a KeyError exactly when it is absent |
| Deck.NonPowerWith | eternal/deck.py:32-35 | a count is at most the number of cards, and 0 exactly when no card counts |
| Deck.NonPowerWithAppend | eternal/deck.py:35 | counts add over concatenation |
| Deck.NonCountingCardsAddNothing | eternal/deck.py:27-32 | Power and cards without the letter add nothing |
| Deck.FactionCountsOf | eternal/deck.py:32-36 | the five faction keys, each with its number of non-Power cards naming it, at most the number of cards |
| Deck.FillStep | eternal/deck.py:34-35 | one loop step fills one more letter |
| Deck.FillComplete | eternal/deck.py:33-36 | after the loop the counts have the five faction keys with their counts |
| Deck.Select | eternal/deck.py:54-55 | a mask keeps exactly the letters whose count is in the band, each once |
| Deck.DistinctCardinality | eternal/deck.py:65-66 | a string without repeats has as many letters as it is long |
| Deck.SharingLetter | eternal/deck.py:71-73 | keeps exactly the cards sharing a letter, none for no letters |
| Deck.SharingLetterCopies | eternal/deck.py:73 | a selected card keeps all its copies, any other card none |
| Deck.SharingLetterAppend | eternal/deck.py:73 | the selection keeps card order |
| Deck.SharingLetterSameSet | eternal/deck.py:71 | only the set of letters matters |
| Deck.CountType | eternal/deck.py:79 | positive exactly when a card has the type |
| Deck.TypeCounts | eternal/deck.py:79 | the present types, each with its number of cards |
| Deck.TypesOf | eternal/deck.py:79 | the present types, each once |
| Deck.SumOverUpdate | eternal/deck.py:79 | updating one key changes a sum over distinct keys only there |
| Deck.TypeCountsTotal | eternal/deck.py:79 | the type counts add up to the number of cards |
| Deck.Deck.constructor | eternal/deck.py:9-24 | the main cards and the market (or its absence) are stored as given |
| Deck.Deck.FactionCounts | eternal/deck.py:26-36 | all five faction keys, each with its number of non-Power main cards naming it; an error for no main cards |
| Deck.Deck.Faction | eternal/deck.py:38-56 | the mains are exactly the letters counted at least 6 times, the splashes exactly those counted 1 to 5 times |
| Deck.Deck.FactionPartition | eternal/deck.py:54-55 | mains and splashes are disjoint and together the letters with a nonzero count |
| Deck.Deck.FactionString | eternal/deck.py:58-66 | upper-case mains and lower-case splashes, as long as the number of factions with a nonzero count, no lower-case letter before an upper-case one |
| Deck.Deck.UpperThenLower | eternal/deck.py:66 | upper-case letters followed by lower-cased ones put no lower-case letter before an upper-case one |
| Deck.Deck.FactionStringFacts | eternal/deck.py:65-66 | the same facts about the concatenation itself |
| Deck.Deck.CardsSplash | eternal/deck.py:68-73 | exactly the main cards sharing a letter with a splash faction, every copy of each and no copy of any other, in deck order; none without splashes |
| Deck.Deck.CardsSplashOrderFree | eternal/deck.py:70-73 | the splashed cards do not depend on the faction-set order |
| Deck.Deck.Types | eternal/deck.py:75-79 | each present type with its number of main cards; the counts add up to the number of main cards |
| LegacyDeck.Deck.constructor | src/eternal/deck.py:6-21 | the main cards and the market (or its absence) are stored as given |
| LegacyDeck.Deck.Faction | src/eternal/deck.py:23-31 | always fails as not implemented |
| LegacyDeck.Deck.Types | src/eternal/deck.py:33-37 | each present type with its number of main cards; the counts add up to the number of main cards |
| LegacyDeck.TypesAgree | src/eternal/deck.py:33-37 | the older and current decks count types alike |
| Format.ScaleOf | eternal/format.py:31 | `10 ** (idx * 3 or 2)`: 100 for the first scale, 10^(3 idx) after |
| Format.Pow10Grows | eternal/format.py:31 | powers of ten grow with the exponent |
| Format.ScaleValues | eternal/format.py:26-31 | the scales are 10^2, 10^3, 10^6, 10^9 and 10^12 |
| Format.UnitEntries | eternal/format.py:29 | each unit word is worth (1, its index) |
| Format.TenEntries | eternal/format.py:30 | each tens word is worth (1, 10 times its index) |
| Format.ScaleEntries | eternal/format.py:31 | each scale word is worth (its scale, 0) |
| Format.LastValue | eternal/format.py:28-31 | a key is absent exactly when no entry writes it |
| Format.LastIndex | eternal/format.py:28-31 | the last position of a word |
| Format.LastValueAppend | eternal/format.py:28-31 | later writes win |
| Format.LastValueOfWords | eternal/format.py:29-31 | a listed word holds the entry at its last position |
| Format.Written | eternal/format.py:28-31 | the written table holds exactly the written keys, each with its last value |
| Format.WrittenStep | eternal/format.py:28-31 | one more write updates one key |
| Format.WrittenPrefixStep | eternal/format.py:29-31 | one more loop step updates one key |
| Format.Get | eternal/format.py:35-38 | a table look-up finds exactly the table's words |
| Format.LastValueTables | eternal/format.py:28-31 | the tables as written give each word the value of the last list holding it |
| Format.WrittenTables | eternal/format.py:28-31 | the filled table holds those values |
| Format.WriteUnits | eternal/format.py:29 | the units loop writes the unit entries |
| Format.WriteTens | eternal/format.py:30 | the tens loop writes the tens entries |
| Format.WriteScales | eternal/format.py:31 | the scales loop writes the scale entries |
| Format.FillNumWords | eternal/format.py:17-31 | the filled table is "and" then the three lists, written in order |
| Format.DefaultNumWords | eternal/format.py:17-31 | the table `text2int` fills: "and", then the units, tens and scales entries, written in that order; its values are stated by Format.DefaultTable |
| Format.DefaultTable | eternal/format.py:17-31 | the default table gives each word its lists' value |
| Format.AndUnlisted | eternal/format.py:18-26 | "and" is in neither the units nor the scales |
| Format.DefaultAnd | eternal/format.py:28 | "and" is worth (1, 0) |
| Format.Step | eternal/format.py:38-42 | one word keeps `result + current` equal to the old `result` plus `current * scale + increment`; a scale above 100 empties `current`, any other leaves `result` alone |
| Format.Fold | eternal/format.py:34-42 | no words leave the accumulators as they were; a failure names a word of the text that is not in the table |
| Format.TextValue | eternal/format.py:33-44 | a text without words is 0; a failure names one of its words that is not in the table |
| Format.TableOf | eternal/format.py:17-31 | a non-empty table is used as given; an empty one is replaced by the default table, where "and" is worth (1, 0) |
| Format.FoldWords | eternal/format.py:33-44 | the accumulator loop computes `result + current` of the fold, or the first illegal word |
| Format.Text2Int | eternal/format.py:13-44 | `text2int` is the fold over the whitespace-separated words with the table given, or the default table when it is empty |
| Format.FoldFails | eternal/format.py:35-36 | parsing fails exactly when a word is not in the table, naming the first such word |
| Format.TextValueFails | eternal/format.py:34-36 | the same for the words of a text |
| Format.FoldAppend | eternal/format.py:34-42 | the words of a concatenation are folded one part after the other |
| Format.NeutralWord | eternal/format.py:28-39 | a word worth (1, 0), such as "and", can be dropped anywhere |
| Format.HundredsFold | eternal/format.py:34-42 | with the usual entries, "one hundred twenty three" leaves 123 in `current` |
| Format.ThousandsFold | eternal/format.py:34-42 | with the usual entries, "two thousand and five" moves 2000 into `result` at the thousand and leaves 5 in `current` |
| Format.HundredsExample | eternal/format.py:13-44 | with the default table, "one hundred twenty three" is 123 |
| Format.ThousandsExample | eternal/format.py:13-44 | with the default table, "two thousand and five" is 2005 |
| Strings.IsSpace | eternal/format.py:34 | the characters `str.isspace` accepts, which `split()` cuts at |
| Strings.Words | eternal/format.py:34 | `split()` gives non-empty words without whitespace |
| Strings.WordsOfJoin | eternal/format.py:34 | space-joined words split back into the words |
| Format.SigilIds | eternal/format.py:220 | exactly the catalog ids whose name ends in " Sigil" |
| Format.Matches | eternal/format.py:259-261 | a card id matches a format when it starts with the set number and '-', is a Sigil or is boosted |
| Format.Score | eternal/format.py:259-264 | counts the deck cards matching the format: all exactly when every card matches, none exactly when none does |
| Format.Scores | eternal/format.py:259-264 | one score per format, in order |
| Format.MaxOf | eternal/format.py:265 | the maximum is a score and bounds every score |
| Format.VersionsAt | eternal/format.py:268 | exactly the versions with the given score |
| Format.VersionsAtSingle | eternal/format.py:268 | a single version at the score gives a one-element list |
| Format.MatchVersion | eternal/format.py:248-274 | no formats or a best score below 45 is an error; a tie lists exactly the versions at the best score |
| Format.UniqueBestWins | eternal/format.py:265-274 | a version with at least 45 matches and strictly more than every other is the answer |
| Format.UniqueIsBest | eternal/format.py:265-274 | a unique answer is a version with at least 45 matches and strictly more than every other version |
| Format.VersionsAtOne | eternal/format.py:268 | with distinct versions, one version at the best score means no other format reaches it |
| Format.ScoreFormats | eternal/format.py:258-264 | the scoring loop computes the scores in format order |
| Format.MatchDeckFormatVersion | eternal/format.py:248-274 | the method computes the match up to the tie-break |
| Plot.ColorsFrom | eternal/plot.py:16-23 | one colour per entry |
| Plot.FactionColors | eternal/plot.py:4-23 | one colour per entry; each colour is given by Plot.ColorAt |
| Plot.Unknowns | eternal/plot.py:22 | the number of entries advancing the palette is at most their number |
| Plot.AssignColors | eternal/plot.py:16-23 | the loop with its cycling iterator computes the specified colours |
| Plot.GetFactionColors | eternal/plot.py:4-23 | `get_faction_colors` computes the colours of its fixed table and palette |
| Plot.ColorsFromAppend | eternal/plot.py:17-22 | the colours of a concatenation: the second part continues the palette where the first stopped |
| Plot.SameLength | eternal/plot.py:16-23 | the output is as long as the input |
| Plot.ColorAt | eternal/plot.py:14-22 | a known entry gets its fixed colour, an unknown one the palette colour at the number of unknown entries before it, round the palette |
| Plot.KnownEntryNeutral | eternal/plot.py:19-22 | known entries do not advance the palette |
| Plot.PaletteRepeats | eternal/plot.py:15-22 | the palette repeats every three unknown entries |
| Plot.DocExample | eternal/plot.py:9 | ['F', 'None', 'FT'] gets red, grey, magenta |
| Strings.Contains | eternal/ewc.py:72 | Python's `sub in s` (also at eternal/ewc.py:97 and :124): `sub` occurs at some position of `s` |
| Strings.Split | eternal/ewc.py:105 | `split` gives at least one piece |
| Strings.JoinSplit | eternal/ewc.py:105 | joining the pieces with the separator gives the string back |
| Strings.SplitCount | eternal/ewc.py:73 | two pieces or more exactly when the separator occurs |
| Strings.SplitPiecesFree | eternal/ewc.py:108 | no piece contains the separator |
| Strings.SplitTwo | eternal/ewc.py:73 | a separator-free prefix, the separator and a separator-free rest give exactly two pieces |
| Strings.ParseInt | eternal/ewc.py:109 | `int` of one character is its digit value |
| Strings.IntToString | eternal/ewc.py:44 | `str(i)` is non-empty and starts with '-' exactly for negatives |
| Strings.IntToStringRoundTrip | eternal/ewc.py:44-45 | `int(str(i)) == i` |
| Strings.NatToStringInjective | eternal/card.py:65 | different numbers render differently |
| Strings.Lower | eternal/deck.py:66 | `lower()` maps each ASCII capital to its small letter |

## Left out

- `urlparse` / `urllib.parse.urlparse`: a foreign library. The decoders start from the query string.
- The global catalog `eternal.card.ALL` and the JSON file load behind it (file I/O): the catalog is a map parameter, and `CardCollection.Load` takes the list of records.
- pandas `Series` and `DataFrame` (`main_data`, `market_data`, `CardCollection.data`): cards are records and decks are sequences. Only the facts the code reads from them are kept, such as the missing `Type` column of an empty deck.
- Card records keep only the fields the code reads: the key set, type, set number, id, name, cost, influence and text.
- Card construction from another `CardInfo`: it copies the other card's fields, so it is the identity on the model.
- `Deck.unit_stats` in both deck files: a floating-point mean.
- The `scrape_*` functions, `DraftFormat.load_json` / `save_json`, `_load_from_disk` and `_calculate_offer_rates`: network access, HTML parsing, file and glob I/O, and floating-point arithmetic. The formats are a parameter, in table order, with their set numbers and boosted ids.
- Format.MatchVersion: the tie-break at eternal/format.py:271-273 sorts by floating-point offer rates, so a tie is returned as `Tied` with the tied versions instead of one of them.
- Format.Text2Int: `numwords={}` is a mutable default that the first call fills and later calls reuse; the model uses the default table whenever the given one is empty, and does not model the caller's dictionary being filled.
- Format.MatchVersion: it takes the deck's card ids as a free `cardIds` sequence (one id per copy of a main card at eternal/format.py:256) and the Sigil ids as a free `sigilIds` set (`SIGIL_IDS` at eternal/format.py:220); neither is tied to `Deck.Deck.mainCards` or to `Format.SigilIds`.
- Format.MatchDeckFormatVersion: takes the same two free parameters as Format.MatchVersion.
- Strings.ParseInt: Python `int()` is modelled for an optional sign and ASCII digits, without surrounding whitespace, underscores or other Unicode digits.
- Strings.Lower: `lower()` is modelled for ASCII letters only.
- Card.DrawSigilMatch: the `(?i)` match folds ASCII letters only. Python's `re.IGNORECASE` also treats 's' and 'ſ' (U+017F) as equal, and 'i' as equal to 'ı' (U+0131) and 'İ' (U+0130), so a text such as "Draw a ſigil" matches in the source but not in the model.
- Regular expressions: `(?i)draw a .*sigil` and `\+. Maximum Power` are explicit predicates, not the regex engine. `findall` is needed only for whether a match exists and for its first match.
- The `play a .*sigil` pattern and `PLAY_SIGIL_EXCEPTIONS` (eternal/card.py:170-171) are never used, so they have no effect to model.
- `epc_power_count` on a Maximum Power text whose character after '+' is not a digit: Python raises `ValueError` from `int`; the model returns an error.
- `__repr__`: string formatting for display.
- `eternal/7win.py` and `src/eternal/7win.py`: CSV reports, plotting and printing.
- EwcRoundTrip.EncodeToken: the encoder covers count letters B..Z, sets A..P and ids 1..831 (multipliers B..Z). The decoder itself accepts any multiplier character and is modelled for all of them.

## Findings

| source | as written | input that shows it | evidently intended | confidence | as-written member | corrected member |
|---|---|---|---|---|---|---|
| src/eternal/card.py:62-65 | `extra_fields = BASE_FIELDS.difference(fields)` is empty once the subset assertion has passed, so the Unit check never runs | a Unit record with all 13 base fields plus a `Flavor` field is accepted | the extra fields are `fields` minus the base fields, so a Unit may carry only `UnitType` besides them, as eternal/card.py:80-83 does | not executed | LegacyCard.UnitWithExtraFieldAccepted | Card.UnitExtraFieldRejected |

`LegacyCard` models the older file as written: its collection loads with the
older check. The decoder and the deck model use the `Card` module, with the
corrected check.
