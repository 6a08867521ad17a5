/** The deck-builder link decoder: the query string's `main=` payload (and
    its optional `&market=` part) in the v1 format (`<set>-<id>:<count>;`
    tokens) or the packed v2 format, resolved against a card catalog. */
module Ewc {
  import opened Wrappers
  import opened Strings
  import Card
  import Deck

  /** The card catalog: the collection's dict from card id to card. */
  type Catalog = map<string, Card.CardInfo>

  /** Why decoding stops; each corresponds to the exception the source raises. */
  datatype DecodeError =
    | UnknownCount(ch: char)        // KeyError in the count table
    | UnknownSet(ch: char)          // KeyError in the set table
    | MissingMultiplier(at: nat)    // IndexError: no fourth character
    | UnknownIdChar(ch: char)       // ValueError from the repeating table's index
    | UnknownCard(cid: string)      // KeyError in the catalog
    | BadToken(token: string)       // ValueError: a v1 token is not `<id>:<count>`
    | BadCount(text: string)        // ValueError from int()
    | MissingMain                   // IndexError: no `main=` in the query
    | BadMarketSplit(pieces: nat)   // ValueError: not exactly two pieces around `&market=`

  // ---------------------------------------------------------------------
  // The v2 lookup tables
  // ---------------------------------------------------------------------

  /** Count letters: B=1 ... Z=25. */
  const CountLetters: string := "BCDEFGHIJKLMNOPQRSTUVWXYZ"
  /** Set letters: A=0 ... P=15. */
  const SetLetters: string := "ABCDEFGHIJKLMNOP"
  /** One-character ids: B=1 ... Z=25, a=26 ... f=31. */
  const IdLetters: string := "BCDEFGHIJKLMNOPQRSTUVWXYZabcdef"
  /** The repeating alphabet of two-character ids. */
  const RepeatingIdLetters: string := "ghijklmnopqrstuvwxyz0123456789-_"

  predicate Distinct(s: string) {
    forall i, j | 0 <= i < j < |s| :: s[i] != s[j]
  }

  /** The position of the first `c` in `s` (a table look-up or `str.index`). */
  function IndexOf(s: string, c: char): (r: Option<nat>)
    ensures r.Some? ==> r.value < |s| && s[r.value] == c
  {
    if |s| == 0 then None
    else if s[0] == c then Some(0)
    else
      match IndexOf(s[1..], c)
      case None => None
      case Some(k) =>
        assert s[k + 1] == s[1..][k];
        Some(k + 1)
  }

  /** The look-up fails exactly when the letter is absent, and otherwise
      finds its first occurrence. */
  lemma {:induction false} IndexOfFirst(s: string, c: char)
    ensures IndexOf(s, c).None? <==> c !in s
    ensures IndexOf(s, c).Some? ==> forall k | 0 <= k < IndexOf(s, c).value :: s[k] != c
  {
    if |s| > 0 && s[0] != c {
      IndexOfFirst(s[1..], c);
      assert forall d :: d in s <==> d == s[0] || d in s[1..];
      assert forall m | 1 <= m < |s| :: s[m] == s[1..][m - 1];
    }
  }

  /** In a table without repeats, a look-up finds each letter's own position. */
  lemma IndexOfDistinct(s: string, i: nat)
    requires Distinct(s) && i < |s|
    ensures IndexOf(s, s[i]) == Some(i)
  {
    IndexOfFirst(s, s[i]);
  }

  /** The dict built from a table, `{x: i + offset for i, x in
      enumerate(table)}`, looked up at `c` (None for a missing key); with
      offset 0 it is also `table.index(c)`. */
  function TableValue(table: string, offset: nat, c: char): (r: Option<nat>)
    ensures r.None? <==> IndexOf(table, c).None?
    ensures r.Some? ==> r.value >= offset && r.value - offset < |table| && table[r.value - offset] == c
  {
    match IndexOf(table, c)
    case None => None
    case Some(i) => Some(i + offset)
  }

  /** The character of each position of the repeating alphabet. */
  function RepeatingChar(i: nat): char
    requires i < 32
  {
    if i < 20 then (('g' as int) + i) as char
    else if i < 30 then (('0' as int) + i - 20) as char
    else if i == 30 then '-' else '_'
  }

  lemma CountChars()
    ensures |CountLetters| == 25 && forall i | 0 <= i < 25 :: CountLetters[i] as int == 'B' as int + i
  {
  }

  lemma SetChars()
    ensures |SetLetters| == 16 && forall i | 0 <= i < 16 :: SetLetters[i] as int == 'A' as int + i
  {
  }

  lemma IdChars()
    ensures |IdLetters| == 31
    ensures forall i | 0 <= i < 31 ::
      IdLetters[i] as int == if i < 25 then 'B' as int + i else 'a' as int + i - 25
  {
  }

  lemma RepeatChars()
    ensures |RepeatingIdLetters| == 32 && forall i | 0 <= i < 32 :: RepeatingIdLetters[i] == RepeatingChar(i)
  {
  }

  /** No table repeats a letter, and the repeating alphabet shares no letter
      with the one-character ids. */
  lemma TablesDistinct()
    ensures Distinct(CountLetters) && Distinct(SetLetters)
    ensures Distinct(IdLetters) && Distinct(RepeatingIdLetters)
    ensures forall i | 0 <= i < |RepeatingIdLetters| :: RepeatingIdLetters[i] !in IdLetters
  {
    CountChars();
    SetChars();
    IdChars();
    RepeatChars();
    forall i | 0 <= i < |RepeatingIdLetters| ensures RepeatingIdLetters[i] !in IdLetters {
      forall j | 0 <= j < |IdLetters| ensures IdLetters[j] != RepeatingIdLetters[i] {
      }
    }
  }

  /** The count table by code point: B=1 ... Z=25. */
  function CountValue(c: char): (r: Option<nat>)
    ensures r.Some? ==> 1 <= r.value <= 25
  {
    if 'B' <= c <= 'Z' then Some((c as int) - ('B' as int) + 1) else None
  }

  /** The set table by code point: A=0 ... P=15. */
  function SetValue(c: char): (r: Option<nat>)
    ensures r.Some? ==> r.value <= 15
  {
    if 'A' <= c <= 'P' then Some((c as int) - ('A' as int)) else None
  }

  /** The one-character id table by code point: B=1 ... Z=25, a=26 ... f=31. */
  function IdValue(c: char): (r: Option<nat>)
    ensures r.Some? ==> 1 <= r.value <= 31
  {
    if 'B' <= c <= 'Z' then Some((c as int) - ('B' as int) + 1)
    else if 'a' <= c <= 'f' then Some((c as int) - ('a' as int) + 26)
    else None
  }

  /** The position in the repeating alphabet by code point. */
  function RepeatIndex(c: char): (r: Option<nat>)
    ensures r.Some? ==> r.value < 32
  {
    if 'g' <= c <= 'z' then Some((c as int) - ('g' as int))
    else if '0' <= c <= '9' then Some((c as int) - ('0' as int) + 20)
    else if c == '-' then Some(30)
    else if c == '_' then Some(31)
    else None
  }

  /** A candidate value agrees with a table without repeats when it names
      the letter's position, or is None for a letter the table lacks. */
  lemma TableAgrees(table: string, offset: nat, c: char, v: Option<nat>)
    requires Distinct(table)
    requires v.Some? ==> v.value >= offset && v.value - offset < |table| && table[v.value - offset] == c
    requires v.None? ==> c !in table
    ensures v == TableValue(table, offset, c)
  {
    IndexOfFirst(table, c);
    if v.Some? {
      IndexOfDistinct(table, v.value - offset);
    }
  }

  /** The code-point look-ups are the source's tables. */
  lemma CountAgrees(c: char)
    ensures CountValue(c) == TableValue(CountLetters, 1, c)
  {
    CountChars();
    TablesDistinct();
    if CountValue(c).None? {
      forall i | 0 <= i < |CountLetters| ensures CountLetters[i] != c { }
    }
    TableAgrees(CountLetters, 1, c, CountValue(c));
  }

  lemma SetAgrees(c: char)
    ensures SetValue(c) == TableValue(SetLetters, 0, c)
  {
    SetChars();
    TablesDistinct();
    if SetValue(c).None? {
      forall i | 0 <= i < |SetLetters| ensures SetLetters[i] != c { }
    }
    TableAgrees(SetLetters, 0, c, SetValue(c));
  }

  lemma IdAgrees(c: char)
    ensures IdValue(c) == TableValue(IdLetters, 1, c)
  {
    IdChars();
    TablesDistinct();
    if IdValue(c).None? {
      forall i | 0 <= i < |IdLetters| ensures IdLetters[i] != c { }
    }
    TableAgrees(IdLetters, 1, c, IdValue(c));
  }

  lemma RepeatAgrees(c: char)
    ensures RepeatIndex(c) == TableValue(RepeatingIdLetters, 0, c)
  {
    RepeatChars();
    TablesDistinct();
    if RepeatIndex(c).None? {
      forall i | 0 <= i < |RepeatingIdLetters| ensures RepeatingIdLetters[i] != c { }
    } else {
      assert RepeatingIdLetters[RepeatIndex(c).value] == c;
    }
    TableAgrees(RepeatingIdLetters, 0, c, RepeatIndex(c));
  }

  lemma LookupsAgree(c: char)
    ensures CountValue(c) == TableValue(CountLetters, 1, c)
    ensures SetValue(c) == TableValue(SetLetters, 0, c)
    ensures IdValue(c) == TableValue(IdLetters, 1, c)
    ensures RepeatIndex(c) == TableValue(RepeatingIdLetters, 0, c)
  {
    CountAgrees(c);
    SetAgrees(c);
    IdAgrees(c);
    RepeatAgrees(c);
  }

  /** A letter is a key of a table exactly when its look-up succeeds. */
  lemma LookupsFind(c: char)
    ensures CountValue(c).Some? <==> c in CountLetters
    ensures SetValue(c).Some? <==> c in SetLetters
    ensures IdValue(c).Some? <==> c in IdLetters
    ensures RepeatIndex(c).Some? <==> c in RepeatingIdLetters
  {
    LookupsAgree(c);
    IndexOfFirst(CountLetters, c);
    IndexOfFirst(SetLetters, c);
    IndexOfFirst(IdLetters, c);
    IndexOfFirst(RepeatingIdLetters, c);
  }

  /** A look-up of a table's `i`-th letter finds `i` (plus the offset). */
  lemma TableLookup(table: string, i: nat)
    requires table in {CountLetters, SetLetters, IdLetters, RepeatingIdLetters}
    requires i < |table|
    ensures IndexOf(table, table[i]) == Some(i)
  {
    TablesDistinct();
    IndexOfDistinct(table, i);
  }

  // ---------------------------------------------------------------------
  // v2 tokens
  // ---------------------------------------------------------------------

  /** A two-character id: the repeating letter's position plus the
      multiplier's distance from 'B' times the alphabet's length, past the 31
      one-character ids. */
  function TwoCharId(repeatIndex: nat, multiplier: char): (id: int)
    ensures id == repeatIndex + 32 * ((multiplier as int) - ('B' as int)) + 32
  {
    repeatIndex + |RepeatingIdLetters| * ((multiplier as int) - ('B' as int)) + |IdLetters| + 1
  }

  /** One decoded v2 token: count, set, id and the characters it used. */
  datatype V2Token = V2Token(count: int, setNumber: int, eternalId: int, width: nat)

  /** The token at `ix`: a count letter, a set letter, then either a
      one-character id or a repeating-alphabet letter and a multiplier
      character. The multiplier is any character: its code point minus that
      of 'B' scales the repeating alphabet's length. */
  function ParseV2Token(s: string, ix: nat): (r: Result<V2Token, DecodeError>)
    requires ix + 3 <= |s|
    ensures r.Ok? ==> 1 <= r.value.count <= 25 && 0 <= r.value.setNumber <= 15
    ensures r.Ok? ==> (r.value.width == 3 || r.value.width == 4) && ix + r.value.width <= |s|
  {
    var x, y, z := s[ix], s[ix + 1], s[ix + 2];
    match CountValue(x)
    case None => Err(UnknownCount(x))
    case Some(count) =>
      match SetValue(y)
      case None => Err(UnknownSet(y))
      case Some(setNumber) =>
        match IdValue(z)
        case Some(id) => Ok(V2Token(count, setNumber, id, 3))
        case None =>
          if ix + 3 == |s| then Err(MissingMultiplier(ix + 3))
          else
            var zMultiply := s[ix + 3];
            match RepeatIndex(z)
            case None => Err(UnknownIdChar(z))
            case Some(k) => Ok(V2Token(count, setNumber, TwoCharId(k, zMultiply), 4))
  }

  /** The outcome of reading a token, case by case in the order the source
      checks them: count letter, set letter, one-character id, then (for a
      two-character id) the presence of the multiplier before the validity
      of the repeating letter. */
  lemma ParseV2TokenCases(s: string, ix: nat)
    requires ix + 3 <= |s|
    ensures var r := ParseV2Token(s, ix);
      && (s[ix] !in CountLetters ==> r == Err(UnknownCount(s[ix])))
      && (s[ix] in CountLetters && s[ix + 1] !in SetLetters ==> r == Err(UnknownSet(s[ix + 1])))
      && (s[ix] in CountLetters && s[ix + 1] in SetLetters && s[ix + 2] in IdLetters ==>
            r.Ok? && r.value.width == 3 && 1 <= r.value.eternalId <= 31)
      && (s[ix] in CountLetters && s[ix + 1] in SetLetters && s[ix + 2] !in IdLetters ==>
            if ix + 3 == |s| then r == Err(MissingMultiplier(ix + 3))
            else if s[ix + 2] !in RepeatingIdLetters then r == Err(UnknownIdChar(s[ix + 2]))
            else (var k := IndexOf(RepeatingIdLetters, s[ix + 2]);
              r.Ok? && r.value.width == 4 && k.Some?
              && r.value.eternalId == k.value + 32 * ((s[ix + 3] as int) - ('B' as int)) + 32))
  {
    LookupsFind(s[ix]);
    LookupsFind(s[ix + 1]);
    LookupsFind(s[ix + 2]);
    LookupsAgree(s[ix + 2]);
  }

  /** The token read from its table letters: count, set and one-character id. */
  lemma OneCharToken(s: string, ix: nat, c: nat, k: nat, j: nat)
    requires ix + 3 <= |s| && c < |CountLetters| && k < |SetLetters| && j < |IdLetters|
    requires s[ix] == CountLetters[c] && s[ix + 1] == SetLetters[k] && s[ix + 2] == IdLetters[j]
    ensures ParseV2Token(s, ix) == Ok(V2Token(c + 1, k, j + 1, 3))
  {
    CountChars();
    SetChars();
    IdChars();
  }

  /** The token read from its table letters and a multiplier. */
  lemma TwoCharToken(s: string, ix: nat, c: nat, k: nat, j: nat)
    requires ix + 4 <= |s| && c < |CountLetters| && k < |SetLetters| && j < |RepeatingIdLetters|
    requires s[ix] == CountLetters[c] && s[ix + 1] == SetLetters[k] && s[ix + 2] == RepeatingIdLetters[j]
    ensures ParseV2Token(s, ix) == Ok(V2Token(c + 1, k, TwoCharId(j, s[ix + 3]), 4))
  {
    CountChars();
    SetChars();
    RepeatChars();
  }

  // ---------------------------------------------------------------------
  // Entries and their expansion into cards
  // ---------------------------------------------------------------------

  /** A decoded (card id, count) pair. */
  datatype Entry = Entry(cid: string, count: int)

  /** `[card] * n`: n copies, none when n is not positive. */
  function Repeat(c: Card.CardInfo, n: int): (r: seq<Card.CardInfo>)
    ensures |r| == if n > 0 then n else 0
    ensures forall i | 0 <= i < |r| :: r[i] == c
    decreases if n > 0 then n else 0
  {
    if n <= 0 then [] else [c] + Repeat(c, n - 1)
  }

  /** The number of cards the entries stand for. */
  function TotalCount(entries: seq<Entry>): nat {
    if |entries| == 0 then 0
    else (if entries[0].count > 0 then entries[0].count else 0) + TotalCount(entries[1..])
  }

  /** Each entry's card, repeated `count` times next to each other, in entry
      order; the first entry whose id is not in the catalog is an error. */
  function Expand(catalog: Catalog, entries: seq<Entry>): (r: Result<seq<Card.CardInfo>, DecodeError>)
    ensures r.Ok? <==> forall i | 0 <= i < |entries| :: entries[i].cid in catalog
    ensures r.Ok? ==> |r.value| == TotalCount(entries)
    ensures r.Ok? ==> forall c | c in r.value :: c in catalog.Values
    ensures r.Err? ==> exists i | 0 <= i < |entries| :: entries[i].cid !in catalog && r.error == UnknownCard(entries[i].cid)
  {
    if |entries| == 0 then Ok([])
    else if entries[0].cid !in catalog then Err(UnknownCard(entries[0].cid))
    else
      var card := catalog[entries[0].cid];
      match Expand(catalog, entries[1..])
      case Err(e) => Err(e)
      case Ok(rest) =>
        assert forall i | 1 <= i < |entries| :: entries[i] == entries[1..][i - 1];
        Ok(Repeat(card, entries[0].count) + rest)
  }

  /** Cards may be prepended to a decoding result. */
  function Prepend(cards: seq<Card.CardInfo>, r: Result<seq<Card.CardInfo>, DecodeError>)
    : Result<seq<Card.CardInfo>, DecodeError>
  {
    match r
    case Ok(rest) => Ok(cards + rest)
    case Err(e) => Err(e)
  }

  lemma PrependEmpty(r: Result<seq<Card.CardInfo>, DecodeError>)
    ensures Prepend([], r) == r
  {
    if r.Ok? {
      assert [] + r.value == r.value;
    }
  }

  lemma PrependPrepend(a: seq<Card.CardInfo>, b: seq<Card.CardInfo>, r: Result<seq<Card.CardInfo>, DecodeError>)
    ensures Prepend(a, Prepend(b, r)) == Prepend(a + b, r)
  {
    if r.Ok? {
      assert a + (b + r.value) == (a + b) + r.value;
    }
  }

  /** Expansion of a concatenation is the concatenation of the expansions,
      so the output keeps the entry order. */
  lemma {:induction false} ExpandAppend(catalog: Catalog, a: seq<Entry>, b: seq<Entry>)
    requires Expand(catalog, a).Ok?
    ensures Expand(catalog, a + b) == Prepend(Expand(catalog, a).value, Expand(catalog, b))
    decreases |a|
  {
    if |a| == 0 {
      assert a + b == b;
      PrependEmpty(Expand(catalog, b));
    } else {
      assert (a + b)[0] == a[0] && (a + b)[1..] == a[1..] + b;
      assert forall i | 1 <= i < |a| :: a[i] == a[1..][i - 1];
      ExpandAppend(catalog, a[1..], b);
      PrependPrepend(Repeat(catalog[a[0].cid], a[0].count), Expand(catalog, a[1..]).value, Expand(catalog, b));
    }
  }

  /** A single entry expands to its card `count` times. */
  lemma ExpandSingle(catalog: Catalog, e: Entry)
    requires e.cid in catalog
    ensures Expand(catalog, [e]) == Ok(Repeat(catalog[e.cid], e.count))
  {
    assert [e][1..] == [];
    var cards := Repeat(catalog[e.cid], e.count);
    assert cards + [] == cards;
  }

  // ---------------------------------------------------------------------
  // The v2 decoder
  // ---------------------------------------------------------------------

  /** The v2 tokens from `ix` on, as entries, while at least 3 characters
      remain. */
  function V2Entries(s: string, ix: nat): (r: Result<seq<Entry>, DecodeError>)
    ensures r.Ok? ==> forall e | e in r.value :: 1 <= e.count <= 25
    ensures r.Ok? && ix <= |s| ==> 3 * |r.value| <= |s| - ix
    decreases |s| - ix
  {
    if ix + 3 > |s| then Ok([])
    else
      match ParseV2Token(s, ix)
      case Err(e) => Err(e)
      case Ok(t) =>
        match V2Entries(s, ix + t.width)
        case Err(e) => Err(e)
        case Ok(rest) => Ok([Entry(Card.CardId(t.setNumber, t.eternalId), t.count)] + rest)
  }

  /** The v2 decoder from cursor `ix`: each token is looked up in the catalog
      as soon as it is read, so a missing card stops decoding before a later
      malformed token is seen. */
  function DecodeV2From(catalog: Catalog, s: string, ix: nat): (r: Result<seq<Card.CardInfo>, DecodeError>)
    ensures r.Ok? ==> forall c | c in r.value :: c in catalog.Values
    decreases |s| - ix
  {
    if ix + 3 > |s| then Ok([])
    else
      match ParseV2Token(s, ix)
      case Err(e) => Err(e)
      case Ok(t) =>
        var cid := Card.CardId(t.setNumber, t.eternalId);
        if cid !in catalog then Err(UnknownCard(cid))
        else
          match DecodeV2From(catalog, s, ix + t.width)
          case Err(e) => Err(e)
          case Ok(rest) => Ok(Repeat(catalog[cid], t.count) + rest)
  }

  function DecodeV2(catalog: Catalog, s: string): (r: Result<seq<Card.CardInfo>, DecodeError>)
    ensures r.Ok? ==> forall c | c in r.value :: c in catalog.Values
    ensures |s| < 3 ==> r == Ok([])
  {
    DecodeV2From(catalog, s, 0)
  }

  /** The entry of the well-formed token at `ix`. */
  function TokenEntry(s: string, ix: nat): Entry
    requires ix + 3 <= |s| && ParseV2Token(s, ix).Ok?
  {
    var t := ParseV2Token(s, ix).value;
    Entry(Card.CardId(t.setNumber, t.eternalId), t.count)
  }

  /** One step of the decoder: the token's card (or the missing-card error),
      then the rest. */
  lemma DecodeV2Step(catalog: Catalog, s: string, ix: nat)
    requires ix + 3 <= |s| && ParseV2Token(s, ix).Ok?
    ensures var e, next := TokenEntry(s, ix), ix + ParseV2Token(s, ix).value.width;
      DecodeV2From(catalog, s, ix) ==
        if e.cid in catalog then Prepend(Repeat(catalog[e.cid], e.count), DecodeV2From(catalog, s, next))
        else Err(UnknownCard(e.cid))
  {
  }

  /** One step of the tokenizer. */
  lemma V2EntriesStep(s: string, ix: nat)
    requires ix + 3 <= |s| && ParseV2Token(s, ix).Ok?
    ensures var rest := V2Entries(s, ix + ParseV2Token(s, ix).value.width);
      V2Entries(s, ix) == if rest.Ok? then Ok([TokenEntry(s, ix)] + rest.value) else Err(rest.error)
  {
  }

  /** A malformed token at `ix` stops decoding with its error. */
  lemma DecodeV2Fails(catalog: Catalog, s: string, ix: nat, e: DecodeError)
    requires ix + 3 <= |s| && ParseV2Token(s, ix) == Err(e)
    ensures DecodeV2From(catalog, s, ix) == Err(e)
  {
  }

  /** The expansion of the step's entries: the token's card, then the rest. */
  lemma ExpandStep(catalog: Catalog, e: Entry, rest: seq<Entry>)
    ensures Expand(catalog, [e] + rest) ==
      if e.cid in catalog then Prepend(Repeat(catalog[e.cid], e.count), Expand(catalog, rest))
      else Err(UnknownCard(e.cid))
  {
    if e.cid in catalog {
      ExpandSingle(catalog, e);
      ExpandAppend(catalog, [e], rest);
    } else {
      assert ([e] + rest)[0] == e;
    }
  }

  /** When all tokens are well formed, decoding is the expansion of the
      entries (so the output length is the sum of the counts). */
  lemma {:induction false} DecodeV2Entries(catalog: Catalog, s: string, ix: nat)
    requires V2Entries(s, ix).Ok?
    ensures DecodeV2From(catalog, s, ix) == Expand(catalog, V2Entries(s, ix).value)
    decreases |s| - ix
  {
    if ix + 3 <= |s| {
      var next := ix + ParseV2Token(s, ix).value.width;
      DecodeV2Entries(catalog, s, next);
      DecodeV2Step(catalog, s, ix);
      V2EntriesStep(s, ix);
      ExpandStep(catalog, TokenEntry(s, ix), V2Entries(s, next).value);
    }
  }

  /** A malformed token anywhere makes decoding fail (though the error may be
      a missing card met before it). */
  lemma {:induction false} DecodeV2Malformed(catalog: Catalog, s: string, ix: nat)
    requires V2Entries(s, ix).Err?
    ensures DecodeV2From(catalog, s, ix).Err?
    decreases |s| - ix
  {
    if ParseV2Token(s, ix).Ok? {
      var next := ix + ParseV2Token(s, ix).value.width;
      DecodeV2Malformed(catalog, s, next);
      DecodeV2Step(catalog, s, ix);
      V2EntriesStep(s, ix);
    }
  }

  /** With fewer than 3 characters left, nothing more is decoded: an empty
      payload decodes to no cards, and 1 or 2 trailing characters are
      ignored. */
  lemma DecodeV2ShortTail(catalog: Catalog, s: string, ix: nat)
    requires |s| < ix + 3
    ensures DecodeV2From(catalog, s, ix) == Ok([])
  {
  }

  /** The loop body's reading of one token: the three table look-ups and,
      for a two-character id, the multiplier. */
  method ReadV2Token(cardstring: string, ixCard: nat) returns (r: Result<V2Token, DecodeError>)
    requires ixCard + 3 <= |cardstring|
    ensures r == ParseV2Token(cardstring, ixCard)
  {
    var x, y, z := cardstring[ixCard], cardstring[ixCard + 1], cardstring[ixCard + 2];
    var count := CountValue(x);
    if count.None? {
      return Err(UnknownCount(x));
    }
    var setNumber := SetValue(y);
    if setNumber.None? {
      return Err(UnknownSet(y));
    }
    var oneChar := IdValue(z);
    if oneChar.Some? {
      return Ok(V2Token(count.value, setNumber.value, oneChar.value, 3));
    }
    if ixCard + 3 == |cardstring| {
      return Err(MissingMultiplier(ixCard + 3));
    }
    var zMultiply := cardstring[ixCard + 3];
    var zRepeat := RepeatIndex(z);
    if zRepeat.None? {
      return Err(UnknownIdChar(z));
    }
    return Ok(V2Token(count.value, setNumber.value, TwoCharId(zRepeat.value, zMultiply), 4));
  }

  /** The v2 loop: reads a token, advances the cursor by 3 or 4, and adds
      `count` copies of the card. */
  method ParseV2Cards(catalog: Catalog, cardstring: string) returns (r: Result<seq<Card.CardInfo>, DecodeError>)
    ensures r == DecodeV2(catalog, cardstring)
  {
    var cards: seq<Card.CardInfo> := [];
    var ixCard: nat := 0;
    PrependEmpty(DecodeV2(catalog, cardstring));
    while ixCard + 3 <= |cardstring|
      invariant DecodeV2(catalog, cardstring) == Prepend(cards, DecodeV2From(catalog, cardstring, ixCard))
      decreases |cardstring| - ixCard
    {
      var token := ReadV2Token(cardstring, ixCard);
      if token.Err? {
        DecodeV2Fails(catalog, cardstring, ixCard, token.error);
        return Err(token.error);
      }
      DecodeV2Step(catalog, cardstring, ixCard);
      var cid := Card.CardId(token.value.setNumber, token.value.eternalId);
      if cid !in catalog {
        return Err(UnknownCard(cid));
      }
      var next := ixCard + token.value.width;
      PrependPrepend(cards, Repeat(catalog[cid], token.value.count), DecodeV2From(catalog, cardstring, next));
      cards := cards + Repeat(catalog[cid], token.value.count);
      ixCard := next;
    }
    assert cards + [] == cards;
    return Ok(cards);
  }

  // ---------------------------------------------------------------------
  // The v1 decoder
  // ---------------------------------------------------------------------

  /** The tokens of a v1 payload: split on ';' and drop the last piece, so a
      final token without a trailing ';' is lost. */
  function V1Tokens(payload: string): (tokens: seq<string>)
    ensures |tokens| == |Split(payload, ";")| - 1
  {
    var parts := Split(payload, ";");
    parts[..|parts| - 1]
  }

  /** A token's id and count text: it must split on ':' into exactly two. */
  function SplitV1Token(token: string): (r: Result<(string, string), DecodeError>)
    ensures r.Ok? <==> |Split(token, ":")| == 2
    ensures r.Ok? ==> r.value.0 + ":" + r.value.1 == token
    ensures r.Err? ==> r.error == BadToken(token)
  {
    var parts := Split(token, ":");
    JoinSplit(token, ":");
    if |parts| != 2 then Err(BadToken(token))
    else
      assert Join(parts, ":") == parts[0] + ":" + parts[1] by {
        assert parts[1..] == [parts[1]];
      }
      Ok((parts[0], parts[1]))
  }

  /** The v1 tokens as entries, without the catalog. */
  function V1Entries(tokens: seq<string>): (r: Result<seq<Entry>, DecodeError>)
    ensures r.Ok? ==> |r.value| == |tokens|
  {
    if |tokens| == 0 then Ok([])
    else
      match SplitV1Token(tokens[0])
      case Err(e) => Err(e)
      case Ok((cid, count)) =>
        match ParseInt(count)
        case None => Err(BadCount(count))
        case Some(n) =>
          match V1Entries(tokens[1..])
          case Err(e) => Err(e)
          case Ok(rest) => Ok([Entry(cid, n)] + rest)
  }

  /** The v1 loop body over the tokens: the card is looked up before the
      count is read, so a missing card is reported before a bad count. */
  function DecodeV1Tokens(catalog: Catalog, tokens: seq<string>): (r: Result<seq<Card.CardInfo>, DecodeError>)
    ensures r.Ok? ==> forall c | c in r.value :: c in catalog.Values
  {
    if |tokens| == 0 then Ok([])
    else
      match SplitV1Token(tokens[0])
      case Err(e) => Err(e)
      case Ok((cid, count)) =>
        if cid !in catalog then Err(UnknownCard(cid))
        else
          match ParseInt(count)
          case None => Err(BadCount(count))
          case Some(n) =>
            match DecodeV1Tokens(catalog, tokens[1..])
            case Err(e) => Err(e)
            case Ok(rest) => Ok(Repeat(catalog[cid], n) + rest)
  }

  function DecodeV1(catalog: Catalog, payload: string): (r: Result<seq<Card.CardInfo>, DecodeError>)
    ensures r.Ok? ==> forall c | c in r.value :: c in catalog.Values
  {
    DecodeV1Tokens(catalog, V1Tokens(payload))
  }

  /** When all tokens are well formed, decoding is the expansion of the
      entries; otherwise decoding fails. */
  lemma {:induction false} DecodeV1Entries(catalog: Catalog, tokens: seq<string>)
    ensures V1Entries(tokens).Ok? ==> DecodeV1Tokens(catalog, tokens) == Expand(catalog, V1Entries(tokens).value)
    ensures V1Entries(tokens).Err? ==> DecodeV1Tokens(catalog, tokens).Err?
    decreases |tokens|
  {
    if |tokens| > 0 {
      DecodeV1Entries(catalog, tokens[1..]);
      var rest := V1Entries(tokens[1..]);
      if V1Entries(tokens).Ok? {
        var e := V1Entries(tokens).value[0];
        assert V1Entries(tokens).value == [e] + rest.value;
        assert ([e] + rest.value)[1..] == rest.value;
      }
    }
  }

  /** The v1 loop over the tokens, adding `count` copies of each card. */
  method ParseV1Cards(catalog: Catalog, idCounts: seq<string>) returns (r: Result<seq<Card.CardInfo>, DecodeError>)
    ensures r == DecodeV1Tokens(catalog, idCounts)
  {
    var cards: seq<Card.CardInfo> := [];
    assert idCounts[0..] == idCounts;
    PrependEmpty(DecodeV1Tokens(catalog, idCounts));
    for i := 0 to |idCounts|
      invariant DecodeV1Tokens(catalog, idCounts) == Prepend(cards, DecodeV1Tokens(catalog, idCounts[i..]))
    {
      assert idCounts[i..][0] == idCounts[i] && idCounts[i..][1..] == idCounts[i + 1..];
      var parts := Split(idCounts[i], ":");
      if |parts| != 2 {
        return Err(BadToken(idCounts[i]));
      }
      var cid, count := parts[0], parts[1];
      if cid !in catalog {
        return Err(UnknownCard(cid));
      }
      var n := ParseInt(count);
      if n.None? {
        return Err(BadCount(count));
      }
      PrependPrepend(cards, Repeat(catalog[cid], n.value), DecodeV1Tokens(catalog, idCounts[i + 1..]));
      cards := cards + Repeat(catalog[cid], n.value);
    }
    assert idCounts[|idCounts|..] == [];
    assert cards + [] == cards;
    return Ok(cards);
  }

  // ---------------------------------------------------------------------
  // The query string
  // ---------------------------------------------------------------------

  /** `query.split('main=')[1]`: the text between the first `main=` and the
      next one (or the end). */
  function MainPayload(query: string): (r: Result<string, DecodeError>)
    ensures r.Err? <==> !Contains(query, "main=")
    ensures r.Err? ==> r.error == MissingMain
    ensures r.Ok? ==> !Contains(r.value, "main=")
  {
    var parts := Split(query, "main=");
    SplitCount(query, "main=");
    if |parts| < 2 then Err(MissingMain)
    else
      SplitPiecesFree(query, "main=", 1);
      Ok(parts[1])
  }

  /** A query whose `main=` is the only one gives the text after it. */
  lemma MainPayloadAfterPrefix(prefix: string, payload: string)
    requires 'm' !in prefix && !Contains(payload, "main=")
    ensures MainPayload(prefix + "main=" + payload) == Ok(payload)
  {
    SplitTwo(prefix, payload, "main=");
  }

  /** The main part and the optional market part of a payload. The market is
      None unless the word "market" occurs; then the payload must split on
      `&market=` into exactly two pieces. */
  function SplitMarket(payload: string): (r: Result<(string, Option<string>), DecodeError>)
    ensures !Contains(payload, "market") ==> r == Ok((payload, None))
    ensures Contains(payload, "market") ==> (r.Ok? <==> |Split(payload, "&market=")| == 2)
    ensures Contains(payload, "market") && r.Err? ==> r.error == BadMarketSplit(|Split(payload, "&market=")|)
    ensures r.Ok? && r.value.1.Some? ==> r.value.0 + "&market=" + r.value.1.value == payload
    ensures r.Ok? && r.value.1.Some? ==> !Contains(r.value.1.value, "&market=")
  {
    if !Contains(payload, "market") then Ok((payload, None))
    else
      var parts := Split(payload, "&market=");
      if |parts| != 2 then Err(BadMarketSplit(|parts|))
      else
        JoinSplit(payload, "&market=");
        assert Join(parts, "&market=") == parts[0] + "&market=" + parts[1] by {
          assert parts[1..] == [parts[1]];
        }
        SplitPiecesFree(payload, "&market=", 1);
        Ok((parts[0], Some(parts[1])))
  }

  /** A main part without '&' followed by `&market=` and a market part gives
      the two parts back. */
  lemma SplitMarketParts(main: string, market: string)
    requires '&' !in main && !Contains(market, "&market=")
    ensures SplitMarket(main + "&market=" + market) == Ok((main, Some(market)))
  {
    var payload := main + "&market=" + market;
    assert OccursAt(payload, "market", |main| + 1) by {
      assert payload[|main| + 1..|main| + 7] == "market";
    }
    SplitTwo(main, market, "&market=");
  }

  // ---------------------------------------------------------------------
  // Whole links
  // ---------------------------------------------------------------------

  /** The decoded main cards and optional market cards of a deck. */
  type DeckCards = (seq<Card.CardInfo>, Option<seq<Card.CardInfo>>)

  /** Decodes the market (when present) and then the main part with `decode`. */
  function DecodeParts(catalog: Catalog, payload: string, v1: bool): (r: Result<DeckCards, DecodeError>)
    ensures SplitMarket(payload).Err? ==> r.Err?
    ensures r.Ok? ==> SplitMarket(payload).Ok? && (r.value.1.None? <==> SplitMarket(payload).value.1.None?)
  {
    var (main, market) :- SplitMarket(payload);
    var marketCards :- match market
      case None => Ok(None)
      case Some(m) =>
        var cards :- if v1 then DecodeV1(catalog, m) else DecodeV2(catalog, m);
        Ok(Some(cards));
    var mainCards :- if v1 then DecodeV1(catalog, main) else DecodeV2(catalog, main);
    Ok((mainCards, marketCards))
  }

  /** The v1 link decoder. */
  function DecodeUrlV1(catalog: Catalog, query: string): (r: Result<DeckCards, DecodeError>)
    ensures MainPayload(query).Err? ==> r == Err(MissingMain)
    ensures MainPayload(query).Ok? ==> r == DecodeParts(catalog, MainPayload(query).value, true)
  {
    var payload :- MainPayload(query);
    DecodeParts(catalog, payload, true)
  }

  /** The v2 link decoder. */
  function DecodeUrlV2(catalog: Catalog, query: string): (r: Result<DeckCards, DecodeError>)
    ensures MainPayload(query).Err? ==> r == Err(MissingMain)
    ensures MainPayload(query).Ok? ==> r == DecodeParts(catalog, MainPayload(query).value, false)
  {
    var payload :- MainPayload(query);
    DecodeParts(catalog, payload, false)
  }

  /** The link decoder: v1 when the main payload contains ':', v2 otherwise. */
  function DecodeUrl(catalog: Catalog, query: string): (r: Result<DeckCards, DecodeError>)
    ensures MainPayload(query).Err? ==> r == Err(MissingMain)
    ensures MainPayload(query).Ok? ==>
      r == if ':' in MainPayload(query).value then DecodeUrlV1(catalog, query) else DecodeUrlV2(catalog, query)
  {
    var payload :- MainPayload(query);
    if ':' in payload then DecodeUrlV1(catalog, query) else DecodeUrlV2(catalog, query)
  }

  /** The main part and the market part, each with the loop of its format. */
  method ParseParts(catalog: Catalog, payload: string, v1: bool) returns (r: Result<DeckCards, DecodeError>)
    ensures r == DecodeParts(catalog, payload, v1)
  {
    var split := SplitMarket(payload);
    if split.Err? {
      return Err(split.error);
    }
    var (mainDeck, market) := split.value;
    var marketCards: Option<seq<Card.CardInfo>> := None;
    if market.Some? {
      var decoded;
      if v1 {
        decoded := ParseV1Cards(catalog, V1Tokens(market.value));
      } else {
        decoded := ParseV2Cards(catalog, market.value);
      }
      if decoded.Err? {
        return Err(decoded.error);
      }
      marketCards := Some(decoded.value);
    }
    var mainCards;
    if v1 {
      mainCards := ParseV1Cards(catalog, V1Tokens(mainDeck));
    } else {
      mainCards := ParseV2Cards(catalog, mainDeck);
    }
    if mainCards.Err? {
      return Err(mainCards.error);
    }
    return Ok((mainCards.value, marketCards));
  }

  /** Builds the deck of a v2 link. */
  method ParseDeckbuilderUrlV2(catalog: Catalog, query: string) returns (r: Result<Deck.Deck, DecodeError>)
    ensures r.Ok? <==> DecodeUrlV2(catalog, query).Ok?
    ensures r.Err? ==> r.error == DecodeUrlV2(catalog, query).error
    ensures r.Ok? ==> (fresh(r.value)
      && r.value.mainCards == DecodeUrlV2(catalog, query).value.0
      && r.value.marketCards == DecodeUrlV2(catalog, query).value.1)
  {
    var payload := MainPayload(query);
    if payload.Err? {
      return Err(payload.error);
    }
    var parts := ParseParts(catalog, payload.value, false);
    if parts.Err? {
      return Err(parts.error);
    }
    var deck := new Deck.Deck(parts.value.0, parts.value.1);
    return Ok(deck);
  }

  /** Builds the deck of a v1 link. */
  method ParseDeckbuilderUrlV1(catalog: Catalog, query: string) returns (r: Result<Deck.Deck, DecodeError>)
    ensures r.Ok? <==> DecodeUrlV1(catalog, query).Ok?
    ensures r.Err? ==> r.error == DecodeUrlV1(catalog, query).error
    ensures r.Ok? ==> (fresh(r.value)
      && r.value.mainCards == DecodeUrlV1(catalog, query).value.0
      && r.value.marketCards == DecodeUrlV1(catalog, query).value.1)
  {
    var payload := MainPayload(query);
    if payload.Err? {
      return Err(payload.error);
    }
    var parts := ParseParts(catalog, payload.value, true);
    if parts.Err? {
      return Err(parts.error);
    }
    var deck := new Deck.Deck(parts.value.0, parts.value.1);
    return Ok(deck);
  }

  /** Builds the deck of a link of either format. */
  method ParseDeckbuilderUrl(catalog: Catalog, query: string) returns (r: Result<Deck.Deck, DecodeError>)
    ensures r.Ok? <==> DecodeUrl(catalog, query).Ok?
    ensures r.Err? ==> r.error == DecodeUrl(catalog, query).error
    ensures r.Ok? ==> (fresh(r.value)
      && r.value.mainCards == DecodeUrl(catalog, query).value.0
      && r.value.marketCards == DecodeUrl(catalog, query).value.1)
  {
    var payload := MainPayload(query);
    if payload.Err? {
      return Err(payload.error);
    }
    if ':' in payload.value {
      r := ParseDeckbuilderUrlV1(catalog, query);
    } else {
      r := ParseDeckbuilderUrlV2(catalog, query);
    }
  }
  // ---------------------------------------------------------------------
  // Examples
  // ---------------------------------------------------------------------

  /** The Siege Supplier link: "BKq" with multiplier 'L' is one 10-362,
      "CBB" is two 1-1. */
  lemma SiegeSupplierTokens()
    ensures V2Entries("BKqLCBB", 0) == Ok([Entry(Card.CardId(10, 362), 1), Entry(Card.CardId(1, 1), 2)])
  {
    var s := "BKqLCBB";
    var e1, e2 := Entry(Card.CardId(10, 362), 1), Entry(Card.CardId(1, 1), 2);
    assert ParseV2Token(s, 0) == Ok(V2Token(1, 10, 362, 4));
    assert ParseV2Token(s, 4) == Ok(V2Token(2, 1, 1, 3));
    V2EntriesStep(s, 4);
    assert V2Entries(s, 7) == Ok([]);
    assert V2Entries(s, 4) == Ok([e2]) by {
      assert [e2] + [] == [e2];
    }
    V2EntriesStep(s, 0);
    assert [e1] + [e2] == [e1, e2];
  }

  /** The Siege Supplier cards, in link order. */
  lemma SiegeSupplierCards(catalog: Catalog)
    requires Card.CardId(10, 362) in catalog && Card.CardId(1, 1) in catalog
    ensures var supplier, sigil := catalog[Card.CardId(10, 362)], catalog[Card.CardId(1, 1)];
      DecodeV2(catalog, "BKqLCBB") == Ok([supplier, sigil, sigil])
  {
    var supplier, sigil := catalog[Card.CardId(10, 362)], catalog[Card.CardId(1, 1)];
    var e1, e2 := Entry(Card.CardId(10, 362), 1), Entry(Card.CardId(1, 1), 2);
    SiegeSupplierTokens();
    assert [e1, e2] == [e1] + [e2];
    DecodeV2Entries(catalog, "BKqLCBB", 0);
    ExpandStep(catalog, e1, [e2]);
    ExpandSingle(catalog, e2);
    assert Repeat(sigil, 2) == [sigil, sigil];
    assert Repeat(supplier, 1) == [supplier];
    assert [supplier] + [sigil, sigil] == [supplier, sigil, sigil];
  }

  /** The payload of the Siege Supplier link, without a market. */
  lemma SiegeSupplierPayload()
    ensures MainPayload("main=BKqLCBB") == Ok("BKqLCBB")
    ensures SplitMarket("BKqLCBB") == Ok(("BKqLCBB", None))
  {
    var payload := "BKqLCBB";
    NotContainsByFirstChar(payload, "main=");
    MainPayloadAfterPrefix("", payload);
    assert "" + "main=" + payload == "main=BKqLCBB";
    NotContainsByFirstChar(payload, "market");
  }

  /** The Siege Supplier link decodes to one 10-362 and two 1-1, in that
      order, with no market. */
  lemma SiegeSupplierDeck(catalog: Catalog)
    requires Card.CardId(10, 362) in catalog && Card.CardId(1, 1) in catalog
    ensures var supplier, sigil := catalog[Card.CardId(10, 362)], catalog[Card.CardId(1, 1)];
      DecodeUrl(catalog, "main=BKqLCBB") == Ok(([supplier, sigil, sigil], None))
  {
    SiegeSupplierPayload();
    SiegeSupplierCards(catalog);
    assert ':' !in "BKqLCBB";
  }
}
