/** Cards of the game: the faction classifier, card records and their
    validation, the composite card id, the card collection (the catalog every
    decoded deck is resolved against) and the two power-counting rules. */
module Card {
  import opened Wrappers
  import opened Strings

  // ---------------------------------------------------------------------
  // Factions
  // ---------------------------------------------------------------------

  /** The five faction letters. */
  const Factions: set<char> := {'F', 'J', 'T', 'P', 'S'}

  /** The faction letters in ascending code-point order. */
  const SortedFactions: string := "FJPST"

  predicate StrictlyIncreasing(s: string) {
    forall i, j | 0 <= i < j < |s| :: s[i] < s[j]
  }

  /** The letters of `letters` that occur in `influence`, in the order of `letters`. */
  function LettersIn(letters: string, influence: string): (r: string)
    ensures forall c :: c in r <==> c in letters && c in influence
    ensures StrictlyIncreasing(letters) ==> StrictlyIncreasing(r)
  {
    if |letters| == 0 then ""
    else
      var rest := LettersIn(letters[1..], influence);
      assert StrictlyIncreasing(letters) ==> StrictlyIncreasing(letters[1..]) by {
        if StrictlyIncreasing(letters) {
          forall i, j | 0 <= i < j < |letters[1..]| ensures letters[1..][i] < letters[1..][j] {
            assert letters[1..][i] == letters[i + 1] && letters[1..][j] == letters[j + 1];
          }
        }
      }
      if letters[0] in influence then
        var r := [letters[0]] + rest;
        assert StrictlyIncreasing(letters) ==> StrictlyIncreasing(r) by {
          if StrictlyIncreasing(letters) {
            forall i, j | 0 <= i < j < |r| ensures r[i] < r[j] {
              if i == 0 {
                assert r[j] == rest[j - 1] && rest[j - 1] in rest;
                var k :| 0 <= k < |letters[1..]| && letters[1..][k] == rest[j - 1];
                assert letters[k + 1] == r[j];
              } else {
                assert r[i] == rest[i - 1] && r[j] == rest[j - 1];
              }
            }
          }
        }
        r
      else rest
  }

  /** The faction label of an influence string: its faction letters sorted and
      without repetition, or "None" when it has none. Characters other than
      faction letters are ignored, so the function never fails. */
  function InfluenceToFaction(influence: string): (r: string)
    ensures r == "None" <==> forall c | c in Factions :: c !in influence
    ensures r != "None" ==>
      StrictlyIncreasing(r) && forall c :: c in r <==> c in Factions && c in influence
  {
    var faction := LettersIn(SortedFactions, influence);
    assert forall c :: c in Factions <==> c in SortedFactions;
    assert 'N' !in faction;
    if |faction| > 0 then
      assert faction[0] in faction;
      faction
    else "None"
  }

  /** Two strictly increasing strings over the same characters are equal, so
      the contract of InfluenceToFaction determines its result. */
  lemma {:induction false} IncreasingUnique(s: string, t: string)
    requires StrictlyIncreasing(s) && StrictlyIncreasing(t)
    requires forall c :: c in s <==> c in t
    ensures s == t
    decreases |s|
  {
    if |s| > 0 {
      assert s[0] in t;
    }
    if |t| > 0 {
      assert t[0] in s;
    }
    if |s| > 0 && |t| > 0 {
      // Both first characters are the least element of the common set.
      assert s[0] in t;
      assert t[0] in s;
      var i :| 0 <= i < |t| && t[i] == s[0];
      var j :| 0 <= j < |s| && s[j] == t[0];
      assert s[0] <= s[j];
      assert t[0] <= t[i];
      assert s[0] == t[0];
      forall c ensures c in s[1..] <==> c in t[1..] {
        if c in s[1..] {
          var k :| 1 <= k < |s| && s[k] == c;
          assert c != s[0];
          assert c in t;
          var m :| 0 <= m < |t| && t[m] == c;
          assert m != 0;
          assert t[1..][m - 1] == c;
        }
        if c in t[1..] {
          var k :| 1 <= k < |t| && t[k] == c;
          assert c != t[0];
          assert c in s;
          var m :| 0 <= m < |s| && s[m] == c;
          assert m != 0;
          assert s[1..][m - 1] == c;
        }
      }
      IncreasingUnique(s[1..], t[1..]);
      assert s == [s[0]] + s[1..] && t == [t[0]] + t[1..];
    }
  }

  /** Classifying a faction label again gives the same label ("None" included). */
  lemma InfluenceToFactionIdempotent(influence: string)
    ensures InfluenceToFaction(InfluenceToFaction(influence)) == InfluenceToFaction(influence)
  {
    var r := InfluenceToFaction(influence);
    var r2 := InfluenceToFaction(r);
    if r == "None" {
      NoneIsFactionless();
    } else {
      assert r[0] in r;
      assert r2 != "None";
      IncreasingUnique(r2, r);
    }
  }

  /** The label "None" has no faction letter, so it classifies as itself. */
  lemma NoneIsFactionless()
    ensures InfluenceToFaction("None") == "None"
  {
    var none := "None";
    assert forall c | c in none :: c == 'N' || c == 'o' || c == 'n' || c == 'e';
  }

  /** The labels of the source's own examples: repeated and unordered
      faction symbols give one sorted label. */
  lemma InfluenceToFactionExamples()
    ensures InfluenceToFaction("") == "None"
    ensures InfluenceToFaction("{J}{F}") == "FJ"
  {
    var fj := "FJ";
    assert StrictlyIncreasing(fj) by {
      assert fj[0] < fj[1];
    }
    LabelOf("{J}{F}", fj);
  }

  lemma InfluenceToFactionRepeated()
    ensures InfluenceToFaction("{T}{T}{T}") == "T"
  {
    LabelOf("{T}{T}{T}", "T");
  }

  lemma LabelOf(influence: string, expected: string)
    requires |expected| > 0 && expected != "None" && StrictlyIncreasing(expected)
    requires forall c | c in expected :: c in Factions
    requires forall c | c in influence && c in Factions :: c in expected
    requires forall c | c in expected :: c in influence
    ensures InfluenceToFaction(influence) == expected
  {
    assert expected[0] in influence;
    IncreasingUnique(InfluenceToFaction(influence), expected);
  }

  // ---------------------------------------------------------------------
  // Card records and validation
  // ---------------------------------------------------------------------

  /** The fields every card record must carry. */
  const BaseFields: set<string> :=
    {"Attack", "CardText", "Cost", "DeckBuildable", "DetailsUrl", "EternalID", "Health",
     "ImageUrl", "Influence", "Name", "Rarity", "SetNumber", "Type"}

  /** The fields only a Unit may carry besides the base fields. */
  const UnitFields: set<string> := {"UnitType"}

  /** A card record of the exported card list: the set of keys the record has,
      and the values of the fields the model reads. */
  datatype CardRecord = CardRecord(
    keys: set<string>,
    setNumber: int,
    eternalId: int,
    name: string,
    cardType: string,
    cost: int,
    influence: string,
    cardText: string)

  /** Why a record is rejected (both are an AssertionError in the source). */
  datatype ValidationError = MissingBaseFields | UnexpectedUnitFields

  /** Record validation: all base fields must be present; the extra fields are
      checked only for a Unit, which may carry only the unit fields. */
  function ValidateDict(d: CardRecord): (r: Result<(), ValidationError>)
    ensures r == Err(MissingBaseFields) <==> !(BaseFields <= d.keys)
    ensures r == Err(UnexpectedUnitFields) <==>
      BaseFields <= d.keys && d.cardType == "Unit" && !(d.keys - BaseFields <= UnitFields)
  {
    if !(BaseFields <= d.keys) then Err(MissingBaseFields)
    else
      var extraFields := d.keys - BaseFields;
      if extraFields != {} && d.cardType == "Unit" && !(extraFields <= UnitFields) then
        Err(UnexpectedUnitFields)
      else Ok(())
  }

  /** True exactly when validation does not fail. */
  function IsValidDict(d: CardRecord): (b: bool)
    ensures b <==> ValidateDict(d).Ok?
    ensures b <==> BaseFields <= d.keys && (d.cardType == "Unit" ==> d.keys <= BaseFields + UnitFields)
  {
    ValidateDict(d).Ok?
  }

  /** A record without one of the base fields is rejected. */
  lemma MissingFieldRejected(d: CardRecord, field: string)
    requires field in BaseFields && field !in d.keys
    ensures !IsValidDict(d)
  {
  }

  /** A record that is not a Unit passes with any extra fields. */
  lemma NonUnitExtrasAccepted(d: CardRecord)
    requires BaseFields <= d.keys && d.cardType != "Unit"
    ensures IsValidDict(d)
  {
  }

  /** A Unit with a field outside the base and unit fields is rejected. */
  lemma UnitExtraFieldRejected(d: CardRecord, field: string)
    requires BaseFields <= d.keys && d.cardType == "Unit"
    requires field in d.keys && field !in BaseFields && field !in UnitFields
    ensures !IsValidDict(d)
  {
  }

  /** A validated card: its id and its record. */
  datatype CardInfo = CardInfo(id: string, data: CardRecord)

  /** The composite id "{SetNumber}-{EternalID}". */
  function CardId(setNumber: int, eternalId: int): (id: string)
    ensures |id| == |IntToString(setNumber)| + 1 + |IntToString(eternalId)|
    ensures id[|IntToString(setNumber)|] == '-'
    ensures id[..|IntToString(setNumber)|] == IntToString(setNumber)
    ensures id[|IntToString(setNumber)| + 1..] == IntToString(eternalId)
  {
    IntToString(setNumber) + "-" + IntToString(eternalId)
  }

  /** Distinct (set, card) pairs of natural numbers have distinct ids. */
  lemma CardIdInjective(s1: nat, e1: nat, s2: nat, e2: nat)
    requires CardId(s1, e1) == CardId(s2, e2)
    ensures s1 == s2 && e1 == e2
  {
    var a1, b1 := NatToString(s1), NatToString(e1);
    var a2, b2 := NatToString(s2), NatToString(e2);
    NotContainsByFirstChar(b1, "-");
    NotContainsByFirstChar(b2, "-");
    SplitTwo(a1, b1, "-");
    SplitTwo(a2, b2, "-");
    assert a1 + "-" + b1 == a2 + "-" + b2;
    NatToStringInjective(s1, s2);
    NatToStringInjective(e1, e2);
  }

  lemma CardIdExample()
    ensures CardId(3, 2) == "3-2"
  {
  }

  /** The card built from a record (the id computed in the constructor). */
  function ToCardInfo(d: CardRecord): (c: CardInfo)
    ensures c.data == d
  {
    CardInfo(CardId(d.setNumber, d.eternalId), d)
  }

  /** The constructor from a record: validation, then the composite id. */
  function NewCardInfo(d: CardRecord): (r: Result<CardInfo, ValidationError>)
    ensures r.Ok? <==> IsValidDict(d)
    ensures r.Ok? ==> r.value.data == d && r.value.id == CardId(d.setNumber, d.eternalId)
    ensures r.Err? ==> r.error == ValidateDict(d).error
  {
    match ValidateDict(d)
    case Err(e) => Err(e)
    case Ok(_) => Ok(ToCardInfo(d))
  }

  // ---------------------------------------------------------------------
  // The card collection
  // ---------------------------------------------------------------------

  /** A look-up of an id that is not in the collection (KeyError). */
  datatype LookupError = KeyError(key: string)

  /** `order` lists the keys of `dict` once each: the insertion order that a
      Python dict keeps. */
  ghost predicate KeysInOrder(dict: map<string, CardInfo>, order: seq<string>) {
    && (forall i | 0 <= i < |order| :: order[i] in dict)
    && (forall k | k in dict :: k in order)
    && (forall i, j | 0 <= i < j < |order| :: order[i] != order[j])
  }

  /** The dict's values in key order (`list(cards_dict.values())`). */
  function ValuesInOrder(dict: map<string, CardInfo>, order: seq<string>): (v: seq<CardInfo>)
    requires forall i | 0 <= i < |order| :: order[i] in dict
    ensures |v| == |order| && forall i | 0 <= i < |order| :: v[i] == dict[order[i]]
  {
    seq(|order|, i requires 0 <= i < |order| => dict[order[i]])
  }

  /** The dict and its key order after `dict[c.id] = c`: a new key is appended,
      an existing key keeps its place and gets the new value. */
  function Insert(dict: map<string, CardInfo>, order: seq<string>, c: CardInfo)
    : (r: (map<string, CardInfo>, seq<string>))
    ensures r.0 == dict[c.id := c]
    ensures r.1 == if c.id in dict then order else order + [c.id]
  {
    (dict[c.id := c], if c.id in dict then order else order + [c.id])
  }

  lemma InsertKeepsOrder(dict: map<string, CardInfo>, order: seq<string>, c: CardInfo)
    requires KeysInOrder(dict, order)
    ensures KeysInOrder(Insert(dict, order, c).0, Insert(dict, order, c).1)
  {
  }

  /** The loading loop, applied to the records in list order; `valid` is the
      record check of the card class in use. */
  function LoadInto(dict: map<string, CardInfo>, order: seq<string>, records: seq<CardRecord>,
                    valid: CardRecord -> bool): (r: (map<string, CardInfo>, seq<string>))
    decreases |records|
  {
    if |records| == 0 then (dict, order)
    else
      var next := if valid(records[0]) then Insert(dict, order, ToCardInfo(records[0])) else (dict, order);
      LoadInto(next.0, next.1, records[1..], valid)
  }

  /** A record that loads, under id `key`. */
  predicate LoadsAs(d: CardRecord, key: string, valid: CardRecord -> bool) {
    valid(d) && ToCardInfo(d).id == key
  }

  /** The last valid record with id `key`, or None. */
  function LastValid(records: seq<CardRecord>, key: string, valid: CardRecord -> bool): (r: Option<CardRecord>)
    ensures r.Some? ==> r.value in records && LoadsAs(r.value, key, valid)
    ensures r.None? ==> forall d | d in records :: !LoadsAs(d, key, valid)
    ensures r.Some? ==> exists i | 0 <= i < |records| ::
      records[i] == r.value && forall j | i < j < |records| :: !LoadsAs(records[j], key, valid)
    decreases |records|
  {
    if |records| == 0 then None
    else
      var later := LastValid(records[1..], key, valid);
      if later.Some? then (LastAfterFirst(records, key, valid, later.value); later)
      else if LoadsAs(records[0], key, valid) then
        (assert forall j | 0 < j < |records| :: records[j] in records[1..]; Some(records[0]))
      else (assert records == [records[0]] + records[1..]; None)
  }

  /** The last loading record of `records[1..]` is the last of `records`. */
  lemma LastAfterFirst(records: seq<CardRecord>, key: string, valid: CardRecord -> bool, v: CardRecord)
    requires |records| > 0
    requires exists i | 0 <= i < |records[1..]| ::
      records[1..][i] == v && forall j | i < j < |records[1..]| :: !LoadsAs(records[1..][j], key, valid)
    ensures exists i | 0 <= i < |records| ::
      records[i] == v && forall j | i < j < |records| :: !LoadsAs(records[j], key, valid)
  {
    var i :| 0 <= i < |records[1..]| &&
      records[1..][i] == v && forall j | i < j < |records[1..]| :: !LoadsAs(records[1..][j], key, valid);
    assert forall j | i + 1 < j < |records| :: records[j] == records[1..][j - 1];
    assert records[i + 1] == v;
  }

  /** Loading keeps exactly the valid records, keyed by id, and the last valid
      record with a given id wins; ids not loaded keep their earlier entry. */
  lemma {:induction false} LoadIntoContents(dict: map<string, CardInfo>, order: seq<string>,
                                            records: seq<CardRecord>, valid: CardRecord -> bool, key: string)
    ensures var r := LoadInto(dict, order, records, valid);
      && (key in r.0 <==> key in dict || LastValid(records, key, valid).Some?)
      && (LastValid(records, key, valid).Some? ==> r.0[key] == ToCardInfo(LastValid(records, key, valid).value))
      && (LastValid(records, key, valid).None? && key in dict ==> r.0[key] == dict[key])
    decreases |records|
  {
    if |records| > 0 {
      var next := if valid(records[0]) then Insert(dict, order, ToCardInfo(records[0])) else (dict, order);
      LoadIntoContents(next.0, next.1, records[1..], valid, key);
    }
  }

  lemma {:induction false} LoadIntoKeepsOrder(dict: map<string, CardInfo>, order: seq<string>,
                                              records: seq<CardRecord>, valid: CardRecord -> bool)
    requires KeysInOrder(dict, order)
    ensures KeysInOrder(LoadInto(dict, order, records, valid).0, LoadInto(dict, order, records, valid).1)
    decreases |records|
  {
    if |records| > 0 {
      var next := if valid(records[0]) then Insert(dict, order, ToCardInfo(records[0])) else (dict, order);
      if valid(records[0]) {
        InsertKeepsOrder(dict, order, ToCardInfo(records[0]));
      }
      LoadIntoKeepsOrder(next.0, next.1, records[1..], valid);
    }
  }

  /** The collection of all known cards, with dict-like look-up by id. */
  class CardCollection {
    var cardsDict: map<string, CardInfo>
    /** The insertion order of `cardsDict`'s keys. */
    var keyOrder: seq<string>
    var cards: seq<CardInfo>

    ghost predicate Valid()
      reads this
    {
      KeysInOrder(cardsDict, keyOrder) && cards == ValuesInOrder(cardsDict, keyOrder)
    }

    constructor ()
      ensures Valid()
      ensures cardsDict == map[] && keyOrder == [] && cards == []
    {
      cardsDict := map[];
      keyOrder := [];
      cards := [];
    }

    /** Adds every valid record, keyed by its id, then lists the cards. */
    method Load(records: seq<CardRecord>)
      requires Valid()
      modifies this
      ensures Valid()
      ensures (cardsDict, keyOrder) == LoadInto(old(cardsDict), old(keyOrder), records, IsValidDict)
      ensures cards == ValuesInOrder(cardsDict, keyOrder)
    {
      ghost var target := LoadInto(cardsDict, keyOrder, records, IsValidDict);
      LoadIntoKeepsOrder(cardsDict, keyOrder, records, IsValidDict);
      for i := 0 to |records|
        invariant LoadInto(cardsDict, keyOrder, records[i..], IsValidDict) == target
        invariant KeysInOrder(cardsDict, keyOrder)
      {
        var cardJson := records[i];
        assert records[i..][1..] == records[i + 1..];
        if IsValidDict(cardJson) {
          var cardinfo := ToCardInfo(cardJson);
          InsertKeepsOrder(cardsDict, keyOrder, cardinfo);
          if cardinfo.id !in cardsDict {
            keyOrder := keyOrder + [cardinfo.id];
          }
          cardsDict := cardsDict[cardinfo.id := cardinfo];
        }
      }
      assert records[|records|..] == [];
      cards := ValuesInOrder(cardsDict, keyOrder);
    }

    /** `collection[key]`: the card with that id, or a KeyError. */
    function GetItem(key: string): (r: Result<CardInfo, LookupError>)
      reads this
      ensures r.Ok? <==> key in cardsDict
      ensures r.Ok? ==> r.value == cardsDict[key]
      ensures r.Err? ==> r.error == KeyError(key)
    {
      if key in cardsDict then Ok(cardsDict[key]) else Err(KeyError(key))
    }
  }

  // ---------------------------------------------------------------------
  // Power counting
  // ---------------------------------------------------------------------

  /** Cheap draw-a-sigil cards whose power count is set by hand. */
  const LowCostDrawSigilExceptions: map<string, nat> :=
    map["1-157" := 1, "1-513" := 1, "3-108" := 0, "4-275" := 0, "11-67" := 0, "1105-19" := 0]

  /** Draw-a-sigil cards whose count towards total power sources is set by hand. */
  const DrawSigilExceptions: map<string, nat> :=
    map["1-154" := 0, "3-305" := 0, "6-29" := 0, "7-76" := 0, "11-49" := 0, "1087-1" := 0,
        "11-67" := 1, "2-177" := 2]

  /** Cards that draw a power card, counted as one power source. */
  const DrawPowerIds: set<string> := {"11-43", "4-274"}

  /** `s[i..i+|lit|]` equals the lower-case literal `lit`, ignoring ASCII case. */
  predicate MatchesFolded(s: string, i: nat, lit: string) {
    i + |lit| <= |s| && Lower(s[i..i + |lit|]) == lit
  }

  /** The regular expression `(?i)draw a .*sigil` matches at `i` and its
      "sigil" starts at `j`: the characters in between are not a newline. */
  predicate DrawSigilAt(text: string, i: nat, j: nat) {
    && MatchesFolded(text, i, "draw a ")
    && i + 7 <= j
    && MatchesFolded(text, j, "sigil")
    && forall k | i + 7 <= k < j :: text[k] != '\n'
  }

  /** The text has a match of `(?i)draw a .*sigil`. */
  predicate DrawSigilMatch(text: string) {
    exists i: nat, j: nat | i <= j <= |text| :: DrawSigilAt(text, i, j)
  }

  /** The regular expression `\+. Maximum Power` matches at `i`. */
  predicate MaxPowerAt(text: string, i: nat) {
    && i + 16 <= |text|
    && text[i] == '+'
    && text[i + 1] != '\n'
    && text[i + 2..i + 16] == " Maximum Power"
  }

  /** The start of the leftmost match of `\+. Maximum Power` at or after `from`. */
  function FirstMaxPower(text: string, from: nat): (r: Option<nat>)
    ensures r.Some? ==> from <= r.value && MaxPowerAt(text, r.value)
    ensures r.Some? ==> forall k: nat | from <= k < r.value :: !MaxPowerAt(text, k)
    ensures r.None? ==> forall k: nat | from <= k :: !MaxPowerAt(text, k)
    decreases |text| - from
  {
    if from + 16 > |text| then None
    else if MaxPowerAt(text, from) then Some(from)
    else FirstMaxPower(text, from + 1)
  }

  /** Number of power sources a card represents when counting a deck's power:
      1 for a Power card; for a card of cost at most 2 with draw-a-sigil text
      the hand-set value, or 1 for a card without one; otherwise 0. */
  function PowerCount(c: CardInfo): (r: nat)
    ensures r <= 1
    ensures c.data.cardType == "Power" ==> r == 1
    ensures c.data.cardType != "Power" ==>
      (r == 1 <==> DrawSigilMatch(c.data.cardText) && c.data.cost <= 2
                   && (c.id in LowCostDrawSigilExceptions ==> LowCostDrawSigilExceptions[c.id] == 1))
  {
    if c.data.cardType == "Power" then 1
    else if DrawSigilMatch(c.data.cardText) && c.data.cost <= 2 then
      if c.id in LowCostDrawSigilExceptions then LowCostDrawSigilExceptions[c.id] else 1
    else 0
  }

  /** `int(ch)` of the character after a `+` fails (ValueError). */
  datatype PowerError = NotADigit(ch: char)

  /** Number of power sources a card shows in a deck's total, rules taken in
      order: Power cards; the two draw-a-power cards; the digit after the
      first "+X Maximum Power"; the hand-set table; draw-a-sigil text; else 0. */
  function EpcPowerCount(c: CardInfo): (r: Result<int, PowerError>)
    ensures r.Ok? ==> 0 <= r.value <= 9
    ensures c.data.cardType == "Power" || c.id in DrawPowerIds ==> r == Ok(1)
    ensures r.Err? <==>
      c.data.cardType != "Power" && c.id !in DrawPowerIds
      && FirstMaxPower(c.data.cardText, 0).Some?
      && !IsDigit(c.data.cardText[FirstMaxPower(c.data.cardText, 0).value + 1])
  {
    if c.data.cardType == "Power" then Ok(1)
    else if c.id in DrawPowerIds then Ok(1)
    else
      var text := c.data.cardText;
      match FirstMaxPower(text, 0)
      case Some(i) =>
        (match ParseInt([text[i + 1]])
         case Some(v) => Ok(v)
         case None => Err(NotADigit(text[i + 1])))
      case None =>
        if c.id in DrawSigilExceptions then Ok(DrawSigilExceptions[c.id])
        else if DrawSigilMatch(text) then Ok(1)
        else Ok(0)
  }

  /** With a "+X Maximum Power" text the count is the digit X, whatever else
      the text says, unless the card is Power or draws a power card. */
  lemma EpcMaxPowerDigit(c: CardInfo, i: nat)
    requires c.data.cardType != "Power" && c.id !in DrawPowerIds
    requires MaxPowerAt(c.data.cardText, i) && IsDigit(c.data.cardText[i + 1])
    requires forall k: nat | k < i :: !MaxPowerAt(c.data.cardText, k)
    ensures EpcPowerCount(c) == Ok(DigitValue(c.data.cardText[i + 1]))
  {
    var text := c.data.cardText;
    var f := FirstMaxPower(text, 0);
    assert f == Some(i);
  }

  /** Without a "+X Maximum Power" text, the hand-set table decides the count
      of a card listed in it, whatever its text and cost. */
  lemma EpcTableWins(c: CardInfo)
    requires c.data.cardType != "Power" && c.id !in DrawPowerIds
    requires forall k: nat :: !MaxPowerAt(c.data.cardText, k)
    requires c.id in DrawSigilExceptions
    ensures EpcPowerCount(c) == Ok(DrawSigilExceptions[c.id])
  {
    assert FirstMaxPower(c.data.cardText, 0).None?;
  }

  /** Without a "+X Maximum Power" text and outside the hand-set tables, a card
      counts 1 exactly when its text draws a sigil, whatever its cost. */
  lemma EpcDrawSigil(c: CardInfo)
    requires c.data.cardType != "Power" && c.id !in DrawPowerIds
    requires forall k: nat :: !MaxPowerAt(c.data.cardText, k)
    requires c.id !in DrawSigilExceptions
    ensures EpcPowerCount(c) == if DrawSigilMatch(c.data.cardText) then Ok(1) else Ok(0)
  {
    assert FirstMaxPower(c.data.cardText, 0).None?;
  }

  /** The table's entries: Brilliant Discovery counts 2, Reliable Troops 1,
      and Spire Chaplain 0 even though it draws a sigil. */
  lemma EpcTableExamples(c: CardInfo)
    requires c.data.cardType != "Power"
    requires forall k: nat :: !MaxPowerAt(c.data.cardText, k)
    ensures c.id == "2-177" ==> EpcPowerCount(c) == Ok(2)
    ensures c.id == "11-67" ==> EpcPowerCount(c) == Ok(1)
    ensures c.id == "1-154" ==> EpcPowerCount(c) == Ok(0)
  {
    assert FirstMaxPower(c.data.cardText, 0).None?;
  }

  /** Both counts agree on cheap cards outside every hand-set table and without
      a "+X Maximum Power" text. */
  lemma PowerCountsAgree(c: CardInfo)
    requires c.id !in DrawPowerIds && c.id !in DrawSigilExceptions && c.id !in LowCostDrawSigilExceptions
    requires forall k: nat :: !MaxPowerAt(c.data.cardText, k)
    requires c.data.cost <= 2
    ensures EpcPowerCount(c) == Ok(PowerCount(c))
  {
    if c.data.cardType != "Power" {
      assert FirstMaxPower(c.data.cardText, 0).None?;
    }
  }

  /** The total-power count ignores the cost limit of the deck power count: an
      expensive draw-a-sigil card counts in one and not in the other. */
  lemma EpcIgnoresCost(c: CardInfo)
    requires c.data.cardType != "Power"
    requires c.id !in DrawPowerIds && c.id !in DrawSigilExceptions
    requires forall k: nat :: !MaxPowerAt(c.data.cardText, k)
    requires DrawSigilMatch(c.data.cardText) && c.data.cost > 2
    ensures PowerCount(c) == 0 && EpcPowerCount(c) == Ok(1)
  {
    assert FirstMaxPower(c.data.cardText, 0).None?;
  }
}
