/** The older card module: the same record shape, id and collection, with a
    record check whose extra-field branch can never run. */
module LegacyCard {
  import opened Wrappers
  import Card

  /** Record validation as written: the base fields must be present; the
      "extra" fields are computed as the base fields the record lacks, which
      is empty once the first check has passed, so the Unit check is dead. */
  function ValidateDict(d: Card.CardRecord): (r: Result<(), Card.ValidationError>)
    ensures r.Ok? <==> Card.BaseFields <= d.keys
    ensures r.Err? ==> r.error == Card.MissingBaseFields
  {
    if !(Card.BaseFields <= d.keys) then Err(Card.MissingBaseFields)
    else
      var extraFields := Card.BaseFields - d.keys;
      if extraFields != {} && d.cardType == "Unit" && Card.UnitFields - extraFields != {} then
        Err(Card.UnexpectedUnitFields)
      else Ok(())
  }

  /** True exactly when validation does not fail. */
  function IsValidDict(d: Card.CardRecord): (b: bool)
    ensures b <==> ValidateDict(d).Ok?
    ensures b <==> Card.BaseFields <= d.keys
  {
    ValidateDict(d).Ok?
  }

  /** A record without one of the base fields is rejected. */
  lemma MissingFieldRejected(d: Card.CardRecord, field: string)
    requires field in Card.BaseFields && field !in d.keys
    ensures !IsValidDict(d)
  {
  }

  /** Every record the current check accepts, this one accepts too. */
  lemma AcceptsMoreThanCurrent(d: Card.CardRecord)
    requires Card.IsValidDict(d)
    ensures IsValidDict(d)
  {
  }

  /** A Unit with a field that is neither a base nor a unit field: accepted
      here, rejected by the current check. */
  lemma UnitWithExtraFieldAccepted()
    ensures var d := Card.CardRecord(Card.BaseFields + {"Flavor"}, 3, 242, "Malediction Reader", "Unit", 6, "{S}{S}", "");
      IsValidDict(d) && !Card.IsValidDict(d)
  {
    var d := Card.CardRecord(Card.BaseFields + {"Flavor"}, 3, 242, "Malediction Reader", "Unit", 6, "{S}{S}", "");
    assert "Flavor" in d.keys && "Flavor" !in Card.BaseFields && "Flavor" !in Card.UnitFields;
    Card.UnitExtraFieldRejected(d, "Flavor");
  }

  /** The constructor from a record: validation, then the composite id. */
  function NewCardInfo(d: Card.CardRecord): (r: Result<Card.CardInfo, Card.ValidationError>)
    ensures r.Ok? <==> IsValidDict(d)
    ensures r.Ok? ==> r.value.data == d && r.value.id == Card.CardId(d.setNumber, d.eternalId)
    ensures r.Err? ==> r.error == Card.MissingBaseFields
  {
    match ValidateDict(d)
    case Err(e) => Err(e)
    case Ok(_) => Ok(Card.ToCardInfo(d))
  }

  /** The collection of all known cards, with dict-like look-up by id. The
      order of `cards` is that of the dict's values, which the older runtime
      does not fix; only its membership is promised. */
  class CardCollection {
    var cardsDict: map<string, Card.CardInfo>
    var cards: seq<Card.CardInfo>
    /** The order of the dict's keys that `cards` follows. */
    var keyOrder: seq<string>

    ghost predicate Valid()
      reads this
    {
      Card.KeysInOrder(cardsDict, keyOrder) && cards == Card.ValuesInOrder(cardsDict, keyOrder)
    }

    constructor ()
      ensures Valid()
      ensures cardsDict == map[] && cards == []
    {
      cardsDict := map[];
      cards := [];
      keyOrder := [];
    }

    /** Adds every valid record, keyed by its id, then lists the cards. */
    method Load(records: seq<Card.CardRecord>)
      requires Valid()
      modifies this
      ensures Valid()
      ensures cardsDict == Card.LoadInto(old(cardsDict), old(keyOrder), records, IsValidDict).0
      ensures forall c :: c in cards <==> c in cardsDict.Values
    {
      ghost var target := Card.LoadInto(cardsDict, keyOrder, records, IsValidDict);
      Card.LoadIntoKeepsOrder(cardsDict, keyOrder, records, IsValidDict);
      for i := 0 to |records|
        invariant Card.LoadInto(cardsDict, keyOrder, records[i..], IsValidDict) == target
        invariant Card.KeysInOrder(cardsDict, keyOrder)
      {
        var cardJson := records[i];
        assert records[i..][1..] == records[i + 1..];
        if IsValidDict(cardJson) {
          var cardinfo := Card.ToCardInfo(cardJson);
          Card.InsertKeepsOrder(cardsDict, keyOrder, cardinfo);
          if cardinfo.id !in cardsDict {
            keyOrder := keyOrder + [cardinfo.id];
          }
          cardsDict := cardsDict[cardinfo.id := cardinfo];
        }
      }
      assert records[|records|..] == [];
      cards := Card.ValuesInOrder(cardsDict, keyOrder);
      forall c ensures c in cards <==> c in cardsDict.Values {
        if c in cards {
          var i :| 0 <= i < |cards| && cards[i] == c;
          assert cardsDict[keyOrder[i]] == c;
        }
        if c in cardsDict.Values {
          var k :| k in cardsDict && cardsDict[k] == c;
          var i :| 0 <= i < |keyOrder| && keyOrder[i] == k;
          assert cards[i] == c;
        }
      }
    }

    /** `collection[key]`: the card with that id, or a KeyError. */
    function GetItem(key: string): (r: Result<Card.CardInfo, Card.LookupError>)
      reads this
      ensures r.Ok? <==> key in cardsDict
      ensures r.Ok? ==> r.value == cardsDict[key]
      ensures r.Err? ==> r.error == Card.KeyError(key)
    {
      if key in cardsDict then Ok(cardsDict[key]) else Err(Card.KeyError(key))
    }
  }
}
