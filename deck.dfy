/** A deck: its main cards and optional market, the per-faction counts of
    non-Power cards, the main/splash split, the faction string, the splashed
    cards and the per-type counts. */
module Deck {
  import opened Wrappers
  import opened Strings
  import Card

  /** A faction needs this many non-Power main cards to be a main faction. */
  const MainFactionCount: nat := 6

  /** Reading a column of the card table of an empty main deck fails
      (AttributeError): the table has no columns. */
  datatype DeckError = NoCardData

  predicate Distinct(s: string) {
    forall i, j | 0 <= i < j < |s| :: s[i] != s[j]
  }

  /** An iteration order of the faction set: each faction letter once. The
      source iterates a Python set, whose order it does not fix. */
  predicate IsFactionOrder(order: string) {
    |order| == 5 && Distinct(order) && forall c :: c in order <==> c in Card.Factions
  }

  // ---------------------------------------------------------------------
  // Faction counts
  // ---------------------------------------------------------------------

  /** A card counts towards faction `f` when it is not Power and its
      influence mentions `f`. */
  predicate CountsFor(c: Card.CardInfo, f: char) {
    c.data.cardType != "Power" && f in c.data.influence
  }

  /** The number of cards that count towards faction `f`. */
  function NonPowerWith(cards: seq<Card.CardInfo>, f: char): (n: nat)
    ensures n <= |cards|
    ensures n == 0 <==> forall c | c in cards :: !CountsFor(c, f)
  {
    if |cards| == 0 then 0
    else
      var init := cards[..|cards| - 1];
      assert cards == init + [cards[|cards| - 1]];
      assert forall c | c in init :: c in cards;
      NonPowerWith(init, f) + if CountsFor(cards[|cards| - 1], f) then 1 else 0
  }

  /** Counting splits over concatenation. */
  lemma {:induction false} NonPowerWithAppend(a: seq<Card.CardInfo>, b: seq<Card.CardInfo>, f: char)
    ensures NonPowerWith(a + b, f) == NonPowerWith(a, f) + NonPowerWith(b, f)
    decreases |b|
  {
    if |b| > 0 {
      var b' := b[..|b| - 1];
      assert (a + b)[..|a + b| - 1] == a + b';
      assert (a + b)[|a + b| - 1] == b[|b| - 1];
      NonPowerWithAppend(a, b', f);
    } else {
      assert a + b == a;
    }
  }

  /** Power cards and cards without the letter add nothing to a count. */
  lemma NonCountingCardsAddNothing(cards: seq<Card.CardInfo>, extra: seq<Card.CardInfo>, f: char)
    requires forall c | c in extra :: !CountsFor(c, f)
    ensures NonPowerWith(cards + extra, f) == NonPowerWith(cards, f)
  {
    NonPowerWithAppend(cards, extra, f);
  }

  /** The counts of every faction letter (the counts series). */
  function FactionCountsOf(cards: seq<Card.CardInfo>): (m: map<char, nat>)
    ensures m.Keys == Card.Factions
    ensures forall f | f in m :: m[f] == NonPowerWith(cards, f) && m[f] <= |cards|
  {
    map f | f in Card.Factions :: NonPowerWith(cards, f)
  }

  /** The counts after the letters `order[..i]` have been filled in: those
      letters have their count, the others are still zero. */
  ghost predicate FilledUpTo(counts: map<char, nat>, order: string, i: nat, cards: seq<Card.CardInfo>)
    requires i <= |order|
  {
    && counts.Keys == Card.Factions
    && forall f | f in Card.Factions :: counts[f] == if f in order[..i] then NonPowerWith(cards, f) else 0
  }

  lemma FillStep(counts: map<char, nat>, order: string, i: nat, cards: seq<Card.CardInfo>)
    requires IsFactionOrder(order) && i < |order|
    requires FilledUpTo(counts, order, i, cards)
    ensures FilledUpTo(counts[order[i] := NonPowerWith(cards, order[i])], order, i + 1, cards)
  {
    assert order[..i + 1] == order[..i] + [order[i]];
  }

  lemma FillComplete(counts: map<char, nat>, order: string, cards: seq<Card.CardInfo>)
    requires IsFactionOrder(order)
    requires FilledUpTo(counts, order, |order|, cards)
    ensures counts.Keys == Card.Factions
    ensures forall f | f in Card.Factions :: counts[f] == NonPowerWith(cards, f)
  {
    assert order[..|order|] == order;
  }

  // ---------------------------------------------------------------------
  // Selecting factions by count
  // ---------------------------------------------------------------------

  /** Which counts a selection keeps: main (at least the threshold) or
      splash (nonzero and below it). */
  datatype Band = MainBand | SplashBand

  predicate InBand(n: nat, b: Band) {
    match b
    case MainBand => n >= MainFactionCount
    case SplashBand => 0 < n < MainFactionCount
  }

  /** The letters of `order` whose count lies in the band, in `order`'s order
      (a boolean mask over the counts series). */
  function Select(order: string, counts: map<char, nat>, b: Band): (r: string)
    requires forall c | c in order :: c in counts
    ensures |r| <= |order|
    ensures forall c :: c in r <==> c in order && InBand(counts[c], b)
    ensures Distinct(order) ==> Distinct(r)
  {
    if |order| == 0 then ""
    else
      var rest := Select(order[1..], counts, b);
      assert forall c :: c in order <==> c == order[0] || c in order[1..];
      assert Distinct(order) ==> Distinct(order[1..]) && order[0] !in order[1..] by {
        if Distinct(order) {
          forall i, j | 0 <= i < j < |order[1..]| ensures order[1..][i] != order[1..][j] {
            assert order[1..][i] == order[i + 1] && order[1..][j] == order[j + 1];
          }
          forall k | 0 <= k < |order[1..]| ensures order[1..][k] != order[0] {
            assert order[1..][k] == order[k + 1];
          }
        }
      }
      if InBand(counts[order[0]], b) then
        var r := [order[0]] + rest;
        assert Distinct(order) ==> Distinct(r) by {
          if Distinct(order) {
            forall i, j | 0 <= i < j < |r| ensures r[i] != r[j] {
              if i == 0 {
                assert r[j] == rest[j - 1] && r[j] in rest;
              } else {
                assert r[i] == rest[i - 1] && r[j] == rest[j - 1];
              }
            }
          }
        }
        r
      else rest
  }

  /** A string without repeated characters has as many distinct characters
      as it is long. */
  lemma {:induction false} DistinctCardinality(s: string)
    requires Distinct(s)
    ensures |set c | c in s| == |s|
  {
    if |s| > 0 {
      var t := s[1..];
      assert Distinct(t) by {
        forall i, j | 0 <= i < j < |t| ensures t[i] != t[j] {
          assert t[i] == s[i + 1] && t[j] == s[j + 1];
        }
      }
      DistinctCardinality(t);
      assert s[0] !in t by {
        forall k | 0 <= k < |t| ensures t[k] != s[0] {
          assert t[k] == s[k + 1];
        }
      }
      assert (set c | c in s) == {s[0]} + (set c | c in t) by {
        assert forall c :: c in s <==> c == s[0] || c in t;
      }
    }
  }

  // ---------------------------------------------------------------------
  // Splashed cards
  // ---------------------------------------------------------------------

  /** Some letter of `letters` occurs in the influence. */
  predicate SharesLetter(influence: string, letters: string) {
    exists f :: f in letters && f in influence
  }

  /** The cards whose influence shares a letter with `letters`, in order. */
  function SharingLetter(cards: seq<Card.CardInfo>, letters: string): (r: seq<Card.CardInfo>)
    ensures |r| <= |cards|
    ensures forall c :: c in r <==> c in cards && SharesLetter(c.data.influence, letters)
    ensures |letters| == 0 ==> r == []
  {
    if |cards| == 0 then []
    else
      var rest := SharingLetter(cards[1..], letters);
      assert forall c :: c in cards <==> c == cards[0] || c in cards[1..];
      if SharesLetter(cards[0].data.influence, letters) then [cards[0]] + rest else rest
  }

  /** The selection keeps every copy of a selected card and no copy of any
      other. */
  lemma {:induction false} SharingLetterCopies(cards: seq<Card.CardInfo>, letters: string)
    ensures forall c ::
      multiset(SharingLetter(cards, letters))[c] == if SharesLetter(c.data.influence, letters) then multiset(cards)[c] else 0
    decreases |cards|
  {
    if |cards| > 0 {
      SharingLetterCopies(cards[1..], letters);
      assert cards == [cards[0]] + cards[1..];
    }
  }

  /** The selection distributes over concatenation, so it keeps the cards'
      order. */
  lemma {:induction false} SharingLetterAppend(a: seq<Card.CardInfo>, b: seq<Card.CardInfo>, letters: string)
    ensures SharingLetter(a + b, letters) == SharingLetter(a, letters) + SharingLetter(b, letters)
    decreases |a|
  {
    if |a| > 0 {
      assert (a + b)[1..] == a[1..] + b;
      assert (a + b)[0] == a[0];
      SharingLetterAppend(a[1..], b, letters);
    } else {
      assert a + b == b;
    }
  }

  /** Only the set of letters matters, not their order. */
  lemma {:induction false} SharingLetterSameSet(cards: seq<Card.CardInfo>, l1: string, l2: string)
    requires forall c :: c in l1 <==> c in l2
    ensures SharingLetter(cards, l1) == SharingLetter(cards, l2)
    decreases |cards|
  {
    if |cards| > 0 {
      assert SharesLetter(cards[0].data.influence, l1) <==> SharesLetter(cards[0].data.influence, l2);
      SharingLetterSameSet(cards[1..], l1, l2);
    }
  }

  // ---------------------------------------------------------------------
  // Type counts
  // ---------------------------------------------------------------------

  /** The number of cards of type `t`. */
  function CountType(cards: seq<Card.CardInfo>, t: string): (n: nat)
    ensures n <= |cards|
    ensures n > 0 <==> exists i | 0 <= i < |cards| :: cards[i].data.cardType == t
  {
    if |cards| == 0 then 0
    else
      var init := cards[..|cards| - 1];
      var n := CountType(init, t) + if cards[|cards| - 1].data.cardType == t then 1 else 0;
      assert (exists i | 0 <= i < |cards| :: cards[i].data.cardType == t) <==>
             (exists i | 0 <= i < |init| :: init[i].data.cardType == t) || cards[|cards| - 1].data.cardType == t by {
        if exists i | 0 <= i < |cards| :: cards[i].data.cardType == t {
          var i :| 0 <= i < |cards| && cards[i].data.cardType == t;
          if i < |init| {
            assert init[i] == cards[i];
          }
        }
        if exists i | 0 <= i < |init| :: init[i].data.cardType == t {
          var i :| 0 <= i < |init| && init[i].data.cardType == t;
          assert cards[i] == init[i];
        }
      }
      n
  }

  /** The value counts of the cards' types: every type present once, with
      the number of cards of that type. */
  function TypeCounts(cards: seq<Card.CardInfo>): (m: map<string, nat>)
    ensures forall t :: t in m <==> CountType(cards, t) > 0
    ensures forall t | t in m :: m[t] == CountType(cards, t)
  {
    if |cards| == 0 then map[]
    else
      var m := TypeCounts(cards[..|cards| - 1]);
      var t := cards[|cards| - 1].data.cardType;
      m[t := (if t in m then m[t] else 0) + 1]
  }

  /** The distinct types of the cards, in order of first appearance. */
  function TypesOf(cards: seq<Card.CardInfo>): (ts: seq<string>)
    ensures forall t :: t in ts <==> CountType(cards, t) > 0
    ensures forall i, j | 0 <= i < j < |ts| :: ts[i] != ts[j]
  {
    if |cards| == 0 then []
    else
      var ts := TypesOf(cards[..|cards| - 1]);
      var t := cards[|cards| - 1].data.cardType;
      if t in ts then ts else ts + [t]
  }

  /** The sum of `m`'s values at `keys`. */
  function SumOver(m: map<string, nat>, keys: seq<string>): nat
    requires forall k | k in keys :: k in m
  {
    if |keys| == 0 then 0
    else
      var init := keys[..|keys| - 1];
      assert forall k | k in init :: k in keys;
      SumOver(m, init) + m[keys[|keys| - 1]]
  }

  /** Setting one key changes a sum over distinct keys only if the key is
      one of them. */
  lemma {:induction false} SumOverUpdate(m: map<string, nat>, keys: seq<string>, t: string, v: nat)
    requires forall k | k in keys :: k in m
    requires forall i, j | 0 <= i < j < |keys| :: keys[i] != keys[j]
    ensures t in keys ==> SumOver(m[t := v], keys) + m[t] == SumOver(m, keys) + v
    ensures t !in keys ==> SumOver(m[t := v], keys) == SumOver(m, keys)
    decreases |keys|
  {
    if |keys| > 0 {
      var init := keys[..|keys| - 1];
      var last := keys[|keys| - 1];
      assert forall k :: k in keys <==> k in init || k == last;
      assert last !in init by {
        forall i | 0 <= i < |init| ensures init[i] != last {
          assert init[i] == keys[i];
        }
      }
      assert forall i, j | 0 <= i < j < |init| :: init[i] != init[j] by {
        forall i, j | 0 <= i < j < |init| ensures init[i] != init[j] {
          assert init[i] == keys[i] && init[j] == keys[j];
        }
      }
      SumOverUpdate(m, init, t, v);
    }
  }

  /** The type counts add up to the number of cards. */
  lemma {:induction false} TypeCountsTotal(cards: seq<Card.CardInfo>)
    ensures SumOver(TypeCounts(cards), TypesOf(cards)) == |cards|
    decreases |cards|
  {
    if |cards| > 0 {
      var init := cards[..|cards| - 1];
      var m := TypeCounts(init);
      var ts := TypesOf(init);
      var t := cards[|cards| - 1].data.cardType;
      var v := (if t in m then m[t] else 0) + 1;
      TypeCountsTotal(init);
      SumOverUpdate(m, ts, t, v);
      if t !in ts {
        assert (ts + [t])[..|ts|] == ts;
        assert forall k | k in ts + [t] :: k in m[t := v];
      }
    }
  }

  // ---------------------------------------------------------------------
  // The deck
  // ---------------------------------------------------------------------

  class Deck {
    const mainCards: seq<Card.CardInfo>
    /** None when the deck has no market. */
    const marketCards: Option<seq<Card.CardInfo>>

    /** Stores the main cards and the market as given. */
    constructor (main: seq<Card.CardInfo>, market: Option<seq<Card.CardInfo>>)
      ensures mainCards == main && marketCards == market
    {
      mainCards := main;
      marketCards := market;
    }

    /** The count of every faction letter, filled in `order`: starts at zero
        for all five letters and sets each one in turn. */
    method FactionCounts(order: string) returns (r: Result<map<char, nat>, DeckError>)
      requires IsFactionOrder(order)
      ensures r.Err? <==> |mainCards| == 0
      ensures r.Ok? ==> r.value.Keys == Card.Factions
      ensures r.Ok? ==> forall f | f in Card.Factions :: r.value[f] == NonPowerWith(mainCards, f)
    {
      if |mainCards| == 0 {
        return Err(NoCardData);
      }
      var counts: map<char, nat> := map f | f in Card.Factions :: 0;
      for i := 0 to |order|
        invariant FilledUpTo(counts, order, i, mainCards)
      {
        FillStep(counts, order, i, mainCards);
        counts := counts[order[i] := NonPowerWith(mainCards, order[i])];
      }
      FillComplete(counts, order, mainCards);
      return Ok(counts);
    }

    /** The main factions (count at least the threshold) and the splashes
        (nonzero count below it), each in `order`. */
    function Faction(order: string): (r: Result<(string, string), DeckError>)
      requires IsFactionOrder(order)
      ensures r.Err? <==> |mainCards| == 0
      ensures r.Ok? ==> forall f :: f in r.value.0 <==>
        f in Card.Factions && NonPowerWith(mainCards, f) >= MainFactionCount
      ensures r.Ok? ==> forall f :: f in r.value.1 <==>
        f in Card.Factions && 0 < NonPowerWith(mainCards, f) < MainFactionCount
      ensures r.Ok? ==> Distinct(r.value.0) && Distinct(r.value.1)
    {
      if |mainCards| == 0 then Err(NoCardData)
      else
        var counts := FactionCountsOf(mainCards);
        Ok((Select(order, counts, MainBand), Select(order, counts, SplashBand)))
    }

    /** Mains and splashes are disjoint, and together they are exactly the
        factions with a nonzero count. */
    lemma FactionPartition(order: string)
      requires IsFactionOrder(order) && |mainCards| > 0
      ensures forall f :: !(f in Faction(order).value.0 && f in Faction(order).value.1)
      ensures forall f :: f in Faction(order).value.0 || f in Faction(order).value.1 <==>
        f in Card.Factions && NonPowerWith(mainCards, f) > 0
    {
    }

    /** The mains followed by the lower-cased splashes. */
    function FactionString(order: string): (r: Result<string, DeckError>)
      requires IsFactionOrder(order)
      ensures r.Err? <==> |mainCards| == 0
      ensures r.Ok? ==> |r.value| == |set f | f in Card.Factions && NonPowerWith(mainCards, f) > 0|
      ensures r.Ok? ==> forall f | f in Card.Factions ::
        && (f in r.value <==> NonPowerWith(mainCards, f) >= MainFactionCount)
        && (ToLower(f) in r.value <==> 0 < NonPowerWith(mainCards, f) < MainFactionCount)
      ensures r.Ok? ==> forall i, j | 0 <= i < j < |r.value| :: !(IsLower(r.value[i]) && IsUpper(r.value[j]))
    {
      match Faction(order)
      case Err(e) => Err(e)
      case Ok((mains, splashes)) =>
        var s := mains + Lower(splashes);
        FactionStringFacts(order, mains, splashes);
        Ok(s)
    }

    lemma FactionStringFacts(order: string, mains: string, splashes: string)
      requires IsFactionOrder(order) && |mainCards| > 0
      requires Faction(order) == Ok((mains, splashes))
      ensures |mains + Lower(splashes)| == |set f | f in Card.Factions && NonPowerWith(mainCards, f) > 0|
      ensures forall f | f in Card.Factions ::
        && (f in mains + Lower(splashes) <==> NonPowerWith(mainCards, f) >= MainFactionCount)
        && (ToLower(f) in mains + Lower(splashes) <==> 0 < NonPowerWith(mainCards, f) < MainFactionCount)
      ensures forall i, j | 0 <= i < j < |mains + Lower(splashes)| ::
        !(IsLower((mains + Lower(splashes))[i]) && IsUpper((mains + Lower(splashes))[j]))
    {
      var counts := FactionCountsOf(mainCards);
      assert (set f | f in Card.Factions && NonPowerWith(mainCards, f) > 0)
          == (set f | f in Card.Factions && counts[f] > 0);
      LabelFacts(mains, splashes, counts);
      FactionsUpper(mains, splashes);
    }

    lemma FactionsUpper(mains: string, splashes: string)
      requires forall f :: f in mains ==> f in Card.Factions
      requires forall f :: f in splashes ==> f in Card.Factions
      ensures forall i, j | 0 <= i < j < |mains + Lower(splashes)| ::
        !(IsLower((mains + Lower(splashes))[i]) && IsUpper((mains + Lower(splashes))[j]))
    {
      assert forall c | c in mains + splashes :: IsUpper(c) by {
        assert forall f | f in Card.Factions :: IsUpper(f);
      }
      UpperThenLower(mains, splashes);
    }

    /** Upper-case mains followed by lower-cased splashes: no lower-case letter
        comes before an upper-case one. */
    static lemma UpperThenLower(mains: string, splashes: string)
      requires forall c | c in mains + splashes :: IsUpper(c)
      ensures forall i, j | 0 <= i < j < |mains + Lower(splashes)| ::
        !(IsLower((mains + Lower(splashes))[i]) && IsUpper((mains + Lower(splashes))[j]))
    {
      var s := mains + Lower(splashes);
      forall i, j | 0 <= i < j < |s| ensures !(IsLower(s[i]) && IsUpper(s[j])) {
        if i < |mains| {
          assert s[i] == mains[i] && mains[i] in mains + splashes;
        } else {
          assert s[j] == Lower(splashes)[j - |mains|] == ToLower(splashes[j - |mains|]);
          assert splashes[j - |mains|] in mains + splashes;
        }
      }
    }

    /** Distinct mains and splashes chosen by count: the faction string has
        one letter per faction with a nonzero count, upper-case for a main
        faction and lower-case for a splash. */
    static lemma LabelFacts(mains: string, splashes: string, counts: map<char, nat>)
      requires counts.Keys == Card.Factions
      requires Distinct(mains) && Distinct(splashes)
      requires forall f :: f in mains <==> f in Card.Factions && counts[f] >= MainFactionCount
      requires forall f :: f in splashes <==> f in Card.Factions && 0 < counts[f] < MainFactionCount
      ensures |mains + Lower(splashes)| == |set f | f in Card.Factions && counts[f] > 0|
      ensures forall f | f in Card.Factions ::
        && (f in mains + Lower(splashes) <==> counts[f] >= MainFactionCount)
        && (ToLower(f) in mains + Lower(splashes) <==> 0 < counts[f] < MainFactionCount)
    {
      LabelLength(mains, splashes, counts);
      assert forall c | c in mains + splashes :: IsUpper(c) by {
        assert forall f | f in Card.Factions :: IsUpper(f);
      }
      LowerSplashes(mains, splashes);
    }

    static lemma LabelLength(mains: string, splashes: string, counts: map<char, nat>)
      requires counts.Keys == Card.Factions
      requires Distinct(mains) && Distinct(splashes)
      requires forall f :: f in mains <==> f in Card.Factions && counts[f] >= MainFactionCount
      requires forall f :: f in splashes <==> f in Card.Factions && 0 < counts[f] < MainFactionCount
      ensures |mains| + |splashes| == |set f | f in Card.Factions && counts[f] > 0|
    {
      DistinctCardinality(mains);
      DistinctCardinality(splashes);
      var a, b := set c | c in mains, set c | c in splashes;
      assert a * b == {};
      assert a + b == set f | f in Card.Factions && counts[f] > 0;
    }

    /** The helper behind the faction string: upper-case mains followed by
        lower-cased upper-case splashes keep the two apart. */
    static lemma LowerSplashes(mains: string, splashes: string)
      requires forall c | c in mains + splashes :: IsUpper(c)
      ensures forall f | IsUpper(f) ::
        && (f in mains + Lower(splashes) <==> f in mains)
        && (ToLower(f) in mains + Lower(splashes) <==> f in splashes)
    {
      var low := Lower(splashes);
      forall f | IsUpper(f)
        ensures f in mains + low <==> f in mains
        ensures ToLower(f) in mains + low <==> f in splashes
      {
        assert f !in low by {
          forall i | 0 <= i < |low| ensures low[i] != f {
            assert low[i] == ToLower(splashes[i]) && IsUpper(splashes[i]);
          }
        }
        assert ToLower(f) !in mains by {
          forall i | 0 <= i < |mains| ensures mains[i] != ToLower(f) {
            assert IsUpper(mains[i]);
          }
        }
        if ToLower(f) in low {
          var i :| 0 <= i < |low| && low[i] == ToLower(f);
          assert IsUpper(splashes[i]) && (ToLower(splashes[i]) as int) == (f as int) + 32;
          assert splashes[i] == f;
        }
        if f in splashes {
          var i :| 0 <= i < |splashes| && splashes[i] == f;
          assert low[i] == ToLower(f);
        }
      }
    }

    /** The main cards whose influence shares a letter with the splashes,
        every copy of each, in deck order. */
    function CardsSplash(order: string): (r: Result<seq<Card.CardInfo>, DeckError>)
      requires IsFactionOrder(order)
      ensures r.Err? <==> |mainCards| == 0
      ensures r.Ok? ==> |r.value| <= |mainCards|
      ensures r.Ok? ==> forall c :: c in r.value <==> (c in mainCards &&
        exists f :: f in c.data.influence && f in Card.Factions && 0 < NonPowerWith(mainCards, f) < MainFactionCount)
      ensures r.Ok? && |Faction(order).value.1| == 0 ==> r.value == []
      ensures r.Ok? ==> r.value == SharingLetter(mainCards, Faction(order).value.1)
      ensures r.Ok? ==> forall c ::
        multiset(r.value)[c] == if SharesLetter(c.data.influence, Faction(order).value.1) then multiset(mainCards)[c] else 0
    {
      match Faction(order)
      case Err(e) => Err(e)
      case Ok((_, splashes)) =>
        SharingLetterCopies(mainCards, splashes);
        Ok(SharingLetter(mainCards, splashes))
    }

    /** The splashed cards do not depend on the iteration order of the
        faction set. */
    lemma CardsSplashOrderFree(o1: string, o2: string)
      requires IsFactionOrder(o1) && IsFactionOrder(o2)
      ensures CardsSplash(o1) == CardsSplash(o2)
    {
      if |mainCards| > 0 {
        SharingLetterSameSet(mainCards, Faction(o1).value.1, Faction(o2).value.1);
      }
    }

    /** Card counts by type; they add up to the number of main cards. */
    function Types(): (r: Result<map<string, nat>, DeckError>)
      ensures r.Err? <==> |mainCards| == 0
      ensures r.Ok? ==> forall t :: t in r.value <==> exists i | 0 <= i < |mainCards| :: mainCards[i].data.cardType == t
      ensures r.Ok? ==> forall t | t in r.value :: r.value[t] == CountType(mainCards, t)
      ensures r.Ok? ==> SumOver(r.value, TypesOf(mainCards)) == |mainCards|
    {
      if |mainCards| == 0 then Err(NoCardData)
      else
        TypeCountsTotal(mainCards);
        Ok(TypeCounts(mainCards))
    }
  }
}
