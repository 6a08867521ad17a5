/** Fill colours for faction charts: a fixed colour per known faction, and a
    repeating fallback palette for everything else. */
module Plot {
  /** The fixed colour of each known faction entry. */
  const FactionColorsLookup: map<string, string> := map[
    "F" := "red", "J" := "green", "T" := "yellow", "S" := "purple", "P" := "blue", "None" := "grey"]

  /** The fallback palette, handed out in turn to entries without a fixed colour. */
  const OtherColors: seq<string> := ["magenta", "black", "cyan"]

  /** The colours of `factions` when `seen` entries without a fixed colour
      came before them: an entry of `lookup` takes its fixed colour, any other
      entry takes the palette colour at `seen`, counted round the palette. */
  function ColorsFrom(lookup: map<string, string>, factions: seq<string>, seen: nat): (colors: seq<string>)
    ensures |colors| == |factions|
  {
    if |factions| == 0 then []
    else if factions[0] in lookup then
      [lookup[factions[0]]] + ColorsFrom(lookup, factions[1..], seen)
    else
      [OtherColors[seen % |OtherColors|]] + ColorsFrom(lookup, factions[1..], seen + 1)
  }

  /** The colours of a faction list. */
  function FactionColors(factions: seq<string>): (colors: seq<string>)
    ensures |colors| == |factions|
  {
    ColorsFrom(FactionColorsLookup, factions, 0)
  }

  /** How many entries of `factions` have no fixed colour. */
  function Unknowns(lookup: map<string, string>, factions: seq<string>): (n: nat)
    ensures n <= |factions|
  {
    if |factions| == 0 then 0
    else (if factions[0] in lookup then 0 else 1) + Unknowns(lookup, factions[1..])
  }

  /** The loop of `get_faction_colors`, over a given table; `cycler` is the
      position of the cycling iterator in the palette. */
  method AssignColors(lookup: map<string, string>, factionList: seq<string>) returns (colors: seq<string>)
    ensures colors == ColorsFrom(lookup, factionList, 0)
  {
    colors := [];
    var cycler := 0;
    ghost var seen: nat := 0;
    assert factionList[0..] == factionList;
    for i := 0 to |factionList|
      invariant cycler == seen % |OtherColors|
      invariant colors + ColorsFrom(lookup, factionList[i..], seen) == ColorsFrom(lookup, factionList, 0)
    {
      var x := factionList[i];
      if x in lookup {
        assert colors + [lookup[x]] + ColorsFrom(lookup, factionList[i + 1..], seen)
          == ColorsFrom(lookup, factionList, 0) by {
          ColorsFromSuffix(lookup, factionList, i, seen);
          assert colors + [lookup[x]] + ColorsFrom(lookup, factionList[i + 1..], seen)
            == colors + ([lookup[x]] + ColorsFrom(lookup, factionList[i + 1..], seen));
        }
        colors := colors + [lookup[x]];
      } else {
        assert colors + [OtherColors[cycler]] + ColorsFrom(lookup, factionList[i + 1..], seen + 1)
          == ColorsFrom(lookup, factionList, 0) by {
          ColorsFromSuffix(lookup, factionList, i, seen);
          assert colors + [OtherColors[cycler]] + ColorsFrom(lookup, factionList[i + 1..], seen + 1)
            == colors + ([OtherColors[cycler]] + ColorsFrom(lookup, factionList[i + 1..], seen + 1));
        }
        colors := colors + [OtherColors[cycler]];
        cycler := (cycler + 1) % |OtherColors|;
        seen := seen + 1;
      }
    }
    assert factionList[|factionList|..] == [];
  }

  lemma ColorsFromSuffix(lookup: map<string, string>, factions: seq<string>, i: nat, seen: nat)
    requires i < |factions|
    ensures ColorsFrom(lookup, factions[i..], seen) ==
      if factions[i] in lookup then [lookup[factions[i]]] + ColorsFrom(lookup, factions[i + 1..], seen)
      else [OtherColors[seen % |OtherColors|]] + ColorsFrom(lookup, factions[i + 1..], seen + 1)
  {
    assert factions[i..][0] == factions[i] && factions[i..][1..] == factions[i + 1..];
  }

  /** `get_faction_colors`: one colour per entry, the palette a cycling
      iterator that only entries without a fixed colour advance. */
  method GetFactionColors(factionList: seq<string>) returns (colors: seq<string>)
    ensures colors == FactionColors(factionList)
  {
    colors := AssignColors(FactionColorsLookup, factionList);
  }

  /** The colours of a concatenation: the second part goes on counting the
      entries without a fixed colour where the first part stopped. */
  lemma {:induction false} ColorsFromAppend(lookup: map<string, string>, a: seq<string>, b: seq<string>, seen: nat)
    ensures ColorsFrom(lookup, a + b, seen) ==
      ColorsFrom(lookup, a, seen) + ColorsFrom(lookup, b, seen + Unknowns(lookup, a))
    decreases |a|
  {
    if |a| == 0 {
      assert a + b == b;
    } else {
      var x, rest := a[0], a[1..];
      assert (a + b)[0] == x && (a + b)[1..] == rest + b;
      var next := if x in lookup then seen else seen + 1;
      ColorsFromAppend(lookup, rest, b, next);
      assert Unknowns(lookup, a) == (if x in lookup then 0 else 1) + Unknowns(lookup, rest);
    }
  }

  /** The output has one colour per input entry. */
  lemma SameLength(factions: seq<string>)
    ensures |FactionColors(factions)| == |factions|
  {
  }

  /** Entry `i` gets its fixed colour when it has one, and otherwise the
      palette colour at the number of unknown entries before it, counted
      round the palette. */
  lemma ColorAt(lookup: map<string, string>, factions: seq<string>, i: nat)
    requires i < |factions|
    ensures ColorsFrom(lookup, factions, 0)[i] ==
      if factions[i] in lookup then lookup[factions[i]]
      else OtherColors[Unknowns(lookup, factions[..i]) % |OtherColors|]
  {
    var a, b := factions[..i], factions[i..];
    assert factions == a + b;
    ColorsFromAppend(lookup, a, b, 0);
    var cb := ColorsFrom(lookup, b, Unknowns(lookup, a));
    assert ColorsFrom(lookup, factions, 0)[i] == cb[0];
    ColorsFromSuffix(lookup, factions, i, Unknowns(lookup, a));
  }

  /** A known entry does not move the palette: inserting one anywhere adds
      its fixed colour there and leaves every other colour as it was. */
  lemma KnownEntryNeutral(lookup: map<string, string>, a: seq<string>, x: string, b: seq<string>)
    requires x in lookup
    ensures ColorsFrom(lookup, a + [x] + b, 0) ==
      ColorsFrom(lookup, a, 0) + [lookup[x]] + ColorsFrom(lookup, a + b, 0)[|a|..]
  {
    var next := Unknowns(lookup, a);
    ColorsFromAppend(lookup, a, [x] + b, 0);
    ColorsFromAppend(lookup, a, b, 0);
    assert a + [x] + b == a + ([x] + b);
    assert ([x] + b)[0] == x && ([x] + b)[1..] == b;
    assert ColorsFrom(lookup, [x] + b, next) == [lookup[x]] + ColorsFrom(lookup, b, next);
  }

  /** The palette repeats: an unknown entry with exactly one palette's worth
      more unknown entries before it than another is coloured the same. */
  lemma PaletteRepeats(lookup: map<string, string>, factions: seq<string>, i: nat, j: nat)
    requires i < j < |factions|
    requires factions[i] !in lookup && factions[j] !in lookup
    requires Unknowns(lookup, factions[..j]) == Unknowns(lookup, factions[..i]) + |OtherColors|
    ensures ColorsFrom(lookup, factions, 0)[j] == ColorsFrom(lookup, factions, 0)[i]
  {
    ColorAt(lookup, factions, i);
    ColorAt(lookup, factions, j);
  }

  /** The example from the docstring: two known entries and a faction pair,
      which has no fixed colour and takes the first fallback colour. */
  lemma DocExample()
    ensures FactionColors(["F", "None", "FT"]) == ["red", "grey", "magenta"]
  {
    var l := ["F", "None", "FT"];
    assert l[1..] == ["None", "FT"] && l[1..][1..] == ["FT"] && l[1..][1..][1..] == [];
    assert "FT" !in FactionColorsLookup;
    assert ColorsFrom(FactionColorsLookup, ["FT"], 0) == ["magenta"];
  }
}
