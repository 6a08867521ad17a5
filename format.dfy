/** Draft formats: the number-word parser used when reading boosting tables,
    and the part of deck-to-format matching that counts matching cards. */
module Format {
  import opened Wrappers
  import opened Strings
  import Card

  // ---------------------------------------------------------------------
  // The number-word table
  // ---------------------------------------------------------------------

  const Units: seq<string> := [
    "zero", "one", "two", "three", "four", "five", "six", "seven", "eight",
    "nine", "ten", "eleven", "twelve", "thirteen", "fourteen", "fifteen",
    "sixteen", "seventeen", "eighteen", "nineteen"]

  const Tens: seq<string> := ["", "", "twenty", "thirty", "forty", "fifty", "sixty", "seventy", "eighty", "ninety"]

  const Scales: seq<string> := ["hundred", "thousand", "million", "billion", "trillion"]

  function Pow10(n: nat): (p: nat)
    ensures p >= 1
  {
    if n == 0 then 1 else 10 * Pow10(n - 1)
  }

  /** `10 ** (idx * 3 or 2)`: 100 for the first scale, 10^(3 idx) after it. */
  function ScaleOf(idx: nat): (p: nat)
    ensures idx == 0 ==> p == 100
    ensures idx > 0 ==> p == Pow10(3 * idx) && p > 100
  {
    if idx * 3 != 0 then
      assert Pow10(3) == 1000;
      Pow10Grows(3, idx * 3);
      Pow10(idx * 3)
    else Pow10(2)
  }

  lemma {:induction false} Pow10Grows(m: nat, n: nat)
    requires m <= n
    ensures Pow10(m) <= Pow10(n)
    decreases n
  {
    if m < n {
      Pow10Grows(m, n - 1);
    }
  }

  /** The entries of the units list: each word with `(1, index)`. */
  function UnitEntries(units: seq<string>): (e: seq<(string, (nat, nat))>)
    ensures |e| == |units| && forall i | 0 <= i < |units| :: e[i] == (units[i], (1, i))
  {
    seq(|units|, i requires 0 <= i < |units| => (units[i], (1, i)))
  }

  /** The entries of the tens list: each word with `(1, 10 * index)`. */
  function TenEntries(tens: seq<string>): (e: seq<(string, (nat, nat))>)
    ensures |e| == |tens| && forall i | 0 <= i < |tens| :: e[i] == (tens[i], (1, i * 10))
  {
    seq(|tens|, i requires 0 <= i < |tens| => (tens[i], (1, i * 10)))
  }

  /** The entries of the scales list: each word with `(ScaleOf(index), 0)`. */
  function ScaleEntries(scales: seq<string>): (e: seq<(string, (nat, nat))>)
    ensures |e| == |scales| && forall i | 0 <= i < |scales| :: e[i] == (scales[i], (ScaleOf(i), 0))
  {
    seq(|scales|, i requires 0 <= i < |scales| => (scales[i], (ScaleOf(i), 0)))
  }

  /** The `(scale, increment)` pairs in the order they are written into the
      table: "and", the units, the tens, the scales. */
  function EntriesOf(units: seq<string>, tens: seq<string>, scales: seq<string>): seq<(string, (nat, nat))> {
    [("and", (1, 0))] + UnitEntries(units) + TenEntries(tens) + ScaleEntries(scales)
  }

  /** The value a dictionary filled from `entries` in order holds for `key`:
      a later entry for the same key replaces an earlier one. */
  function LastValue<K(==), V>(entries: seq<(K, V)>, key: K): (r: Option<V>)
    ensures r.None? <==> forall i | 0 <= i < |entries| :: entries[i].0 != key
  {
    if |entries| == 0 then None
    else if entries[|entries| - 1].0 == key then Some(entries[|entries| - 1].1)
    else LastValue(entries[..|entries| - 1], key)
  }

  /** The last position of `x` in `s`. */
  function LastIndex<T(==)>(s: seq<T>, x: T): (i: nat)
    requires x in s
    ensures i < |s| && s[i] == x && forall j | i < j < |s| :: s[j] != x
  {
    if s[|s| - 1] == x then |s| - 1 else LastIndex(s[..|s| - 1], x)
  }

  lemma {:induction false} LastValueAppend<K, V>(a: seq<(K, V)>, b: seq<(K, V)>, key: K)
    ensures LastValue(a + b, key) == if LastValue(b, key).Some? then LastValue(b, key) else LastValue(a, key)
    decreases |b|
  {
    if |b| > 0 {
      var ab := a + b;
      assert ab[|ab| - 1] == b[|b| - 1];
      assert ab[..|ab| - 1] == a + b[..|b| - 1];
      LastValueAppend(a, b[..|b| - 1], key);
    } else {
      assert a + b == a;
    }
  }

  /** Entries keyed by a list of words hold, for a word of the list, the
      entry at its last position. */
  lemma {:induction false} LastValueOfWords<V>(entries: seq<(string, V)>, words: seq<string>, w: string)
    requires |entries| == |words| && forall i | 0 <= i < |words| :: entries[i].0 == words[i]
    ensures LastValue(entries, w) == if w in words then Some(entries[LastIndex(words, w)].1) else None
    decreases |words|
  {
    if |words| > 0 && words[|words| - 1] != w {
      var n := |words| - 1;
      assert w in words ==> w in words[..n];
      LastValueOfWords(entries[..n], words[..n], w);
    }
  }

  /** The table type: word to `(scale, increment)`. */
  type NumWords = map<string, (nat, nat)>

  /** A dictionary written entry by entry. */
  function Written(entries: seq<(string, (nat, nat))>): (m: NumWords)
    ensures forall w :: w in m <==> LastValue(entries, w).Some?
    ensures forall w | w in m :: m[w] == LastValue(entries, w).value
  {
    if |entries| == 0 then map[]
    else
      var last := entries[|entries| - 1];
      Written(entries[..|entries| - 1])[last.0 := last.1]
  }

  lemma WrittenStep(entries: seq<(string, (nat, nat))>, w: string, v: (nat, nat))
    ensures Written(entries + [(w, v)]) == Written(entries)[w := v]
  {
    assert (entries + [(w, v)])[..|entries|] == entries;
  }

  /** Writing the next entry of `e` after `prefix` and the first `idx` ones. */
  lemma WrittenPrefixStep(prefix: seq<(string, (nat, nat))>, e: seq<(string, (nat, nat))>, idx: nat)
    requires idx < |e|
    ensures Written(prefix + e[..idx + 1]) == Written(prefix + e[..idx])[e[idx].0 := e[idx].1]
  {
    assert prefix + e[..idx + 1] == (prefix + e[..idx]) + [e[idx]];
    WrittenStep(prefix + e[..idx], e[idx].0, e[idx].1);
  }

  /** `numwords.get(w)`. */
  function Get(numwords: NumWords, w: string): (r: Option<(nat, nat)>)
    ensures r.Some? <==> w in numwords
    ensures r.Some? ==> r.value == numwords[w]
  {
    if w in numwords then Some(numwords[w]) else None
  }

  /** What a table filled from the three lists holds for `w`: a scale word
      its power of ten, a tens word ten times its (last) position, a unit its
      (last) position, "and" nothing, and any other word nothing at all;
      later lists win over earlier ones. */
  function TableValue(units: seq<string>, tens: seq<string>, scales: seq<string>, w: string): Option<(nat, nat)> {
    if w in scales then Some((ScaleOf(LastIndex(scales, w)), 0))
    else if w in tens then Some((1, 10 * LastIndex(tens, w)))
    else if w in units then Some((1, LastIndex(units, w)))
    else if w == "and" then Some((1, 0))
    else None
  }

  lemma LastValueTables(units: seq<string>, tens: seq<string>, scales: seq<string>, w: string)
    ensures LastValue(EntriesOf(units, tens, scales), w) == TableValue(units, tens, scales, w)
  {
    var a: seq<(string, (nat, nat))> := [("and", (1, 0))];
    var u, t, s := UnitEntries(units), TenEntries(tens), ScaleEntries(scales);
    assert EntriesOf(units, tens, scales) == ((a + u) + t) + s;
    LastValueAppend((a + u) + t, s, w);
    LastValueOfWords(s, scales, w);
    if w !in scales {
      LastValueAppend(a + u, t, w);
      LastValueOfWords(t, tens, w);
      if w !in tens {
        LastValueAppend(a, u, w);
        LastValueOfWords(u, units, w);
        if w !in units {
          LastValueOfWords(a, ["and"], w);
        }
      }
    }
  }

  lemma WrittenTables(units: seq<string>, tens: seq<string>, scales: seq<string>, w: string)
    ensures Get(Written(EntriesOf(units, tens, scales)), w) == TableValue(units, tens, scales, w)
  {
    LastValueTables(units, tens, scales, w);
  }

  /** The table `text2int` fills when it is given an empty one. */
  function DefaultNumWords(): NumWords {
    Written(EntriesOf(Units, Tens, Scales))
  }

  /** `for idx, word in enumerate(units): numwords[word] = (1, idx)`. */
  method WriteUnits(numwords: NumWords, ghost prefix: seq<(string, (nat, nat))>, units: seq<string>)
    returns (m: NumWords)
    requires numwords == Written(prefix)
    ensures m == Written(prefix + UnitEntries(units))
  {
    var u := UnitEntries(units);
    m := numwords;
    assert prefix + u[..0] == prefix;
    for idx := 0 to |units|
      invariant m == Written(prefix + u[..idx])
    {
      var value: (nat, nat) := (1, idx);
      WrittenPrefixStep(prefix, u, idx);
      m := m[units[idx] := value];
    }
    assert u[..|units|] == u;
  }

  /** `for idx, word in enumerate(tens): numwords[word] = (1, idx * 10)`. */
  method WriteTens(numwords: NumWords, ghost prefix: seq<(string, (nat, nat))>, tens: seq<string>)
    returns (m: NumWords)
    requires numwords == Written(prefix)
    ensures m == Written(prefix + TenEntries(tens))
  {
    var t := TenEntries(tens);
    m := numwords;
    assert prefix + t[..0] == prefix;
    for idx := 0 to |tens|
      invariant m == Written(prefix + t[..idx])
    {
      var value: (nat, nat) := (1, idx * 10);
      WrittenPrefixStep(prefix, t, idx);
      m := m[tens[idx] := value];
    }
    assert t[..|tens|] == t;
  }

  /** `for idx, word in enumerate(scales): numwords[word] = (10 ** (idx * 3 or 2), 0)`. */
  method WriteScales(numwords: NumWords, ghost prefix: seq<(string, (nat, nat))>, scales: seq<string>)
    returns (m: NumWords)
    requires numwords == Written(prefix)
    ensures m == Written(prefix + ScaleEntries(scales))
  {
    var s := ScaleEntries(scales);
    m := numwords;
    assert prefix + s[..0] == prefix;
    for idx := 0 to |scales|
      invariant m == Written(prefix + s[..idx])
    {
      var value: (nat, nat) := (ScaleOf(idx), 0);
      WrittenPrefixStep(prefix, s, idx);
      m := m[scales[idx] := value];
    }
    assert s[..|scales|] == s;
  }

  /** The lazy fill of the empty table: "and", then each list with its index. */
  method FillNumWords(units: seq<string>, tens: seq<string>, scales: seq<string>) returns (numwords: NumWords)
    ensures numwords == Written(EntriesOf(units, tens, scales))
  {
    ghost var a: seq<(string, (nat, nat))> := [("and", (1, 0))];
    numwords := map["and" := (1, 0)];
    WrittenStep([], "and", (1, 0));
    assert [] + a == a;
    numwords := WriteUnits(numwords, a, units);
    numwords := WriteTens(numwords, a + UnitEntries(units), tens);
    numwords := WriteScales(numwords, a + UnitEntries(units) + TenEntries(tens), scales);
  }

  // ---------------------------------------------------------------------
  // text2int
  // ---------------------------------------------------------------------

  datatype Text2IntError = IllegalWord(word: string)

  /** The two accumulators of the parser. */
  datatype Accumulator = Accumulator(current: int, result: int)

  /** One word: `current = current * scale + increment`; a scale above 100
      then moves `current` into `result`. */
  function Step(acc: Accumulator, scale: nat, increment: nat): (r: Accumulator)
    ensures r.result + r.current == acc.result + acc.current * scale + increment
    ensures scale > 100 ==> r.current == 0
    ensures scale <= 100 ==> r.result == acc.result
  {
    var current := acc.current * scale + increment;
    if scale > 100 then Accumulator(0, acc.result + current) else Accumulator(current, acc.result)
  }

  /** The accumulators after all `words`, or the first word not in the table. */
  function Fold(numwords: NumWords, words: seq<string>, acc: Accumulator): (r: Result<Accumulator, Text2IntError>)
    ensures |words| == 0 ==> r == Ok(acc)
    ensures r.Err? ==> r.error.word in words && r.error.word !in numwords
  {
    if |words| == 0 then Ok(acc)
    else if words[0] !in numwords then Err(IllegalWord(words[0]))
    else
      var (scale, increment) := numwords[words[0]];
      Fold(numwords, words[1..], Step(acc, scale, increment))
  }

  /** The value of a number written in words, with a given table. */
  function TextValue(textnum: string, numwords: NumWords): (r: Result<int, Text2IntError>)
    ensures |Words(textnum)| == 0 ==> r == Ok(0)
    ensures r.Err? ==> r.error.word in Words(textnum) && r.error.word !in numwords
  {
    var acc :- Fold(numwords, Words(textnum), Accumulator(0, 0));
    Ok(acc.result + acc.current)
  }

  /** The table `text2int` uses: the one given, or the default table when
      the one given is empty. */
  function TableOf(numwords: NumWords): (t: NumWords)
    ensures |numwords| > 0 ==> t == numwords
    ensures |numwords| == 0 ==> "and" in t && t["and"] == (1, 0)
  {
    if |numwords| == 0 then DefaultAnd(); DefaultNumWords() else numwords
  }

  /** The accumulator loop over the words, with a filled table. */
  method FoldWords(table: NumWords, words: seq<string>) returns (r: Result<int, Text2IntError>)
    ensures r == (match Fold(table, words, Accumulator(0, 0))
      case Ok(acc) => Ok(acc.result + acc.current) case Err(e) => Err(e))
  {
    var current: int, result: int := 0, 0;
    assert words[0..] == words;
    for k := 0 to |words|
      invariant Fold(table, words, Accumulator(0, 0)) == Fold(table, words[k..], Accumulator(current, result))
    {
      assert words[k..][0] == words[k] && words[k..][1..] == words[k + 1..];
      if words[k] !in table {
        return Err(IllegalWord(words[k]));
      }
      var (scale, increment) := table[words[k]];
      current := current * scale + increment;
      if scale > 100 {
        result := result + current;
        current := 0;
      }
    }
    assert words[|words|..] == [];
    return Ok(result + current);
  }

  /** `text2int`: fills the table when it is empty, then parses the
      whitespace-separated words. */
  method Text2Int(textnum: string, numwords: NumWords) returns (r: Result<int, Text2IntError>)
    ensures r == TextValue(textnum, TableOf(numwords))
  {
    var table := numwords;
    if |table| == 0 {
      table := FillNumWords(Units, Tens, Scales);
    }
    r := FoldWords(table, Words(textnum));
  }

  /** Parsing fails exactly when some word is not in the table, and then it
      names the first such word. */
  lemma {:induction false} FoldFails(numwords: NumWords, words: seq<string>, acc: Accumulator)
    ensures Fold(numwords, words, acc).Err? <==> exists k | 0 <= k < |words| :: words[k] !in numwords
    ensures Fold(numwords, words, acc).Err? ==> exists k | 0 <= k < |words| ::
      words[k] !in numwords && Fold(numwords, words, acc).error == IllegalWord(words[k])
      && forall j | 0 <= j < k :: words[j] in numwords
    decreases |words|
  {
    if |words| > 0 && words[0] in numwords {
      var (scale, increment) := numwords[words[0]];
      var next := Step(acc, scale, increment);
      FoldFails(numwords, words[1..], next);
      assert forall k | 1 <= k < |words| :: words[k] == words[1..][k - 1];
      if Fold(numwords, words, acc).Err? {
        var k :| 0 <= k < |words[1..]| && words[1..][k] !in numwords
          && Fold(numwords, words[1..], next).error == IllegalWord(words[1..][k])
          && forall j | 0 <= j < k :: words[1..][j] in numwords;
        assert words[k + 1] !in numwords;
      }
    }
  }

  lemma TextValueFails(textnum: string, numwords: NumWords)
    ensures TextValue(textnum, numwords).Err? <==> exists k | 0 <= k < |Words(textnum)| :: Words(textnum)[k] !in numwords
  {
    FoldFails(numwords, Words(textnum), Accumulator(0, 0));
    assert TextValue(textnum, numwords).Err? <==> Fold(numwords, Words(textnum), Accumulator(0, 0)).Err?;
  }

  /** The words of a concatenation are folded one part after the other. */
  lemma {:induction false} FoldAppend(numwords: NumWords, a: seq<string>, b: seq<string>, acc: Accumulator)
    ensures Fold(numwords, a + b, acc) ==
      match Fold(numwords, a, acc) case Ok(mid) => Fold(numwords, b, mid) case Err(e) => Err(e)
    decreases |a|
  {
    if |a| > 0 {
      assert (a + b)[0] == a[0] && (a + b)[1..] == a[1..] + b;
      if a[0] in numwords {
        var (scale, increment) := numwords[a[0]];
        FoldAppend(numwords, a[1..], b, Step(acc, scale, increment));
      }
    } else {
      assert a + b == b;
    }
  }

  /** A word worth `(1, 0)`, such as "and", changes neither accumulator, so
      it may be dropped anywhere. */
  lemma NeutralWord(numwords: NumWords, a: seq<string>, w: string, b: seq<string>, acc: Accumulator)
    requires w in numwords && numwords[w] == (1, 0)
    ensures Fold(numwords, a + [w] + b, acc) == Fold(numwords, a + b, acc)
  {
    FoldAppend(numwords, a + [w], b, acc);
    FoldAppend(numwords, a, [w], acc);
    FoldAppend(numwords, a, b, acc);
  }

  /** The default table holds, for every word, what its three lists give. */
  lemma DefaultTable(w: string)
    ensures Get(DefaultNumWords(), w) == TableValue(Units, Tens, Scales, w)
  {
    WrittenTables(Units, Tens, Scales, w);
  }

  /** The scales are 10^2, 10^3, 10^6, 10^9 and 10^12. */
  lemma ScaleValues()
    ensures ScaleOf(0) == 100 && ScaleOf(1) == 1000 && ScaleOf(2) == 1000000
    ensures ScaleOf(3) == 1000000000 && ScaleOf(4) == 1000000000000
  {
    assert Pow10(3) == 1000;
    assert Pow10(6) == 1000 * Pow10(3);
    assert Pow10(9) == 1000 * Pow10(6);
    assert Pow10(12) == 1000 * Pow10(9);
  }

  lemma AndUnlisted()
    ensures "and" !in Units && "and" !in Scales
  {
  }

  /** "and" is worth `(1, 0)` in the default table. */
  lemma DefaultAnd()
    ensures "and" in DefaultNumWords() && DefaultNumWords()["and"] == (1, 0)
  {
    DefaultTable("and");
    AndUnlisted();
    assert "and" !in Tens;
  }

  /** Words of lower-case letters hold no whitespace. */
  lemma LettersNoSpace(ws: seq<string>)
    requires forall k, i | 0 <= k < |ws| && 0 <= i < |ws[k]| :: 'a' <= ws[k][i] <= 'z'
    ensures forall k | 0 <= k < |ws| :: NoSpace(ws[k])
  {
  }

  /** A unit word's default entry is its position in the units. */
  lemma UnitEntry(w: string, i: nat)
    requires w !in Scales && w !in Tens && w in Units && LastIndex(Units, w) == i
    ensures w in DefaultNumWords() && DefaultNumWords()[w] == (1, i)
  {
    DefaultTable(w);
  }

  lemma OneEntry()
    ensures "one" in DefaultNumWords() && DefaultNumWords()["one"] == (1, 1)
  {
    assert Units[1] == "one";
    UnitEntry("one", 1);
  }

  lemma TwoEntry()
    ensures "two" in DefaultNumWords() && DefaultNumWords()["two"] == (1, 2)
  {
    assert Units[2] == "two";
    UnitEntry("two", 2);
  }

  lemma ThreeEntry()
    ensures "three" in DefaultNumWords() && DefaultNumWords()["three"] == (1, 3)
  {
    assert Units[3] == "three";
    UnitEntry("three", 3);
  }

  lemma FiveEntry()
    ensures "five" in DefaultNumWords() && DefaultNumWords()["five"] == (1, 5)
  {
    assert Units[5] == "five";
    UnitEntry("five", 5);
  }

  lemma TwentyEntry()
    ensures "twenty" in DefaultNumWords() && DefaultNumWords()["twenty"] == (1, 20)
  {
    assert Tens[2] == "twenty";
    DefaultTable("twenty");
  }

  lemma HundredEntry()
    ensures "hundred" in DefaultNumWords() && DefaultNumWords()["hundred"] == (100, 0)
  {
    assert Scales[0] == "hundred";
    DefaultTable("hundred");
    ScaleValues();
  }

  lemma ThousandEntry()
    ensures "thousand" in DefaultNumWords() && DefaultNumWords()["thousand"] == (1000, 0)
  {
    assert Scales[1] == "thousand";
    DefaultTable("thousand");
    ScaleValues();
  }

  /** The words of a text written with single spaces. */
  lemma SpacedWords(ws: seq<string>, text: string)
    requires forall k, i | 0 <= k < |ws| && 0 <= i < |ws[k]| :: 'a' <= ws[k][i] <= 'z'
    requires forall k | 0 <= k < |ws| :: |ws[k]| > 0
    requires Join(ws, " ") == text
    ensures Words(text) == ws
  {
    LettersNoSpace(ws);
    WordsOfJoin(ws);
  }

  /** A hundreds group stays open: "one hundred twenty three" leaves 123 in
      `current`, with any table holding the usual entries for its words. */
  lemma HundredsFold(t: NumWords)
    requires "one" in t && t["one"] == (1, 1) && "three" in t && t["three"] == (1, 3)
    requires "twenty" in t && t["twenty"] == (1, 20) && "hundred" in t && t["hundred"] == (100, 0)
    ensures Fold(t, ["one", "hundred", "twenty", "three"], Accumulator(0, 0)) == Ok(Accumulator(123, 0))
  {
    var ws := ["one", "hundred", "twenty", "three"];
    assert ws[1..] == ["hundred", "twenty", "three"] && ws[2..] == ["twenty", "three"] && ws[3..] == ["three"];
    assert Fold(t, ["three"], Accumulator(120, 0)) == Ok(Accumulator(123, 0));
    assert Fold(t, ["twenty", "three"], Accumulator(100, 0)) == Ok(Accumulator(123, 0));
    assert Fold(t, ["hundred", "twenty", "three"], Accumulator(1, 0)) == Ok(Accumulator(123, 0));
  }

  /** A scale above 100 closes its group: "two thousand and five" ends with
      2000 in `result` and 5 in `current`. */
  lemma ThousandsFold(t: NumWords)
    requires "two" in t && t["two"] == (1, 2) && "five" in t && t["five"] == (1, 5)
    requires "thousand" in t && t["thousand"] == (1000, 0) && "and" in t && t["and"] == (1, 0)
    ensures Fold(t, ["two", "thousand", "and", "five"], Accumulator(0, 0)) == Ok(Accumulator(5, 2000))
  {
    var ws := ["two", "thousand", "and", "five"];
    assert ws[1..] == ["thousand", "and", "five"] && ws[2..] == ["and", "five"] && ws[3..] == ["five"];
    assert Fold(t, ["five"], Accumulator(0, 2000)) == Ok(Accumulator(5, 2000));
    assert Fold(t, ["and", "five"], Accumulator(0, 2000)) == Ok(Accumulator(5, 2000));
    assert Fold(t, ["thousand", "and", "five"], Accumulator(2, 0)) == Ok(Accumulator(5, 2000));
  }

  lemma JoinFour(a: string, b: string, c: string, d: string, sep: string)
    ensures Join([a, b, c, d], sep) == a + sep + b + sep + c + sep + d
  {
    var ws := [a, b, c, d];
    assert ws[1..] == [b, c, d] && ws[2..] == [c, d] && ws[3..] == [d];
    assert Join([c, d], sep) == c + sep + d;
    assert Join([b, c, d], sep) == b + sep + (c + sep + d);
    assert b + sep + (c + sep + d) == b + sep + c + sep + d;
    assert a + sep + (b + sep + c + sep + d) == a + sep + b + sep + c + sep + d;
  }

  lemma HundredsJoin()
    ensures Join(["one", "hundred", "twenty", "three"], " ") == "one hundred twenty three"
  {
    JoinFour("one", "hundred", "twenty", "three", " ");
    assert "one" + " " + "hundred" + " " + "twenty" + " " + "three" == "one hundred twenty three";
  }

  lemma HundredsWords()
    ensures Words("one hundred twenty three") == ["one", "hundred", "twenty", "three"]
  {
    HundredsJoin();
    SpacedWords(["one", "hundred", "twenty", "three"], "one hundred twenty three");
  }

  lemma ThousandsJoin()
    ensures Join(["two", "thousand", "and", "five"], " ") == "two thousand and five"
  {
    JoinFour("two", "thousand", "and", "five", " ");
    assert "two" + " " + "thousand" + " " + "and" + " " + "five" == "two thousand and five";
  }

  lemma ThousandsWords()
    ensures Words("two thousand and five") == ["two", "thousand", "and", "five"]
  {
    ThousandsJoin();
    SpacedWords(["two", "thousand", "and", "five"], "two thousand and five");
  }

  /** With the default table, "one hundred twenty three" is 123. */
  lemma HundredsExample()
    ensures TextValue("one hundred twenty three", DefaultNumWords()) == Ok(123)
  {
    HundredsWords();
    OneEntry();
    ThreeEntry();
    TwentyEntry();
    HundredEntry();
    HundredsFold(DefaultNumWords());
  }

  /** With the default table, "two thousand and five" is 2005. */
  lemma ThousandsExample()
    ensures TextValue("two thousand and five", DefaultNumWords()) == Ok(2005)
  {
    ThousandsWords();
    TwoEntry();
    FiveEntry();
    ThousandEntry();
    DefaultAnd();
    ThousandsFold(DefaultNumWords());
  }

  // ---------------------------------------------------------------------
  // Matching a deck to a format version
  // ---------------------------------------------------------------------

  /** A format version of a set, with the ids of its boosted cards. */
  datatype DraftFormat = DraftFormat(setNumber: int, version: string, boosting: set<string>)

  /** The ids of the catalog's cards whose name ends in " Sigil". */
  function SigilIds(catalog: map<string, Card.CardInfo>): (ids: set<string>)
    ensures forall id :: id in ids <==> id in catalog && EndsWithSigil(catalog[id].data.name)
  {
    set id | id in catalog && EndsWithSigil(catalog[id].data.name)
  }

  predicate EndsWithSigil(name: string) {
    |name| >= 6 && name[|name| - 6..] == " Sigil"
  }

  /** A deck card counts for a format when it is from the format's set, a
      Sigil, or boosted in it. */
  predicate Matches(f: DraftFormat, cid: string, sigilIds: set<string>) {
    IntToString(f.setNumber) + "-" <= cid || cid in sigilIds || cid in f.boosting
  }

  /** The number of deck cards that match the format. */
  function Score(f: DraftFormat, cardIds: seq<string>, sigilIds: set<string>): (n: nat)
    ensures n <= |cardIds|
    ensures n == |cardIds| <==> forall i | 0 <= i < |cardIds| :: Matches(f, cardIds[i], sigilIds)
    ensures n == 0 <==> forall i | 0 <= i < |cardIds| :: !Matches(f, cardIds[i], sigilIds)
  {
    if |cardIds| == 0 then 0
    else
      var rest := Score(f, cardIds[1..], sigilIds);
      assert forall i | 1 <= i < |cardIds| :: cardIds[i] == cardIds[1..][i - 1];
      (if Matches(f, cardIds[0], sigilIds) then 1 else 0) + rest
  }

  /** The fewest matching cards that identify a format. */
  const MinMatches := 45

  datatype MatchError = NoFormats | TooFewMatches(maxScore: nat)

  /** A single best version, or the versions tied for best (ordered by
      offer rates in the source, which this model does not compute). */
  datatype FormatMatch = Unique(version: string) | Tied(versions: seq<string>)

  function Scores(formats: seq<DraftFormat>, cardIds: seq<string>, sigilIds: set<string>): (s: seq<nat>)
    ensures |s| == |formats| && forall k | 0 <= k < |formats| :: s[k] == Score(formats[k], cardIds, sigilIds)
  {
    seq(|formats|, k requires 0 <= k < |formats| => Score(formats[k], cardIds, sigilIds))
  }

  /** `max(values)` of a non-empty list. */
  function MaxOf(s: seq<nat>): (m: nat)
    requires |s| > 0
    ensures (exists i | 0 <= i < |s| :: s[i] == m) && forall i | 0 <= i < |s| :: s[i] <= m
  {
    if |s| == 1 then s[0]
    else
      var rest := MaxOf(s[1..]);
      assert forall i | 1 <= i < |s| :: s[i] == s[1..][i - 1];
      if s[0] >= rest then s[0] else rest
  }

  /** The versions whose score is `best`, in format order. */
  function VersionsAt(formats: seq<DraftFormat>, scores: seq<nat>, best: nat): (vs: seq<string>)
    requires |scores| == |formats|
    ensures |vs| <= |formats|
    ensures forall v :: v in vs <==> exists k | 0 <= k < |formats| :: scores[k] == best && formats[k].version == v
    ensures (forall k | 0 <= k < |formats| :: scores[k] != best) ==> vs == []
  {
    if |formats| == 0 then []
    else
      var rest := VersionsAt(formats[1..], scores[1..], best);
      assert forall k | 1 <= k < |formats| :: formats[k] == formats[1..][k - 1] && scores[k] == scores[1..][k - 1];
      (if scores[0] == best then [formats[0].version] else []) + rest
  }

  /** The version of a deck given the formats in their table order. */
  function MatchVersion(formats: seq<DraftFormat>, cardIds: seq<string>, sigilIds: set<string>): (r: Result<FormatMatch, MatchError>)
    ensures r == Err(NoFormats) <==> |formats| == 0
    ensures |formats| > 0 ==> (r.Err? <==> MaxOf(Scores(formats, cardIds, sigilIds)) < MinMatches)
    ensures |formats| > 0 && r.Err? ==> r.error == TooFewMatches(MaxOf(Scores(formats, cardIds, sigilIds)))
    ensures r.Ok? && r.value.Tied? ==> |r.value.versions| != 1 && forall v :: v in r.value.versions <==>
      exists k | 0 <= k < |formats| ::
        formats[k].version == v && Score(formats[k], cardIds, sigilIds) == MaxOf(Scores(formats, cardIds, sigilIds))
  {
    if |formats| == 0 then Err(NoFormats)
    else
      var scores := Scores(formats, cardIds, sigilIds);
      var best := MaxOf(scores);
      if best < MinMatches then Err(TooFewMatches(best))
      else
        var versions := VersionsAt(formats, scores, best);
        if |versions| == 1 then Ok(Unique(versions[0])) else Ok(Tied(versions))
  }

  /** Versions are the table's keys, so they are distinct. */
  predicate DistinctVersions(formats: seq<DraftFormat>) {
    forall j, k | 0 <= j < k < |formats| :: formats[j].version != formats[k].version
  }

  lemma {:induction false} VersionsAtSingle(formats: seq<DraftFormat>, scores: seq<nat>, best: nat, k: nat)
    requires |scores| == |formats| && DistinctVersions(formats)
    requires k < |formats| && scores[k] == best
    requires forall j | 0 <= j < |formats| && j != k :: scores[j] != best
    ensures VersionsAt(formats, scores, best) == [formats[k].version]
    decreases |formats|
  {
    var rest := VersionsAt(formats[1..], scores[1..], best);
    if k == 0 {
      assert forall j | 0 <= j < |formats[1..]| :: scores[1..][j] == scores[j + 1] != best;
    } else {
      VersionsAtSingle(formats[1..], scores[1..], best, k - 1);
    }
  }

  /** A version that matches at least 45 cards and strictly more than every
      other version is the answer. */
  lemma UniqueBestWins(formats: seq<DraftFormat>, cardIds: seq<string>, sigilIds: set<string>, k: nat)
    requires DistinctVersions(formats) && k < |formats|
    requires Score(formats[k], cardIds, sigilIds) >= MinMatches
    requires forall j | 0 <= j < |formats| && j != k ::
      Score(formats[j], cardIds, sigilIds) < Score(formats[k], cardIds, sigilIds)
    ensures MatchVersion(formats, cardIds, sigilIds) == Ok(Unique(formats[k].version))
  {
    var scores := Scores(formats, cardIds, sigilIds);
    var best := MaxOf(scores);
    assert best == scores[k];
    VersionsAtSingle(formats, scores, best, k);
  }

  /** A unique answer is a version with the best score, at least 45, that no
      other version reaches. */
  lemma UniqueIsBest(formats: seq<DraftFormat>, cardIds: seq<string>, sigilIds: set<string>)
    requires DistinctVersions(formats)
    requires MatchVersion(formats, cardIds, sigilIds).Ok? && MatchVersion(formats, cardIds, sigilIds).value.Unique?
    ensures var v := MatchVersion(formats, cardIds, sigilIds).value.version;
      exists k | 0 <= k < |formats| :: formats[k].version == v
        && Score(formats[k], cardIds, sigilIds) >= MinMatches
        && forall j | 0 <= j < |formats| && j != k :: Score(formats[j], cardIds, sigilIds) < Score(formats[k], cardIds, sigilIds)
  {
    var scores := Scores(formats, cardIds, sigilIds);
    var best := MaxOf(scores);
    var versions := VersionsAt(formats, scores, best);
    assert |versions| == 1 && versions[0] in versions;
    var k :| 0 <= k < |formats| && scores[k] == best && formats[k].version == versions[0];
    VersionsAtOne(formats, scores, best, k);
  }

  /** With distinct versions, a single version at `best` means a single
      format scores `best`. */
  lemma VersionsAtOne(formats: seq<DraftFormat>, scores: seq<nat>, best: nat, k: nat)
    requires |scores| == |formats| && DistinctVersions(formats)
    requires k < |formats| && scores[k] == best && |VersionsAt(formats, scores, best)| == 1
    ensures forall j | 0 <= j < |formats| && j != k :: scores[j] != best
  {
    var vs := VersionsAt(formats, scores, best);
    assert formats[k].version in vs && vs == [vs[0]];
    forall j | 0 <= j < |formats| && j != k
      ensures scores[j] != best
    {
      if j < k {
        assert formats[j].version != formats[k].version;
      } else {
        assert formats[k].version != formats[j].version;
      }
      assert formats[j].version !in vs;
    }
  }

  /** The scoring loop: one score per format, in format order. */
  method ScoreFormats(formats: seq<DraftFormat>, cardIds: seq<string>, sigilIds: set<string>)
    returns (matchScore: seq<nat>)
    ensures matchScore == Scores(formats, cardIds, sigilIds)
  {
    matchScore := [];
    for k := 0 to |formats|
      invariant matchScore == Scores(formats[..k], cardIds, sigilIds)
    {
      assert formats[..k + 1][k] == formats[k];
      matchScore := matchScore + [Score(formats[k], cardIds, sigilIds)];
    }
    assert formats[..|formats|] == formats;
  }

  /** `match_deck_format_version` up to the tie-break: the scores, their
      maximum, the threshold, and the versions at the maximum. */
  method MatchDeckFormatVersion(formats: seq<DraftFormat>, cardIds: seq<string>, sigilIds: set<string>)
    returns (r: Result<FormatMatch, MatchError>)
    ensures r == MatchVersion(formats, cardIds, sigilIds)
  {
    var matchScore := ScoreFormats(formats, cardIds, sigilIds);
    if |matchScore| == 0 {
      return Err(NoFormats);
    }
    var maxScore := MaxOf(matchScore);
    if maxScore < MinMatches {
      return Err(TooFewMatches(maxScore));
    }
    var versions := VersionsAt(formats, matchScore, maxScore);
    if |versions| == 1 {
      return Ok(Unique(versions[0]));
    }
    return Ok(Tied(versions));
  }
}
